/** What the loop's operations do to memory, and one turn of the timeout sweep. */
module SocketOps {
  import opened SocketLists

  /** What a callback may do; anything that names no live socket or context, or a taken address, is skipped. */
  datatype Op =
    | CloseSocket(s: nat)
    | CloseListener(s: nat)
    | AdoptSocket(c: nat, s: nat, id: nat)
    | OpenSocket(c: nat, id: nat)
    | SetTimeout(s: nat, timeout: nat)

  /** A socket unlinked and put on the closed list. */
  function Retired(m: Mem, s: nat): (m': Mem)
    requires s in m.sockets
  {
    if m.sockets[s].context !in m.contexts then m
    else
      var m1 := Unlinked(m, s);
      if s in m1.sockets then MarkedClosed(m1, s) else m1
  }

  /** A socket unlinked, maybe at another address, and linked into another context. */
  function Adopted(m: Mem, c: nat, s: nat, id: nat): (m': Mem)
    requires s in m.sockets && c in m.contexts
  {
    if m.sockets[s].context !in m.contexts then m
    else
      var m1 := Unlinked(m, s);
      if s in m1.sockets then LinkedIn(Moved(m1, s, id), c, id) else m1
  }

  function Created(m: Mem, c: nat, id: nat): (m': Mem) {
    m.(sockets := m.sockets[id := Socket(c, Null, Null, 0)])
  }

  function WithTimeout(m: Mem, s: nat, t: nat): (m': Mem)
    requires s in m.sockets
  {
    m.(sockets := m.sockets[s := m.sockets[s].(timeout := t)])
  }

  /** The sweep of a context set to stand at `p`. */
  function Advanced(m: Mem, c: nat, p: Ptr): (m': Mem)
    requires c in m.contexts
  {
    m.(contexts := m.contexts[c := m.contexts[c].(cursor := p)])
  }

  predicate IsOpen(m: Mem, s: nat) {
    s in m.sockets && !IsClosed(m.sockets[s])
  }

  predicate CanAdopt(m: Mem, c: nat, s: nat, id: nat) {
    IsOpen(m, s) && c in m.contexts && (id == s || id !in m.sockets)
  }

  function Applied(m: Mem, op: Op): (m': Mem) {
    match op
    case CloseSocket(s) => if IsOpen(m, s) then Retired(m, s) else m
    case CloseListener(s) => if IsOpen(m, s) then Retired(m, s) else m
    case AdoptSocket(c, s, id) => if CanAdopt(m, c, s, id) then Adopted(m, c, s, id) else m
    case OpenSocket(c, id) => if c in m.contexts && id !in m.sockets then LinkedIn(Created(m, c, id), c, id) else m
    case SetTimeout(s, timeout) => if s in m.sockets then WithTimeout(m, s, timeout) else m
  }

  function AppliedAll(m: Mem, ops: seq<Op>): (m': Mem)
    decreases |ops|
  {
    if ops == [] then m else AppliedAll(Applied(m, ops[0]), ops[1..])
  }

  /** The socket an operation takes out of the list of context `c`. */
  function Unlinks(m: Mem, op: Op, c: nat): (gone: set<nat>) {
    match op
    case CloseSocket(s) => if IsOpen(m, s) && m.sockets[s].context == c then {s} else {}
    case CloseListener(s) => if IsOpen(m, s) && m.sockets[s].context == c then {s} else {}
    case AdoptSocket(d, s, id) => if CanAdopt(m, d, s, id) && m.sockets[s].context == c then {s} else {}
    case _ => {}
  }

  function UnlinksAll(m: Mem, ops: seq<Op>, c: nat): (gone: set<nat>)
    decreases |ops|
  {
    if ops == [] then {} else Unlinks(m, ops[0], c) + UnlinksAll(Applied(m, ops[0]), ops[1..], c)
  }

  // ----- one turn of a sweep -----

  /** The sweep of `c` stands at a socket. */
  predicate AtSocket(m: Mem, c: nat) {
    c in m.contexts && m.contexts[c].cursor.SocketAt? && m.contexts[c].cursor.s in m.sockets
  }

  function SocketAtCursor(m: Mem, c: nat): (s: nat)
    requires AtSocket(m, c)
    ensures s in m.sockets
  {
    m.contexts[c].cursor.s
  }

  function LessOne(t: nat): (t': nat) {
    if t == 0 then 0 else t - 1
  }

  /** The socket at the cursor counted down. */
  function CountedDown(m: Mem, c: nat): (m': Mem)
    requires AtSocket(m, c)
  {
    var s := SocketAtCursor(m, c);
    WithTimeout(m, s, LessOne(m.sockets[s].timeout))
  }

  predicate Expires(m: Mem, c: nat)
    requires AtSocket(m, c)
  {
    m.sockets[SocketAtCursor(m, c)].timeout == 1
  }

  /** The cursor moved past `s` if it still stands there. */
  function Past(m: Mem, c: nat, s: nat): (m': Mem) {
    if c in m.contexts && m.contexts[c].cursor == SocketAt(s) && s in m.sockets then Advanced(m, c, m.sockets[s].next)
    else m
  }

  /** Counts down; if that reached zero performs the operations of the callback; goes on unless a callback has
      moved the cursor already. */
  function Turn(m: Mem, c: nat, ops: seq<Op>): (m': Mem)
    requires AtSocket(m, c)
  {
    Past(if Expires(m, c) then AppliedAll(CountedDown(m, c), ops) else CountedDown(m, c), c, SocketAtCursor(m, c))
  }

  /** What a turn takes out of the list of `c`. */
  function TurnUnlinks(m: Mem, c: nat, ops: seq<Op>): (gone: set<nat>)
    requires AtSocket(m, c)
  {
    if Expires(m, c) then UnlinksAll(CountedDown(m, c), ops, c) else {}
  }
}
