/** What operations and sweeps mean for the sockets, without pointers: to which context each socket belongs,
    whether it is open, and its counter. */
module SocketEffects {
  import opened SocketLists
  import opened SocketOps
  import opened SocketSweep
  import opened SocketLoop
  import opened SocketRounds

  datatype Face = Face(context: nat, open: bool, timeout: nat)

  ghost function FaceOf(s: Socket): (f: Face) {
    Face(s.context, !IsClosed(s), s.timeout)
  }

  ghost function Faces(m: Mem): (faces: map<nat, Face>) {
    map x | x in m.sockets :: FaceOf(m.sockets[x])
  }

  /** The effect of an operation.  Closing only closes; adopting an open socket moves it to an open one of the
      other context with its counter at zero. */
  ghost function Effect(faces: map<nat, Face>, contexts: set<nat>, op: Op): (faces': map<nat, Face>) {
    match op
    case CloseSocket(s) => if s in faces then faces[s := faces[s].(open := false)] else faces
    case CloseListener(s) => if s in faces then faces[s := faces[s].(open := false)] else faces
    case AdoptSocket(c, s, id) =>
      if s in faces && faces[s].open && c in contexts && (id == s || id !in faces)
      then (faces - {s})[id := Face(c, true, 0)] else faces
    case OpenSocket(c, id) => if c in contexts && id !in faces then faces[id := Face(c, true, 0)] else faces
    case SetTimeout(s, t) => if s in faces then faces[s := faces[s].(timeout := t)] else faces
  }

  ghost function Effects(faces: map<nat, Face>, contexts: set<nat>, ops: seq<Op>): (faces': map<nat, Face>)
    decreases |ops|
  {
    if ops == [] then faces else Effects(Effect(faces, contexts, ops[0]), contexts, ops[1..])
  }

  /** Memory in which every socket is in the list of its context or on the closed list. */
  ghost predicate Sound(m: Mem) {
    exists v :: Ok(m, v) && v.loose == {}
  }

  ghost function NoCalls(m: Mem): (calls: map<nat, nat>)
    ensures CallsOk(m.sockets, calls)
  {
    map x | x in m.sockets :: 0
  }

  // ----- one operation -----

  lemma {:induction false} UnlinkFaces(m: Mem, v: View, s: nat)
    requires Ok(m, v) && s in m.sockets && InList(m, v, s)
    ensures m.sockets[s].context in m.contexts && Faces(Unlinked(m, s)) == Faces(m)
  {
    UnlinkSame(m, v, s);
    BridgedFaces(m, s);
  }

  lemma {:induction false} BridgedFaces(m: Mem, s: nat)
    requires s in m.sockets && m.sockets[s].context in m.contexts && SameClosed(m.sockets, Unlinked(m, s).sockets)
    ensures Faces(Unlinked(m, s)) == Faces(m)
  {
    var m' := Unlinked(m, s);
    forall x | x in m.sockets
      ensures FaceOf(m'.sockets[x]) == FaceOf(m.sockets[x])
    {
      BridgedFields(m.sockets, m.sockets[s].prev, m.sockets[s].next, x);
    }
  }

  lemma {:induction false} BridgedFields(sockets: map<nat, Socket>, prev: Ptr, next: Ptr, x: nat)
    requires x in sockets
    ensures (var r := Bridged(sockets, prev, next);
             x in r && r[x].context == sockets[x].context && r[x].timeout == sockets[x].timeout)
  {
  }

  lemma {:induction false} CloseEffect(m: Mem, v: View, s: nat)
    requires Ok(m, v) && v.loose == {} && IsOpen(m, s)
    ensures Sound(Retired(m, s)) && Retired(m, s).contexts.Keys == m.contexts.Keys
    ensures Faces(Retired(m, s)) == Faces(m)[s := Faces(m)[s].(open := false)]
  {
    var calls, m', v' := NoCalls(m), Retired(m, s), ClosedView(v, m.sockets[s].context, s);
    RetireKeeps(m, v, calls, s, m', v', calls);
    RetireReady(m, v, calls, s);
    UnlinkFaces(m, v, s);
    UnlinkSame(m, v, s);
    MarkFaces(Unlinked(m, s), s);
  }

  lemma {:induction false} MarkFaces(m: Mem, s: nat)
    requires s in m.sockets
    ensures Faces(MarkedClosed(m, s)) == Faces(m)[s := Faces(m)[s].(open := false)]
  {
  }

  /** The head of a list is an open socket and not the one to be linked. */
  lemma {:induction false} HeadApart(m: Mem, v: View, c: nat, s: nat)
    requires Ok(m, v) && s in v.loose && c in m.contexts
    ensures (var head := m.contexts[c].head;
             head.Null? || (head.SocketAt? && head.s != s && head.s in m.sockets && !IsClosed(m.sockets[head.s])))
  {
    HeadOpen(m, v, c);
    assert ContextOk(m, v, c);
    if v.lists[c] != [] {
      Apart(m, v, c, v.lists[c][0]);
    }
  }

  lemma {:induction false} LinkedFace(m: Mem, c: nat, s: nat, x: nat)
    requires s in m.sockets && c in m.contexts && x in m.sockets
    requires (var head := m.contexts[c].head;
              head.Null? || (head.SocketAt? && head.s != s && head.s in m.sockets && !IsClosed(m.sockets[head.s])))
    ensures x in LinkedIn(m, c, s).sockets
    ensures FaceOf(LinkedIn(m, c, s).sockets[x]) == if x == s then Face(c, true, 0) else FaceOf(m.sockets[x])
  {
  }

  lemma {:induction false} LinkFaces(m: Mem, c: nat, s: nat)
    requires c in m.contexts && s in m.sockets
    requires (var head := m.contexts[c].head;
              head.Null? || (head.SocketAt? && head.s != s && head.s in m.sockets && !IsClosed(m.sockets[head.s])))
    ensures Faces(LinkedIn(m, c, s)) == Faces(m)[s := Face(c, true, 0)]
  {
    LinkKeys(m, c, s);
    forall x | x in m.sockets
      ensures FaceOf(LinkedIn(m, c, s).sockets[x]) == if x == s then Face(c, true, 0) else FaceOf(m.sockets[x])
    {
      LinkedFace(m, c, s, x);
    }
  }

  lemma {:induction false} AdoptSound(m: Mem, v: View, c: nat, s: nat, id: nat)
    requires Ok(m, v) && v.loose == {} && CanAdopt(m, c, s, id)
    ensures Sound(Adopted(m, c, s, id)) && Adopted(m, c, s, id).contexts.Keys == m.contexts.Keys
  {
    var calls := NoCalls(m);
    AdoptKeeps(m, v, calls, c, s, id, Adopted(m, c, s, id), AdoptedView(v, m.sockets[s].context, s, c, id),
               (calls - {s})[id := 0]);
  }

  lemma {:induction false} MovedFaces(m: Mem, v: View, c: nat, s: nat, id: nat)
    requires Ok(m, v) && s in v.loose && (id == s || id !in m.sockets) && c in m.contexts
    ensures s in m.sockets && Faces(LinkedIn(Moved(m, s, id), c, id)) == (Faces(m) - {s})[id := Face(c, true, 0)]
  {
    MoveKeeps(m, v, s, id);
    HeadApart(Moved(m, s, id), v.(loose := v.loose - {s} + {id}), c, id);
    LinkFaces(Moved(m, s, id), c, id);
    MoveFaces(m, s, id, Face(c, true, 0));
  }

  lemma {:induction false} MoveFaces(m: Mem, s: nat, id: nat, f: Face)
    requires s in m.sockets && (id == s || id !in m.sockets)
    ensures Faces(Moved(m, s, id))[id := f] == (Faces(m) - {s})[id := f]
  {
  }

  lemma {:induction false} AdoptEffect(m: Mem, v: View, c: nat, s: nat, id: nat)
    requires Ok(m, v) && v.loose == {} && CanAdopt(m, c, s, id)
    ensures Faces(Adopted(m, c, s, id)) == (Faces(m) - {s})[id := Face(c, true, 0)]
  {
    RetireReady(m, v, NoCalls(m), s);
    UnlinkFaces(m, v, s);
    UnlinkSame(m, v, s);
    UnlinkKeeps(m, v, s);
    MovedFaces(Unlinked(m, s), UnlinkedView(v, m.sockets[s].context, s), c, s, id);
  }

  lemma {:induction false} OpenSound(m: Mem, v: View, c: nat, id: nat)
    requires Ok(m, v) && v.loose == {} && c in m.contexts && id !in m.sockets
    ensures (var m' := LinkedIn(Created(m, c, id), c, id); Sound(m') && m'.contexts.Keys == m.contexts.Keys)
  {
    var calls := NoCalls(m);
    assert ContextsOk(m, v);
    OpenKeeps(m, v, calls, c, id, LinkedIn(Created(m, c, id), c, id), OpenedView(v, c, id), calls[id := 0]);
  }

  lemma {:induction false} OpenEffect(m: Mem, v: View, c: nat, id: nat)
    requires Ok(m, v) && v.loose == {} && c in m.contexts && id !in m.sockets
    ensures Faces(LinkedIn(Created(m, c, id), c, id)) == Faces(m)[id := Face(c, true, 0)]
  {
    var m1 := Created(m, c, id);
    CreateKeeps(m, v, c, id);
    HeadApart(m1, v.(loose := {id}), c, id);
    LinkFaces(m1, c, id);
    CreateFaces(m, c, id, Face(c, true, 0));
  }

  lemma {:induction false} CreateFaces(m: Mem, c: nat, id: nat, f: Face)
    requires id !in m.sockets
    ensures Faces(Created(m, c, id))[id := f] == Faces(m)[id := f]
  {
  }

  lemma {:induction false} TimeoutEffect(m: Mem, v: View, s: nat, t: nat)
    requires Ok(m, v) && v.loose == {} && s in m.sockets
    ensures Sound(WithTimeout(m, s, t)) && Faces(WithTimeout(m, s, t)) == Faces(m)[s := Faces(m)[s].(timeout := t)]
  {
    TimeoutKeeps(m, v, NoCalls(m), s, t, WithTimeout(m, s, t));
    TimeoutFaces(m, s, t);
  }

  lemma {:induction false} TimeoutFaces(m: Mem, s: nat, t: nat)
    requires s in m.sockets
    ensures Faces(WithTimeout(m, s, t)) == Faces(m)[s := Faces(m)[s].(timeout := t)]
  {
  }

  lemma {:induction false} ClosingEffect(m: Mem, v: View, s: nat, op: Op)
    requires Ok(m, v) && v.loose == {} && (op == CloseSocket(s) || op == CloseListener(s))
    ensures Sound(Applied(m, op)) && Applied(m, op).contexts.Keys == m.contexts.Keys
    ensures Faces(Applied(m, op)) == Effect(Faces(m), m.contexts.Keys, op)
  {
    if IsOpen(m, s) {
      CloseEffect(m, v, s);
    } else {
      ClosedStays(m, s);
    }
  }

  lemma {:induction false} AdoptingEffect(m: Mem, c: nat, s: nat, id: nat, op: Op)
    requires op == AdoptSocket(c, s, id)
    requires CanAdopt(m, c, s, id) ==> Faces(Adopted(m, c, s, id)) == (Faces(m) - {s})[id := Face(c, true, 0)]
    ensures Faces(Applied(m, op)) == Effect(Faces(m), m.contexts.Keys, op)
  {
  }

  lemma {:induction false} AdoptHasEffect(m: Mem, v: View, op: Op)
    requires Ok(m, v) && v.loose == {} && op.AdoptSocket?
    ensures Faces(Applied(m, op)) == Effect(Faces(m), m.contexts.Keys, op)
  {
    if CanAdopt(m, op.c, op.s, op.id) {
      AdoptEffect(m, v, op.c, op.s, op.id);
    }
    AdoptingEffect(m, op.c, op.s, op.id, op);
  }

  lemma {:induction false} OpeningEffect(m: Mem, c: nat, id: nat, op: Op)
    requires op == OpenSocket(c, id)
    requires c in m.contexts && id !in m.sockets ==>
               Faces(LinkedIn(Created(m, c, id), c, id)) == Faces(m)[id := Face(c, true, 0)]
    ensures Faces(Applied(m, op)) == Effect(Faces(m), m.contexts.Keys, op)
  {
  }

  lemma {:induction false} OpenHasEffect(m: Mem, v: View, op: Op)
    requires Ok(m, v) && v.loose == {} && op.OpenSocket?
    ensures Faces(Applied(m, op)) == Effect(Faces(m), m.contexts.Keys, op)
  {
    if op.c in m.contexts && op.id !in m.sockets {
      OpenEffect(m, v, op.c, op.id);
    }
    OpeningEffect(m, op.c, op.id, op);
  }

  /** Every operation keeps memory sound. */
  lemma {:induction false} OpSound(m: Mem, op: Op)
    requires Sound(m)
    ensures Sound(Applied(m, op)) && Applied(m, op).contexts.Keys == m.contexts.Keys
  {
    var v :| Ok(m, v) && v.loose == {};
    if op.CloseSocket? || op.CloseListener? {
      ClosingEffect(m, v, op.s, op);
    } else if op.AdoptSocket? && CanAdopt(m, op.c, op.s, op.id) {
      AdoptSound(m, v, op.c, op.s, op.id);
    } else if op.OpenSocket? && op.c in m.contexts && op.id !in m.sockets {
      OpenSound(m, v, op.c, op.id);
    } else if op.SetTimeout? && op.s in m.sockets {
      TimeoutEffect(m, v, op.s, op.timeout);
    }
  }

  /** Every operation has its effect. */
  lemma {:induction false} OpEffect(m: Mem, op: Op)
    requires Sound(m)
    ensures Faces(Applied(m, op)) == Effect(Faces(m), m.contexts.Keys, op)
  {
    var v :| Ok(m, v) && v.loose == {};
    match op
    case CloseSocket(s) => ClosingEffect(m, v, s, op);
    case CloseListener(s) => ClosingEffect(m, v, s, op);
    case AdoptSocket(_, _, _) => AdoptHasEffect(m, v, op);
    case OpenSocket(_, _) => OpenHasEffect(m, v, op);
    case SetTimeout(s, t) =>
      if s in m.sockets {
        TimeoutEffect(m, v, s, t);
      }
  }

  lemma {:induction false} ClosedStays(m: Mem, s: nat)
    requires !IsOpen(m, s)
    ensures s in m.sockets ==> Faces(m) == Faces(m)[s := Faces(m)[s].(open := false)]
  {
  }

  lemma {:induction false} OpsEffect(m: Mem, ops: seq<Op>)
    requires Sound(m)
    ensures Sound(AppliedAll(m, ops)) && AppliedAll(m, ops).contexts.Keys == m.contexts.Keys
    ensures Faces(AppliedAll(m, ops)) == Effects(Faces(m), m.contexts.Keys, ops)
    decreases |ops|
  {
    if ops != [] {
      OpSound(m, ops[0]);
      OpEffect(m, ops[0]);
      OpsEffect(Applied(m, ops[0]), ops[1..]);
    }
  }

  // ----- one turn, one pass -----

  /** A turn at socket `s`: a counter that is not zero is lowered by one; if that makes it zero, the callback's
      operations have their effect. */
  ghost function TurnEffect(faces: map<nat, Face>, contexts: set<nat>, s: nat, ops: seq<Op>): (faces': map<nat, Face>)
    requires s in faces
  {
    var t := faces[s].timeout;
    if t == 0 then faces
    else if t == 1 then Effects(faces[s := faces[s].(timeout := 0)], contexts, ops)
    else faces[s := faces[s].(timeout := t - 1)]
  }

  lemma {:induction false} CursorSound(m: Mem, v: View, c: nat, r: seq<nat>)
    requires Ok(m, v) && v.loose == {} && c in m.contexts && c in v.lists && c in v.rest && IsSuffix(r, v.lists[c])
    ensures Sound(Advanced(m, c, First(r)))
  {
    CursorKeeps(m, v, NoCalls(m), c, r, Advanced(m, c, First(r)), v.(rest := v.rest[c := r]));
  }

  lemma {:induction false} CursorFaces(m: Mem, c: nat, p: Ptr)
    requires c in m.contexts
    ensures Advanced(m, c, p).contexts.Keys == m.contexts.Keys && Faces(Advanced(m, c, p)) == Faces(m)
  {
    assert Advanced(m, c, p).contexts.Keys == m.contexts.Keys;
  }

  lemma {:induction false} PastSound(m: Mem, c: nat, s: nat)
    requires Sound(m) && c in m.contexts
    ensures Sound(Past(m, c, s))
  {
    if m.contexts[c].cursor == SocketAt(s) && s in m.sockets {
      var v :| Ok(m, v) && v.loose == {};
      RestHead(m, v, c, s);
      CursorSound(m, v, c, v.rest[c][1..]);
    }
  }

  /** Where the sweep stands, the rest of its list begins. */
  lemma {:induction false} RestHead(m: Mem, v: View, c: nat, s: nat)
    requires Ok(m, v) && c in m.contexts && m.contexts[c].cursor == SocketAt(s) && s in m.sockets
    ensures c in v.rest && c in v.lists && v.rest[c] != [] && v.rest[c][0] == s
    ensures m.sockets[s].next == First(v.rest[c][1..]) && IsSuffix(v.rest[c][1..], v.lists[c])
  {
    AtCursor(m, v, c);
  }

  lemma {:induction false} PastFaces(m: Mem, c: nat, s: nat)
    requires c in m.contexts
    ensures Past(m, c, s).contexts.Keys == m.contexts.Keys && Faces(Past(m, c, s)) == Faces(m)
  {
    if m.contexts[c].cursor == SocketAt(s) && s in m.sockets {
      CursorFaces(m, c, m.sockets[s].next);
    }
  }

  lemma {:induction false} CountSound(m: Mem, c: nat)
    requires Sound(m) && AtSocket(m, c)
    ensures Sound(CountedDown(m, c)) && CountedDown(m, c).contexts == m.contexts
    ensures (var s := SocketAtCursor(m, c);
             Faces(CountedDown(m, c)) == Faces(m)[s := Faces(m)[s].(timeout := LessOne(Faces(m)[s].timeout))])
  {
    var v :| Ok(m, v) && v.loose == {};
    var s := SocketAtCursor(m, c);
    TimeoutEffect(m, v, s, LessOne(m.sockets[s].timeout));
  }

  lemma {:induction false} TurnHasEffect(m: Mem, c: nat, ops: seq<Op>)
    requires Sound(m) && AtSocket(m, c)
    ensures Sound(Turn(m, c, ops)) && Turn(m, c, ops).contexts.Keys == m.contexts.Keys
    ensures Faces(Turn(m, c, ops)) == TurnEffect(Faces(m), m.contexts.Keys, SocketAtCursor(m, c), ops)
  {
    var s, m1 := SocketAtCursor(m, c), CountedDown(m, c);
    CountSound(m, c);
    OpsEffect(m1, ops);
    var m2 := if Expires(m, c) then AppliedAll(m1, ops) else m1;
    PastSound(m2, c, s);
    PastFaces(m2, c, s);
    NoChange(Faces(m), s);
  }

  lemma {:induction false} NoChange(faces: map<nat, Face>, s: nat)
    requires s in faces
    ensures faces[s].timeout == 0 ==> faces[s := faces[s].(timeout := 0)] == faces
  {
  }

  lemma {:induction false} HeadSound(m: Mem, c: nat)
    requires Sound(m) && c in m.contexts
    ensures Sound(Advanced(m, c, m.contexts[c].head))
  {
    var v :| Ok(m, v) && v.loose == {};
    assert ContextOk(m, v, c);
    var l := v.lists[c];
    assert l[0..] == l;
    CursorSound(m, v, c, l);
  }

  lemma {:induction false} TakeTake(l: seq<nat>, i: nat)
    requires i < |l|
    ensures l[..i + 1][..i] == l[..i] && |l[..i + 1]| == i + 1 && l[..i + 1][i] == l[i]
  {
  }

  lemma {:induction false} TurnSound(m: Mem, c: nat, ops: seq<Op>, m': Mem)
    requires Sound(m) && AtSocket(m, c) && m' == Turn(m, c, ops)
    ensures Sound(m') && m'.contexts.Keys == m.contexts.Keys
  {
    TurnHasEffect(m, c, ops);
  }

  lemma {:induction false} StatesSound(pass: Pass, m: Mem, c: nat, callbacks: seq<seq<Op>>, i: nat)
    requires Sound(m) && Traced(pass, m, c, callbacks) && i <= |pass.visited|
    ensures Sound(pass.states[i]) && pass.states[i].contexts.Keys == m.contexts.Keys
  {
    if i == 0 {
      HeadSound(m, c);
      CursorFaces(m, c, m.contexts[c].head);
    } else {
      StatesSound(pass, m, c, callbacks, i - 1);
      assert TurnAt(c, callbacks, pass.visited, pass.states, pass.before, i - 1);
      TurnSound(pass.states[i - 1], c, CallbackAt(callbacks, |Expired(pass.visited[..i - 1], pass.states)|),
                pass.states[i]);
    }
  }

  /** In turn `i` the effect is that of a turn at the socket visited; it fires if its counter is one. */
  ghost predicate TurnFaces(pass: Pass, contexts: set<nat>, callbacks: seq<seq<Op>>, i: nat)
    requires |pass.states| == |pass.visited| + 1 && i < |pass.visited|
  {
    var faces, s, fired := Faces(pass.states[i]), pass.visited[i], Expired(pass.visited[..i], pass.states);
    && s in faces
    && Faces(pass.states[i + 1]) == TurnEffect(faces, contexts, s, CallbackAt(callbacks, |fired|))
    && Expired(pass.visited[..i + 1], pass.states) == fired + if faces[s].timeout == 1 then [s] else []
  }

  lemma {:induction false} TurnBecomes(m: Mem, c: nat, s: nat, ops: seq<Op>, m': Mem)
    requires Sound(m) && AtSocket(m, c) && s == SocketAtCursor(m, c) && m' == Turn(m, c, ops)
    ensures Faces(m') == TurnEffect(Faces(m), m.contexts.Keys, s, ops)
  {
    TurnHasEffect(m, c, ops);
  }

  lemma {:induction false} TurnFires(pass: Pass, callbacks: seq<seq<Op>>, contexts: set<nat>, i: nat)
    requires |pass.states| == |pass.visited| + 1 && i < |pass.visited| && pass.visited[i] in pass.states[i].sockets
    requires (var ops := CallbackAt(callbacks, |Expired(pass.visited[..i], pass.states)|);
              Faces(pass.states[i + 1]) == TurnEffect(Faces(pass.states[i]), contexts, pass.visited[i], ops))
    ensures TurnFaces(pass, contexts, callbacks, i)
  {
    TakeTake(pass.visited, i);
  }

  /** A pass, whatever its callbacks do: the visited sockets have their turns one after the other, the k-th that
      fires performs the k-th callback, and a socket fires if its counter is one when its turn comes. */
  lemma {:induction false} PassHasEffect(pass: Pass, m: Mem, c: nat, callbacks: seq<seq<Op>>)
    requires Sound(m) && Traced(pass, m, c, callbacks)
    ensures Faces(pass.states[0]) == Faces(m)
    ensures forall i :: 0 <= i < |pass.visited| ==> TurnFaces(pass, m.contexts.Keys, callbacks, i)
  {
    CursorFaces(m, c, m.contexts[c].head);
    forall i | 0 <= i < |pass.visited|
      ensures TurnFaces(pass, m.contexts.Keys, callbacks, i)
    {
      StatesSound(pass, m, c, callbacks, i);
      assert TurnAt(c, callbacks, pass.visited, pass.states, pass.before, i);
      var ops := CallbackAt(callbacks, |Expired(pass.visited[..i], pass.states)|);
      TurnBecomes(pass.states[i], c, pass.visited[i], ops, pass.states[i + 1]);
      TurnFires(pass, callbacks, m.contexts.Keys, i);
    }
  }

  // ----- timeouts over several sweeps -----

  function Passes(order: seq<nat>, d: nat): (n: nat) {
    if order == [] then 0 else Passes(order[..|order| - 1], d) + if order[|order| - 1] == d then 1 else 0
  }

  ghost predicate AllQuiet(callbacks: seq<seq<seq<Op>>>) {
    forall i :: 0 <= i < |callbacks| ==> Quiet(callbacks[i])
  }

  /** What passes whose callbacks do nothing leave of a counter. */
  lemma {:induction false} CounterLeft(mems: seq<Mem>, passes: seq<Pass>, fired: seq<seq<nat>>, order: seq<nat>,
                                       callbacks: seq<seq<seq<Op>>>, x: nat, d: nat, j: nat)
    requires Rounds(mems, passes, fired, order, callbacks) && AllQuiet(callbacks) && j <= |passes|
    requires Member(mems[0], d, x)
    ensures Member(mems[j], d, x)
    ensures (var t, n := mems[0].sockets[x].timeout, Passes(order[..j], d);
             mems[j].sockets[x].timeout == if n < t then t - n else 0)
  {
    if j > 0 {
      CounterLeft(mems, passes, fired, order, callbacks, x, d, j - 1);
      assert RoundAt(mems, passes, fired, order, callbacks, j - 1);
      TakeTake(order, j - 1);
      var m, l := mems[j - 1], passes[j - 1].start;
      QuietPass(passes[j - 1], m, order[j - 1], CallbacksOf(callbacks, j - 1), l);
      assert LoweredOne(m.sockets[x], x in l, mems[j].sockets[x]);
      assert x in l <==> order[j - 1] == d;
    }
  }

  /** While callbacks do nothing, a socket whose counter is `t` fires in the t-th pass over its context and in no
      other; with a counter of zero it never does. */
  lemma {:induction false} FiresInTime(mems: seq<Mem>, passes: seq<Pass>, fired: seq<seq<nat>>, order: seq<nat>,
                                       callbacks: seq<seq<seq<Op>>>, x: nat, d: nat, j: nat)
    requires Rounds(mems, passes, fired, order, callbacks) && AllQuiet(callbacks) && j < |passes|
    requires Member(mems[0], d, x)
    ensures x in fired[j] <==>
            order[j] == d && mems[0].sockets[x].timeout > 0 && Passes(order[..j + 1], d) == mems[0].sockets[x].timeout
  {
    CounterLeft(mems, passes, fired, order, callbacks, x, d, j);
    assert RoundAt(mems, passes, fired, order, callbacks, j);
    TakeTake(order, j);
    QuietPass(passes[j], mems[j], order[j], CallbacksOf(callbacks, j), passes[j].start);
    assert x in passes[j].start <==> order[j] == d;
  }
}
