/** The memory of an event loop as its C structs: sockets and contexts hold addresses of each other.  The
    sockets of a context form a doubly linked list, closed sockets a singly linked one. */
module SocketLists {

  /** A pointer; sockets and contexts have different addresses. */
  datatype Ptr = Null | SocketAt(s: nat) | ContextAt(c: nat)

  datatype Socket = Socket(context: nat, prev: Ptr, next: Ptr, timeout: nat)

  datatype Context = Context(head: Ptr, cursor: Ptr)

  datatype Mem = Mem(sockets: map<nat, Socket>, contexts: map<nat, Context>, closedHead: Ptr)

  /** What the memory stands for: per context its list and the part of it a sweep has still to visit, the
      list of closed sockets, and sockets in no list. */
  datatype View = View(lists: map<nat, seq<nat>>, rest: map<nat, seq<nat>>, closed: seq<nat>, loose: set<nat>)

  predicate IsClosed(s: Socket) {
    s.prev == ContextAt(s.context)
  }

  function First(l: seq<nat>): (p: Ptr) {
    if l == [] then Null else SocketAt(l[0])
  }

  function Last(l: seq<nat>): (p: Ptr) {
    if l == [] then Null else SocketAt(l[|l| - 1])
  }

  function PrevOf(l: seq<nat>, i: nat): (p: Ptr)
    requires i < |l|
  {
    if i == 0 then Null else SocketAt(l[i - 1])
  }

  function NextOf(l: seq<nat>, i: nat): (p: Ptr)
    requires i < |l|
  {
    if i + 1 == |l| then Null else SocketAt(l[i + 1])
  }

  ghost predicate Distinct(l: seq<nat>) {
    forall i, j :: 0 <= i < j < |l| ==> l[i] != l[j]
  }

  /** The struct at position `i` of the list of context `c`. */
  ghost predicate Linked(sockets: map<nat, Socket>, c: nat, l: seq<nat>, i: nat)
    requires i < |l|
  {
    l[i] in sockets && sockets[l[i]] == Socket(c, PrevOf(l, i), NextOf(l, i), sockets[l[i]].timeout)
  }

  ghost predicate Chain(sockets: map<nat, Socket>, c: nat, l: seq<nat>) {
    Distinct(l) && forall i {:trigger Linked(sockets, c, l, i)} :: 0 <= i < |l| ==> Linked(sockets, c, l, i)
  }

  ghost predicate ClosedLinked(sockets: map<nat, Socket>, l: seq<nat>, i: nat)
    requires i < |l|
  {
    l[i] in sockets && IsClosed(sockets[l[i]]) && sockets[l[i]].next == NextOf(l, i)
  }

  ghost predicate ClosedChain(sockets: map<nat, Socket>, l: seq<nat>) {
    Distinct(l) && forall i {:trigger ClosedLinked(sockets, l, i)} :: 0 <= i < |l| ==> ClosedLinked(sockets, l, i)
  }

  ghost predicate IsSuffix(r: seq<nat>, l: seq<nat>) {
    |r| <= |l| && l[|l| - |r|..] == r
  }

  ghost predicate ContextOk(m: Mem, v: View, c: nat)
    requires c in m.contexts && c in v.lists && c in v.rest
  {
    && Chain(m.sockets, c, v.lists[c])
    && m.contexts[c].head == First(v.lists[c])
    && m.contexts[c].cursor == First(v.rest[c])
    && IsSuffix(v.rest[c], v.lists[c])
  }

  ghost predicate InList(m: Mem, v: View, x: nat)
    requires x in m.sockets
  {
    m.sockets[x].context in v.lists && x in v.lists[m.sockets[x].context]
  }

  ghost predicate Loose(m: Mem, v: View, x: nat) {
    x in m.sockets && x !in v.closed && !InList(m, v, x) && !IsClosed(m.sockets[x])
  }

  ghost predicate ContextsOk(m: Mem, v: View) {
    v.lists.Keys == v.rest.Keys == m.contexts.Keys && forall c :: c in m.contexts ==> ContextOk(m, v, c)
  }

  ghost predicate ClosedOk(m: Mem, v: View) {
    ClosedChain(m.sockets, v.closed) && m.closedHead == First(v.closed)
  }

  ghost predicate Placed(m: Mem, v: View) {
    forall x :: x in m.sockets ==> x in v.loose || x in v.closed || InList(m, v, x)
  }

  ghost predicate LooseOk(m: Mem, v: View) {
    forall x :: x in v.loose ==> Loose(m, v, x)
  }

  /** Memory and view agree, and every socket is in exactly one place. */
  ghost predicate Ok(m: Mem, v: View) {
    ContextsOk(m, v) && ClosedOk(m, v) && Placed(m, v) && LooseOk(m, v)
  }

  // ----- lists -----

  function Without(l: seq<nat>, s: nat): (r: seq<nat>) {
    if l == [] then [] else if l[0] == s then l[1..] else [l[0]] + Without(l[1..], s)
  }

  lemma {:induction false} WithoutAbsent(l: seq<nat>, s: nat)
    requires s !in l
    ensures Without(l, s) == l
  {
    if l != [] {
      WithoutAbsent(l[1..], s);
    }
  }

  lemma {:induction false} WithoutSplit(a: seq<nat>, s: nat, b: seq<nat>)
    requires s !in a
    ensures Without(a + [s] + b, s) == a + b
  {
    var l := a + [s] + b;
    if a == [] {
      assert l[1..] == b;
    } else {
      assert l[1..] == a[1..] + [s] + b;
      WithoutSplit(a[1..], s, b);
    }
  }

  /** Splitting a list around one of its elements. */
  lemma {:induction false} Split(l: seq<nat>, s: nat) returns (a: seq<nat>, b: seq<nat>)
    requires Distinct(l) && s in l
    ensures l == a + [s] + b && s !in a && s !in b
  {
    var i :| 0 <= i < |l| && l[i] == s;
    a, b := l[..i], l[i + 1..];
  }

  lemma {:induction false} DistinctWithout(a: seq<nat>, s: nat, b: seq<nat>)
    requires Distinct(a + [s] + b)
    ensures Distinct(a + b)
  {
    var l, r := a + [s] + b, a + b;
    forall i, j | 0 <= i < j < |r|
      ensures r[i] != r[j]
    {
      assert r[i] == l[if i < |a| then i else i + 1] && r[j] == l[if j < |a| then j else j + 1];
    }
  }

  lemma {:induction false} SuffixWithout(a: seq<nat>, s: nat, b: seq<nat>, r: seq<nat>)
    requires Distinct(a + [s] + b) && s !in a && s !in b && IsSuffix(r, a + [s] + b)
    ensures IsSuffix(Without(r, s), a + b)
    ensures First(Without(r, s)) == if First(r) == SocketAt(s) then First(b) else First(r)
  {
    var l := a + [s] + b;
    var k := |l| - |r|;
    if k <= |a| {
      assert r == a[k..] + [s] + b;
      WithoutSplit(a[k..], s, b);
      assert (a + b)[k..] == a[k..] + b;
    } else {
      assert r == b[k - |a| - 1..];
      WithoutAbsent(r, s);
      assert (a + b)[k - 1..] == r;
    }
  }

  // ----- unlinking -----

  /** The neighbours of a socket point at each other. */
  function Bridged(sockets: map<nat, Socket>, prev: Ptr, next: Ptr): (r: map<nat, Socket>)
  {
    var s1 := if prev.SocketAt? && prev.s in sockets then sockets[prev.s := sockets[prev.s].(next := next)]
              else sockets;
    if next.SocketAt? && next.s in s1 then s1[next.s := s1[next.s].(prev := prev)] else s1
  }

  lemma {:induction false} BridgedChain(sockets: map<nat, Socket>, c: nat, a: seq<nat>, s: nat, b: seq<nat>)
    requires Chain(sockets, c, a + [s] + b)
    ensures Chain(Bridged(sockets, Last(a), First(b)), c, a + b)
  {
    var l, r, sockets' := a + [s] + b, a + b, Bridged(sockets, Last(a), First(b));
    DistinctWithout(a, s, b);
    forall i | 0 <= i < |r|
      ensures Linked(sockets', c, r, i)
    {
      BridgedOne(sockets, c, a, s, b, i);
    }
  }

  lemma {:induction false} BridgedOne(sockets: map<nat, Socket>, c: nat, a: seq<nat>, s: nat, b: seq<nat>, i: nat)
    requires Chain(sockets, c, a + [s] + b) && i < |a + b|
    ensures Linked(Bridged(sockets, Last(a), First(b)), c, a + b, i)
  {
    var l, r := a + [s] + b, a + b;
    var k := if i < |a| then i else i + 1;
    assert l[k] == r[i] && Linked(sockets, c, l, k);
    if a != [] {
      assert l[|a| - 1] == a[|a| - 1] && Linked(sockets, c, l, |a| - 1);
    }
    if b != [] {
      assert l[|a| + 1] == b[0] && Linked(sockets, c, l, |a| + 1);
    }
    if i == |a| - 1 {
      assert NextOf(r, i) == First(b);
    } else if i == |a| {
      assert PrevOf(r, i) == Last(a);
    }
  }

  /** The same struct up to its timeout. */
  ghost predicate Same(sockets: map<nat, Socket>, sockets': map<nat, Socket>, x: nat) {
    x in sockets && x in sockets' && sockets'[x] == sockets[x].(timeout := sockets'[x].timeout)
  }

  lemma {:induction false} ChainFrame(sockets: map<nat, Socket>, sockets': map<nat, Socket>, c: nat, l: seq<nat>)
    requires Chain(sockets, c, l)
    requires forall i :: 0 <= i < |l| ==> Same(sockets, sockets', l[i])
    ensures Chain(sockets', c, l)
  {
    forall i | 0 <= i < |l|
      ensures Linked(sockets', c, l, i)
    {
      assert Linked(sockets, c, l, i) && Same(sockets, sockets', l[i]);
    }
  }

  lemma {:induction false} ClosedFrame(sockets: map<nat, Socket>, sockets': map<nat, Socket>, l: seq<nat>)
    requires ClosedChain(sockets, l)
    requires forall i :: 0 <= i < |l| ==> Same(sockets, sockets', l[i])
    ensures ClosedChain(sockets', l)
  {
    forall i | 0 <= i < |l|
      ensures ClosedLinked(sockets', l, i)
    {
      assert ClosedLinked(sockets, l, i) && Same(sockets, sockets', l[i]);
    }
  }

  lemma {:induction false} BridgedSame(sockets: map<nat, Socket>, prev: Ptr, next: Ptr, x: nat)
    ensures x in Bridged(sockets, prev, next) <==> x in sockets
    ensures x in sockets ==> Bridged(sockets, prev, next)[x].context == sockets[x].context
    ensures x in sockets && SocketAt(x) != prev && SocketAt(x) != next ==> Bridged(sockets, prev, next)[x] == sockets[x]
  {
  }

  /** An element of one context's list is in no other list. */
  lemma {:induction false} Apart(m: Mem, v: View, c: nat, x: nat)
    requires Ok(m, v) && c in m.contexts && x in v.lists[c]
    ensures x in m.sockets && m.sockets[x].context == c && !IsClosed(m.sockets[x]) && x !in v.closed && x !in v.loose
  {
    assert ContextOk(m, v, c);
    var l := v.lists[c];
    var i :| 0 <= i < |l| && l[i] == x;
    assert Linked(m.sockets, c, l, i);
    if x in v.closed {
      var j :| 0 <= j < |v.closed| && v.closed[j] == x;
      assert ClosedLinked(m.sockets, v.closed, j);
    }
  }

  function Unlinked(m: Mem, s: nat): (m': Mem)
    requires s in m.sockets && m.sockets[s].context in m.contexts
  {
    var rec := m.sockets[s];
    var context := m.contexts[rec.context];
    m.(sockets := Bridged(m.sockets, rec.prev, rec.next),
       contexts := m.contexts[rec.context := Context(if rec.prev.Null? then rec.next else context.head,
                                                     if context.cursor == SocketAt(s)
                                                       then rec.next else context.cursor)])
  }

  ghost function UnlinkedView(v: View, c: nat, s: nat): (v': View)
    requires c in v.lists && c in v.rest
  {
    v.(lists := v.lists[c := Without(v.lists[c], s)],
       rest := v.rest[c := Without(v.rest[c], s)], loose := v.loose + {s})
  }

  /** `s` stands between `a` and `b` in the list of its context. */
  ghost predicate Around(m: Mem, v: View, s: nat, c: nat, a: seq<nat>, b: seq<nat>) {
    && c in m.contexts && c in v.lists && c in v.rest && v.lists[c] == a + [s] + b && s !in a && s !in b
    && s in m.sockets && m.sockets[s] == Socket(c, Last(a), First(b), m.sockets[s].timeout)
  }

  lemma {:induction false} FindAround(m: Mem, v: View, s: nat) returns (c: nat, a: seq<nat>, b: seq<nat>)
    requires ContextsOk(m, v) && s in m.sockets && InList(m, v, s)
    ensures c == m.sockets[s].context && Around(m, v, s, c, a, b)
  {
    c := m.sockets[s].context;
    assert ContextOk(m, v, c);
    a, b := Split(v.lists[c], s);
    var l := v.lists[c];
    assert l[|a|] == s && Linked(m.sockets, c, l, |a|);
    assert PrevOf(l, |a|) == Last(a) && NextOf(l, |a|) == First(b);
  }

  /** The list of the socket's own context. */
  lemma {:induction false} UnlinkOwn(m: Mem, v: View, s: nat, c: nat, a: seq<nat>, b: seq<nat>)
    requires ContextsOk(m, v) && Around(m, v, s, c, a, b)
    ensures Without(v.lists[c], s) == a + b
    ensures ContextOk(Unlinked(m, s), UnlinkedView(v, c, s), c)
  {
    assert ContextOk(m, v, c);
    var l := v.lists[c];
    WithoutSplit(a, s, b);
    SuffixWithout(a, s, b, v.rest[c]);
    BridgedChain(m.sockets, c, a, s, b);
    assert First(l) == if a == [] then SocketAt(s) else First(a + b);
    assert First(a + b) == if a == [] then First(b) else First(a);
  }

  /** The socket's neighbours are in its own list. */
  lemma {:induction false} UnlinkOthers(m: Mem, v: View, s: nat, c: nat, a: seq<nat>, b: seq<nat>, x: nat)
    requires Around(m, v, s, c, a, b) && x in m.sockets && (x !in v.lists[c] || x == s)
    ensures Same(m.sockets, Unlinked(m, s).sockets, x)
  {
    assert a != [] ==> a[|a| - 1] in v.lists[c];
    assert b != [] ==> b[0] in v.lists[c];
    BridgedSame(m.sockets, Last(a), First(b), x);
  }

  lemma {:induction false} UnlinkOther(m: Mem, v: View, s: nat, c: nat, a: seq<nat>, b: seq<nat>, d: nat)
    requires Ok(m, v) && Around(m, v, s, c, a, b) && d in m.contexts && d != c
    ensures ContextOk(Unlinked(m, s), UnlinkedView(v, c, s), d)
  {
    assert ContextOk(m, v, d);
    var l := v.lists[d];
    forall i | 0 <= i < |l|
      ensures Same(m.sockets, Unlinked(m, s).sockets, l[i])
    {
      Apart(m, v, d, l[i]);
      if l[i] in v.lists[c] {
        Apart(m, v, c, l[i]);
      }
      UnlinkOthers(m, v, s, c, a, b, l[i]);
    }
    ChainFrame(m.sockets, Unlinked(m, s).sockets, d, l);
  }

  lemma {:induction false} UnlinkKeys(m: Mem, v: View, s: nat, c: nat)
    requires s in m.sockets && m.sockets[s].context == c && c in m.contexts
    requires v.lists.Keys == v.rest.Keys == m.contexts.Keys
    ensures UnlinkedView(v, c, s).lists.Keys == UnlinkedView(v, c, s).rest.Keys
            == Unlinked(m, s).contexts.Keys == m.contexts.Keys
  {
    assert v.lists[c := Without(v.lists[c], s)].Keys == v.lists.Keys;
    assert v.rest[c := Without(v.rest[c], s)].Keys == v.rest.Keys;
    assert Unlinked(m, s).contexts.Keys == m.contexts.Keys;
  }

  lemma {:induction false} UnlinkContexts(m: Mem, v: View, s: nat, c: nat, a: seq<nat>, b: seq<nat>)
    requires Ok(m, v) && Around(m, v, s, c, a, b)
    ensures ContextsOk(Unlinked(m, s), UnlinkedView(v, c, s))
  {
    UnlinkKeys(m, v, s, c);
    forall d | d in m.contexts
      ensures ContextOk(Unlinked(m, s), UnlinkedView(v, c, s), d)
    {
      if d == c {
        UnlinkOwn(m, v, s, c, a, b);
      } else {
        UnlinkOther(m, v, s, c, a, b, d);
      }
    }
  }

  lemma {:induction false} UnlinkClosed(m: Mem, v: View, s: nat, c: nat, a: seq<nat>, b: seq<nat>)
    requires Ok(m, v) && Around(m, v, s, c, a, b)
    ensures ClosedOk(Unlinked(m, s), UnlinkedView(v, c, s))
  {
    forall i | 0 <= i < |v.closed|
      ensures Same(m.sockets, Unlinked(m, s).sockets, v.closed[i])
    {
      ClosedApart(m, v, v.closed[i]);
      UnlinkOthers(m, v, s, c, a, b, v.closed[i]);
    }
    ClosedFrame(m.sockets, Unlinked(m, s).sockets, v.closed);
  }

  lemma {:induction false} ClosedApart(m: Mem, v: View, x: nat)
    requires Ok(m, v) && x in v.closed
    ensures x in m.sockets && IsClosed(m.sockets[x]) && x !in v.loose &&
            forall c :: c in m.contexts ==> x !in v.lists[c]
  {
    var j :| 0 <= j < |v.closed| && v.closed[j] == x;
    assert ClosedLinked(m.sockets, v.closed, j);
    assert x in v.loose ==> Loose(m, v, x);
    forall c | c in m.contexts
      ensures x !in v.lists[c]
    {
      if x in v.lists[c] {
        Apart(m, v, c, x);
      }
    }
  }

  lemma {:induction false} UnlinkPlace(m: Mem, v: View, s: nat, c: nat, a: seq<nat>, b: seq<nat>, x: nat)
    requires Around(m, v, s, c, a, b) && Without(v.lists[c], s) == a + b
    requires x in m.sockets && InList(m, v, x) && x != s
    ensures x in Unlinked(m, s).sockets && InList(Unlinked(m, s), UnlinkedView(v, c, s), x)
  {
    BridgedSame(m.sockets, Last(a), First(b), x);
  }

  lemma {:induction false} UnlinkPlaced(m: Mem, v: View, s: nat, c: nat, a: seq<nat>, b: seq<nat>)
    requires Placed(m, v) && Around(m, v, s, c, a, b) && Without(v.lists[c], s) == a + b
    ensures Placed(Unlinked(m, s), UnlinkedView(v, c, s))
  {
    var m', v' := Unlinked(m, s), UnlinkedView(v, c, s);
    forall x | x in m'.sockets
      ensures x in v'.loose || x in v'.closed || InList(m', v', x)
    {
      BridgedSame(m.sockets, Last(a), First(b), x);
      if x != s && InList(m, v, x) {
        UnlinkPlace(m, v, s, c, a, b, x);
      }
    }
  }

  lemma {:induction false} UnlinkLoose(m: Mem, v: View, s: nat, c: nat, a: seq<nat>, b: seq<nat>)
    requires Ok(m, v) && Around(m, v, s, c, a, b) && Without(v.lists[c], s) == a + b
    ensures LooseOk(Unlinked(m, s), UnlinkedView(v, c, s))
  {
    var m', v' := Unlinked(m, s), UnlinkedView(v, c, s);
    Apart(m, v, c, s);
    forall x | x in v'.loose
      ensures Loose(m', v', x)
    {
      if x != s {
        assert Loose(m, v, x);
        NotIn(m, v, c, x);
      }
      UnlinkOthers(m, v, s, c, a, b, x);
    }
  }

  lemma {:induction false} NotIn(m: Mem, v: View, c: nat, x: nat)
    requires Ok(m, v) && c in m.contexts && Loose(m, v, x)
    ensures x !in v.lists[c]
  {
    if x in v.lists[c] {
      Apart(m, v, c, x);
    }
  }

  lemma {:induction false} UnlinkKeeps(m: Mem, v: View, s: nat)
    requires Ok(m, v) && s in m.sockets && InList(m, v, s)
    ensures Ok(Unlinked(m, s), UnlinkedView(v, m.sockets[s].context, s))
  {
    var c, a, b := FindAround(m, v, s);
    UnlinkOwn(m, v, s, c, a, b);
    UnlinkContexts(m, v, s, c, a, b);
    UnlinkClosed(m, v, s, c, a, b);
    UnlinkPlaced(m, v, s, c, a, b);
    UnlinkLoose(m, v, s, c, a, b);
  }

  // ----- the other updates -----

  /** Nothing in a context's list changes its links. */
  lemma {:induction false} FrameContexts(m: Mem, v: View, m': Mem, v': View)
    requires Ok(m, v) && v'.lists == v.lists && v'.rest == v.rest && m'.contexts == m.contexts
    requires forall x :: x in m.sockets && InList(m, v, x) ==> Same(m.sockets, m'.sockets, x)
    ensures ContextsOk(m', v')
  {
    forall c | c in m.contexts
      ensures ContextOk(m', v', c)
    {
      FrameContext(m, v, m', v', c);
    }
  }

  lemma {:induction false} FrameContext(m: Mem, v: View, m': Mem, v': View, c: nat)
    requires Ok(m, v) && v'.lists == v.lists && v'.rest == v.rest && m'.contexts == m.contexts && c in m.contexts
    requires forall x :: x in m.sockets && InList(m, v, x) ==> Same(m.sockets, m'.sockets, x)
    ensures ContextOk(m', v', c)
  {
    assert ContextOk(m, v, c);
    var l := v.lists[c];
    forall i | 0 <= i < |l|
      ensures Same(m.sockets, m'.sockets, l[i])
    {
      Apart(m, v, c, l[i]);
      assert InList(m, v, l[i]);
    }
    ChainFrame(m.sockets, m'.sockets, c, l);
  }

  function MarkedClosed(m: Mem, s: nat): (m': Mem)
    requires s in m.sockets
  {
    m.(sockets := m.sockets[s := m.sockets[s].(next := m.closedHead, prev := ContextAt(m.sockets[s].context))],
       closedHead := SocketAt(s))
  }

  lemma {:induction false} MarkKeeps(m: Mem, v: View, s: nat)
    requires Ok(m, v) && s in v.loose
    ensures s in m.sockets
    ensures Ok(MarkedClosed(m, s), v.(closed := [s] + v.closed, loose := v.loose - {s}))
  {
    assert Loose(m, v, s);
    var m', v' := MarkedClosed(m, s), v.(closed := [s] + v.closed, loose := v.loose - {s});
    FrameContexts(m, v, m', v');
    MarkClosedOk(m, v, s);
    forall x | x in v'.loose
      ensures Loose(m', v', x)
    {
      assert Loose(m, v, x);
    }
  }

  lemma {:induction false} MarkClosedOk(m: Mem, v: View, s: nat)
    requires ClosedOk(m, v) && Loose(m, v, s)
    ensures ClosedOk(MarkedClosed(m, s), v.(closed := [s] + v.closed, loose := v.loose - {s}))
  {
    var m', l, l' := MarkedClosed(m, s), v.closed, [s] + v.closed;
    forall i | 0 <= i < |l'|
      ensures ClosedLinked(m'.sockets, l', i)
    {
      if i > 0 {
        assert ClosedLinked(m.sockets, l, i - 1) && l'[i] == l[i - 1];
      }
    }
  }

  /** The socket moves to another address when it is resized. */
  function Moved(m: Mem, s: nat, id: nat): (m': Mem)
    requires s in m.sockets
  {
    m.(sockets := (m.sockets - {s})[id := m.sockets[s]])
  }

  lemma {:induction false} MoveKeeps(m: Mem, v: View, s: nat, id: nat)
    requires Ok(m, v) && s in v.loose && (id == s || id !in m.sockets)
    ensures s in m.sockets
    ensures Ok(Moved(m, s, id), v.(loose := v.loose - {s} + {id}))
  {
    assert Loose(m, v, s);
    var m', v' := Moved(m, s, id), v.(loose := v.loose - {s} + {id});
    FrameContexts(m, v, m', v');
    forall i | 0 <= i < |v.closed|
      ensures Same(m.sockets, m'.sockets, v.closed[i])
    {
      ClosedApart(m, v, v.closed[i]);
    }
    ClosedFrame(m.sockets, m'.sockets, v.closed);
    forall x | x in v'.loose
      ensures Loose(m', v', x)
    {
      if x == id {
        NotAnywhere(m, v, s, id);
      } else {
        assert Loose(m, v, x);
      }
    }
  }

  /** A free address, or a loose socket, is in no list. */
  lemma {:induction false} NotAnywhere(m: Mem, v: View, s: nat, id: nat)
    requires Ok(m, v) && s in v.loose && (id == s || id !in m.sockets)
    ensures id !in v.closed && forall c :: c in m.contexts ==> id !in v.lists[c]
  {
    assert Loose(m, v, s);
    forall c | c in m.contexts
      ensures id !in v.lists[c]
    {
      if id in v.lists[c] {
        Apart(m, v, c, id);
      }
    }
    if id in v.closed {
      ClosedApart(m, v, id);
    }
  }

  function LinkedIn(m: Mem, c: nat, s: nat): (m': Mem)
    requires s in m.sockets && c in m.contexts
  {
    var head := m.contexts[c].head;
    var sockets := m.sockets[s := Socket(c, Null, head, 0)];
    m.(sockets := if head.SocketAt? && head.s in sockets then sockets[head.s := sockets[head.s].(prev := SocketAt(s))]
                  else sockets,
       contexts := m.contexts[c := m.contexts[c].(head := SocketAt(s))])
  }

  ghost function LinkedView(v: View, c: nat, s: nat): (v': View)
    requires c in v.lists
  {
    v.(lists := v.lists[c := [s] + v.lists[c]], loose := v.loose - {s})
  }

  lemma {:induction false} LinkKeeps(m: Mem, v: View, c: nat, s: nat)
    requires Ok(m, v) && s in v.loose && c in m.contexts
    ensures s in m.sockets
    ensures Ok(LinkedIn(m, c, s), LinkedView(v, c, s))
  {
    assert Loose(m, v, s);
    NotAnywhere(m, v, s, s);
    LinkContexts(m, v, c, s);
    LinkRest(m, v, c, s);
  }

  lemma {:induction false} LinkContexts(m: Mem, v: View, c: nat, s: nat)
    requires Ok(m, v) && Loose(m, v, s) && c in m.contexts && forall d :: d in m.contexts ==> s !in v.lists[d]
    ensures ContextsOk(LinkedIn(m, c, s), LinkedView(v, c, s))
  {
    var m', v' := LinkedIn(m, c, s), LinkedView(v, c, s);
    assert v'.lists.Keys == v.lists.Keys;
    assert m'.contexts.Keys == m.contexts.Keys;
    forall d | d in m.contexts
      ensures ContextOk(m', v', d)
    {
      assert ContextOk(m, v, d);
      if d == c {
        LinkOwn(m, v, c, s);
      } else {
        LinkOther(m, v, c, s, d);
      }
    }
  }

  lemma {:induction false} LinkOwn(m: Mem, v: View, c: nat, s: nat)
    requires c in m.contexts && c in v.lists && c in v.rest && ContextOk(m, v, c) && s in m.sockets && s !in v.lists[c]
    ensures ContextOk(LinkedIn(m, c, s), LinkedView(v, c, s), c)
  {
    var sockets', l, l' := LinkedIn(m, c, s).sockets, v.lists[c], [s] + v.lists[c];
    assert l != [] ==> Linked(m.sockets, c, l, 0);
    forall i | 0 <= i < |l'|
      ensures Linked(sockets', c, l', i)
    {
      if i > 0 {
        assert Linked(m.sockets, c, l, i - 1) && l'[i] == l[i - 1];
      }
    }
    var r := v.rest[c];
    assert l'[|l'| - |r|..] == l[|l| - |r|..];
  }

  lemma {:induction false} LinkOther(m: Mem, v: View, c: nat, s: nat, d: nat)
    requires Ok(m, v) && Loose(m, v, s) && c in m.contexts && d in m.contexts && d != c && s !in v.lists[d]
    ensures ContextOk(LinkedIn(m, c, s), LinkedView(v, c, s), d)
  {
    assert ContextOk(m, v, d) && ContextOk(m, v, c);
    var l := v.lists[d];
    forall i | 0 <= i < |l|
      ensures Same(m.sockets, LinkedIn(m, c, s).sockets, l[i])
    {
      Apart(m, v, d, l[i]);
      if v.lists[c] != [] {
        Apart(m, v, c, v.lists[c][0]);
      }
    }
    ChainFrame(m.sockets, LinkedIn(m, c, s).sockets, d, l);
  }

  lemma {:induction false} LinkSame(m: Mem, v: View, c: nat, s: nat, x: nat)
    requires Ok(m, v) && s in m.sockets && c in m.contexts && x in m.sockets && x != s && x !in v.lists[c]
    ensures Same(m.sockets, LinkedIn(m, c, s).sockets, x)
  {
    assert ContextOk(m, v, c);
  }

  lemma {:induction false} LinkRest(m: Mem, v: View, c: nat, s: nat)
    requires Ok(m, v) && s in v.loose && c in m.contexts && Loose(m, v, s)
    ensures (var m', v' := LinkedIn(m, c, s), LinkedView(v, c, s);
             ClosedOk(m', v') && Placed(m', v') && LooseOk(m', v'))
  {
    var m', v' := LinkedIn(m, c, s), LinkedView(v, c, s);
    forall i | 0 <= i < |v.closed|
      ensures Same(m.sockets, m'.sockets, v.closed[i])
    {
      ClosedApart(m, v, v.closed[i]);
      LinkSame(m, v, c, s, v.closed[i]);
    }
    ClosedFrame(m.sockets, m'.sockets, v.closed);
    LinkPlaced(m, v, c, s);
    forall x | x in v'.loose
      ensures Loose(m', v', x)
    {
      assert Loose(m, v, x);
      NotIn(m, v, c, x);
      LinkSame(m, v, c, s, x);
    }
  }

  lemma {:induction false} LinkPlaced(m: Mem, v: View, c: nat, s: nat)
    requires Placed(m, v) && c in m.contexts && c in v.lists && s in m.sockets
    ensures Placed(LinkedIn(m, c, s), LinkedView(v, c, s))
  {
    var m', v' := LinkedIn(m, c, s), LinkedView(v, c, s);
    forall x | x in m'.sockets
      ensures x in v'.loose || x in v'.closed || InList(m', v', x)
    {
      assert x in m.sockets && (x != s ==> m'.sockets[x].context == m.sockets[x].context);
    }
  }
}
