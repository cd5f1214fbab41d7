/** The timeout sweep over all contexts of a loop. */
module SocketRounds {
  import opened SocketLists
  import opened SocketOps
  import opened SocketSweep
  import opened SocketLoop

  function CallbacksOf(callbacks: seq<seq<seq<Op>>>, i: nat): (r: seq<seq<Op>>) {
    if i < |callbacks| then callbacks[i] else []
  }

  /** The socket is open and belongs to the context. */
  predicate Member(m: Mem, c: nat, x: nat) {
    IsOpen(m, x) && m.sockets[x].context == c
  }

  /** The list of a context, from its head along the links to the end: all its members, and no other sockets. */
  ghost predicate IsListOf(m: Mem, c: nat, l: seq<nat>) {
    && c in m.contexts && m.contexts[c].head == First(l) && Chain(m.sockets, c, l)
    && forall x :: x in l <==> Member(m, c, x)
  }

  /** Pass `i` of a sweep, between memories `i` and `i + 1`. */
  ghost predicate RoundAt(mems: seq<Mem>, passes: seq<Pass>, fired: seq<seq<nat>>, order: seq<nat>,
                          callbacks: seq<seq<seq<Op>>>, i: nat)
    requires i < |passes| == |fired| && |passes| < |mems| && |passes| <= |order|
  {
    && Traced(passes[i], mems[i], order[i], CallbacksOf(callbacks, i)) && mems[i + 1] == Now(passes[i])
    && Complete(passes[i], passes[i].start) && IsListOf(mems[i], order[i], passes[i].start)
    && order[i] in mems[i + 1].contexts && mems[i + 1].contexts[order[i]].cursor == Null
    && fired[i] == Expired(passes[i].visited, passes[i].states)
  }

  ghost predicate Rounds(mems: seq<Mem>, passes: seq<Pass>, fired: seq<seq<nat>>, order: seq<nat>,
                         callbacks: seq<seq<seq<Op>>>) {
    && |passes| + 1 == |mems| && |passes| == |fired| <= |order|
    && forall i :: 0 <= i < |passes| ==> RoundAt(mems, passes, fired, order, callbacks, i)
  }

  lemma {:induction false} ListIsWhole(m: Mem, v: View, c: nat)
    requires Ok(m, v) && v.loose == {} && c in m.contexts
    ensures c in v.lists && IsListOf(m, c, v.lists[c])
  {
    assert ContextOk(m, v, c);
    forall x
      ensures x in v.lists[c] <==> Member(m, c, x)
    {
      if x in v.lists[c] {
        Apart(m, v, c, x);
      }
      if Member(m, c, x) {
        OpenIsListed(m, v, x);
      }
    }
  }

  lemma {:induction false} RoundsMore(mems: seq<Mem>, passes: seq<Pass>, fired: seq<seq<nat>>, order: seq<nat>,
                                      callbacks: seq<seq<seq<Op>>>, m: Mem, pass: Pass)
    requires Rounds(mems, passes, fired, order, callbacks) && |passes| < |order|
    requires Traced(pass, mems[|passes|], order[|passes|], CallbacksOf(callbacks, |passes|)) && m == Now(pass)
    requires Complete(pass, pass.start) && IsListOf(mems[|passes|], order[|passes|], pass.start)
    requires order[|passes|] in m.contexts && m.contexts[order[|passes|]].cursor == Null
    ensures Rounds(mems + [m], passes + [pass], fired + [Expired(pass.visited, pass.states)], order, callbacks)
  {
    var fired' := fired + [Expired(pass.visited, pass.states)];
    forall i | 0 <= i < |passes| + 1
      ensures RoundAt(mems + [m], passes + [pass], fired', order, callbacks, i)
    {
      assert i < |passes| ==> RoundAt(mems, passes, fired, order, callbacks, i);
    }
  }

  /** Sweeps the contexts of a loop one after the other. */
  method SweepAll(l: Loop, order: seq<nat>, callbacks: seq<seq<seq<Op>>>)
    returns (fired: seq<seq<nat>>, ghost mems: seq<Mem>, ghost passes: seq<Pass>)
    requires l.Valid() && forall c :: c in order ==> c in l.contexts
    modifies l
    ensures l.Valid() && l.contexts.Keys == old(l.contexts).Keys
    ensures Rounds(mems, passes, fired, order, callbacks) && |passes| == |order| == |fired|
    ensures mems[0] == old(l.M()) && l.M() == mems[|order|]
  {
    fired, mems, passes := [], [l.M()], [];
    while |fired| < |order|
      invariant l.Valid() && l.contexts.Keys == old(l.contexts).Keys
      invariant Rounds(mems, passes, fired, order, callbacks) && mems[0] == old(l.M()) && mems[|passes|] == l.M()
    {
      fired, mems, passes := SweepOne(l, order, callbacks, fired, mems, passes);
    }
  }

  /** The next context. */
  method SweepOne(l: Loop, order: seq<nat>, callbacks: seq<seq<seq<Op>>>, fired: seq<seq<nat>>, ghost mems: seq<Mem>,
                  ghost passes: seq<Pass>)
    returns (fired': seq<seq<nat>>, ghost mems': seq<Mem>, ghost passes': seq<Pass>)
    requires l.Valid() && |fired| < |order| && order[|fired|] in l.contexts
    requires Rounds(mems, passes, fired, order, callbacks) && mems[|passes|] == l.M()
    modifies l
    ensures l.Valid() && l.contexts.Keys == old(l.contexts).Keys && |fired'| == |fired| + 1
    ensures Rounds(mems', passes', fired', order, callbacks) && mems'[|passes'|] == l.M() && mems'[0] == mems[0]
  {
    var i := |fired|;
    ListIsWhole(l.M(), l.view, order[i]);
    var now;
    ghost var pass;
    now, pass := l.SweepContext(order[i], if i < |callbacks| then callbacks[i] else []);
    RoundsMore(mems, passes, fired, order, callbacks, l.M(), pass);
    fired', mems', passes' := fired + [now], mems + [l.M()], passes + [pass];
  }

  // ----- where sockets go -----

  /** The operation puts socket `x` into the list of context `d`. */
  predicate LinksInto(op: Op, d: nat, x: nat) {
    (op.AdoptSocket? || op.OpenSocket?) && op.c == d && op.id == x
  }

  ghost predicate NoneInto(callbacks: seq<seq<Op>>, d: nat, x: nat) {
    forall k, j :: 0 <= k < |callbacks| && 0 <= j < |callbacks[k]| ==> !LinksInto(callbacks[k][j], d, x)
  }

  predicate Outside(m: Mem, x: nat, d: nat) {
    x in m.sockets ==> m.sockets[x].context != d
  }

  lemma {:induction false} AdoptedOutside(m: Mem, c: nat, s: nat, id: nat, x: nat, d: nat)
    requires Outside(m, x, d) && CanAdopt(m, c, s, id) && !(c == d && id == x)
    ensures Outside(Adopted(m, c, s, id), x, d)
  {
  }

  lemma {:induction false} StaysOutside(m: Mem, op: Op, x: nat, d: nat)
    requires Outside(m, x, d) && !LinksInto(op, d, x)
    ensures Outside(Applied(m, op), x, d)
  {
    if op.AdoptSocket? && CanAdopt(m, op.c, op.s, op.id) {
      AdoptedOutside(m, op.c, op.s, op.id, x, d);
    }
  }

  lemma {:induction false} StayOutside(m: Mem, ops: seq<Op>, x: nat, d: nat)
    requires Outside(m, x, d) && forall j :: 0 <= j < |ops| ==> !LinksInto(ops[j], d, x)
    ensures Outside(AppliedAll(m, ops), x, d)
    decreases |ops|
  {
    if ops != [] {
      StaysOutside(m, ops[0], x, d);
      StayOutside(Applied(m, ops[0]), ops[1..], x, d);
    }
  }

  lemma {:induction false} TurnOutside(m: Mem, c: nat, ops: seq<Op>, x: nat, d: nat)
    requires AtSocket(m, c) && Outside(m, x, d) && forall j :: 0 <= j < |ops| ==> !LinksInto(ops[j], d, x)
    ensures Outside(Turn(m, c, ops), x, d)
  {
    StayOutside(CountedDown(m, c), ops, x, d);
  }

  lemma {:induction false} PassOutside(pass: Pass, m: Mem, c: nat, callbacks: seq<seq<Op>>, x: nat, d: nat, i: nat)
    requires Traced(pass, m, c, callbacks) && Outside(m, x, d) && NoneInto(callbacks, d, x) && i <= |pass.visited|
    ensures Outside(pass.states[i], x, d)
  {
    if i != 0 {
      PassOutside(pass, m, c, callbacks, x, d, i - 1);
      assert TurnAt(c, callbacks, pass.visited, pass.states, pass.before, i - 1);
      TurnOutside(pass.states[i - 1], c, CallbackAt(callbacks, |Expired(pass.visited[..i - 1], pass.states)|), x, d);
    }
  }

  lemma {:induction false} RoundsOutside(mems: seq<Mem>, passes: seq<Pass>, fired: seq<seq<nat>>, order: seq<nat>,
                                         callbacks: seq<seq<seq<Op>>>, x: nat, d: nat, i: nat, j: nat)
    requires Rounds(mems, passes, fired, order, callbacks) && i <= j <= |passes| && Outside(mems[i], x, d)
    requires forall k :: i <= k < j ==> NoneInto(CallbacksOf(callbacks, k), d, x)
    ensures Outside(mems[j], x, d)
    decreases j
  {
    if i < j {
      RoundsOutside(mems, passes, fired, order, callbacks, x, d, i, j - 1);
      assert RoundAt(mems, passes, fired, order, callbacks, j - 1);
      PassOutside(passes[j - 1], mems[j - 1], order[j - 1], CallbacksOf(callbacks, j - 1), x, d,
                  |passes[j - 1].visited|);
    }
  }

  /** Socket `x` of the list had been unlinked when its turn came. */
  ghost predicate UnlinkedBefore(pass: Pass, x: nat) {
    exists p :: 0 <= p < |pass.start| && pass.start[p] == x && UnlinkedAt(pass, p)
  }

  ghost predicate UnlinkedAt(pass: Pass, p: nat)
    requires p < |pass.start|
  {
    var k := TurnOf(pass.start, pass.skipped, p);
    k < |pass.before| && pass.start[p] in pass.before[k]
  }

  /** A pass of a sweep visits exactly the sockets that belong to its context when it begins and are not unlinked
      before their turn. */
  lemma {:induction false} VisitedIff(mems: seq<Mem>, passes: seq<Pass>, fired: seq<seq<nat>>, order: seq<nat>,
                                      callbacks: seq<seq<seq<Op>>>, x: nat, j: nat)
    requires Rounds(mems, passes, fired, order, callbacks) && j < |passes|
    ensures x in passes[j].visited <==> Member(mems[j], order[j], x) && !UnlinkedBefore(passes[j], x)
  {
    assert RoundAt(mems, passes, fired, order, callbacks, j);
    var pass := passes[j];
    forall p | 0 <= p < |pass.start| && pass.start[p] == x
      ensures x in pass.visited <==> !UnlinkedAt(pass, p)
    {
      VisitedOnce(pass, pass.start, p);
    }
    KeepIn(pass.start, pass.skipped, x);
    assert x in pass.start ==> exists p :: 0 <= p < |pass.start| && pass.start[p] == x;
  }

  /** Some callback of the passes `[i, j)` links `x` into the context of pass `j`. */
  ghost predicate Brought(order: seq<nat>, callbacks: seq<seq<seq<Op>>>, x: nat, i: nat, j: nat)
    requires j < |order|
  {
    exists r :: i <= r < j && !NoneInto(CallbacksOf(callbacks, r), order[j], x)
  }

  /** A socket visited in pass `i` is visited again in pass `j` if and only if a callback in between links it into
      that context, it is still there when pass `j` begins, and it is not unlinked before its turn. */
  lemma {:induction false} VisitedAgain(mems: seq<Mem>, passes: seq<Pass>, fired: seq<seq<nat>>, order: seq<nat>,
                                        callbacks: seq<seq<seq<Op>>>, x: nat, i: nat, j: nat)
    requires Rounds(mems, passes, fired, order, callbacks) && Distinct(order)
    requires i < j < |passes| && x in passes[i].visited
    ensures x in passes[j].visited <==>
            Brought(order, callbacks, x, i, j) && Member(mems[j], order[j], x) && !UnlinkedBefore(passes[j], x)
  {
    VisitedIff(mems, passes, fired, order, callbacks, x, i);
    VisitedIff(mems, passes, fired, order, callbacks, x, j);
    if !Brought(order, callbacks, x, i, j) {
      RoundsOutside(mems, passes, fired, order, callbacks, x, order[j], i, j);
    }
  }

  /** So a sweep whose callbacks link no socket that has been visited into a context still to come visits each
      socket at most once. */
  lemma {:induction false} VisitedInOnePass(mems: seq<Mem>, passes: seq<Pass>, fired: seq<seq<nat>>, order: seq<nat>,
                                            callbacks: seq<seq<seq<Op>>>, x: nat, i: nat, j: nat)
    requires Rounds(mems, passes, fired, order, callbacks) && Distinct(order)
    requires i < j < |passes| && x in passes[i].visited && !Brought(order, callbacks, x, i, j)
    ensures x !in passes[j].visited
  {
    VisitedAgain(mems, passes, fired, order, callbacks, x, i, j);
  }

  // ----- a socket that is visited twice -----

  /** A socket whose timeout callback adopts it into another context becomes the head of that context's list. */
  lemma {:induction false} AdoptedHead(m: Mem, c: nat, d: nat)
    requires AtSocket(m, c) && Expires(m, c) && d in m.contexts && c != d
    requires IsOpen(m, SocketAtCursor(m, c)) && m.sockets[SocketAtCursor(m, c)].context == c
    ensures (var s := SocketAtCursor(m, c);
             var m' := Turn(m, c, [AdoptSocket(d, s, s)]);
             d in m'.contexts && m'.contexts[d].head == SocketAt(s))
  {
    var s := SocketAtCursor(m, c);
    var m1, op := CountedDown(m, c), AdoptSocket(d, s, s);
    assert [op][1..] == [] && AppliedAll(Applied(m1, op), []) == Applied(m1, op);
    BridgedSame(m1.sockets, m1.sockets[s].prev, m1.sockets[s].next, s);
  }

  method TwoContexts() returns (l: Loop)
    ensures fresh(l) && l.Valid() && OneSocket(l.M())
  {
    l := new Loop();
    l.AddContext(0);
    l.AddContext(1);
    ghost var m := l.M();
    l.Open(0, 5);
    l.SetTimeoutOf(5, 1);
    Opened(m, l.M());
  }

  /** Two contexts, and one socket in the first that is due. */
  ghost predicate OneSocket(m: Mem) {
    && m.sockets == map[5 := Socket(0, Null, Null, 1)] && 0 in m.contexts && m.contexts[0].head == SocketAt(5)
    && 1 in m.contexts
  }

  lemma {:induction false} Opened(m: Mem, m': Mem)
    requires m.sockets == map[] && 0 in m.contexts && 1 in m.contexts && m.contexts[0] == Context(Null, Null)
    requires (var m1 := LinkedIn(Created(m, 0, 5), 0, 5); 5 in m1.sockets && m' == WithTimeout(m1, 5, 1))
    ensures OneSocket(m')
  {
  }

  /** A loop with two contexts and one socket in the first, whose callback adopts it into the second: one sweep
      visits it in both passes. */
  method VisitedTwice() returns (l: Loop, fired: seq<seq<nat>>, ghost mems: seq<Mem>, ghost passes: seq<Pass>)
    ensures l.Valid() && Rounds(mems, passes, fired, [0, 1], [[[AdoptSocket(1, 5, 5)]]]) && |passes| == 2
    ensures 5 in passes[0].visited && 5 in passes[1].visited
  {
    l := TwoContexts();
    ghost var m := l.M();
    fired, mems, passes := SweepAll(l, [0, 1], [[[AdoptSocket(1, 5, 5)]]]);
    TwoPasses(m, mems, passes, fired);
  }

  lemma {:induction false} VisitsHead(pass: Pass, m: Mem, c: nat, callbacks: seq<seq<Op>>, s: nat)
    requires Traced(pass, m, c, callbacks) && Complete(pass, pass.start) && Distinct(pass.start)
    requires pass.start != [] && pass.start[0] == s
    ensures pass.visited != [] && pass.visited[0] == s
  {
    VisitedOnce(pass, pass.start, 0);
  }

  lemma {:induction false} AllEqual(l: seq<nat>, s: nat)
    requires forall x :: x in l ==> x == s
    ensures |l| > 1 ==> l[0] == l[1]
  {
    assert |l| > 1 ==> l[0] in l && l[1] in l;
  }

  lemma {:induction false} TwoPasses(m: Mem, mems: seq<Mem>, passes: seq<Pass>, fired: seq<seq<nat>>)
    requires Rounds(mems, passes, fired, [0, 1], [[[AdoptSocket(1, 5, 5)]]]) && |passes| == 2 && mems[0] == m
    requires OneSocket(m)
    ensures 5 in passes[0].visited && 5 in passes[1].visited
  {
    var callbacks := [[[AdoptSocket(1, 5, 5)]]];
    assert RoundAt(mems, passes, fired, [0, 1], callbacks, 0) && RoundAt(mems, passes, fired, [0, 1], callbacks, 1);
    var first := passes[0];
    VisitsHead(first, m, 0, callbacks[0], 5);
    AllEqual(first.start, 5);
    KeepShorter(first.start, first.skipped);
    assert TurnAt(0, callbacks[0], first.visited, first.states, first.before, 0);
    assert first.visited[..0] == [];
    AdoptedHead(first.states[0], 0, 1);
    VisitsHead(passes[1], mems[1], 1, [], 5);
  }
}
