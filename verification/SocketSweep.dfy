/** One timeout pass over a list whose elements may be taken out, and others put in front, while it runs. */
module SocketSweep {
  import opened SocketLists
  import opened SocketOps

  /** A list without some of its elements. */
  function Keep(l: seq<nat>, gone: set<nat>): (r: seq<nat>) {
    if l == [] then [] else (if l[0] in gone then [] else [l[0]]) + Keep(l[1..], gone)
  }

  lemma {:induction false} KeepAll(l: seq<nat>)
    ensures Keep(l, {}) == l
  {
    if l != [] {
      KeepAll(l[1..]);
    }
  }

  lemma {:induction false} KeepNone(l: seq<nat>, gone: set<nat>)
    requires forall i :: 0 <= i < |l| ==> l[i] !in gone
    ensures Keep(l, gone) == l
  {
    if l != [] {
      KeepNone(l[1..], gone);
    }
  }

  lemma {:induction false} KeepWithout(l: seq<nat>, s: nat)
    requires Distinct(l)
    ensures Without(l, s) == Keep(l, {s})
  {
    if l != [] {
      if l[0] == s {
        KeepNone(l[1..], {s});
      } else {
        KeepWithout(l[1..], s);
      }
    }
  }

  lemma {:induction false} KeepTwice(l: seq<nat>, a: set<nat>, b: set<nat>)
    ensures Keep(Keep(l, a), b) == Keep(l, a + b)
  {
    if l != [] {
      KeepTwice(l[1..], a, b);
      var rest := Keep(l[1..], a);
      assert l[0] in a ==> Keep(l, a) == rest;
      assert l[0] !in a ==> Keep(l, a)[0] == l[0] && Keep(l, a)[1..] == rest;
    }
  }

  lemma {:induction false} KeepConcat(a: seq<nat>, b: seq<nat>, gone: set<nat>)
    ensures Keep(a + b, gone) == Keep(a, gone) + Keep(b, gone)
  {
    if a == [] {
      assert a + b == b;
    } else {
      assert (a + b)[1..] == a[1..] + b;
      KeepConcat(a[1..], b, gone);
    }
  }

  lemma {:induction false} KeepIn(l: seq<nat>, gone: set<nat>, x: nat)
    ensures x in Keep(l, gone) <==> x in l && x !in gone
  {
    if l != [] {
      KeepIn(l[1..], gone, x);
    }
  }

  lemma {:induction false} KeepShorter(l: seq<nat>, gone: set<nat>)
    ensures |Keep(l, gone)| <= |l|
  {
    if l != [] {
      KeepShorter(l[1..], gone);
    }
  }

  /** The elements that are gone leave no trace. */
  lemma {:induction false} KeepEmpty(l: seq<nat>, gone: set<nat>)
    requires Keep(l, gone) == []
    ensures forall i :: 0 <= i < |l| ==> l[i] in gone
  {
    if l != [] {
      KeepEmpty(l[1..], gone);
      assert forall i :: 0 < i < |l| ==> l[i] == l[1..][i - 1];
    }
  }

  lemma {:induction false} KeepSame(l: seq<nat>, a: set<nat>, b: set<nat>)
    requires forall i :: 0 <= i < |l| ==> (l[i] in a <==> l[i] in b)
    ensures Keep(l, a) == Keep(l, b)
  {
    if l != [] {
      assert forall i :: 0 <= i < |l[1..]| ==> l[1..][i] == l[i + 1];
      KeepSame(l[1..], a, b);
    }
  }

  /** The record of a pass: the list at its start, how far it got in that list, the sockets it passed over,
      those it visited, the memory before each turn and at the end, and what had been unlinked by then. */
  datatype Pass = Pass(start: seq<nat>, at: nat, skipped: set<nat>, visited: seq<nat>, states: seq<Mem>,
                       before: seq<set<nat>>)

  function NewPass(l: seq<nat>, m: Mem): (pass: Pass) {
    Pass(l, 0, {}, [], [m], [{}])
  }

  /** The turn at which a pass gets to position `p` of its list. */
  function TurnOf(start: seq<nat>, skipped: set<nat>, p: nat): (k: nat)
    requires p <= |start|
  {
    |Keep(start[..p], skipped)|
  }

  /** The first `at` sockets are passed over exactly when they have been unlinked before their turn. */
  ghost predicate Exact(start: seq<nat>, at: nat, skipped: set<nat>, before: seq<set<nat>>)
    requires at <= |start|
  {
    forall p :: 0 <= p < at ==> ExactAt(start, skipped, before, p)
  }

  ghost predicate ExactAt(start: seq<nat>, skipped: set<nat>, before: seq<set<nat>>, p: nat)
    requires p < |start|
  {
    var k := TurnOf(start, skipped, p);
    k < |before| && (start[p] in skipped <==> start[p] in before[k])
  }

  ghost predicate PassOk(pass: Pass, rest: seq<nat>) {
    && Distinct(pass.start) && pass.at <= |pass.start| && |pass.before| == |pass.visited| + 1
    && rest == Keep(pass.start[pass.at..], pass.before[|pass.visited|])
    && pass.visited == Keep(pass.start[..pass.at], pass.skipped)
    && (forall p :: pass.at <= p < |pass.start| ==> pass.start[p] !in pass.skipped)
    && Exact(pass.start, pass.at, pass.skipped, pass.before)
  }

  /** The pass visited, in list order and once each, exactly the sockets present at its start that had not
      been unlinked when their turn came, and nothing else. */
  ghost predicate Complete(pass: Pass, start: seq<nat>) {
    && pass.start == start && pass.visited == Keep(start, pass.skipped) && |pass.before| == |pass.visited| + 1
    && Exact(start, |start|, pass.skipped, pass.before)
  }

  // ----- the memory along a pass -----

  function TimeoutOf(m: Mem, s: nat): (t: nat) {
    if s in m.sockets then m.sockets[s].timeout else 0
  }

  /** The visited sockets whose counter was one when their turn came. */
  function Expired(visited: seq<nat>, states: seq<Mem>): (r: seq<nat>)
    requires |visited| <= |states|
  {
    if visited == [] then []
    else
      var n := |visited| - 1;
      Expired(visited[..n], states) + if TimeoutOf(states[n], visited[n]) == 1 then [visited[n]] else []
  }

  /** The operations of the callback that comes after `n` others. */
  function CallbackAt(callbacks: seq<seq<Op>>, n: nat): (ops: seq<Op>) {
    if n < |callbacks| then callbacks[n] else []
  }

  /** Turn `i` of a pass. */
  ghost predicate TurnAt(c: nat, callbacks: seq<seq<Op>>, visited: seq<nat>, states: seq<Mem>, before: seq<set<nat>>,
                         i: nat)
    requires |states| == |before| == |visited| + 1 && i < |visited|
  {
    var ops := CallbackAt(callbacks, |Expired(visited[..i], states)|);
    && AtSocket(states[i], c) && visited[i] == SocketAtCursor(states[i], c)
    && states[i + 1] == Turn(states[i], c, ops)
    && before[i + 1] == before[i] + TurnUnlinks(states[i], c, ops)
  }

  /** The record follows the turns from memory `m` on, where the sweep stands at the head of the list. */
  ghost predicate Traced(pass: Pass, m: Mem, c: nat, callbacks: seq<seq<Op>>) {
    && |pass.states| == |pass.before| == |pass.visited| + 1
    && c in m.contexts && pass.states[0] == Advanced(m, c, m.contexts[c].head) && pass.before[0] == {}
    && forall i :: 0 <= i < |pass.visited| ==> TurnAt(c, callbacks, pass.visited, pass.states, pass.before, i)
  }

  ghost function Now(pass: Pass): (m: Mem)
    requires |pass.states| == |pass.visited| + 1
  {
    pass.states[|pass.visited|]
  }

  lemma {:induction false} ExpiredSame(visited: seq<nat>, states: seq<Mem>, states': seq<Mem>)
    requires |visited| <= |states| <= |states'| && states == states'[..|states|]
    ensures Expired(visited, states') == Expired(visited, states)
  {
    if visited != [] {
      ExpiredSame(visited[..|visited| - 1], states, states');
    }
  }

  lemma {:induction false} ExpiredMore(visited: seq<nat>, states: seq<Mem>, s: nat, m': Mem)
    requires |states| == |visited| + 1
    ensures Expired(visited + [s], states + [m'])
         == Expired(visited, states) + if TimeoutOf(states[|visited|], s) == 1 then [s] else []
  {
    assert (visited + [s])[..|visited|] == visited;
    ExpiredSame(visited, states, states + [m']);
  }

  lemma {:induction false} TurnAtSame(c: nat, callbacks: seq<seq<Op>>, visited: seq<nat>, states: seq<Mem>,
                                      before: seq<set<nat>>, s: nat, m': Mem, gone: set<nat>, i: nat)
    requires |states| == |before| == |visited| + 1 && i < |visited|
    requires TurnAt(c, callbacks, visited, states, before, i)
    ensures TurnAt(c, callbacks, visited + [s], states + [m'], before + [gone], i)
  {
    assert (visited + [s])[..i] == visited[..i];
    ExpiredSame(visited[..i], states, states + [m']);
  }

  /** One more turn. */
  lemma {:induction false} TracedMore(pass: Pass, m: Mem, c: nat, callbacks: seq<seq<Op>>, ops: seq<Op>, pass': Pass)
    requires Traced(pass, m, c, callbacks) && AtSocket(Now(pass), c)
    requires ops == CallbackAt(callbacks, |Expired(pass.visited, pass.states)|)
    requires pass'.visited == pass.visited + [SocketAtCursor(Now(pass), c)]
    requires pass'.states == pass.states + [Turn(Now(pass), c, ops)]
    requires pass'.before == pass.before + [pass.before[|pass.visited|] + TurnUnlinks(Now(pass), c, ops)]
    ensures Traced(pass', m, c, callbacks)
  {
    var n := |pass.visited|;
    forall i | 0 <= i < |pass'.visited|
      ensures TurnAt(c, callbacks, pass'.visited, pass'.states, pass'.before, i)
    {
      if i < n {
        TurnAtSame(c, callbacks, pass.visited, pass.states, pass.before, pass'.visited[n], pass'.states[n + 1],
                   pass'.before[n + 1], i);
      } else {
        assert pass'.visited[..n] == pass.visited;
        ExpiredSame(pass.visited, pass.states, pass'.states);
      }
    }
  }

  // ----- the list along a pass -----

  lemma {:induction false} FirstTurn(l: seq<nat>, m: Mem)
    requires Distinct(l)
    ensures PassOk(NewPass(l, m), l)
  {
    KeepAll(l);
    assert l[0..] == l;
  }

  /** Where the next socket to visit stood at the start. */
  lemma {:induction false} FindTurn(l: seq<nat>, at: nat, gone: set<nat>) returns (q: nat)
    requires at <= |l| && Keep(l[at..], gone) != []
    ensures at <= q < |l| && l[q] !in gone && Keep(l[at..], gone) == [l[q]] + Keep(l[q + 1..], gone)
    ensures forall i :: at <= i < q ==> l[i] in gone
    decreases |l| - at
  {
    assert l[at..][1..] == l[at + 1..];
    if l[at] in gone {
      q := FindTurn(l, at + 1, gone);
    } else {
      q := at;
    }
  }

  ghost function Between(l: seq<nat>, a: nat, b: nat): (r: set<nat>)
    requires a <= b <= |l|
  {
    set i | a <= i < b :: l[i]
  }

  /** Passing over what is gone and stopping at position `q` keeps the account exact. */
  lemma {:induction false} ExactMore(l: seq<nat>, at: nat, q: nat, skipped: set<nat>,
                                     before: seq<set<nat>>, more: set<nat>)
    requires Distinct(l) && at <= q <= |l| && Exact(l, at, skipped, before) && |before| > 0
    requires |before| == |Keep(l[..at], skipped)| + 1
    requires forall p :: at <= p < |l| ==> l[p] !in skipped
    requires forall p :: at <= p < q ==> l[p] in before[|before| - 1]
    ensures (var all := skipped + Between(l, at, q);
             && Keep(l[..q], all) == Keep(l[..at], skipped)
             && Exact(l, q, all, before) && Exact(l, q, all, before + [more])
             && (forall p :: q <= p < |l| ==> l[p] !in all))
  {
    var all := skipped + Between(l, at, q);
    forall p | at <= p <= q
      ensures Keep(l[..p], all) == Keep(l[..at], skipped)
    {
      PassedOver(l, at, p, q, skipped);
    }
    forall p | 0 <= p < q
      ensures ExactAt(l, all, before, p) && ExactAt(l, all, before + [more], p)
    {
      if p < at {
        assert ExactAt(l, skipped, before, p);
        forall i | 0 <= i < p
          ensures l[..p][i] in skipped <==> l[..p][i] in all
        {
        }
        KeepSame(l[..p], skipped, all);
      }
    }
  }

  lemma {:induction false} PassedOver(l: seq<nat>, at: nat, p: nat, q: nat, skipped: set<nat>)
    requires Distinct(l) && at <= p <= q <= |l|
    ensures Keep(l[..p], skipped + Between(l, at, q)) == Keep(l[..at], skipped)
  {
    var all := skipped + Between(l, at, q);
    assert l[..p] == l[..at] + l[at..p];
    KeepConcat(l[..at], l[at..p], all);
    forall i | 0 <= i < at
      ensures l[..at][i] in skipped <==> l[..at][i] in all
    {
    }
    KeepSame(l[..at], skipped, all);
    KeepGone(l[at..p], all);
  }

  /** The next socket visited, and what its turn took out. */
  lemma {:induction false} TakeTurn(pass: Pass, rest: seq<nat>, removed: set<nat>, m': Mem) returns (pass': Pass)
    requires PassOk(pass, rest) && rest != []
    ensures PassOk(pass', Keep(rest[1..], removed)) && pass'.start == pass.start
    ensures pass'.visited == pass.visited + [rest[0]] && pass'.states == pass.states + [m']
    ensures pass'.before == pass.before + [pass.before[|pass.visited|] + removed]
  {
    var l, n := pass.start, |pass.visited|;
    var gone := pass.before[n];
    var q := FindTurn(l, pass.at, gone);
    var all := pass.skipped + Between(l, pass.at, q);
    pass' := Pass(l, q + 1, all, pass.visited + [rest[0]], pass.states + [m'], pass.before + [gone + removed]);
    assert rest[1..] == Keep(l[q + 1..], gone);
    KeepTwice(l[q + 1..], gone, removed);
    ExactMore(l, pass.at, q, pass.skipped, pass.before, gone + removed);
    StopAt(l, q, all, pass.before, gone + removed);
  }

  /** Stopping at a socket that is still there. */
  lemma {:induction false} StopAt(l: seq<nat>, q: nat, all: set<nat>, before: seq<set<nat>>, more: set<nat>)
    requires q < |l| && l[q] !in all && |before| == |Keep(l[..q], all)| + 1 && l[q] !in before[|before| - 1]
    requires Exact(l, q, all, before + [more])
    ensures Keep(l[..q + 1], all) == Keep(l[..q], all) + [l[q]] && Exact(l, q + 1, all, before + [more])
  {
    assert l[..q + 1] == l[..q] + [l[q]];
    KeepConcat(l[..q], [l[q]], all);
    assert Keep([l[q]], all) == [l[q]] + Keep([], all);
    assert ExactAt(l, all, before + [more], q);
  }

  lemma {:induction false} KeepGone(l: seq<nat>, gone: set<nat>)
    requires forall i :: 0 <= i < |l| ==> l[i] in gone
    ensures Keep(l, gone) == []
  {
    if l != [] {
      assert forall i :: 0 <= i < |l[1..]| ==> l[1..][i] == l[i + 1];
      KeepGone(l[1..], gone);
    }
  }

  lemma {:induction false} AllGone(l: seq<nat>, at: nat, gone: set<nat>)
    requires at <= |l| && Keep(l[at..], gone) == []
    ensures forall p :: at <= p < |l| ==> l[p] in gone
  {
    KeepEmpty(l[at..], gone);
    assert forall p :: at <= p < |l| ==> l[p] == l[at..][p - at];
  }

  /** The end of the list: what is left of it is gone. */
  lemma {:induction false} LastTurn(pass: Pass) returns (pass': Pass)
    requires PassOk(pass, [])
    ensures Complete(pass', pass.start)
    ensures pass' == pass.(at := |pass.start|, skipped := pass'.skipped)
  {
    var l := pass.start;
    AllGone(l, pass.at, pass.before[|pass.visited|]);
    ExactMore(l, pass.at, |l|, pass.skipped, pass.before, {});
    assert l[..|l|] == l;
    pass' := pass.(at := |l|, skipped := pass.skipped + Between(l, pass.at, |l|));
  }

  // ----- what a pass amounts to -----

  /** No socket is visited twice, none that was not in the list at the start is visited, and one that was is
      visited if and only if it had not been unlinked before its turn. */
  lemma {:induction false} VisitedOnce(pass: Pass, start: seq<nat>, p: nat)
    requires Complete(pass, start) && Distinct(start) && p < |start|
    ensures Distinct(pass.visited) && forall x :: x in pass.visited ==> x in start
    ensures (var k := TurnOf(start, pass.skipped, p);
             && k < |pass.before|
             && (start[p] in pass.visited <==> start[p] !in pass.before[k])
             && (start[p] in pass.visited ==> k < |pass.visited| && pass.visited[k] == start[p]))
  {
    forall x
      ensures x in pass.visited <==> x in start && x !in pass.skipped
    {
      KeepIn(start, pass.skipped, x);
    }
    KeepDistinct(start, pass.skipped);
    assert ExactAt(start, pass.skipped, pass.before, p);
    assert start == start[..p] + [start[p]] + start[p + 1..];
    KeepConcat(start[..p] + [start[p]], start[p + 1..], pass.skipped);
    KeepConcat(start[..p], [start[p]], pass.skipped);
    assert start[p] !in pass.skipped ==> Keep([start[p]], pass.skipped) == [start[p]] + Keep([], pass.skipped);
  }

  lemma {:induction false} KeepDistinct(l: seq<nat>, gone: set<nat>)
    requires Distinct(l)
    ensures Distinct(Keep(l, gone))
  {
    if l != [] {
      KeepDistinct(l[1..], gone);
      KeepIn(l[1..], gone, l[0]);
      assert l[0] !in l[1..];
    }
  }

  // ----- passes whose callbacks do nothing -----

  /** Of the sockets in `l`, every counter that is not zero is one less; nothing else has changed. */
  ghost predicate Lowered(sockets: map<nat, Socket>, l: seq<nat>, sockets': map<nat, Socket>) {
    && sockets'.Keys == sockets.Keys
    && forall x :: x in sockets ==> LoweredOne(sockets[x], x in l, sockets'[x])
  }

  predicate LoweredOne(s: Socket, listed: bool, s': Socket) {
    s == if listed && s.timeout > 0 then s'.(timeout := s'.timeout + 1) else s'
  }

  /** The members of `l` whose counter is one. */
  function Due(m: Mem, l: seq<nat>): (r: seq<nat>) {
    if l == [] then []
    else Due(m, l[..|l| - 1]) + if TimeoutOf(m, l[|l| - 1]) == 1 then [l[|l| - 1]] else []
  }

  ghost predicate Quiet(callbacks: seq<seq<Op>>) {
    forall k :: 0 <= k < |callbacks| ==> callbacks[k] == []
  }

  lemma {:induction false} QuietTurn(m: Mem, c: nat)
    requires AtSocket(m, c)
    ensures TurnUnlinks(m, c, []) == {} && Turn(m, c, []).sockets == CountedDown(m, c).sockets
  {
  }

  lemma {:induction false} QuietBefore(pass: Pass, m: Mem, c: nat, callbacks: seq<seq<Op>>, i: nat)
    requires Traced(pass, m, c, callbacks) && Quiet(callbacks) && i <= |pass.visited|
    ensures pass.before[i] == {}
  {
    if i != 0 {
      QuietBefore(pass, m, c, callbacks, i - 1);
      assert TurnAt(c, callbacks, pass.visited, pass.states, pass.before, i - 1);
      QuietTurn(pass.states[i - 1], c);
    }
  }

  lemma {:induction false} QuietVisitsAll(pass: Pass, m: Mem, c: nat, callbacks: seq<seq<Op>>, start: seq<nat>)
    requires Traced(pass, m, c, callbacks) && Quiet(callbacks) && Complete(pass, start)
    ensures pass.visited == start
  {
    forall p | 0 <= p < |start|
      ensures start[p] !in pass.skipped
    {
      assert ExactAt(start, pass.skipped, pass.before, p);
      QuietBefore(pass, m, c, callbacks, TurnOf(start, pass.skipped, p));
    }
    KeepNone(start, pass.skipped);
  }

  lemma {:induction false} QuietStates(pass: Pass, m: Mem, c: nat, callbacks: seq<seq<Op>>, i: nat)
    requires Traced(pass, m, c, callbacks) && Quiet(callbacks) && Distinct(pass.visited) && i <= |pass.visited|
    ensures Lowered(m.sockets, pass.visited[..i], pass.states[i].sockets)
    ensures Expired(pass.visited[..i], pass.states) == Due(m, pass.visited[..i])
  {
    if i != 0 {
      QuietStates(pass, m, c, callbacks, i - 1);
      assert TurnAt(c, callbacks, pass.visited, pass.states, pass.before, i - 1);
      var before, s := pass.visited[..i - 1], pass.visited[i - 1];
      QuietTurn(pass.states[i - 1], c);
      assert pass.visited[..i] == before + [s] && pass.visited[..i][..i - 1] == before;
      LoweredMore(m.sockets, before, pass.states[i - 1].sockets, s, pass.states[i].sockets);
    }
  }

  lemma {:induction false} LoweredMore(sockets: map<nat, Socket>, l: seq<nat>, sockets1: map<nat, Socket>, s: nat,
                                       sockets2: map<nat, Socket>)
    requires Lowered(sockets, l, sockets1) && s in sockets1 && s !in l
    requires sockets2 == sockets1[s := sockets1[s].(timeout := LessOne(sockets1[s].timeout))]
    ensures Lowered(sockets, l + [s], sockets2) && sockets1[s] == sockets[s]
  {
    assert LoweredOne(sockets[s], false, sockets1[s]);
    forall x | x in sockets
      ensures LoweredOne(sockets[x], x in l + [s], sockets2[x])
    {
      assert LoweredOne(sockets[x], x in l, sockets1[x]);
    }
  }

  lemma {:induction false} DueMembers(m: Mem, l: seq<nat>, x: nat)
    ensures x in Due(m, l) <==> x in l && TimeoutOf(m, x) == 1
  {
    if l != [] {
      DueMembers(m, l[..|l| - 1], x);
      assert l == l[..|l| - 1] + [l[|l| - 1]];
    }
  }

  /** A pass whose callbacks do nothing visits the whole list, fires exactly for the counters that were one, in
      list order, and lowers every counter that was not zero by one. */
  lemma {:induction false} QuietPass(pass: Pass, m: Mem, c: nat, callbacks: seq<seq<Op>>, start: seq<nat>)
    requires Traced(pass, m, c, callbacks) && Quiet(callbacks) && Complete(pass, start) && Distinct(start)
    ensures pass.visited == start && Lowered(m.sockets, start, Now(pass).sockets)
    ensures Expired(pass.visited, pass.states) == Due(m, start)
    ensures forall x :: x in Due(m, start) <==> x in start && TimeoutOf(m, x) == 1
  {
    QuietVisitsAll(pass, m, c, callbacks, start);
    QuietStates(pass, m, c, callbacks, |start|);
    assert start[..|start|] == start;
    forall x
      ensures x in Due(m, start) <==> x in start && TimeoutOf(m, x) == 1
    {
      DueMembers(m, start, x);
    }
  }
}
