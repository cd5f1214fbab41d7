/** The event loop's operations on its sockets, as the C code updates its structs. */
module SocketLoop {
  import opened SocketLists
  import opened SocketOps
  import opened SocketSweep

  // ----- views after an operation -----

  ghost function ClosedView(v: View, c: nat, s: nat): (v': View)
  {
    if c !in v.lists || c !in v.rest then v
    else View(v.lists[c := Without(v.lists[c], s)], v.rest[c := Without(v.rest[c], s)], [s] + v.closed, v.loose)
  }

  ghost function AdoptedView(v: View, from: nat, s: nat, to: nat, id: nat): (v': View)
  {
    if from !in v.lists || from !in v.rest || to !in v.lists then v
    else
      var lists := v.lists[from := Without(v.lists[from], s)];
      View(lists[to := [id] + lists[to]], v.rest[from := Without(v.rest[from], s)], v.closed, v.loose)
  }

  ghost function OpenedView(v: View, c: nat, id: nat): (v': View)
  {
    if c !in v.lists then v else v.(lists := v.lists[c := [id] + v.lists[c]])
  }

  // ----- whole operations on memory -----

  /** How often on_close has been called for each socket that is not freed yet: only for closed ones, once. */
  ghost predicate CallsOk(sockets: map<nat, Socket>, calls: map<nat, nat>) {
    calls.Keys == sockets.Keys && forall x :: x in sockets ==> CallsOne(sockets, calls, x)
  }

  ghost predicate CallsOne(sockets: map<nat, Socket>, calls: map<nat, nat>, x: nat) {
    x in sockets && x in calls && calls[x] <= if IsClosed(sockets[x]) then 1 else 0
  }

  /** Between two operations every socket is in its context's list or on the closed list. */
  ghost predicate Good(m: Mem, v: View, calls: map<nat, nat>) {
    Ok(m, v) && v.loose == {} && CallsOk(m.sockets, calls)
  }

  /** The same sockets are closed. */
  ghost predicate SameClosed(sockets: map<nat, Socket>, sockets': map<nat, Socket>) {
    && sockets'.Keys == sockets.Keys
    && forall x :: x in sockets ==> (IsClosed(sockets'[x]) <==> IsClosed(sockets[x]))
  }

  lemma {:induction false} CallsSame(sockets: map<nat, Socket>, sockets': map<nat, Socket>, calls: map<nat, nat>)
    requires CallsOk(sockets, calls) && SameClosed(sockets, sockets')
    ensures CallsOk(sockets', calls)
  {
    forall x | x in sockets'
      ensures CallsOne(sockets', calls, x)
    {
      assert x in sockets && CallsOne(sockets, calls, x);
    }
  }

  // ----- closing -----

  lemma {:induction false} RetireReady(m: Mem, v: View, calls: map<nat, nat>, s: nat)
    requires Good(m, v, calls) && s in m.sockets && !IsClosed(m.sockets[s])
    ensures InList(m, v, s)
    ensures (var c := m.sockets[s].context; c in m.contexts && c in v.lists && c in v.rest)
    ensures Pointers(m.sockets, m.sockets[s])
  {
    OpenIsListed(m, v, s);
    Neighbours(m, v, s);
  }

  lemma {:induction false} NotCalled(m: Mem, v: View, calls: map<nat, nat>, s: nat)
    requires Good(m, v, calls) && s in m.sockets && !IsClosed(m.sockets[s])
    ensures s in calls && calls[s] == 0
  {
    assert CallsOne(m.sockets, calls, s);
  }

  /** What closing an open socket leaves behind. */
  ghost predicate ClosedTo(m: Mem, v: View, s: nat, m': Mem, v': View, calls': map<nat, nat>) {
    && Good(m', v', calls') && m'.contexts.Keys == m.contexts.Keys && m'.sockets.Keys == m.sockets.Keys
    && s in m.sockets && m' == Retired(m, s) && IsClosed(m'.sockets[s])
    && m.sockets[s].context in v.lists && m.sockets[s].context in v.rest
    && v' == ClosedView(v, m.sockets[s].context, s)
  }

  lemma {:induction false} RetireKeeps(m: Mem, v: View, calls: map<nat, nat>, s: nat, m': Mem, v': View,
                                       calls': map<nat, nat>)
    requires Good(m, v, calls) && s in m.sockets && !IsClosed(m.sockets[s])
    requires m' == Retired(m, s) && v' == ClosedView(v, m.sockets[s].context, s) && calls' == calls
    ensures ClosedTo(m, v, s, m', v', calls')
  {
    RetireReady(m, v, calls, s);
    RetireOk(m, v, s, m', v');
    UnlinkSame(m, v, s);
    RetireCalls(m, s, calls);
  }

  lemma {:induction false} RetireOk(m: Mem, v: View, s: nat, m': Mem, v': View)
    requires Ok(m, v) && v.loose == {} && s in m.sockets && InList(m, v, s) && m.sockets[s].context in m.contexts
    requires m.sockets[s].context in v.lists && m.sockets[s].context in v.rest
    requires m' == Retired(m, s) && v' == ClosedView(v, m.sockets[s].context, s)
    ensures Ok(m', v') && v'.loose == {}
  {
    UnlinkKeeps(m, v, s);
    var v1 := UnlinkedView(v, m.sockets[s].context, s);
    MarkKeeps(Unlinked(m, s), v1, s);
    assert v1.(closed := [s] + v1.closed, loose := v1.loose - {s}) == v';
  }

  lemma {:induction false} RetireCalls(m: Mem, s: nat, calls: map<nat, nat>)
    requires s in m.sockets && m.sockets[s].context in m.contexts && CallsOk(m.sockets, calls)
    requires SameClosed(m.sockets, Unlinked(m, s).sockets)
    ensures Retired(m, s).sockets.Keys == m.sockets.Keys && IsClosed(Retired(m, s).sockets[s])
    ensures CallsOk(Retired(m, s).sockets, calls)
  {
    var sockets1, sockets' := Unlinked(m, s).sockets, Retired(m, s).sockets;
    assert sockets'.Keys == sockets1.Keys && calls.Keys == m.sockets.Keys;
    forall x | x in sockets'
      ensures CallsOne(sockets', calls, x)
    {
      assert CallsOne(m.sockets, calls, x);
    }
  }

  lemma {:induction false} CalledOnce(m: Mem, v: View, calls: map<nat, nat>, s: nat, calls': map<nat, nat>)
    requires Good(m, v, calls) && s in m.sockets && IsClosed(m.sockets[s]) && calls' == calls[s := 1]
    ensures Good(m, v, calls')
  {
    assert calls'.Keys == calls.Keys;
    forall x | x in m.sockets
      ensures CallsOne(m.sockets, calls', x)
    {
      assert CallsOne(m.sockets, calls, x);
    }
  }

  // ----- adopting -----

  lemma {:induction false} AdoptReady(m: Mem, v: View, calls: map<nat, nat>, c: nat, s: nat, id: nat)
    requires Good(m, v, calls) && s in m.sockets && !IsClosed(m.sockets[s])
    requires c in m.contexts && (id == s || id !in m.sockets)
    ensures (var from := m.sockets[s].context;
             && InList(m, v, s) && from in m.contexts && from in v.lists && from in v.rest && c in v.lists
             && Pointers(m.sockets, m.sockets[s]) && s in Unlinked(m, s).sockets && c in Unlinked(m, s).contexts
             && Live(Moved(Unlinked(m, s), s, id).sockets, Unlinked(m, s).contexts[c].head))
  {
    RetireReady(m, v, calls, s);
    UnlinkKeeps(m, v, s);
    UnlinkSame(m, v, s);
    var m1, v1 := Unlinked(m, s), UnlinkedView(v, m.sockets[s].context, s);
    MoveKeeps(m1, v1, s, id);
    HeadLive(Moved(m1, s, id), v1.(loose := v1.loose - {s} + {id}), c);
  }

  /** What adopting an open socket leaves behind. */
  ghost predicate AdoptedTo(m: Mem, v: View, c: nat, s: nat, id: nat, m': Mem, v': View, calls': map<nat, nat>) {
    && Good(m', v', calls') && m'.contexts.Keys == m.contexts.Keys && m'.sockets.Keys == m.sockets.Keys - {s} + {id}
    && s in m.sockets && c in m.contexts && m' == Adopted(m, c, s, id)
    && m.sockets[s].context in v.lists && m.sockets[s].context in v.rest && c in v.lists
    && v' == AdoptedView(v, m.sockets[s].context, s, c, id)
  }

  lemma {:induction false} AdoptKeeps(m: Mem, v: View, calls: map<nat, nat>, c: nat, s: nat, id: nat, m': Mem,
                                      v': View, calls': map<nat, nat>)
    requires Good(m, v, calls) && s in m.sockets && !IsClosed(m.sockets[s])
    requires c in m.contexts && (id == s || id !in m.sockets)
    requires m' == Adopted(m, c, s, id) && v' == AdoptedView(v, m.sockets[s].context, s, c, id)
    requires calls' == (calls - {s})[id := 0]
    ensures AdoptedTo(m, v, c, s, id, m', v', calls')
  {
    AdoptReady(m, v, calls, c, s, id);
    UnlinkKeeps(m, v, s);
    UnlinkSame(m, v, s);
    var m1, v1 := Unlinked(m, s), UnlinkedView(v, m.sockets[s].context, s);
    AdoptOk(m1, v1, v, c, s, id, m', v');
    AdoptSame(m1, v1, c, s, id, m');
    AdoptCalls(m.sockets, m1.sockets, m'.sockets, s, id, calls, calls');
  }

  lemma {:induction false} AdoptOk(m1: Mem, v1: View, v: View, c: nat, s: nat, id: nat, m': Mem, v': View)
    requires Ok(m1, v1) && v.loose == {} && s in m1.sockets && c in m1.contexts && (id == s || id !in m1.sockets)
    requires m1.sockets[s].context in v.lists && m1.sockets[s].context in v.rest && c in v.lists
    requires v1 == UnlinkedView(v, m1.sockets[s].context, s)
    requires m' == LinkedIn(Moved(m1, s, id), c, id) && v' == AdoptedView(v, m1.sockets[s].context, s, c, id)
    ensures Ok(m', v') && v'.loose == {}
  {
    MoveKeeps(m1, v1, s, id);
    var v2 := v1.(loose := v1.loose - {s} + {id});
    LinkKeeps(Moved(m1, s, id), v2, c, id);
    assert LinkedView(v2, c, id) == v';
  }

  lemma {:induction false} AdoptSame(m1: Mem, v1: View, c: nat, s: nat, id: nat, m': Mem)
    requires Ok(m1, v1) && s in v1.loose && s in m1.sockets && c in m1.contexts && (id == s || id !in m1.sockets)
    requires m' == LinkedIn(Moved(m1, s, id), c, id)
    ensures m'.contexts.Keys == m1.contexts.Keys && SameClosed(Moved(m1, s, id).sockets, m'.sockets)
  {
    MoveKeeps(m1, v1, s, id);
    LinkOpen(Moved(m1, s, id), v1.(loose := v1.loose - {s} + {id}), c, id);
  }

  /** Linking closes nothing. */
  lemma {:induction false} LinkOpen(m: Mem, v: View, c: nat, s: nat)
    requires Ok(m, v) && s in v.loose && c in m.contexts && s in m.sockets
    ensures LinkedIn(m, c, s).contexts.Keys == m.contexts.Keys && SameClosed(m.sockets, LinkedIn(m, c, s).sockets)
  {
    var m', head := LinkedIn(m, c, s), m.contexts[c].head;
    assert Loose(m, v, s);
    HeadOpen(m, v, c);
    LinkKeys(m, c, s);
    forall x | x in m.sockets
      ensures IsClosed(m'.sockets[x]) <==> IsClosed(m.sockets[x])
    {
      LinkOpenOne(m, c, s, x);
    }
  }

  lemma {:induction false} LinkOpenOne(m: Mem, c: nat, s: nat, x: nat)
    requires c in m.contexts && s in m.sockets && x in m.sockets && !IsClosed(m.sockets[s])
    requires (var head := m.contexts[c].head; head.SocketAt? ==> head.s in m.sockets && !IsClosed(m.sockets[head.s]))
    ensures x in LinkedIn(m, c, s).sockets && (IsClosed(LinkedIn(m, c, s).sockets[x]) <==> IsClosed(m.sockets[x]))
  {
  }

  lemma {:induction false} LinkKeys(m: Mem, c: nat, s: nat)
    requires c in m.contexts && s in m.sockets
    ensures LinkedIn(m, c, s).sockets.Keys == m.sockets.Keys && LinkedIn(m, c, s).contexts.Keys == m.contexts.Keys
  {
    assert LinkedIn(m, c, s).sockets.Keys == m.sockets.Keys;
    assert LinkedIn(m, c, s).contexts.Keys == m.contexts.Keys;
  }

  lemma {:induction false} HeadOpen(m: Mem, v: View, c: nat)
    requires Ok(m, v) && c in m.contexts
    ensures (var head := m.contexts[c].head;
             head.Null? || (head.SocketAt? && head.s in m.sockets && !IsClosed(m.sockets[head.s])))
  {
    assert ContextOk(m, v, c);
    if v.lists[c] != [] {
      Apart(m, v, c, v.lists[c][0]);
    }
  }

  lemma {:induction false} AdoptCalls(sockets: map<nat, Socket>, sockets1: map<nat, Socket>, sockets': map<nat, Socket>,
                                      s: nat, id: nat, calls: map<nat, nat>, calls': map<nat, nat>)
    requires CallsOk(sockets, calls) && SameClosed(sockets, sockets1) && s in sockets1 && (id == s || id !in sockets)
    requires SameClosed((sockets1 - {s})[id := sockets1[s]], sockets') && calls' == (calls - {s})[id := 0]
    ensures sockets'.Keys == sockets.Keys - {s} + {id} && CallsOk(sockets', calls')
  {
    var sockets2 := (sockets1 - {s})[id := sockets1[s]];
    assert sockets2.Keys == sockets1.Keys - {s} + {id};
    assert calls'.Keys == calls.Keys - {s} + {id};
    forall x | x in sockets'
      ensures CallsOne(sockets', calls', x)
    {
      if x != id {
        assert x in sockets2 && sockets2[x] == sockets1[x] && CallsOne(sockets, calls, x);
      }
    }
  }

  // ----- opening, timeouts, freeing -----

  lemma {:induction false} CreateKeeps(m: Mem, v: View, c: nat, id: nat)
    requires Ok(m, v) && v.loose == {} && c in m.contexts && id !in m.sockets
    ensures Ok(Created(m, c, id), v.(loose := {id}))
  {
    var m', v' := Created(m, c, id), v.(loose := {id});
    FrameContexts(m, v, m', v');
    forall i | 0 <= i < |v.closed|
      ensures Same(m.sockets, m'.sockets, v.closed[i])
    {
      ClosedApart(m, v, v.closed[i]);
    }
    ClosedFrame(m.sockets, m'.sockets, v.closed);
    if id in v.lists[c] {
      Apart(m, v, c, id);
    }
    if id in v.closed {
      ClosedApart(m, v, id);
    }
    assert Loose(m', v', id);
  }

  lemma {:induction false} OpenKeeps(m: Mem, v: View, calls: map<nat, nat>, c: nat, id: nat, m': Mem, v': View,
                                     calls': map<nat, nat>)
    requires Good(m, v, calls) && c in m.contexts && id !in m.sockets && c in v.lists
    requires m' == LinkedIn(Created(m, c, id), c, id) && v' == OpenedView(v, c, id) && calls' == calls[id := 0]
    ensures Good(m', v', calls') && m'.contexts.Keys == m.contexts.Keys && m'.sockets.Keys == m.sockets.Keys + {id}
  {
    CreateKeeps(m, v, c, id);
    var m1, v1 := Created(m, c, id), v.(loose := {id});
    LinkKeeps(m1, v1, c, id);
    assert LinkedView(v1, c, id) == v';
    LinkOpen(m1, v1, c, id);
    OpenCalls(m.sockets, m1.sockets, id, calls);
    CallsSame(m1.sockets, m'.sockets, calls');
  }

  lemma {:induction false} OpenCalls(sockets: map<nat, Socket>, sockets1: map<nat, Socket>, id: nat, calls: map<nat,
                                     nat>)
    requires CallsOk(sockets, calls) && id !in sockets && id in sockets1 && sockets1 == sockets[id := sockets1[id]]
    ensures CallsOk(sockets1, calls[id := 0]) && sockets1.Keys == sockets.Keys + {id}
  {
    assert sockets1.Keys == sockets.Keys + {id};
    assert calls[id := 0].Keys == calls.Keys + {id};
    forall x | x in sockets1
      ensures CallsOne(sockets1, calls[id := 0], x)
    {
      assert x != id ==> CallsOne(sockets, calls, x);
    }
  }

  lemma {:induction false} TimeoutKeeps(m: Mem, v: View, calls: map<nat, nat>, s: nat, t: nat, m': Mem)
    requires Good(m, v, calls) && s in m.sockets && m' == m.(sockets := m.sockets[s := m.sockets[s].(timeout := t)])
    ensures Good(m', v, calls) && m'.sockets.Keys == m.sockets.Keys
  {
    assert m'.sockets.Keys == m.sockets.Keys;
    FrameContexts(m, v, m', v);
    forall i | 0 <= i < |v.closed|
      ensures Same(m.sockets, m'.sockets, v.closed[i])
    {
      ClosedApart(m, v, v.closed[i]);
    }
    ClosedFrame(m.sockets, m'.sockets, v.closed);
    TimeoutPlaced(m, v, s, t, m');
    CallsSame(m.sockets, m'.sockets, calls);
  }

  lemma {:induction false} TimeoutPlaced(m: Mem, v: View, s: nat, t: nat, m': Mem)
    requires Ok(m, v) && v.loose == {} && s in m.sockets
    requires m' == m.(sockets := m.sockets[s := m.sockets[s].(timeout := t)])
    ensures Placed(m', v) && LooseOk(m', v)
  {
    forall x | x in m'.sockets
      ensures x in v.loose || x in v.closed || InList(m', v, x)
    {
      assert x in m.sockets && m'.sockets[x].context == m.sockets[x].context;
    }
  }

  ghost function Ids(l: seq<nat>): (ids: set<nat>) {
    set i | 0 <= i < |l| :: l[i]
  }

  lemma {:induction false} FreeKeeps(m: Mem, v: View, calls: map<nat, nat>, m': Mem, v': View, calls': map<nat, nat>)
    requires Good(m, v, calls)
    requires m' == Mem(m.sockets - Ids(v.closed), m.contexts, Null)
    requires v' == v.(closed := []) && calls' == calls - Ids(v.closed)
    ensures Good(m', v', calls')
  {
    forall x | x in m.sockets && InList(m, v, x)
      ensures Same(m.sockets, m'.sockets, x)
    {
      if x in v.closed {
        ClosedApart(m, v, x);
      }
    }
    FrameContexts(m, v, m', v');
    assert calls'.Keys == m'.sockets.Keys;
    forall x | x in m'.sockets
      ensures CallsOne(m'.sockets, calls', x)
    {
      assert CallsOne(m.sockets, calls, x);
    }
    FreePlaced(m, v, m', v');
  }

  lemma {:induction false} FreePlaced(m: Mem, v: View, m': Mem, v': View)
    requires Ok(m, v) && v.loose == {} && m' == Mem(m.sockets - Ids(v.closed), m.contexts, Null)
    requires v' == v.(closed := [])
    ensures Placed(m', v') && LooseOk(m', v')
  {
    forall x | x in m'.sockets
      ensures InList(m', v', x)
    {
      assert x in m.sockets && x !in v.closed && m'.sockets[x] == m.sockets[x];
    }
  }

  ghost predicate ContextAdded(m: Mem, v: View, c: nat, m': Mem, v': View, calls': map<nat, nat>) {
    && Good(m', v', calls') && m'.contexts == m.contexts[c := Context(Null, Null)] && m'.sockets == m.sockets
    && v' == v.(lists := v.lists[c := []], rest := v.rest[c := []])
  }

  lemma {:induction false} AddContextKeeps(m: Mem, v: View, calls: map<nat, nat>, c: nat, m': Mem, v': View)
    requires Good(m, v, calls) && c !in m.contexts && m' == m.(contexts := m.contexts[c := Context(Null, Null)])
    requires v' == v.(lists := v.lists[c := []], rest := v.rest[c := []])
    ensures ContextAdded(m, v, c, m', v', calls)
  {
    AddContextKeys(m, v, c);
    forall d | d in m'.contexts
      ensures ContextOk(m', v', d)
    {
      assert d != c ==> ContextOk(m, v, d);
      AddContextOne(m, v, c, d);
    }
    AddContextPlaces(m, v, c, m', v');
  }

  lemma {:induction false} AddContextKeys(m: Mem, v: View, c: nat)
    requires v.lists.Keys == v.rest.Keys == m.contexts.Keys
    ensures v.lists[c := []].Keys == v.rest[c := []].Keys
            == m.contexts[c := Context(Null, Null)].Keys == m.contexts.Keys + {c}
  {
    assert v.lists[c := []].Keys == v.lists.Keys + {c};
    assert v.rest[c := []].Keys == v.rest.Keys + {c};
    assert m.contexts[c := Context(Null, Null)].Keys == m.contexts.Keys + {c};
  }

  lemma {:induction false} AddContextOne(m: Mem, v: View, c: nat, d: nat)
    requires d != c ==> d in m.contexts && d in v.lists && d in v.rest && ContextOk(m, v, d)
    ensures ContextOk(m.(contexts := m.contexts[c := Context(Null, Null)]),
                      v.(lists := v.lists[c := []], rest := v.rest[c := []]), d)
  {
  }

  lemma {:induction false} AddContextPlaces(m: Mem, v: View, c: nat, m': Mem, v': View)
    requires Ok(m, v) && v.loose == {} && c !in v.lists && m'.sockets == m.sockets && m'.closedHead == m.closedHead
    requires v'.lists == v.lists[c := []] && v'.closed == v.closed && v'.loose == v.loose
    ensures ClosedOk(m', v') && Placed(m', v') && LooseOk(m', v')
  {
    forall x | x in m'.sockets
      ensures x in v'.loose || x in v'.closed || InList(m', v', x)
    {
      assert x in v.closed || InList(m, v, x);
    }
  }

  lemma {:induction false} CursorKeeps(m: Mem, v: View, calls: map<nat, nat>, c: nat, r: seq<nat>, m': Mem, v': View)
    requires Good(m, v, calls) && c in m.contexts && c in v.lists && c in v.rest && IsSuffix(r, v.lists[c])
    requires m' == Advanced(m, c, First(r)) && v' == v.(rest := v.rest[c := r])
    ensures CursorMoved(m, v, m', v', calls, c, r)
  {
    CursorKeys(m, v, c, r);
    forall d | d in m'.contexts
      ensures ContextOk(m', v', d)
    {
      assert ContextOk(m, v, d);
      CursorContext(m, v, c, r, d);
    }
    CursorPlaces(m, v, m', v');
  }

  lemma {:induction false} CursorKeys(m: Mem, v: View, c: nat, r: seq<nat>)
    requires c in m.contexts && c in v.rest
    ensures Advanced(m, c, First(r)).contexts.Keys == m.contexts.Keys && v.rest[c := r].Keys == v.rest.Keys
  {
    assert Advanced(m, c, First(r)).contexts.Keys == m.contexts.Keys;
    assert v.rest[c := r].Keys == v.rest.Keys;
  }

  lemma {:induction false} CursorContext(m: Mem, v: View, c: nat, r: seq<nat>, d: nat)
    requires c in m.contexts && c in v.lists && c in v.rest && IsSuffix(r, v.lists[c])
    requires d in m.contexts && d in v.lists && d in v.rest && ContextOk(m, v, d)
    ensures ContextOk(Advanced(m, c, First(r)), v.(rest := v.rest[c := r]), d)
  {
  }

  lemma {:induction false} CursorPlaces(m: Mem, v: View, m': Mem, v': View)
    requires Ok(m, v) && v.loose == {} && m'.sockets == m.sockets && m'.closedHead == m.closedHead
    requires v' == v.(rest := v'.rest)
    ensures ClosedOk(m', v') && Placed(m', v') && LooseOk(m', v')
  {
    forall x | x in m'.sockets
      ensures x in v'.loose || x in v'.closed || InList(m', v', x)
    {
      assert x in v.closed || InList(m, v, x);
    }
  }

  /** Where a sweep stands. */
  lemma {:induction false} AtCursor(m: Mem, v: View, c: nat)
    requires Ok(m, v) && c in m.contexts
    ensures c in v.rest && c in v.lists && m.contexts[c].cursor == First(v.rest[c]) && Distinct(v.rest[c])
    ensures v.rest[c] != [] ==> (var s := v.rest[c][0];
                                 s in m.sockets && m.sockets[s].next == First(v.rest[c][1..])
                                 && IsSuffix(v.rest[c][1..], v.lists[c]) && m.sockets[s].context == c)
  {
    assert ContextOk(m, v, c);
    var l, r := v.lists[c], v.rest[c];
    var k := |l| - |r|;
    assert forall i :: 0 <= i < |r| ==> r[i] == l[k + i];
    if r != [] {
      assert Linked(m.sockets, c, l, k) && l[k] == r[0];
      assert r[1..] == l[k + 1..];
      assert NextOf(l, k) == First(r[1..]);
    }
  }

  // ----- the loop -----

  class Loop {
    var sockets: map<nat, Socket>
    var contexts: map<nat, Context>
    var closedHead: Ptr
    ghost var view: View
    ghost var calls: map<nat, nat>

    ghost function M(): (m: Mem)
      reads this
    {
      Mem(sockets, contexts, closedHead)
    }

    ghost predicate Valid()
      reads this
    {
      Good(M(), view, calls)
    }

    constructor ()
      ensures Valid() && sockets == map[] && contexts == map[]
    {
      sockets, contexts, closedHead := map[], map[], Null;
      view, calls := View(map[], map[], [], {}), map[];
    }

    /** A new context without sockets. */
    method AddContext(c: nat)
      requires Valid() && c !in contexts
      modifies this`contexts, this`view
      ensures ContextAdded(old(M()), old(view), c, M(), view, calls)
    {
      ghost var m, v := M(), view;
      contexts := contexts[c := Context(Null, Null)];
      view := v.(lists := v.lists[c := []], rest := v.rest[c := []]);
      AddContextKeeps(m, v, calls, c, M(), view);
    }

    /** Takes a socket out of its context's list and moves a sweep that stands at it on. */
    method Unlink(s: nat)
      requires s in sockets && sockets[s].context in contexts && Pointers(sockets, sockets[s])
      modifies this`sockets, this`contexts
      ensures M() == Unlinked(old(M()), s)
    {
      var rec := sockets[s];
      var c := rec.context;
      if contexts[c].cursor == SocketAt(s) {
        contexts := contexts[c := contexts[c].(cursor := rec.next)];
      }
      if rec.prev == rec.next {
        contexts := contexts[c := contexts[c].(head := Null)];
      } else {
        if rec.prev != Null {
          sockets := sockets[rec.prev.s := sockets[rec.prev.s].(next := rec.next)];
        } else {
          contexts := contexts[c := contexts[c].(head := rec.next)];
        }
        if rec.next != Null {
          sockets := sockets[rec.next.s := sockets[rec.next.s].(prev := rec.prev)];
        }
      }
    }

    /** Puts a socket at the front of a context's list. */
    method Link(c: nat, s: nat)
      requires s in sockets && c in contexts && Live(sockets, contexts[c].head)
      modifies this`sockets, this`contexts
      ensures M() == LinkedIn(old(M()), c, s)
    {
      sockets := sockets[s := sockets[s].(context := c, timeout := 0)];
      sockets := sockets[s := sockets[s].(next := contexts[c].head, prev := Null)];
      if contexts[c].head != Null {
        var head := contexts[c].head.s;
        sockets := sockets[head := sockets[head].(prev := SocketAt(s))];
      }
      contexts := contexts[c := contexts[c].(head := SocketAt(s))];
    }

    /** Unlinks a socket and leaves it on the list of closed ones. */
    method Retire(s: nat)
      requires Valid() && s in sockets && !IsClosed(sockets[s])
      modifies this`sockets, this`contexts, this`closedHead
      ensures M() == Retired(old(M()), s)
    {
      RetireReady(M(), view, calls, s);
      RetireFields(s);
    }

    method RetireFields(s: nat)
      requires s in sockets && sockets[s].context in contexts && Pointers(sockets, sockets[s])
      modifies this`sockets, this`contexts, this`closedHead
      ensures M() == Retired(old(M()), s)
    {
      BridgedSame(sockets, sockets[s].prev, sockets[s].next, s);
      Unlink(s);
      sockets := sockets[s := sockets[s].(next := closedHead)];
      closedHead := SocketAt(s);
      sockets := sockets[s := sockets[s].(prev := ContextAt(sockets[s].context))];
    }

    /** Closes a socket, unless that has happened, and calls on_close. */
    method Close(s: nat) returns (called: bool)
      requires Valid() && s in sockets
      modifies this
      ensures Valid() && contexts.Keys == old(contexts).Keys
      ensures sockets.Keys == old(sockets).Keys && IsClosed(sockets[s])
      ensures called == !IsClosed(old(sockets)[s])
      ensures !called ==> M() == old(M()) && view == old(view) && calls == old(calls)
      ensures called ==> old(sockets)[s].context in old(view).lists && old(sockets)[s].context in old(view).rest
                         && M() == Retired(old(M()), s) && view == ClosedView(old(view), old(sockets)[s].context, s)
                         && old(calls)[s] == 0 && calls == old(calls)[s := 1]
    {
      called := !IsClosed(sockets[s]);
      if called {
        NotCalled(M(), view, calls, s);
        RetireOpen(s);
        OnClose(s);
      }
    }

    /** Calls on_close for a socket that has just been closed. */
    method OnClose(s: nat)
      requires Valid() && s in sockets && IsClosed(sockets[s]) && s in calls && calls[s] == 0
      modifies this`calls
      ensures Valid() && calls == old(calls)[s := 1]
    {
      ghost var k := calls;
      calls := k[s := k[s] + 1];
      CalledOnce(M(), view, k, s, calls);
    }

    /** Closes a listen socket; there is no callback. */
    method CloseListen(s: nat)
      requires Valid() && s in sockets
      modifies this`sockets, this`contexts, this`closedHead, this`view
      ensures Valid() && contexts.Keys == old(contexts).Keys
      ensures sockets.Keys == old(sockets).Keys && IsClosed(sockets[s])
      ensures IsClosed(old(sockets)[s]) ==> M() == old(M()) && view == old(view)
      ensures !IsClosed(old(sockets)[s]) ==>
                && old(sockets)[s].context in old(view).lists && old(sockets)[s].context in old(view).rest
                && M() == Retired(old(M()), s) && view == ClosedView(old(view), old(sockets)[s].context, s)
    {
      if !IsClosed(sockets[s]) {
        RetireOpen(s);
      }
    }

    method RetireOpen(s: nat)
      requires Valid() && s in sockets && !IsClosed(sockets[s])
      modifies this`sockets, this`contexts, this`closedHead, this`view
      ensures ClosedTo(old(M()), old(view), s, M(), view, calls)
    {
      ghost var m, v, k := M(), view, calls;
      Retire(s);
      view := ClosedView(v, m.sockets[s].context, s);
      RetireKeeps(m, v, k, s, M(), view, calls);
    }

    /** Moves an open socket to another context, where it may get another address. */
    method Adopt(c: nat, s: nat, id: nat) returns (r: nat)
      requires Valid() && s in sockets && c in contexts && (id == s || id !in sockets)
      modifies this`sockets, this`contexts, this`view, this`calls
      ensures IsClosed(old(sockets)[s]) ==> r == s && M() == old(M()) && view == old(view) && calls == old(calls)
      ensures !IsClosed(old(sockets)[s]) ==> r == id && AdoptedTo(old(M()), old(view), c, s, id, M(), view, calls)
    {
      if IsClosed(sockets[s]) {
        return s;
      }
      AdoptOpen(c, s, id);
      r := id;
    }

    method AdoptOpen(c: nat, s: nat, id: nat)
      requires Valid() && s in sockets && !IsClosed(sockets[s]) && c in contexts && (id == s || id !in sockets)
      modifies this`sockets, this`contexts, this`view, this`calls
      ensures AdoptedTo(old(M()), old(view), c, s, id, M(), view, calls)
    {
      ghost var m, v, k := M(), view, calls;
      Relink(c, s, id);
      view, calls := AdoptedView(v, m.sockets[s].context, s, c, id), (k - {s})[id := 0];
      AdoptKeeps(m, v, k, c, s, id, M(), view, calls);
    }

    method Relink(c: nat, s: nat, id: nat)
      requires Valid() && s in sockets && !IsClosed(sockets[s]) && c in contexts && (id == s || id !in sockets)
      modifies this`sockets, this`contexts
      ensures M() == Adopted(old(M()), c, s, id)
    {
      AdoptReady(M(), view, calls, c, s, id);
      Unlink(s);
      var rec := sockets[s];
      sockets := sockets - {s};
      sockets := sockets[id := rec];
      Link(c, id);
    }

    /** A new socket of a context. */
    method Open(c: nat, id: nat)
      requires Valid() && c in contexts && id !in sockets
      modifies this
      ensures Valid() && contexts.Keys == old(contexts).Keys && sockets.Keys == old(sockets).Keys + {id}
      ensures M() == LinkedIn(Created(old(M()), c, id), c, id)
      ensures c in old(view).lists && view == OpenedView(old(view), c, id) && calls == old(calls)[id := 0]
    {
      ghost var m, v, k := M(), view, calls;
      HeadLive(m, v, c);
      CreateAndLink(c, id);
      assert c in v.lists;
      view, calls := OpenedView(v, c, id), k[id := 0];
      OpenKeeps(m, v, k, c, id, M(), view, calls);
    }

    method CreateAndLink(c: nat, id: nat)
      requires c in contexts && id !in sockets && Live(sockets, contexts[c].head)
      modifies this`sockets, this`contexts
      ensures M() == LinkedIn(Created(old(M()), c, id), c, id)
    {
      sockets := sockets[id := Socket(c, Null, Null, 0)];
      Link(c, id);
    }

    method SetTimeoutOf(s: nat, t: nat)
      requires Valid() && s in sockets
      modifies this`sockets
      ensures Valid() && M() == WithTimeout(old(M()), s, t) && sockets.Keys == old(sockets).Keys
    {
      ghost var m := M();
      sockets := sockets[s := sockets[s].(timeout := t)];
      TimeoutKeeps(m, view, calls, s, t, M());
    }

    /** Frees every closed socket. */
    method FreeClosed() returns (freed: seq<nat>)
      requires Valid()
      modifies this`sockets, this`closedHead, this`view, this`calls
      ensures Valid() && freed == old(view).closed && view == old(view).(closed := [])
      ensures sockets == old(sockets) - Ids(freed) && forall x :: x in sockets ==> !IsClosed(sockets[x])
    {
      ghost var m, v, k := M(), view, calls;
      var s := closedHead;
      freed := [];
      assert v.closed[0..] == v.closed && sockets - Ids([]) == sockets;
      while s != Null
        invariant |freed| <= |v.closed| && freed == v.closed[..|freed|]
        invariant s == First(v.closed[|freed|..])
        invariant sockets == m.sockets - Ids(freed)
        invariant contexts == m.contexts && view == v && calls == k
        decreases |v.closed| - |freed|
      {
        NextToFree(m, v, |freed|);
        var next := sockets[s.s].next;
        ghost var before := freed;
        sockets := sockets - {s.s};
        freed := freed + [s.s];
        FreedMore(m.sockets, before, s.s);
        s := next;
      }
      closedHead := Null;
      assert freed == v.closed;
      view, calls := v.(closed := []), k - Ids(v.closed);
      FreeKeeps(m, v, k, M(), view, calls);
      NoneClosed(M(), view);
    }

    /** One operation of a callback. */
    method Perform(op: Op, ghost c: nat)
      requires Valid() && c in contexts
      modifies this
      ensures PerformedOne(old(M()), old(view), M(), view, calls, c, op)
    {
      match op
      case CloseSocket(s) => PerformClose(s, c);
      case CloseListener(s) => PerformCloseListen(s, c);
      case AdoptSocket(d, s, id) => PerformAdopt(d, s, id, c);
      case OpenSocket(d, id) => PerformOpen(d, id, c);
      case SetTimeout(s, timeout) => PerformTimeout(s, timeout, c);
    }

    method PerformClose(s: nat, ghost c: nat)
      requires Valid() && c in contexts
      modifies this
      ensures PerformedOne(old(M()), old(view), M(), view, calls, c, CloseSocket(s))
    {
      ghost var m, v := M(), view;
      if s in sockets {
        var called := Close(s);
        ClosePerformed(m, v, M(), view, calls, s, c, CloseSocket(s));
      } else {
        RestSame(m, v, M(), view, calls, c, CloseSocket(s));
      }
    }

    method PerformCloseListen(s: nat, ghost c: nat)
      requires Valid() && c in contexts
      modifies this
      ensures PerformedOne(old(M()), old(view), M(), view, calls, c, CloseListener(s))
    {
      ghost var m, v := M(), view;
      if s in sockets {
        CloseListen(s);
        ClosePerformed(m, v, M(), view, calls, s, c, CloseListener(s));
      } else {
        RestSame(m, v, M(), view, calls, c, CloseListener(s));
      }
    }

    method PerformAdopt(d: nat, s: nat, id: nat, ghost c: nat)
      requires Valid() && c in contexts
      modifies this
      ensures PerformedOne(old(M()), old(view), M(), view, calls, c, AdoptSocket(d, s, id))
    {
      ghost var m, v := M(), view;
      if s in sockets && d in contexts && (id == s || id !in sockets) {
        var r := Adopt(d, s, id);
        AdoptPerformed(m, v, M(), view, calls, d, s, id, c);
      } else {
        RestSame(m, v, M(), view, calls, c, AdoptSocket(d, s, id));
      }
    }

    method PerformOpen(d: nat, id: nat, ghost c: nat)
      requires Valid() && c in contexts
      modifies this
      ensures PerformedOne(old(M()), old(view), M(), view, calls, c, OpenSocket(d, id))
    {
      ghost var m, v := M(), view;
      if d in contexts && id !in sockets {
        Open(d, id);
      }
      RestSame(m, v, M(), view, calls, c, OpenSocket(d, id));
    }

    method PerformTimeout(s: nat, timeout: nat, ghost c: nat)
      requires Valid() && c in contexts
      modifies this
      ensures PerformedOne(old(M()), old(view), M(), view, calls, c, SetTimeout(s, timeout))
    {
      ghost var m, v := M(), view;
      if s in sockets {
        SetTimeoutOf(s, timeout);
      }
      TimeoutPerformed(m, v, M(), calls, s, timeout, c);
    }

    /** A callback: any sequence of operations. */
    method RunCallback(ops: seq<Op>, ghost c: nat)
      requires Valid() && c in contexts
      modifies this
      ensures Performed(old(M()), old(view), M(), view, calls, c, ops)
      decreases |ops|
    {
      ghost var m, v := M(), view;
      if ops == [] {
        NothingDone(m, v, calls, c);
      } else {
        Perform(ops[0], c);
        ghost var m1, v1 := M(), view;
        RunCallback(ops[1..], c);
        PerformedTwice(m, v, m1, v1, M(), view, calls, c, ops);
      }
    }

    /** Sets where the sweep of a context stands. */
    method MoveCursor(c: nat, p: Ptr, ghost r: seq<nat>)
      requires Valid() && c in contexts && c in view.lists && c in view.rest
      requires IsSuffix(r, view.lists[c]) && p == First(r)
      modifies this`contexts, this`view
      ensures CursorMoved(old(M()), old(view), M(), view, calls, c, r)
    {
      ghost var m, v := M(), view;
      contexts := contexts[c := contexts[c].(cursor := p)];
      view := v.(rest := v.rest[c := r]);
      CursorKeeps(m, v, calls, c, r, M(), view);
    }

    /** Counts down the socket the sweep stands at, calls on_timeout when that reaches zero, and goes on. */
    method VisitNext(c: nat, ops: seq<Op>) returns (fired: bool)
      requires Valid() && c in contexts && contexts[c].cursor != Null
      modifies this
      ensures Visited(old(M()), old(view), M(), view, calls, c, fired, ops)
    {
      ghost var m, v := M(), view;
      var s;
      s, fired := CountDown(c);
      AfterCount(c, s, fired, ops, m, v);
    }

    method AfterCount(c: nat, s: nat, fired: bool, ops: seq<Op>, ghost m: Mem, ghost v: View)
      requires Counted(m, M(), v, calls, c, s, fired) && view == v
      modifies this
      ensures Visited(m, v, M(), view, calls, c, fired, ops)
    {
      ghost var m1 := M();
      if fired {
        AfterTimeout(c, s, ops);
      } else {
        Skip(c, s);
      }
      VisitDone(m, v, m1, M(), view, calls, c, s, fired, ops);
    }

    method CountDown(c: nat) returns (s: nat, fired: bool)
      requires Valid() && c in contexts && contexts[c].cursor != Null
      modifies this`sockets
      ensures Counted(old(M()), M(), view, calls, c, s, fired)
    {
      ghost var m := M();
      AtCursor(m, view, c);
      s, fired := CountFields(c);
      CountKeeps(m, view, calls, c, s, fired, M());
    }

    method CountFields(c: nat) returns (s: nat, fired: bool)
      requires AtSocket(M(), c)
      modifies this`sockets
      ensures M() == CountedDown(old(M()), c) && s == SocketAtCursor(old(M()), c) && (fired <==> Expires(old(M()), c))
    {
      s, fired := contexts[c].cursor.s, false;
      if sockets[s].timeout != 0 {
        sockets := sockets[s := sockets[s].(timeout := sockets[s].timeout - 1)];
        fired := sockets[s].timeout == 0;
      }
    }

    method Skip(c: nat, s: nat)
      requires Valid() && c in contexts && contexts[c].cursor == SocketAt(s)
      modifies this`contexts, this`view
      ensures Passed(old(M()), old(view), M(), view, calls, c, s, {}, old(M()))
    {
      ghost var m, v := M(), view;
      AtCursor(m, v, c);
      MoveCursor(c, sockets[s].next, v.rest[c][1..]);
      SkipPasses(m, v, M(), view, calls, c, s);
    }

    method AfterTimeout(c: nat, s: nat, ops: seq<Op>)
      requires Valid() && c in contexts && contexts[c].cursor == SocketAt(s)
      modifies this
      ensures Passed(old(M()), old(view), M(), view, calls, c, s,
                     UnlinksAll(old(M()), ops, c), AppliedAll(old(M()), ops))
    {
      ghost var m, v := M(), view;
      RunCallback(ops, c);
      ghost var m1, v1 := M(), view;
      StillThere(m, v, m1, v1, calls, c, s, ops);
      if contexts[c].cursor == SocketAt(s) {
        MoveCursor(c, sockets[s].next, v1.rest[c][1..]);
      }
      PassedBy(m, v, m1, v1, M(), view, calls, c, s, UnlinksAll(m, ops, c));
    }

    /** One timeout pass over a context; `fired` are the sockets on_timeout is called for.  The k-th callback
        performs the k-th list of operations.  The record of the pass follows memory turn by turn. */
    method SweepContext(c: nat, callbacks: seq<seq<Op>>) returns (fired: seq<nat>, ghost pass: Pass)
      requires Valid() && c in contexts && c in view.lists
      modifies this
      ensures Valid() && contexts.Keys == old(contexts).Keys && c in view.rest && view.rest[c] == []
      ensures Traced(pass, old(M()), c, callbacks) && Complete(pass, old(view).lists[c])
      ensures M() == Now(pass) && M().contexts[c].cursor == Null && fired == Expired(pass.visited, pass.states)
    {
      ghost var m0 := M();
      pass := StartPass(c, callbacks);
      fired := [];
      while contexts[c].cursor != Null
        invariant Sweeping(M(), view, calls, c, pass, m0, callbacks) && contexts.Keys == old(contexts).Keys
        invariant pass.start == old(view).lists[c]
        invariant fired == Expired(pass.visited, pass.states)
        decreases Left(view, c)
      {
        fired, pass := SweepStep(c, callbacks, fired, pass, m0);
      }
      pass := EndPass(M(), view, calls, c, pass, m0, callbacks);
    }

    /** One iteration of the sweep's loop. */
    method SweepStep(c: nat, callbacks: seq<seq<Op>>, fired: seq<nat>, ghost pass: Pass, ghost m0: Mem)
      returns (fired': seq<nat>, ghost pass': Pass)
      requires Sweeping(M(), view, calls, c, pass, m0, callbacks) && contexts[c].cursor != Null
      requires fired == Expired(pass.visited, pass.states)
      modifies this
      ensures Sweeping(M(), view, calls, c, pass', m0, callbacks) && contexts.Keys == old(contexts).Keys
      ensures pass'.start == pass.start && fired' == Expired(pass'.visited, pass'.states)
      ensures Left(view, c) < old(Left(view, c))
    {
      ghost var m, v := M(), view;
      AtCursor(m, v, c);
      var s := contexts[c].cursor.s;
      var ops := if |fired| < |callbacks| then callbacks[|fired|] else [];
      var now := VisitNext(c, ops);
      pass' := NextTurn(m, v, M(), view, calls, c, pass, now, ops, m0, callbacks);
      ExpiredMore(pass.visited, pass.states, s, M());
      fired' := if now then fired + [s] else fired;
    }

    method StartPass(c: nat, ghost callbacks: seq<seq<Op>>) returns (ghost pass: Pass)
      requires Valid() && c in contexts && c in view.lists
      modifies this`contexts, this`view
      ensures Sweeping(M(), view, calls, c, pass, old(M()), callbacks) && contexts.Keys == old(contexts).Keys
      ensures pass == NewPass(old(view).lists[c], M())
    {
      ghost var m, v := M(), view;
      Heads(m, v, c);
      MoveCursor(c, contexts[c].head, v.lists[c]);
      pass := NewPass(v.lists[c], M());
      PassStarts(m, v, M(), view, calls, c, callbacks);
    }
  }

  ghost predicate Sweeping(m: Mem, v: View, calls: map<nat, nat>, c: nat, pass: Pass, m0: Mem,
                           callbacks: seq<seq<Op>>) {
    && Good(m, v, calls) && c in m.contexts && c in v.rest && PassOk(pass, v.rest[c])
    && Traced(pass, m0, c, callbacks) && Now(pass) == m
  }

  ghost function Left(v: View, c: nat): (n: nat) {
    if c in v.rest then |v.rest[c]| else 0
  }

  lemma {:induction false} Heads(m: Mem, v: View, c: nat)
    requires Ok(m, v) && c in m.contexts
    ensures c in v.lists && c in v.rest && m.contexts[c].head == First(v.lists[c]) && IsSuffix(v.lists[c], v.lists[c])
  {
    assert ContextOk(m, v, c);
  }

  lemma {:induction false} PassStarts(m: Mem, v: View, m': Mem, v': View, calls': map<nat, nat>, c: nat,
                                      callbacks: seq<seq<Op>>)
    requires Ok(m, v) && c in m.contexts && c in v.lists && CursorMoved(m, v, m', v', calls', c, v.lists[c])
    ensures Sweeping(m', v', calls', c, NewPass(v.lists[c], m'), m, callbacks)
  {
    assert ContextOk(m, v, c);
    FirstTurn(v.lists[c], m');
  }

  lemma {:induction false} NextTurn(m: Mem, v: View, m': Mem, v': View, calls': map<nat, nat>, c: nat, pass: Pass,
                                    fired: bool, ops: seq<Op>, m0: Mem, callbacks: seq<seq<Op>>) returns (pass': Pass)
    requires c in m.contexts && c in v.rest && PassOk(pass, v.rest[c])
    requires Traced(pass, m0, c, callbacks) && Now(pass) == m
    requires ops == CallbackAt(callbacks, |Expired(pass.visited, pass.states)|)
    requires Visited(m, v, m', v', calls', c, fired, ops)
    ensures Sweeping(m', v', calls', c, pass', m0, callbacks) && Left(v', c) < Left(v, c)
    ensures pass'.start == pass.start
    ensures pass'.visited == pass.visited + [v.rest[c][0]] && pass'.states == pass.states + [m']
  {
    pass' := TakeTurn(pass, v.rest[c], TurnUnlinks(m, c, ops), m');
    KeepShorter(v.rest[c][1..], TurnUnlinks(m, c, ops));
    TracedMore(pass, m0, c, callbacks, ops, pass');
  }

  lemma {:induction false} EndPass(m: Mem, v: View, calls: map<nat, nat>, c: nat, pass: Pass, m0: Mem,
                                   callbacks: seq<seq<Op>>) returns (pass': Pass)
    requires Sweeping(m, v, calls, c, pass, m0, callbacks) && m.contexts[c].cursor == Null
    ensures v.rest[c] == [] && Complete(pass', pass.start) && Traced(pass', m0, c, callbacks) && Now(pass') == m
    ensures pass'.visited == pass.visited && pass'.states == pass.states
  {
    AtCursor(m, v, c);
    pass' := LastTurn(pass);
  }

  ghost predicate CursorMoved(m: Mem, v: View, m': Mem, v': View, calls': map<nat, nat>, c: nat, r: seq<nat>) {
    && Good(m', v', calls') && m'.contexts.Keys == m.contexts.Keys && c in m.contexts && m' == Advanced(m, c, First(r))
    && c in v.rest && v' == v.(rest := v.rest[c := r])
  }

  /** The sweep of `c` has gone past `s` in memory `m1`, and `removed` will not be visited. */
  ghost predicate Passed(m: Mem, v: View, m': Mem, v': View, calls': map<nat, nat>, c: nat, s: nat, removed: set<nat>,
                         m1: Mem) {
    && Good(m', v', calls') && m'.contexts.Keys == m.contexts.Keys && m' == Past(m1, c, s)
    && c in v.rest && c in v'.rest && v.rest[c] != [] && v'.rest[c] == Keep(v.rest[c][1..], removed)
  }

  /** A turn of the sweep has been taken in memory, and what it unlinked is gone from the rest of the list. */
  ghost predicate Visited(m: Mem, v: View, m': Mem, v': View, calls': map<nat, nat>, c: nat,
                          fired: bool, ops: seq<Op>) {
    && Good(m', v', calls') && m'.contexts.Keys == m.contexts.Keys && AtSocket(m, c)
    && m' == Turn(m, c, ops) && (fired <==> Expires(m, c))
    && c in v.rest && c in v'.rest && v.rest[c] != [] && v.rest[c][0] == SocketAtCursor(m, c)
    && v'.rest[c] == Keep(v.rest[c][1..], TurnUnlinks(m, c, ops))
  }

  /** After an operation: all is well, and what it unlinked is gone from what a sweep of `c` has still to visit. */
  ghost predicate PerformedOne(m: Mem, v: View, m': Mem, v': View, calls': map<nat, nat>, c: nat, op: Op) {
    && Good(m', v', calls') && m'.contexts.Keys == m.contexts.Keys && m' == Applied(m, op)
    && c in v.rest && c in v'.rest && v'.rest[c] == Keep(v.rest[c], Unlinks(m, op, c))
  }

  ghost predicate Performed(m: Mem, v: View, m': Mem, v': View, calls': map<nat, nat>, c: nat, ops: seq<Op>) {
    && Good(m', v', calls') && m'.contexts.Keys == m.contexts.Keys && m' == AppliedAll(m, ops)
    && c in v.rest && c in v'.rest && v'.rest[c] == Keep(v.rest[c], UnlinksAll(m, ops, c))
  }

  ghost function Removed(done: bool, d: nat, c: nat, s: nat): (r: set<nat>) {
    if done && d == c then {s} else {}
  }

  lemma {:induction false} RestAfter(m: Mem, v: View, m': Mem, v': View, calls': map<nat, nat>, d: nat, s: nat,
                                     c: nat, done: bool, op: Op)
    requires Ok(m, v) && c in m.contexts && Good(m', v', calls') && m'.contexts.Keys == m.contexts.Keys
    requires (done ==> d in v.rest) && v'.rest == if done then v.rest[d := Without(v.rest[d], s)] else v.rest
    requires m' == Applied(m, op) && Unlinks(m, op, c) == Removed(done, d, c, s)
    ensures PerformedOne(m, v, m', v', calls', c, op)
  {
    AtCursor(m, v, c);
    KeepAll(v.rest[c]);
    KeepWithout(v.rest[c], s);
  }

  lemma {:induction false} ClosePerformed(m: Mem, v: View, m': Mem, v': View, calls': map<nat, nat>, s: nat, c: nat,
                                          op: Op)
    requires Ok(m, v) && c in m.contexts && s in m.sockets
    requires Good(m', v', calls') && m'.contexts.Keys == m.contexts.Keys
    requires IsClosed(m.sockets[s]) ==> m' == m && v' == v
    requires !IsClosed(m.sockets[s]) ==>
               && m.sockets[s].context in v.lists && m.sockets[s].context in v.rest
               && m' == Retired(m, s) && v' == ClosedView(v, m.sockets[s].context, s)
    requires op == CloseSocket(s) || op == CloseListener(s)
    ensures PerformedOne(m, v, m', v', calls', c, op)
  {
    CloseApplied(m, s, c, op);
    RestAfter(m, v, m', v', calls', m.sockets[s].context, s, c, !IsClosed(m.sockets[s]), op);
  }

  lemma {:induction false} CloseApplied(m: Mem, s: nat, c: nat, op: Op)
    requires s in m.sockets && (op == CloseSocket(s) || op == CloseListener(s))
    ensures Applied(m, op) == if IsClosed(m.sockets[s]) then m else Retired(m, s)
    ensures Unlinks(m, op, c) == Removed(!IsClosed(m.sockets[s]), m.sockets[s].context, c, s)
  {
  }

  lemma {:induction false} AdoptPerformed(m: Mem, v: View, m': Mem, v': View, calls': map<nat, nat>, d: nat, s: nat,
                                          id: nat, c: nat)
    requires Ok(m, v) && c in m.contexts && s in m.sockets && d in m.contexts && (id == s || id !in m.sockets)
    requires Good(m', v', calls') && (IsClosed(m.sockets[s]) ==> m' == m && v' == v)
    requires !IsClosed(m.sockets[s]) ==> AdoptedTo(m, v, d, s, id, m', v', calls')
    ensures PerformedOne(m, v, m', v', calls', c, AdoptSocket(d, s, id))
  {
    AdoptApplied(m, d, s, id, c);
    RestAfter(m, v, m', v', calls', m.sockets[s].context, s, c, !IsClosed(m.sockets[s]), AdoptSocket(d, s, id));
  }

  lemma {:induction false} AdoptApplied(m: Mem, d: nat, s: nat, id: nat, c: nat)
    requires s in m.sockets && d in m.contexts && (id == s || id !in m.sockets)
    ensures (var op := AdoptSocket(d, s, id);
             && Applied(m, op) == (if IsClosed(m.sockets[s]) then m else Adopted(m, d, s, id))
             && Unlinks(m, op, c) == Removed(!IsClosed(m.sockets[s]), m.sockets[s].context, c, s))
  {
  }

  lemma {:induction false} RestSame(m: Mem, v: View, m': Mem, v': View, calls': map<nat, nat>, c: nat, op: Op)
    requires Ok(m, v) && c in m.contexts && Good(m', v', calls')
    requires m'.contexts.Keys == m.contexts.Keys && v'.rest == v.rest
    requires m' == Applied(m, op) && Unlinks(m, op, c) == {}
    ensures PerformedOne(m, v, m', v', calls', c, op)
  {
    AtCursor(m, v, c);
    KeepAll(v.rest[c]);
  }

  lemma {:induction false} TimeoutPerformed(m: Mem, v: View, m': Mem, calls: map<nat, nat>, s: nat, t: nat, c: nat)
    requires Ok(m, v) && c in m.contexts && Good(m', v, calls)
    requires m' == if s in m.sockets then WithTimeout(m, s, t) else m
    ensures PerformedOne(m, v, m', v, calls, c, SetTimeout(s, t))
  {
    RestSame(m, v, m', v, calls, c, SetTimeout(s, t));
  }

  lemma {:induction false} NothingDone(m: Mem, v: View, calls: map<nat, nat>, c: nat)
    requires Good(m, v, calls) && c in m.contexts
    ensures Performed(m, v, m, v, calls, c, [])
  {
    AtCursor(m, v, c);
    KeepAll(v.rest[c]);
  }

  lemma {:induction false} PerformedTwice(m: Mem, v: View, m1: Mem, v1: View, m2: Mem, v2: View,
                                          calls2: map<nat, nat>, c: nat, ops: seq<Op>)
    requires ops != [] && m1.contexts.Keys == m.contexts.Keys && m1 == Applied(m, ops[0])
    requires c in v.rest && c in v1.rest && v1.rest[c] == Keep(v.rest[c], Unlinks(m, ops[0], c))
    requires Performed(m1, v1, m2, v2, calls2, c, ops[1..])
    ensures Performed(m, v, m2, v2, calls2, c, ops)
  {
    KeepTwice(v.rest[c], Unlinks(m, ops[0], c), UnlinksAll(m1, ops[1..], c));
  }

  lemma {:induction false} StillThere(m: Mem, v: View, m1: Mem, v1: View, calls1: map<nat, nat>, c: nat, s: nat,
                                      ops: seq<Op>)
    requires Ok(m, v) && c in m.contexts && m.contexts[c].cursor == SocketAt(s)
    requires Performed(m, v, m1, v1, calls1, c, ops)
    ensures c in m1.contexts && c in v1.lists && c in v1.rest && c in v.rest && v.rest[c] != []
    ensures (var removed := UnlinksAll(m, ops, c);
             && (m1.contexts[c].cursor == SocketAt(s) <==> s !in removed)
             && (s !in removed ==>
                  && s in m1.sockets && v1.rest[c] != [] && m1.sockets[s].next == First(v1.rest[c][1..])
                  && IsSuffix(v1.rest[c][1..], v1.lists[c]) && v1.rest[c][1..] == Keep(v.rest[c][1..], removed))
             && (s in removed ==> v1.rest[c] == Keep(v.rest[c][1..], removed)))
  {
    var removed := UnlinksAll(m, ops, c);
    AtCursor(m, v, c);
    AtCursor(m1, v1, c);
    KeepIn(v.rest[c], removed, s);
    var r := Keep(v.rest[c][1..], removed);
    assert s !in removed ==> Keep(v.rest[c], removed) == [s] + r;
    assert ([s] + r)[1..] == r;
    assert s in removed ==> Keep(v.rest[c], removed) == r;
  }

  lemma {:induction false} PassedBy(m: Mem, v: View, m1: Mem, v1: View, m2: Mem, v2: View, calls2: map<nat, nat>,
                                    c: nat, s: nat, removed: set<nat>)
    requires m1.contexts.Keys == m.contexts.Keys && c in v.rest && v.rest[c] != [] && c in v1.rest && c in m1.contexts
    requires Good(m2, v2, calls2) && (m1.contexts[c].cursor == SocketAt(s) <==> s !in removed)
    requires s in removed ==> m2 == m1 && v2 == v1 && v1.rest[c] == Keep(v.rest[c][1..], removed)
    requires s !in removed ==> s in m1.sockets && m1.sockets[s].next == First(Keep(v.rest[c][1..], removed))
    requires s !in removed ==> CursorMoved(m1, v1, m2, v2, calls2, c, Keep(v.rest[c][1..], removed))
    ensures Passed(m, v, m2, v2, calls2, c, s, removed, m1)
  {
  }

  /** The socket at the cursor has been counted down. */
  ghost predicate Counted(m: Mem, m': Mem, v: View, calls: map<nat, nat>, c: nat, s: nat, fired: bool) {
    && Good(m', v, calls) && AtSocket(m, c) && m' == CountedDown(m, c) && s == SocketAtCursor(m, c)
    && m'.contexts == m.contexts && (fired <==> Expires(m, c)) && c in v.rest && First(v.rest[c]) == SocketAt(s)
  }

  lemma {:induction false} CountKeeps(m: Mem, v: View, calls: map<nat, nat>, c: nat, s: nat, fired: bool, m': Mem)
    requires Good(m, v, calls) && AtSocket(m, c) && s == SocketAtCursor(m, c) && (fired <==> Expires(m, c))
    requires m' == CountedDown(m, c)
    ensures Counted(m, m', v, calls, c, s, fired)
  {
    AtCursor(m, v, c);
    TimeoutKeeps(m, v, calls, s, LessOne(m.sockets[s].timeout), m');
  }

  lemma {:induction false} SkipPasses(m: Mem, v: View, m': Mem, v': View, calls': map<nat, nat>, c: nat, s: nat)
    requires c in v.rest && v.rest[c] != [] && CursorMoved(m, v, m', v', calls', c, v.rest[c][1..])
    requires m.contexts[c].cursor == SocketAt(s) && s in m.sockets && m.sockets[s].next == First(v.rest[c][1..])
    ensures Passed(m, v, m', v', calls', c, s, {}, m)
  {
    KeepAll(v.rest[c][1..]);
  }

  lemma {:induction false} VisitDone(m: Mem, v: View, m1: Mem, m': Mem, v': View, calls': map<nat, nat>, c: nat,
                                     s: nat, fired: bool, ops: seq<Op>)
    requires AtSocket(m, c) && m1 == CountedDown(m, c) && s == SocketAtCursor(m, c) && (fired <==> Expires(m, c))
    requires c in v.rest && First(v.rest[c]) == SocketAt(s)
    requires fired ==> Passed(m1, v, m', v', calls', c, s, UnlinksAll(m1, ops, c), AppliedAll(m1, ops))
    requires !fired ==> Passed(m1, v, m', v', calls', c, s, {}, m1)
    ensures Visited(m, v, m', v', calls', c, fired, ops)
  {
  }

  /** A null pointer or the address of a socket. */
  predicate Live(sockets: map<nat, Socket>, p: Ptr) {
    p.Null? || (p.SocketAt? && p.s in sockets)
  }

  /** Only a socket alone in its list has equal neighbours. */
  predicate Pointers(sockets: map<nat, Socket>, rec: Socket) {
    Live(sockets, rec.prev) && Live(sockets, rec.next) && (rec.prev == rec.next ==> rec.prev.Null?)
  }

  lemma {:induction false} Neighbours(m: Mem, v: View, s: nat)
    requires ContextsOk(m, v) && s in m.sockets && InList(m, v, s)
    ensures m.sockets[s].context in m.contexts && Pointers(m.sockets, m.sockets[s])
  {
    var c, a, b := FindAround(m, v, s);
    assert ContextOk(m, v, c);
    var l := v.lists[c];
    assert a != [] ==> l[|a| - 1] == a[|a| - 1] && Linked(m.sockets, c, l, |a| - 1);
    assert b != [] ==> l[|a| + 1] == b[0] && Linked(m.sockets, c, l, |a| + 1);
  }

  lemma {:induction false} HeadLive(m: Mem, v: View, c: nat)
    requires ContextsOk(m, v) && c in m.contexts
    ensures Live(m.sockets, m.contexts[c].head)
  {
    assert ContextOk(m, v, c);
    assert v.lists[c] != [] ==> Linked(m.sockets, c, v.lists[c], 0);
  }

  lemma {:induction false} OpenIsListed(m: Mem, v: View, s: nat)
    requires Ok(m, v) && s in m.sockets && s !in v.loose && !IsClosed(m.sockets[s])
    ensures InList(m, v, s)
  {
    if s in v.closed {
      ClosedApart(m, v, s);
    }
  }

  /** Unlinking closes nothing. */
  lemma {:induction false} UnlinkSame(m: Mem, v: View, s: nat)
    requires Ok(m, v) && s in m.sockets && InList(m, v, s)
    ensures m.sockets[s].context in m.contexts && Unlinked(m, s).contexts.Keys == m.contexts.Keys
    ensures SameClosed(m.sockets, Unlinked(m, s).sockets) && Unlinked(m, s).sockets[s] == m.sockets[s]
  {
    var c, a, b := FindAround(m, v, s);
    UnlinkSameSockets(m, v, s, c, a, b);
    UnlinkStays(m, s, a, b);
    assert Unlinked(m, s).contexts.Keys == m.contexts.Keys;
  }

  lemma {:induction false} UnlinkStays(m: Mem, s: nat, a: seq<nat>, b: seq<nat>)
    requires s in m.sockets && m.sockets[s].context in m.contexts && s !in a && s !in b
    requires m.sockets[s].prev == Last(a) && m.sockets[s].next == First(b)
    ensures s in Unlinked(m, s).sockets && Unlinked(m, s).sockets[s] == m.sockets[s]
  {
    BridgedSame(m.sockets, Last(a), First(b), s);
  }

  lemma {:induction false} UnlinkSameSockets(m: Mem, v: View, s: nat, c: nat, a: seq<nat>, b: seq<nat>)
    requires Ok(m, v) && Around(m, v, s, c, a, b)
    ensures SameClosed(m.sockets, Unlinked(m, s).sockets)
  {
    var sockets' := Unlinked(m, s).sockets;
    forall x
      ensures x in sockets' <==> x in m.sockets
    {
      BridgedSame(m.sockets, Last(a), First(b), x);
    }
    assert sockets'.Keys == m.sockets.Keys;
    forall x | x in m.sockets
      ensures IsClosed(sockets'[x]) <==> IsClosed(m.sockets[x])
    {
      RetiredOne(m, v, s, c, a, b, x);
    }
  }

  lemma {:induction false} RetiredOne(m: Mem, v: View, s: nat, c: nat, a: seq<nat>, b: seq<nat>, x: nat)
    requires Ok(m, v) && Around(m, v, s, c, a, b) && x in m.sockets
    ensures (var sockets' := Unlinked(m, s).sockets;
             x in sockets' && (IsClosed(sockets'[x]) <==> IsClosed(m.sockets[x])))
  {
    if x in v.lists[c] {
      Apart(m, v, c, x);
      BridgedPrev(m.sockets, Last(a), First(b), x);
    } else {
      UnlinkOthers(m, v, s, c, a, b, x);
    }
  }

  lemma {:induction false} BridgedPrev(sockets: map<nat, Socket>, prev: Ptr, next: Ptr, x: nat)
    requires x in sockets
    ensures (var r := Bridged(sockets, prev, next);
             x in r && r[x].context == sockets[x].context && (r[x].prev == sockets[x].prev || r[x].prev == prev))
  {
  }

  lemma {:induction false} NextToFree(m: Mem, v: View, i: nat)
    requires ClosedOk(m, v) && i < |v.closed|
    ensures v.closed[i] in m.sockets - Ids(v.closed[..i]) && m.sockets[v.closed[i]].next == First(v.closed[i + 1..])
    ensures First(v.closed[i..]) == SocketAt(v.closed[i])
  {
    assert ClosedLinked(m.sockets, v.closed, i);
    assert NextOf(v.closed, i) == First(v.closed[i + 1..]);
    forall j | 0 <= j < i
      ensures v.closed[..i][j] != v.closed[i]
    {
    }
  }

  lemma {:induction false} FreedMore(sockets: map<nat, Socket>, freed: seq<nat>, s: nat)
    ensures sockets - Ids(freed) - {s} == sockets - Ids(freed + [s])
  {
    assert Ids(freed + [s]) == Ids(freed) + {s} by {
      assert forall i :: 0 <= i < |freed| ==> (freed + [s])[i] == freed[i];
      assert (freed + [s])[|freed|] == s;
    }
  }

  lemma {:induction false} NoneClosed(m: Mem, v: View)
    requires Ok(m, v) && v.loose == {} && v.closed == []
    ensures forall x :: x in m.sockets ==> !IsClosed(m.sockets[x])
  {
    forall x | x in m.sockets
      ensures !IsClosed(m.sockets[x])
    {
      ListedOpen(m, v, x);
    }
  }

  lemma {:induction false} ListedOpen(m: Mem, v: View, x: nat)
    requires Ok(m, v) && x in m.sockets && x !in v.loose && x !in v.closed
    ensures !IsClosed(m.sockets[x])
  {
    assert InList(m, v, x);
    Apart(m, v, m.sockets[x].context, x);
  }
}
