/** A table with the default load factor that loses entries when it doubles.  127 keys have the last of 512
    buckets as their home and 126 the first; in 1024 buckets the two groups are neighbours and push each other
    beyond the last distance an info byte can record. */
module RobinHoodOverflow {
  import opened Words
  import opened RobinHoodLayout
  import opened RobinHoodCrowding
  import opened RobinHoodHashing
  import opened RobinHoodGrowth
  import opened RobinHoodTable

  const GROUP: nat := 126
  const BUCKETS: nat := 512

  /** 126 keys of each group, then one more of the first, then any other key. */
  function KeyAt(i: nat): (k: Key<nat>) {
    Key(i, if i < GROUP || i == 2 * GROUP then BUCKETS - 1 else if i < 2 * GROUP then BUCKETS else 0)
  }

  ghost function Inserted(n: nat): (m: map<Key<nat>, nat>)
    ensures |m| == n
    ensures forall k :: k in m <==> 0 <= k.data < n && k == KeyAt(k.data)
  {
    if n == 0 then map[] else Inserted(n - 1)[KeyAt(n - 1) := 0]
  }

  // ----- how many keys -----

  lemma {:induction false} AtMost(s: set<Key<nat>>, lo: nat, hi: nat)
    requires lo <= hi && forall k :: k in s ==> lo <= k.data < hi && k == KeyAt(k.data)
    ensures |s| <= hi - lo
    decreases hi
  {
    if lo < hi {
      AtMost(s - {KeyAt(hi - 1)}, lo, hi - 1);
    } else {
      assert s == {};
    }
  }

  lemma {:induction false} AtLeast(s: set<Key<nat>>, lo: nat, hi: nat)
    requires lo <= hi && forall i :: lo <= i < hi ==> KeyAt(i) in s
    ensures |s| >= hi - lo
    decreases hi
  {
    if lo < hi {
      forall i | lo <= i < hi - 1
        ensures KeyAt(i) in s - {KeyAt(hi - 1)}
      {
      }
      AtLeast(s - {KeyAt(hi - 1)}, lo, hi - 1);
    }
  }

  lemma {:induction false} Homes(buckets: nat)
    requires buckets == BUCKETS || buckets >= 2 * BUCKETS
    ensures Mod(BUCKETS - 1, buckets) == BUCKETS - 1
    ensures Mod(BUCKETS, buckets) == if buckets == BUCKETS then 0 else BUCKETS
  {
  }

  // ----- crowded or not -----

  /** At the first size both groups fit. */
  lemma {:induction false} NotCrowded(n: nat)
    requires n <= 2 * GROUP
    ensures !Crowded(BUCKETS, Inserted(n).Keys, FULL_DISTANCE)
  {
    forall a: nat, b: nat
      ensures !CrowdedOn(BUCKETS, Inserted(n).Keys, FULL_DISTANCE, a, b)
    {
      if a <= b < BUCKETS {
        NotCrowdedOn(n, a, b);
      }
    }
  }

  lemma {:induction false} NotCrowdedOn(n: nat, a: nat, b: nat)
    requires n <= 2 * GROUP && a <= b < BUCKETS
    ensures |HomeIn(BUCKETS, Inserted(n).Keys, a, b)| < b - a + FULL_DISTANCE
  {
    var s := HomeIn(BUCKETS, Inserted(n).Keys, a, b);
    Homes(BUCKETS);
    if a == 0 && b == BUCKETS - 1 {
      AtMost(s, 0, 2 * GROUP);
    } else if b == BUCKETS - 1 {
      AtMost(s, 0, GROUP);
    } else {
      AtMost(s, GROUP, 2 * GROUP);
    }
  }

  /** With one key more they are crowded, here and at every larger size. */
  lemma {:induction false} OneMoreCrowded(buckets: nat)
    requires buckets == BUCKETS || buckets >= 2 * BUCKETS
    ensures Crowded(buckets, Inserted(2 * GROUP + 1).Keys, FULL_DISTANCE)
  {
    Homes(buckets);
    var s := HomeIn(buckets, Inserted(2 * GROUP + 1).Keys, BUCKETS - 1, BUCKETS - 1);
    var last := KeyAt(2 * GROUP);
    assert last in s;
    AtLeast(s - {last}, 0, GROUP);
    assert CrowdedOn(buckets, Inserted(2 * GROUP + 1).Keys, FULL_DISTANCE, BUCKETS - 1, BUCKETS - 1);
  }

  /** And no larger table can hold all of them. */
  lemma {:induction false} NoLargerTable<V>(l: Layout, info: seq<Byte>, kv: seq<Node<Key<nat>, V>>)
    requires Inv(l, info, kv) && Entries(kv).Keys == Inserted(2 * GROUP + 1).Keys
    ensures l.buckets < 2 * BUCKETS
  {
    if l.buckets >= 2 * BUCKETS {
      Homes(l.buckets);
      var keys := Entries(kv).Keys;
      AtLeast(HomeIn(l.buckets, keys, BUCKETS - 1, BUCKETS), 0, 2 * GROUP + 1);
      assert CrowdedOn(l.buckets, keys, 2 * GROUP, BUCKETS - 1, BUCKETS);
      CrowdedIsFar(l, info, kv, 2 * GROUP);
      var i :| 0 <= i < l.slots && kv[i].Node? && 1 + i - l.Home(kv[i].key) >= 2 * GROUP;
      ProbeClosedForm(l, kv[i].key, i);
    }
  }

  // ----- sizes -----

  lemma {:induction false} SmallPowers()
    ensures Pow2(8) == 256 && Pow2(9) == 512 && Pow2(10) == 1024
  {
    assert Pow2(4) == 16;
  }

  lemma {:induction false} Sizes(n: nat)
    requires IsPow2(n) && n >= BUCKETS
    ensures n == BUCKETS || n >= 2 * BUCKETS
  {
    SmallPowers();
    var k: nat :| n == Pow2(k);
    if k <= 8 {
      Pow2Monotone(k, 8);
    } else if k >= 10 {
      Pow2Monotone(10, k);
    }
  }

  lemma {:induction false} Capacities()
    ensures CalcMaxNumElementsAllowed(80, BUCKETS / 2) == 204 && CalcMaxNumElementsAllowed(80, BUCKETS) == 409
  {
    TimesIsProduct(BUCKETS / 2, 80);
    TimesIsProduct(BUCKETS, 80);
  }

  lemma {:induction false} SizeFor300(n: nat)
    requires SmallestFor(80, 300, n)
    ensures n == BUCKETS
  {
    Capacities();
    SmallPowers();
    var k: nat :| n == Pow2(k);
    if k < 9 {
      LargerAllowsMore(80, k, 8);
    } else if k > 9 {
      LargerAllowsMore(80, 9, k - 1);
    }
  }

  lemma {:induction false} Holds300()
    ensures SomeSizeHolds(80, 300)
  {
    Capacities();
    SmallPowers();
  }

  // ----- the table -----

  method ReserveEmpty(t: Table<nat, nat>)
    requires t.Valid() && t.Contents() == map[] && t.maxLoad == 80
    modifies t
    ensures t.Valid() && t.Tight() && t.mask + 1 == BUCKETS && t.Contents() == map[]
    ensures (fresh(t.keyVals) || t.keyVals == old(t.keyVals)) && (fresh(t.info) || t.info == old(t.info))
  {
    Holds300();
    var o := t.Reserve(300);
    SizeFor300(t.mask + 1);
  }

  /** One of the keys that fit. */
  method InsertFits(t: Table<nat, nat>, i: nat) returns (o: Outcome)
    requires t.Valid() && t.Tight() && t.mask + 1 == BUCKETS && t.maxLoad == 80
    requires t.Contents() == Inserted(i) && i <= 2 * GROUP
    modifies t, t.keyVals, t.info
    ensures t.Valid() && t.Tight() && t.mask + 1 == BUCKETS && t.Contents() == Inserted(i + 1) && o.Done?
    ensures (fresh(t.keyVals) || t.keyVals == old(t.keyVals)) && (fresh(t.info) || t.info == old(t.info))
  {
    NotCrowded(i);
    Capacities();
    var inserted, idx;
    o, inserted, idx := t.DoInsert(KeyAt(i), 0);
  }

  /** After it, neither a table that took it nor one that refused it can be. */
  lemma {:induction false} EndsLost(s: Look<nat, nat>, o: Outcome, inserted: bool, idx: nat, s': Look<nat, nat>,
                                    l: Layout, info: seq<Byte>)
    requires s.m == Inserted(2 * GROUP + 1) && s.tight && s.g.buckets == BUCKETS && s.g.count == 2 * GROUP + 1
    requires RobinHoodGrowth.Inserted(s, KeyAt(2 * GROUP + 1), 0, o, inserted, idx, s')
    requires InsertEnd(80, s, KeyAt(2 * GROUP + 1), o, s'.g.buckets)
    requires Inv(l, info, s'.kv) && s'.m == Entries(s'.kv) && l.buckets == s'.g.buckets && IsPow2(l.buckets)
    ensures o.Lost?
  {
    Capacities();
    Sizes(l.buckets);
    OneMoreCrowded(l.buckets);
    if o.Refused? {
      NoLargerTable(l, info, s'.kv);
    }
  }

  /** The key after that. */
  method InsertTooMany(t: Table<nat, nat>) returns (o: Outcome)
    requires t.Valid() && t.Tight() && t.mask + 1 == BUCKETS
    requires t.maxLoad == 80 && t.Contents() == Inserted(2 * GROUP + 1)
    modifies t, t.keyVals, t.info
    ensures t.Valid() && o.Lost? && StrictSubMap(t.Contents(), Inserted(2 * GROUP + 1))
  {
    ghost var s := t.Now();
    var inserted, idx;
    o, inserted, idx := t.DoInsert(KeyAt(2 * GROUP + 1), 0);
    EndsLost(s, o, inserted, idx, t.Now(), t.L(), t.info[..]);
  }

  /** A table reserved for 300 entries takes 253 of these keys and keeps its size.  The insertion after that
      doubles it, raises the exception half-way and leaves fewer entries than there were. */
  method DoublingLoses() returns (t: Table<nat, nat>, o: Outcome)
    ensures t.Valid() && o.Lost? && StrictSubMap(t.Contents(), Inserted(2 * GROUP + 1))
  {
    t := new Table<nat, nat>(80);
    ReserveEmpty(t);
    for i := 0 to 2 * GROUP + 1
      invariant t.Valid() && t.Tight() && t.mask + 1 == BUCKETS && t.maxLoad == 80
      invariant fresh(t) && fresh(t.keyVals) && fresh(t.info)
      invariant t.Contents() == Inserted(i)
    {
      o := InsertFits(t, i);
    }
    o := InsertTooMany(t);
  }
}
