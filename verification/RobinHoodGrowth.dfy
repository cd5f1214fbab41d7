/** When a table grows, when it refuses to, and what becomes of an insertion: read off what it looked like
    before. */
module RobinHoodGrowth {
  import opened Words
  import opened RobinHoodLayout
  import opened RobinHoodCrowding
  import opened RobinHoodHashing

  /** How an operation ends.  Refused and Lost both stand for the overflow exception: Refused is
      raised before anything is moved, Lost while the entries are being moved to a new array. */
  datatype Outcome = Done | Refused | Lost

  ghost predicate StrictSubMap<K, V>(m: map<K, V>, n: map<K, V>) {
    m.Keys < n.Keys && forall k :: k in m ==> m[k] == n[k]
  }

  lemma {:induction false} AllButLastKeys<K, V>(kv: seq<Node<K, V>>)
    ensures AllButLast(kv) <= Entries(kv).Keys
  {
    if kv != [] {
      AllButLastKeys(kv[..|kv| - 1]);
    }
  }

  /** The keys of all nodes but the last one. */
  ghost function AllButLast<K, V>(kv: seq<Node<K, V>>): (r: set<K>)
  {
    if kv == [] then {}
    else
      var front := kv[..|kv| - 1];
      if kv[|kv| - 1].Node? then Entries(front).Keys else AllButLast(front)
  }

  lemma CrowdedAll<T, V>(buckets: nat, kv: seq<Node<Key<T>, V>>)
    requires buckets > 0
    ensures Crowded(buckets, AllButLast(kv), FULL_DISTANCE) ==> Crowded(buckets, Entries(kv).Keys, FULL_DISTANCE)
  {
    AllButLastKeys(kv);
    if Crowded(buckets, AllButLast(kv), FULL_DISTANCE) {
      CrowdedMonotone(buckets, AllButLast(kv), Entries(kv).Keys, FULL_DISTANCE);
    }
  }

  lemma NotCrowdedEmpty<T>(buckets: nat, keys: set<Key<T>>)
    requires buckets > 0 && keys == {}
    ensures !Crowded(buckets, keys, FULL_DISTANCE)
  {
    forall a: nat, b: nat
      ensures !CrowdedOn(buckets, keys, FULL_DISTANCE, a, b)
    {
      assert HomeIn(buckets, keys, a, b) == {};
    }
  }

  /** Buckets, entries, the insertion bound (zero while insertion is off) and the scale of the info bytes. */
  datatype Gauge = Gauge(buckets: nat, count: nat, bound: nat, inc: nat)

  /** Another entry goes in without growing, after a rescaling if need be. */
  predicate HasRoom(maxLoad: nat, g: Gauge) {
    g.count < g.bound || (g.count < CalcMaxNumElementsAllowed(maxLoad, g.buckets) && g.inc > 2)
  }

  /** Less than half of the capacity is used. */
  predicate Half(maxLoad: nat, count: nat, buckets: nat) {
    2 * count < CalcMaxNumElementsAllowed(maxLoad, buckets)
  }

  /** What increase_size does to an allocated table: rescales, refuses, or doubles.  Doubling loses entries
      exactly when the keys, without the one in the last occupied slot, are crowded at the new size. */
  ghost predicate Increased<T, V>(maxLoad: nat, g: Gauge, kv: seq<Node<Key<T>, V>>, o: Outcome, g': Gauge,
                                  kv': seq<Node<Key<T>, V>>) {
    var allowed := CalcMaxNumElementsAllowed(maxLoad, g.buckets);
    if g.count < allowed && g.inc > 2 then o.Done? && g' == g.(bound := allowed, inc := g.inc / 2) && kv' == kv
    else if Half(maxLoad, g.count, g.buckets) then o.Refused? && g' == g && kv' == kv
    else
      && !o.Refused? && g'.buckets == 2 * g.buckets && (o.Done? ==> g'.count == g.count) && g.buckets > 0
      && (o.Lost? <==> Crowded(2 * g.buckets, AllButLast(kv), FULL_DISTANCE))
  }

  /** A table from outside: its gauge, its entries, its nodes in slot order, and whether insertion is off only
      while some info byte has no room left. */
  datatype Look<T(==), V> = Look(g: Gauge, m: map<Key<T>, V>, kv: seq<Node<Key<T>, V>>, tight: bool)

  /** What is true of every valid table.  A tight table at the last scale has insertion off exactly for crowded
      keys; where insertion is on, or at an earlier scale, keys are not crowded. */
  ghost predicate Judged<T, V>(maxLoad: nat, s: Look<T, V>) {
    var allowed := CalcMaxNumElementsAllowed(maxLoad, s.g.buckets);
    && 10 < maxLoad < 100 && IsPow2(s.g.buckets) && (s.g.buckets > 1 ==> s.g.buckets >= INITIAL_NUM_ELEMENTS)
    && s.g.buckets > 0 && s.m == Entries(s.kv) && s.g.count == |s.m| <= allowed && s.g.bound in {0, allowed}
    && s.g.inc >= 2 && (allowed == 0 ==> s.tight)
    && (s.g.bound != 0 || s.g.inc > 2 ==> !Crowded(s.g.buckets, s.m.Keys, FULL_DISTANCE))
    && (s.tight && s.g.bound == 0 && allowed != 0 && s.g.inc == 2 ==> Crowded(s.g.buckets, s.m.Keys, FULL_DISTANCE))
  }

  /** Why a tight table with the entries `m` grows beyond `buckets`: the first allocation, its capacity, or
      crowded keys. */
  ghost predicate MayGrow<T, V>(maxLoad: nat, buckets: nat, m: map<Key<T>, V>) {
    buckets <= 1 || |m| >= CalcMaxNumElementsAllowed(maxLoad, buckets) || Crowded(buckets, m.Keys, FULL_DISTANCE)
  }

  /** A tight table has room exactly when it is below its capacity and its keys are not crowded. */
  lemma {:induction false} RoomIff<T, V>(maxLoad: nat, s: Look<T, V>)
    requires Judged(maxLoad, s) && s.tight && s.g.buckets > 1
    ensures HasRoom(maxLoad, s.g) <==> !MayGrow(maxLoad, s.g.buckets, s.m)
  {
  }

  /** By how much twice the number of entries reaches the capacity. */
  function Excess(maxLoad: nat, g: Gauge): (r: nat)
  {
    var n, a := 2 * g.count, CalcMaxNumElementsAllowed(maxLoad, g.buckets);
    if n >= a then n + 1 - a else 0
  }

  function Unallocated(g: Gauge): (r: nat)
  {
    if g.buckets == 1 then 1 else 0
  }

  /** The measure of the retry loop: the first allocation, then the excess, then the scale. */
  predicate Smaller(maxLoad: nat, g': Gauge, g: Gauge) {
    || Unallocated(g') < Unallocated(g)
    || (Unallocated(g') == Unallocated(g) && Excess(maxLoad, g') < Excess(maxLoad, g))
    || (Unallocated(g') == Unallocated(g) && Excess(maxLoad, g') == Excess(maxLoad, g) && g'.inc < g.inc)
  }

  /** All that increase_size does. */
  ghost predicate IncreaseEnd<T, V>(maxLoad: nat, s: Look<T, V>, o: Outcome, s': Look<T, V>) {
    && s'.g.buckets >= s.g.buckets > 0 && s'.g.buckets > 1
    && (if s.g.buckets == 1 then o.Done? else Increased(maxLoad, s.g, s.kv, o, s'.g, s'.kv))
    && (o.Done? ==> s'.m == s.m && s'.tight && Smaller(maxLoad, s'.g, s.g))
    && (o.Refused? ==> s' == s)
    && (o.Lost? ==> s'.tight && StrictSubMap(s'.m, s.m) && Crowded(s'.g.buckets, s.m.Keys, FULL_DISTANCE))
  }

  /** The nodes `kv` are moved to `buckets` buckets.  All of them arrive if and only if their keys, without the
      one in the last occupied slot, are not crowded there; otherwise only part of them does. */
  ghost predicate Relocated<T, V>(kv: seq<Node<Key<T>, V>>, buckets: nat, ok: bool, m: map<Key<T>, V>)
  {
    && buckets > 0 && (ok <==> !Crowded(buckets, AllButLast(kv), FULL_DISTANCE))
    && if ok then m == Entries(kv) else StrictSubMap(m, Entries(kv))
  }

  lemma {:induction false} NothingRelocated<T, V>(kv: seq<Node<Key<T>, V>>, buckets: nat)
    requires buckets > 0 && |Entries(kv)| == 0
    ensures Relocated(kv, buckets, true, map[])
  {
    AllButLastKeys(kv);
    NotCrowdedEmpty(buckets, AllButLast(kv));
  }

  /** All entries of `s` are moved to another size, unless its keys, without the one in the last occupied slot,
      are crowded there; then only part of them arrives. */
  ghost predicate Moved<T, V>(s: Look<T, V>, o: Outcome, s': Look<T, V>) {
    && s'.g.buckets > 0 && s'.tight && !o.Refused?
    && (o.Lost? <==> Crowded(s'.g.buckets, AllButLast(s.kv), FULL_DISTANCE))
    && (o.Lost? ==> StrictSubMap(s'.m, s.m) && Crowded(s'.g.buckets, s.m.Keys, FULL_DISTANCE))
    && (o.Done? ==> s'.m == s.m && s'.g.count == s.g.count)
  }

  lemma {:induction false} MovedOrLost<T, V>(s: Look<T, V>, ok: bool, s': Look<T, V>)
    requires s.m == Entries(s.kv) && s.g.count == |s.m| && s'.g.count == |s'.m|
    requires s'.tight && Relocated(s.kv, s'.g.buckets, ok, s'.m)
    ensures Moved(s, if ok then Done else Lost, s')
  {
    CrowdedAll(s'.g.buckets, s.kv);
  }

  /** What reserve does: refuses when no size holds `c` entries and the ones there are, or else moves to the
      smallest that does. */
  ghost predicate ReserveEnd<T, V>(maxLoad: nat, s: Look<T, V>, c: nat, o: Outcome, s': Look<T, V>) {
    if SomeSizeHolds(maxLoad, Max(c, s.g.count))
    then SmallestFor(maxLoad, Max(c, s.g.count), s'.g.buckets) && Moved(s, o, s')
    else o.Refused? && s' == s
  }

  /** The last resort of increase_size. */
  ghost predicate DoubleEnd<T, V>(maxLoad: nat, s: Look<T, V>, o: Outcome, s': Look<T, V>) {
    if Half(maxLoad, s.g.count, s.g.buckets) then o.Refused? && s' == s
    else
      && !o.Refused? && s'.g.buckets == 2 * s.g.buckets > 0 && s'.tight
      && (o.Lost? <==> Crowded(2 * s.g.buckets, AllButLast(s.kv), FULL_DISTANCE))
      && (o.Done? ==> s'.m == s.m && s'.g.count == s.g.count && Excess(maxLoad, s'.g) < Excess(maxLoad, s.g))
      && (o.Lost? ==> StrictSubMap(s'.m, s.m) && Crowded(s'.g.buckets, s.m.Keys, FULL_DISTANCE))
  }

  lemma {:induction false} DoubledByMoving<T, V>(maxLoad: nat, s: Look<T, V>, o: Outcome, s': Look<T, V>)
    requires Moved(s, o, s') && s'.g.buckets == 2 * s.g.buckets && 10 < maxLoad < 100
    requires !Half(maxLoad, s.g.count, s.g.buckets) && s.g.buckets >= INITIAL_NUM_ELEMENTS
    ensures DoubleEnd(maxLoad, s, o, s')
  {
    DoublingAllowsMore(maxLoad, s.g.buckets);
  }

  lemma {:induction false} IncreasedByDoubling<T, V>(maxLoad: nat, s: Look<T, V>, o: Outcome, s': Look<T, V>)
    requires s.g.buckets > 1 && DoubleEnd(maxLoad, s, o, s')
    requires s.g.count >= CalcMaxNumElementsAllowed(maxLoad, s.g.buckets) || s.g.inc <= 2
    ensures IncreaseEnd(maxLoad, s, o, s')
  {
  }

  lemma {:induction false} IncreasedByRescaling<T, V>(maxLoad: nat, s: Look<T, V>, s': Look<T, V>)
    requires s.g.buckets > 1 && s.g.inc > 2 && s.g.count < CalcMaxNumElementsAllowed(maxLoad, s.g.buckets)
    requires s'.g == s.g.(bound := CalcMaxNumElementsAllowed(maxLoad, s.g.buckets), inc := s.g.inc / 2)
    requires s'.kv == s.kv && s'.m == s.m && s'.tight
    ensures IncreaseEnd(maxLoad, s, Done, s')
  {
  }

  lemma {:induction false} IncreasedFromNothing<T, V>(maxLoad: nat, s: Look<T, V>, s': Look<T, V>)
    requires s.g.buckets == 1 && s'.g.buckets == INITIAL_NUM_ELEMENTS && s'.m == s.m && s'.tight
    ensures IncreaseEnd(maxLoad, s, Done, s')
  {
  }

  // ----- one round of an insertion -----

  /** The key has its slot: it was there, or there was room. */
  ghost predicate Settled<T, V>(s: Look<T, V>, key: Key<T>, value: V, inserted: bool, idx: nat, s': Look<T, V>) {
    && inserted == (key !in s.m) && s'.m == (if inserted then s.m[key := value] else s.m)
    && StoredAt(s'.kv, key, idx) && s'.g.buckets == s.g.buckets
    && (if inserted then s.g.count < s.g.bound && s'.tight else s' == s)
  }

  ghost predicate Unsettled<T, V>(s: Look<T, V>, key: Key<T>) {
    key !in s.m && s.g.count >= s.g.bound
  }

  ghost predicate RoundEnd<T, V>(maxLoad: nat, s: Look<T, V>, key: Key<T>, value: V, again: bool, o: Outcome,
                                 inserted: bool, idx: nat, s': Look<T, V>) {
    if !again && o.Done? then Settled(s, key, value, inserted, idx, s')
    else Unsettled(s, key) && again == o.Done? && IncreaseEnd(maxLoad, s, o, s')
  }

  // ----- a whole insertion -----

  /** The table doubles, and all entries arrive. */
  ghost predicate Doubles<T, V>(maxLoad: nat, s: Look<T, V>)
    requires s.g.buckets > 0
  {
    && !HasRoom(maxLoad, s.g) && !Half(maxLoad, s.g.count, s.g.buckets)
    && !Crowded(2 * s.g.buckets, AllButLast(s.kv), FULL_DISTANCE)
  }

  /** How an insertion of a new key ends, by what the allocated table `s` looks like.  With room it succeeds at
      this size.  Without, it is refused below half of the capacity; else the table doubles, which loses entries
      exactly when all keys but the last are crowded at twice the size.  The insertion then succeeds there if the
      keys are not crowded, and is refused there, or goes on, if they are. */
  ghost predicate Planned<T, V>(maxLoad: nat, s: Look<T, V>, o: Outcome, buckets: nat)
    requires s.g.buckets > 0
  {
    var twice := 2 * s.g.buckets;
    if HasRoom(maxLoad, s.g) then o.Done? && buckets == s.g.buckets
    else if Half(maxLoad, s.g.count, s.g.buckets) then o.Refused? && buckets == s.g.buckets
    else if Crowded(twice, AllButLast(s.kv), FULL_DISTANCE) then o.Lost? && buckets == twice
    else if !Crowded(twice, s.m.Keys, FULL_DISTANCE) then o.Done? && buckets == twice
    else if Half(maxLoad, s.g.count, twice) then o.Refused? && buckets == twice
    else buckets > twice
  }

  /** How an insertion ends.  In a tight table a new key goes in exactly when the stored keys are not crowded at
      the size the table ends up with. */
  ghost predicate InsertEnd<T, V>(maxLoad: nat, s: Look<T, V>, key: Key<T>, o: Outcome, buckets: nat) {
    && buckets >= s.g.buckets > 0
    && (key in s.m ==> o.Done? && buckets == s.g.buckets)
    && (key !in s.m && o.Done? ==> !Crowded(buckets, s.m.Keys, FULL_DISTANCE))
    && (key !in s.m && (o.Lost? || (s.tight && o.Refused?)) ==> Crowded(buckets, s.m.Keys, FULL_DISTANCE))
    && (o.Refused? ==> Half(maxLoad, s.g.count, buckets))
    && (key !in s.m && s.g.buckets > 1 ==> Planned(maxLoad, s, o, buckets))
    && (s.tight && buckets != s.g.buckets ==> MayGrow(maxLoad, s.g.buckets, s.m))
  }

  /** The three ways in which a table that has to double ends up at twice its size. */
  lemma {:induction false} EndsAtTwice<T, V>(maxLoad: nat, s: Look<T, V>, key: Key<T>, o: Outcome, buckets: nat)
    requires Judged(maxLoad, s) && InsertEnd(maxLoad, s, key, o, buckets) && key !in s.m && s.g.buckets > 1
    requires !HasRoom(maxLoad, s.g) && !Half(maxLoad, s.g.count, s.g.buckets)
    ensures (var twice := 2 * s.g.buckets;
             var all := Crowded(twice, s.m.Keys, FULL_DISTANCE);
             var but := Crowded(twice, AllButLast(s.kv), FULL_DISTANCE);
             && (o.Done? && buckets == twice <==> !all)
             && (o.Lost? && buckets == twice <==> but)
             && (o.Refused? && buckets == twice <==> all && !but && Half(maxLoad, s.g.count, twice)))
  {
    CrowdedAll(2 * s.g.buckets, s.kv);
  }

  /** The table after an insertion.  A table that took a new key is tight, whatever it was before. */
  ghost predicate Inserted<T, V>(s: Look<T, V>, key: Key<T>, value: V, o: Outcome, inserted: bool, idx: nat,
                                 s': Look<T, V>) {
    match o
    case Done =>
      && inserted == (key !in s.m) && StoredAt(s'.kv, key, idx)
      && (if inserted then s'.m == s.m[key := value] && s'.tight else s' == s)
    case Refused => key !in s.m && s'.m == s.m && (s.tight ==> s'.tight)
    case Lost => key !in s.m && StrictSubMap(s'.m, s.m) && s'.tight
  }

  /** The table after an assignment through operator[]. */
  ghost predicate Assigned<T, V>(s: Look<T, V>, key: Key<T>, value: V, o: Outcome, s': Look<T, V>) {
    match o
    case Done => s'.m == s.m[key := value] && (if key in s.m then s'.g == s.g && s'.tight == s.tight else s'.tight)
    case Refused => key !in s.m && s'.m == s.m && (s.tight ==> s'.tight)
    case Lost => key !in s.m && StrictSubMap(s'.m, s.m) && s'.tight
  }

  /** Only the value of `key` has changed. */
  ghost predicate Overwritten<T, V>(s: Look<T, V>, key: Key<T>, value: V, s': Look<T, V>) {
    s'.m == s.m[key := value] && s'.g == s.g && s'.tight == s.tight
  }

  lemma {:induction false} AssignedAfter<T, V>(maxLoad: nat, s: Look<T, V>, key: Key<T>, value: V, default: V,
                                               o: Outcome, inserted: bool, idx: nat, s1: Look<T, V>, s2: Look<T, V>)
    requires Inserted(s, key, default, o, inserted, idx, s1) && InsertEnd(maxLoad, s, key, o, s1.g.buckets)
    requires if o.Done? then Overwritten(s1, key, value, s2) else s2 == s1
    ensures Assigned(s, key, value, o, s2) && InsertEnd(maxLoad, s, key, o, s2.g.buckets)
  {
    assert s.m[key := default][key := value] == s.m[key := value];
  }

  /** Where the retry loop can be, having started from `s0`. */
  ghost predicate Along<T, V>(maxLoad: nat, s0: Look<T, V>, s: Look<T, V>) {
    && s.m == s0.m && s.g.buckets >= s0.g.buckets > 0 && (s0.tight ==> s.tight)
    && (s0.g.buckets > 1 ==> Path(maxLoad, s0, s))
    && (s0.tight && s.g.buckets != s0.g.buckets ==> MayGrow(maxLoad, s0.g.buckets, s0.m))
  }

  ghost predicate Path<T, V>(maxLoad: nat, s0: Look<T, V>, s: Look<T, V>)
    requires s0.g.buckets > 0
  {
    var twice := 2 * s0.g.buckets;
    && s.g.count == s0.g.count
    && (|| (s.g.buckets == s0.g.buckets && s.kv == s0.kv && (HasRoom(maxLoad, s.g) <==> HasRoom(maxLoad, s0.g)))
        || (&& s.g.buckets == twice && Doubles(maxLoad, s0)
            && (HasRoom(maxLoad, s.g) <==> !Crowded(twice, s0.m.Keys, FULL_DISTANCE)))
        || (&& s.g.buckets > twice && Doubles(maxLoad, s0) && Crowded(twice, s0.m.Keys, FULL_DISTANCE)
            && !Half(maxLoad, s0.g.count, twice)))
  }

  lemma {:induction false} AlongStarts<T, V>(maxLoad: nat, s: Look<T, V>)
    requires Judged(maxLoad, s)
    ensures Along(maxLoad, s, s)
  {
  }

  /** A tight table grows only when it may, and refuses only crowded keys. */
  lemma {:induction false} GrowsOnlyWhen<T, V>(maxLoad: nat, s: Look<T, V>, o: Outcome, s': Look<T, V>)
    requires Judged(maxLoad, s) && s.tight && s.g.count >= s.g.bound && IncreaseEnd(maxLoad, s, o, s')
    ensures s'.g.buckets != s.g.buckets ==> MayGrow(maxLoad, s.g.buckets, s.m)
    ensures o.Refused? ==> Crowded(s.g.buckets, s.m.Keys, FULL_DISTANCE)
  {
  }

  lemma {:induction false} PathStep<T, V>(maxLoad: nat, s0: Look<T, V>, s: Look<T, V>, s': Look<T, V>)
    requires Judged(maxLoad, s) && Judged(maxLoad, s') && s.g.count >= s.g.bound && s0.g.buckets > 1 && s.m == s0.m
    requires Path(maxLoad, s0, s) && s.g.buckets > 1 && IncreaseEnd(maxLoad, s, Done, s')
    ensures Path(maxLoad, s0, s')
  {
    DoublingAllowsMore(maxLoad, s.g.buckets);
    if s'.g.buckets != s.g.buckets {
      RoomIff(maxLoad, s');
    }
  }

  lemma {:induction false} AlongStep<T, V>(maxLoad: nat, s0: Look<T, V>, s: Look<T, V>, s': Look<T, V>)
    requires Judged(maxLoad, s) && Judged(maxLoad, s') && Along(maxLoad, s0, s) && s.g.count >= s.g.bound
    requires IncreaseEnd(maxLoad, s, Done, s')
    ensures Along(maxLoad, s0, s')
  {
    if s.tight {
      GrowsOnlyWhen(maxLoad, s, Done, s');
    }
    if s0.g.buckets > 1 {
      PathStep(maxLoad, s0, s, s');
    }
  }

  lemma {:induction false} PlanEnds<T, V>(maxLoad: nat, s0: Look<T, V>, s: Look<T, V>, o: Outcome, s': Look<T, V>)
    requires Judged(maxLoad, s0) && Judged(maxLoad, s) && Path(maxLoad, s0, s) && s0.g.buckets > 1 && s.m == s0.m
    requires o.Done? ==> s.g.count < s.g.bound && s'.g.buckets == s.g.buckets
    requires !o.Done? ==> s.g.count >= s.g.bound && s.g.buckets > 1 && IncreaseEnd(maxLoad, s, o, s')
    ensures Planned(maxLoad, s0, o, s'.g.buckets)
  {
    CrowdedAll(2 * s0.g.buckets, s0.kv);
  }

  lemma {:induction false} AlongEnds<T, V>(maxLoad: nat, s0: Look<T, V>, s: Look<T, V>, key: Key<T>, value: V,
                                           o: Outcome, inserted: bool, idx: nat, s': Look<T, V>)
    requires Judged(maxLoad, s0) && Judged(maxLoad, s) && Along(maxLoad, s0, s)
    requires key in s0.m ==> s == s0
    requires RoundEnd(maxLoad, s, key, value, false, o, inserted, idx, s')
    ensures Inserted(s0, key, value, o, inserted, idx, s') && InsertEnd(maxLoad, s0, key, o, s'.g.buckets)
  {
    if !o.Done? && s.tight {
      GrowsOnlyWhen(maxLoad, s, o, s');
    }
    if key !in s0.m && s0.g.buckets > 1 {
      PlanEnds(maxLoad, s0, s, o, s');
    }
  }
}
