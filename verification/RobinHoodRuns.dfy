/** Whole runs of table operations against a plain map: where they stop, and why. */
module RobinHoodRuns {
  import opened Words
  import opened RobinHoodLayout
  import opened RobinHoodCrowding
  import opened RobinHoodHashing
  import opened RobinHoodGrowth
  import opened RobinHoodTable

  datatype Op<+T, +V> =
    | Insert(key: Key<T>, value: V)
    | Assign(key: Key<T>, value: V)
    | Remove(key: Key<T>)
    | ClearAll
    | ReserveFor(count: nat)

  /** What an operation does to a plain map. */
  function Apply<T(==), V>(m: map<Key<T>, V>, op: Op<T, V>): (m': map<Key<T>, V>)
  {
    match op
    case Insert(key, value) => if key in m then m else m[key := value]
    case Assign(key, value) => m[key := value]
    case Remove(key) => m - {key}
    case ClearAll => map[]
    case ReserveFor(_) => m
  }

  function ApplyAll<T(==), V>(m: map<Key<T>, V>, ops: seq<Op<T, V>>): (m': map<Key<T>, V>)
  {
    if ops == [] then m else Apply(ApplyAll(m, ops[..|ops| - 1]), ops[|ops| - 1])
  }

  // ----- one operation -----

  /** What became of the entries. */
  ghost predicate Tracked<T, V>(op: Op<T, V>, s: Look<T, V>, o: Outcome, s': Look<T, V>) {
    match o
    case Done => s'.m == Apply(s.m, op)
    case Refused => s'.m == s.m
    case Lost => StrictSubMap(s'.m, s.m)
  }

  /** How an operation ends, by what the table looked like before.  Removing and clearing always succeed, at the
      same size and with insertion switched off or on as it was. */
  ghost predicate StepEnd<T, V>(maxLoad: nat, op: Op<T, V>, s: Look<T, V>, o: Outcome, s': Look<T, V>) {
    && Tracked(op, s, o, s')
    && match op
       case Insert(key, _) => InsertEnd(maxLoad, s, key, o, s'.g.buckets) && After(s, key, o, s')
       case Assign(key, _) => InsertEnd(maxLoad, s, key, o, s'.g.buckets) && After(s, key, o, s')
       case Remove(_) => o.Done? && s'.g == s.g.(count := s'.g.count)
       case ClearAll => o.Done? && s'.g == s.g.(count := 0, inc := s'.g.inc) && s'.g.inc in {s.g.inc, INITIAL_INFO_INC}
       case ReserveFor(c) => ReserveEnd(maxLoad, s, c, o, s')
  }

  /** A table that took a new key is tight; one that had the key keeps its gauge. */
  ghost predicate After<T, V>(s: Look<T, V>, key: Key<T>, o: Outcome, s': Look<T, V>) {
    o.Done? ==> if key in s.m then s'.g == s.g else s'.tight
  }

  lemma {:induction false} InsertStep<T, V>(maxLoad: nat, key: Key<T>, value: V, s: Look<T, V>, o: Outcome,
                                            inserted: bool, idx: nat, s': Look<T, V>)
    requires Inserted(s, key, value, o, inserted, idx, s') && InsertEnd(maxLoad, s, key, o, s'.g.buckets)
    ensures StepEnd(maxLoad, Insert(key, value), s, o, s')
  {
  }

  lemma {:induction false} AssignStep<T, V>(maxLoad: nat, key: Key<T>, value: V, s: Look<T, V>, o: Outcome,
                                            s': Look<T, V>)
    requires Assigned(s, key, value, o, s') && InsertEnd(maxLoad, s, key, o, s'.g.buckets)
    ensures StepEnd(maxLoad, Assign(key, value), s, o, s')
  {
  }

  lemma {:induction false} ReserveStep<T, V>(maxLoad: nat, c: nat, s: Look<T, V>, o: Outcome, s': Look<T, V>)
    requires ReserveEnd(maxLoad, s, c, o, s')
    ensures StepEnd(maxLoad, ReserveFor(c), s, o, s')
  {
  }

  lemma {:induction false} RemoveStep<T, V>(maxLoad: nat, key: Key<T>, s: Look<T, V>, s': Look<T, V>)
    requires s'.m == s.m - {key} && s'.g == s.g.(count := s'.g.count)
    ensures StepEnd(maxLoad, Remove(key), s, Done, s')
  {
  }

  lemma {:induction false} ClearStep<T, V>(maxLoad: nat, s: Look<T, V>, s': Look<T, V>)
    requires s'.m == map[] && s'.g == s.g.(count := 0, inc := s'.g.inc) && s'.g.inc in {s.g.inc, INITIAL_INFO_INC}
    ensures StepEnd(maxLoad, ClearAll, s, Done, s')
  {
  }

  method InsertFrom<T(==), V>(t: Table<T, V>, key: Key<T>, value: V, ghost s: Look<T, V>) returns (o: Outcome)
    requires t.Valid() && s == t.Now() && Judged(t.maxLoad, s)
    modifies t, t.keyVals, t.info
    ensures t.Valid()
    ensures fresh(t.keyVals) || t.keyVals == old(t.keyVals)
    ensures fresh(t.info) || t.info == old(t.info)
    ensures StepEnd(t.maxLoad, Insert(key, value), s, o, t.Now())
  {
    var inserted, idx;
    o, inserted, idx := t.InsertFrom(key, value, s);
    InsertStep(t.maxLoad, key, value, s, o, inserted, idx, t.Now());
  }

  method AssignFrom<T(==), V>(t: Table<T, V>, key: Key<T>, value: V, default: V, ghost s: Look<T, V>)
    returns (o: Outcome)
    requires t.Valid() && s == t.Now() && Judged(t.maxLoad, s)
    modifies t, t.keyVals, t.info
    ensures t.Valid()
    ensures fresh(t.keyVals) || t.keyVals == old(t.keyVals)
    ensures fresh(t.info) || t.info == old(t.info)
    ensures StepEnd(t.maxLoad, Assign(key, value), s, o, t.Now())
  {
    o := t.SetFrom(key, value, default, s);
    AssignStep(t.maxLoad, key, value, s, o, t.Now());
  }

  method RemoveFrom<T(==), V>(t: Table<T, V>, key: Key<T>, ghost s: Look<T, V>) returns (o: Outcome)
    requires t.Valid() && s == t.Now()
    modifies t, t.keyVals, t.info
    ensures t.Valid()
    ensures fresh(t.keyVals) || t.keyVals == old(t.keyVals)
    ensures fresh(t.info) || t.info == old(t.info)
    ensures StepEnd(t.maxLoad, Remove(key), s, o, t.Now())
  {
    var erased := t.Erase(key);
    RemoveStep(t.maxLoad, key, s, t.Now());
    o := Done;
  }

  method ClearFrom<T(==), V>(t: Table<T, V>, ghost s: Look<T, V>) returns (o: Outcome)
    requires t.Valid() && s == t.Now()
    modifies t, t.keyVals, t.info
    ensures t.Valid()
    ensures fresh(t.keyVals) || t.keyVals == old(t.keyVals)
    ensures fresh(t.info) || t.info == old(t.info)
    ensures StepEnd(t.maxLoad, ClearAll, s, o, t.Now())
  {
    t.Clear();
    ClearStep(t.maxLoad, s, t.Now());
    o := Done;
  }

  method ReserveFrom<T(==), V>(t: Table<T, V>, c: nat, ghost s: Look<T, V>) returns (o: Outcome)
    requires t.Valid() && s == t.Now()
    modifies t, t.keyVals, t.info
    ensures t.Valid()
    ensures fresh(t.keyVals) || t.keyVals == old(t.keyVals)
    ensures fresh(t.info) || t.info == old(t.info)
    ensures StepEnd(t.maxLoad, ReserveFor(c), s, o, t.Now())
  {
    o := t.Reserve(c);
    ReserveStep(t.maxLoad, c, s, o, t.Now());
  }

  method StepFrom<T(==), V>(t: Table<T, V>, op: Op<T, V>, default: V, ghost s: Look<T, V>) returns (o: Outcome)
    requires t.Valid() && s == t.Now() && Judged(t.maxLoad, s)
    modifies t, t.keyVals, t.info
    ensures t.Valid()
    ensures fresh(t.keyVals) || t.keyVals == old(t.keyVals)
    ensures fresh(t.info) || t.info == old(t.info)
    ensures StepEnd(t.maxLoad, op, s, o, t.Now())
  {
    match op
    case Insert(key, value) => o := InsertFrom(t, key, value, s);
    case Assign(key, value) => o := AssignFrom(t, key, value, default, s);
    case Remove(key) => o := RemoveFrom(t, key, s);
    case ClearAll => o := ClearFrom(t, s);
    case ReserveFor(count) => o := ReserveFrom(t, count, s);
  }

  method Step<T(==), V>(t: Table<T, V>, op: Op<T, V>, default: V) returns (o: Outcome)
    requires t.Valid()
    modifies t, t.keyVals, t.info
    ensures t.Valid()
    ensures fresh(t.keyVals) || t.keyVals == old(t.keyVals)
    ensures fresh(t.info) || t.info == old(t.info)
    ensures StepEnd(t.maxLoad, op, old(t.Now()), o, t.Now())
  {
    t.JudgeNow();
    o := StepFrom(t, op, default, t.Now());
  }

  // ----- keys that are never crowded -----

  /** Not crowded at any size that may hold that many keys. */
  ghost predicate NeverCrowded<T>(maxLoad: nat, keys: set<Key<T>>) {
    forall b: nat :: IsPow2(b) && b >= INITIAL_NUM_ELEMENTS && |keys| <= CalcMaxNumElementsAllowed(maxLoad, b) ==>
      !Crowded(b, keys, FULL_DISTANCE)
  }

  /** Fewer keys than an info byte can count never are, whatever their hash values. */
  lemma {:induction false} FewNeverCrowded<T>(maxLoad: nat, keys: set<Key<T>>)
    requires |keys| < FULL_DISTANCE
    ensures NeverCrowded(maxLoad, keys)
  {
    forall b: nat, lo: nat, hi: nat | b > 0
      ensures !CrowdedOn(b, keys, FULL_DISTANCE, lo, hi)
    {
      SubsetSize(HomeIn(b, keys, lo, hi), keys);
    }
  }

  /** The hash values of `n` keys are `n` numbers in a row, in any order. */
  ghost predicate InARow<T>(keys: set<Key<T>>, first: nat) {
    && (forall k :: k in keys ==> first <= k.hash < first + |keys|)
    && forall k, k' :: k in keys && k' in keys && k.hash == k'.hash ==> k == k'
  }

  /** Neither are any number of keys whose hash values are in a row: each has a home of its own. */
  lemma {:induction false} RowNeverCrowded<T>(maxLoad: nat, keys: set<Key<T>>, first: nat)
    requires maxLoad < 100 && InARow(keys, first)
    ensures NeverCrowded(maxLoad, keys)
  {
    forall b: nat, lo: nat, hi: nat | b > 0 && |keys| <= CalcMaxNumElementsAllowed(maxLoad, b)
      ensures !CrowdedOn(b, keys, FULL_DISTANCE, lo, hi)
    {
      if lo <= hi < b {
        AllowedAtMost(maxLoad, b);
        forall k, k' | k in keys && k' in keys && Mod(k.hash, b) == Mod(k'.hash, b)
          ensures k == k'
        {
          SameRemainder(k.hash, k'.hash, b);
        }
        OneEach(b, HomeIn(b, keys, lo, hi), lo, hi + 1);
      }
    }
  }

  lemma AllowedAtMost(maxLoad: nat, b: nat)
    requires maxLoad < 100
    ensures CalcMaxNumElementsAllowed(maxLoad, b) <= b
  {
    TimesIsProduct(b, maxLoad);
    TimesIsProduct(b / 100, maxLoad);
    MulAtLeast(100, maxLoad, b);
    MulAtLeast(100, maxLoad, b / 100);
  }

  lemma SameRemainder(x: nat, y: nat, b: nat)
    requires b > 0 && x < y + b && y < x + b && Mod(x, b) == Mod(y, b)
    ensures x == y
  {
    ModIsRemainder(x, b);
    ModIsRemainder(y, b);
  }

  /** Keys with homes of their own in `[lo, hi)` are no more than that stretch is long. */
  lemma {:induction false} OneEach<T>(b: nat, keys: set<Key<T>>, lo: nat, hi: nat)
    requires b > 0 && lo <= hi && forall k :: k in keys ==> lo <= Mod(k.hash, b) < hi
    requires forall k, k' :: k in keys && k' in keys && Mod(k.hash, b) == Mod(k'.hash, b) ==> k == k'
    ensures |keys| <= hi - lo
    decreases hi
  {
    if k :| k in keys && Mod(k.hash, b) == hi - 1 {
      OneEach(b, keys - {k}, lo, hi - 1);
    } else if lo < hi {
      OneEach(b, keys, lo, hi - 1);
    } else {
      assert keys == {};
    }
  }

  /** Insertion is on, or a rescaling will switch it on, or the table may hold nothing yet. */
  predicate Open(maxLoad: nat, g: Gauge) {
    g.bound != 0 || g.inc > 2 || CalcMaxNumElementsAllowed(maxLoad, g.buckets) == 0
  }

  lemma {:induction false} TightIsOpen<T, V>(maxLoad: nat, s: Look<T, V>)
    requires Judged(maxLoad, s) && s.tight && NeverCrowded(maxLoad, s.m.Keys)
    ensures Open(maxLoad, s.g)
  {
    if s.g.buckets == 1 {
      UnallocatedHoldsNothing(maxLoad);
    }
  }

  lemma UnallocatedHoldsNothing(maxLoad: nat)
    requires maxLoad < 100
    ensures CalcMaxNumElementsAllowed(maxLoad, 1) == 0
  {
    TimesIsProduct(1, maxLoad);
  }

  /** An open table whose keys are never crowded takes every new key. */
  lemma {:induction false} OpenTakes<T, V>(maxLoad: nat, s: Look<T, V>, key: Key<T>, o: Outcome, s': Look<T, V>)
    requires Judged(maxLoad, s) && Judged(maxLoad, s') && Open(maxLoad, s.g) && NeverCrowded(maxLoad, s.m.Keys)
    requires InsertEnd(maxLoad, s, key, o, s'.g.buckets)
    ensures o.Done?
  {
    if s.g.buckets > 1 {
      DoublePow2(s.g.buckets);
      DoublingAllowsMore(maxLoad, s.g.buckets);
    } else {
      UnallocatedHoldsNothing(maxLoad);
      NotCrowdedEmpty(s'.g.buckets, s.m.Keys);
    }
  }

  /** The sizes that the reserve operations ask for exist. */
  ghost predicate Satisfiable<T, V>(maxLoad: nat, m: map<Key<T>, V>, op: Op<T, V>) {
    op.ReserveFor? ==> SomeSizeHolds(maxLoad, Max(op.count, |m|))
  }

  /** With keys that are never crowded, before and after, an operation succeeds exactly when it does not ask for
      an impossible size, and leaves the table open. */
  lemma {:induction false} OpenStep<T, V>(maxLoad: nat, op: Op<T, V>, s: Look<T, V>, o: Outcome, s': Look<T, V>)
    requires Judged(maxLoad, s) && Judged(maxLoad, s') && StepEnd(maxLoad, op, s, o, s') && Open(maxLoad, s.g)
    requires NeverCrowded(maxLoad, s.m.Keys)
    ensures o.Done? <==> Satisfiable(maxLoad, s.m, op)
    ensures o.Done? && NeverCrowded(maxLoad, Apply(s.m, op).Keys) ==> Open(maxLoad, s'.g)
  {
    match op {
      case Insert(key, _) => OpenTakes(maxLoad, s, key, o, s');
      case Assign(key, _) => OpenTakes(maxLoad, s, key, o, s');
      case Remove(_) =>
      case ClearAll =>
      case ReserveFor(_) =>
    }
    if s'.tight && NeverCrowded(maxLoad, s'.m.Keys) {
      TightIsOpen(maxLoad, s');
    }
  }

  // ----- whole runs -----

  /** At no point of the run are the stored keys crowded, at any size that may hold them. */
  ghost predicate NeverCrowdedIn<T, V>(maxLoad: nat, m: map<Key<T>, V>, ops: seq<Op<T, V>>) {
    forall i :: 0 <= i <= |ops| ==> NeverCrowded(maxLoad, ApplyAll(m, ops[..i]).Keys)
  }

  ghost predicate AllSatisfiable<T, V>(maxLoad: nat, m: map<Key<T>, V>, ops: seq<Op<T, V>>) {
    forall i :: 0 <= i < |ops| ==> Satisfiable(maxLoad, ApplyAll(m, ops[..i]), ops[i])
  }

  /** What a table looked like before each operation of a run, and after the last one that succeeded. */
  ghost predicate Trail<T, V>(maxLoad: nat, ops: seq<Op<T, V>>, trail: seq<Look<T, V>>) {
    && 0 < |trail| <= |ops| + 1
    && (forall i :: 0 <= i < |trail| ==> Judged(maxLoad, trail[i]))
    && forall i :: 0 < i < |trail| ==> StepEnd(maxLoad, ops[i - 1], trail[i - 1], Done, trail[i])
  }

  /** The run ended with `o` after the last look of the trail: all operations are done, or the next one failed. */
  ghost predicate Stopped<T, V>(maxLoad: nat, ops: seq<Op<T, V>>, trail: seq<Look<T, V>>, o: Outcome, s: Look<T, V>) {
    && Trail(maxLoad, ops, trail) && Judged(maxLoad, s)
    && if o.Done? then |trail| == |ops| + 1 && s == trail[|ops|]
       else |trail| <= |ops| && StepEnd(maxLoad, ops[|trail| - 1], trail[|trail| - 1], o, s)
  }

  lemma {:induction false} TrailTracks<T, V>(maxLoad: nat, ops: seq<Op<T, V>>, trail: seq<Look<T, V>>, i: nat)
    requires Trail(maxLoad, ops, trail) && i < |trail|
    ensures trail[i].m == ApplyAll(trail[0].m, ops[..i])
  {
    if i > 0 {
      TrailTracks(maxLoad, ops, trail, i - 1);
      assert ops[..i][..i - 1] == ops[..i - 1];
    }
  }

  lemma {:induction false} TrailOpen<T, V>(maxLoad: nat, ops: seq<Op<T, V>>, trail: seq<Look<T, V>>, i: nat)
    requires Trail(maxLoad, ops, trail) && i < |trail|
    requires Open(maxLoad, trail[0].g) && NeverCrowdedIn(maxLoad, trail[0].m, ops)
    ensures Open(maxLoad, trail[i].g)
    ensures i > 0 ==> Satisfiable(maxLoad, ApplyAll(trail[0].m, ops[..i - 1]), ops[i - 1])
  {
    if i > 0 {
      TrailOpen(maxLoad, ops, trail, i - 1);
      TrailTracks(maxLoad, ops, trail, i - 1);
      TrailTracks(maxLoad, ops, trail, i);
      assert NeverCrowded(maxLoad, ApplyAll(trail[0].m, ops[..i - 1]).Keys);
      assert NeverCrowded(maxLoad, ApplyAll(trail[0].m, ops[..i]).Keys);
      OpenStep(maxLoad, ops[i - 1], trail[i - 1], Done, trail[i]);
    }
  }

  /** The table holds the entries `m`, or only part of them after a loss. */
  ghost predicate Matches<T, V>(m: map<Key<T>, V>, o: Outcome, s: Look<T, V>) {
    if o.Lost? then StrictSubMap(s.m, m) else s.m == m && s.g.count == |m|
  }

  lemma {:induction false} StoppedMatches<T, V>(maxLoad: nat, ops: seq<Op<T, V>>, trail: seq<Look<T, V>>, o: Outcome,
                                                s: Look<T, V>)
    requires Stopped(maxLoad, ops, trail, o, s)
    ensures Matches(ApplyAll(trail[0].m, ops[..|trail| - 1]), o, s)
  {
    TrailTracks(maxLoad, ops, trail, |trail| - 1);
  }

  /** From an open table, with keys that are never crowded, a run is completed exactly when no reserve asks for
      an impossible size. */
  lemma {:induction false} Completed<T, V>(maxLoad: nat, ops: seq<Op<T, V>>, trail: seq<Look<T, V>>, o: Outcome,
                                           s: Look<T, V>)
    requires Stopped(maxLoad, ops, trail, o, s)
    requires Open(maxLoad, trail[0].g) && NeverCrowdedIn(maxLoad, trail[0].m, ops)
    ensures o.Done? <==> AllSatisfiable(maxLoad, trail[0].m, ops)
  {
    var n := |trail| - 1;
    if o.Done? {
      forall i | 0 <= i < |ops|
        ensures Satisfiable(maxLoad, ApplyAll(trail[0].m, ops[..i]), ops[i])
      {
        TrailOpen(maxLoad, ops, trail, i + 1);
      }
    } else {
      TrailOpen(maxLoad, ops, trail, n);
      TrailTracks(maxLoad, ops, trail, n);
      assert NeverCrowded(maxLoad, ApplyAll(trail[0].m, ops[..n]).Keys);
      OpenStep(maxLoad, ops[n], trail[n], o, s);
    }
  }

  /** In particular, a run that stores fewer than 127 keys at a time, whatever their hash values. */
  lemma {:induction false} FewCompleted<T, V>(maxLoad: nat, ops: seq<Op<T, V>>, trail: seq<Look<T, V>>, o: Outcome,
                                              s: Look<T, V>)
    requires Stopped(maxLoad, ops, trail, o, s) && Open(maxLoad, trail[0].g)
    requires forall i :: 0 <= i <= |ops| ==> |ApplyAll(trail[0].m, ops[..i])| < FULL_DISTANCE
    ensures o.Done? <==> AllSatisfiable(maxLoad, trail[0].m, ops)
  {
    forall i | 0 <= i <= |ops|
      ensures NeverCrowded(maxLoad, ApplyAll(trail[0].m, ops[..i]).Keys)
    {
      FewNeverCrowded(maxLoad, ApplyAll(trail[0].m, ops[..i]).Keys);
    }
    Completed(maxLoad, ops, trail, o, s);
  }

  /** Inserting keys whose hash values are 0, 1, 2 and so on. */
  ghost predicate CountsUp<T, V>(ops: seq<Op<T, V>>) {
    forall i :: 0 <= i < |ops| ==> ops[i].Insert? && ops[i].key.hash == i
  }

  lemma {:induction false} CountedKeys<T, V>(ops: seq<Op<T, V>>, i: nat)
    requires CountsUp(ops) && i <= |ops|
    ensures (var m := ApplyAll(map[], ops[..i]);
             |m| == i && forall k :: k in m ==> k.hash < i && k == ops[k.hash].key)
    decreases i
  {
    if i > 0 {
      CountedKeys(ops, i - 1);
      assert ops[..i][..i - 1] == ops[..i - 1];
    }
  }

  lemma {:induction false} CountedNeverCrowded<T, V>(maxLoad: nat, ops: seq<Op<T, V>>, i: nat)
    requires maxLoad < 100 && CountsUp(ops) && i <= |ops|
    ensures NeverCrowded(maxLoad, ApplyAll(map[], ops[..i]).Keys)
  {
    CountedKeys(ops, i);
    RowNeverCrowded(maxLoad, ApplyAll(map[], ops[..i]).Keys, 0);
  }

  /** Any number of such keys goes into an empty table. */
  lemma {:induction false} CountingCompleted<T, V>(maxLoad: nat, ops: seq<Op<T, V>>, trail: seq<Look<T, V>>,
                                                   o: Outcome, s: Look<T, V>)
    requires CountsUp(ops) && Stopped(maxLoad, ops, trail, o, s)
    requires trail[0].m == map[] && Open(maxLoad, trail[0].g)
    ensures o.Done? && s.g.count == |ops|
  {
    forall i | 0 <= i <= |ops|
      ensures NeverCrowded(maxLoad, ApplyAll(trail[0].m, ops[..i]).Keys)
    {
      CountedNeverCrowded(maxLoad, ops, i);
    }
    Completed(maxLoad, ops, trail, o, s);
    StoppedMatches(maxLoad, ops, trail, o, s);
    CountedKeys(ops, |ops|);
  }

  lemma {:induction false} TrailGrows<T, V>(maxLoad: nat, ops: seq<Op<T, V>>, trail: seq<Look<T, V>>, o: Outcome,
                                            s: Look<T, V>)
    requires Trail(maxLoad, ops, trail) && |trail| <= |ops| && Judged(maxLoad, s)
    requires StepEnd(maxLoad, ops[|trail| - 1], trail[|trail| - 1], o, s)
    ensures if o.Done? then Trail(maxLoad, ops, trail + [s]) else Stopped(maxLoad, ops, trail, o, s)
  {
  }

  method TraceOne<T(==), V>(t: Table<T, V>, ops: seq<Op<T, V>>, op: Op<T, V>, default: V, ghost trail: seq<Look<T, V>>)
    returns (o: Outcome)
    requires t.Valid() && Trail(t.maxLoad, ops, trail) && |trail| <= |ops|
    requires t.Now() == trail[|trail| - 1] && op == ops[|trail| - 1]
    modifies t, t.keyVals, t.info
    ensures t.Valid()
    ensures fresh(t.keyVals) || t.keyVals == old(t.keyVals)
    ensures fresh(t.info) || t.info == old(t.info)
    ensures if o.Done? then Trail(t.maxLoad, ops, trail + [t.Now()]) else Stopped(t.maxLoad, ops, trail, o, t.Now())
  {
    o := StepFrom(t, op, default, trail[|trail| - 1]);
    t.JudgeNow();
    TrailGrows(t.maxLoad, ops, trail, o, t.Now());
  }

  /** Performs the operations in turn until one raises the overflow exception. */
  method Trace<T(==), V>(t: Table<T, V>, ops: seq<Op<T, V>>, default: V, ghost s0: Look<T, V>)
    returns (done: nat, o: Outcome, ghost trail: seq<Look<T, V>>)
    requires t.Valid() && s0 == t.Now() && Judged(t.maxLoad, s0)
    modifies t, t.keyVals, t.info
    ensures t.Valid() && Stopped(t.maxLoad, ops, trail, o, t.Now()) && trail[0] == s0 && done == |trail| - 1
  {
    done := 0;
    trail := [s0];
    while done < |ops|
      invariant Trail(t.maxLoad, ops, trail) && done == |trail| - 1 && trail[0] == s0
      invariant t.Valid() && t.Now() == trail[done]
      invariant fresh(t.keyVals) || t.keyVals == old(t.keyVals)
      invariant fresh(t.info) || t.info == old(t.info)
    {
      o := TraceOne(t, ops, ops[done], default, trail);
      if !o.Done? {
        return;
      }
      trail := trail + [t.Now()];
      done := done + 1;
    }
    o := Done;
  }

  /** Every run either tracks the plain map to its end, or stops at the operation that raised the overflow
      exception; the trail says what the table looked like before that one. */
  method Run<T(==), V>(t: Table<T, V>, ops: seq<Op<T, V>>, default: V)
    returns (done: nat, o: Outcome, ghost trail: seq<Look<T, V>>)
    requires t.Valid()
    modifies t, t.keyVals, t.info
    ensures t.Valid() && Stopped(t.maxLoad, ops, trail, o, t.Now()) && trail[0] == old(t.Now())
    ensures done == |trail| - 1 <= |ops| && (o.Done? <==> done == |ops|)
    ensures Matches(ApplyAll(old(t.Contents()), ops[..done]), o, t.Now())
    ensures Open(t.maxLoad, old(t.G())) && NeverCrowdedIn(t.maxLoad, old(t.Contents()), ops) ==>
              (o.Done? <==> AllSatisfiable(t.maxLoad, old(t.Contents()), ops))
  {
    t.JudgeNow();
    ghost var m := t.Contents();
    ghost var safe := Open(t.maxLoad, t.G()) && NeverCrowdedIn(t.maxLoad, m, ops);
    done, o, trail := Trace(t, ops, default, t.Now());
    StoppedMatches(t.maxLoad, ops, trail, o, t.Now());
    if safe {
      Completed(t.maxLoad, ops, trail, o, t.Now());
    }
  }
}
