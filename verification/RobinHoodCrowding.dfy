/** How far nodes are displaced, read off the hash values alone.  A layout holds a node `d - 1` or
    more slots past its home exactly when some interval of `w` buckets is home to `w + d - 1` or more
    keys. */
module RobinHoodCrowding {
  import opened Words
  import opened RobinHoodLayout

  /** The keys whose home bucket lies in `[a, b]`. */
  ghost function HomeIn<T>(buckets: nat, keys: set<Key<T>>, a: nat, b: nat): (r: set<Key<T>>)
    requires buckets > 0
  {
    set k | k in keys && a <= Mod(k.hash, buckets) <= b
  }

  ghost predicate CrowdedOn<T>(buckets: nat, keys: set<Key<T>>, d: nat, a: nat, b: nat)
    requires buckets > 0
  {
    a <= b < buckets && |HomeIn(buckets, keys, a, b)| >= b - a + d
  }

  ghost predicate Crowded<T>(buckets: nat, keys: set<Key<T>>, d: nat)
    requires buckets > 0
  {
    exists a: nat, b: nat :: CrowdedOn(buckets, keys, d, a, b)
  }

  lemma CrowdedMonotone<T>(buckets: nat, keys: set<Key<T>>, keys': set<Key<T>>, d: nat)
    requires buckets > 0
    requires keys <= keys'
    requires Crowded(buckets, keys, d)
    ensures Crowded(buckets, keys', d)
  {
    var a: nat, b: nat :| CrowdedOn(buckets, keys, d, a, b);
    SubsetSize(HomeIn(buckets, keys, a, b), HomeIn(buckets, keys', a, b));
    assert CrowdedOn(buckets, keys', d, a, b);
  }

  lemma SubsetSize<T>(s: set<T>, t: set<T>)
    requires s <= t
    ensures |s| <= |t|
  {
    assert t == s + (t - s);
  }

  /** The keys stored in the slots `[lo, hi)`. */
  ghost function SlotKeys<K, V>(kv: seq<Node<K, V>>, lo: nat, hi: nat): (r: set<K>)
    requires lo <= hi <= |kv|
  {
    if lo == hi then {}
    else SlotKeys(kv, lo, hi - 1) + (if kv[hi - 1].Node? then {kv[hi - 1].key} else {})
  }

  lemma {:induction false} InSlotKeys<K, V>(kv: seq<Node<K, V>>, lo: nat, hi: nat, k: K)
    requires lo <= hi <= |kv|
    ensures k in SlotKeys(kv, lo, hi) <==> exists i :: lo <= i < hi && StoredAt(kv, k, i)
  {
    if lo < hi {
      InSlotKeys(kv, lo, hi - 1, k);
      assert StoredAt(kv, k, hi - 1) <==> kv[hi - 1].Node? && kv[hi - 1].key == k;
    }
  }

  lemma {:induction false} SlotKeysAtMost<K, V>(kv: seq<Node<K, V>>, lo: nat, hi: nat)
    requires lo <= hi <= |kv|
    ensures |SlotKeys(kv, lo, hi)| <= hi - lo
  {
    if lo < hi {
      SlotKeysAtMost(kv, lo, hi - 1);
    }
  }

  lemma {:induction false} SlotKeysFull<K, V>(kv: seq<Node<K, V>>, lo: nat, hi: nat)
    requires lo <= hi <= |kv|
    requires UniqueKeys(kv)
    requires forall i :: lo <= i < hi ==> kv[i].Node?
    ensures |SlotKeys(kv, lo, hi)| == hi - lo
  {
    if lo < hi {
      SlotKeysFull(kv, lo, hi - 1);
      InSlotKeys(kv, lo, hi - 1, kv[hi - 1].key);
    }
  }

  /** Along a run, homes never decrease. */
  lemma HomesOrdered<T, V>(l: Layout, info: seq<Byte>, kv: seq<Node<Key<T>, V>>, i: nat)
    requires Inv(l, info, kv)
    requires 0 < i < l.slots && kv[i].Node? && l.Home(kv[i].key) < i
    ensures kv[i - 1].Node? && l.Home(kv[i - 1].key) <= l.Home(kv[i].key)
  {
    var k, k' := kv[i].key, kv[i - 1].key;
    HomeProbe(l, k, i);
    assert info[i - 1] >= info[i] - l.inc;
    assert kv[i - 1].Node?;
    ProbeClosedForm(l, k, i - 1);
    ProbeClosedForm(l, k', i - 1);
    CompareScaled(l.inc, i - l.Home(k'), l.Bits(k'), i - l.Home(k), l.Bits(k));
  }

  lemma CompareScaled(inc: nat, x: int, bitsX: nat, y: int, bitsY: nat)
    requires bitsX < inc
    requires inc * x + bitsX >= inc * y + bitsY
    ensures x >= y
  {
    assert x < y ==> inc * x + inc <= inc * y by {
      assert x + 1 <= y ==> inc * (x + 1) <= inc * y;
      assert inc * (x + 1) == inc * x + inc;
    }
  }

  /** The run of slots up to `i` all of whose nodes have a home in `[s, home(i)]`. */
  ghost predicate RunFrom<T, V>(l: Layout, kv: seq<Node<Key<T>, V>>, s: nat, i: nat)
    requires l.Sane()
  {
    && s <= i < |kv|
    && (forall j :: s <= j <= i ==> kv[j].Node?)
    && (forall j :: s <= j <= i ==> s <= l.Home(kv[j].key) <= l.Home(kv[i].key))
  }

  lemma {:induction false} RunStart<T, V>(l: Layout, info: seq<Byte>, kv: seq<Node<Key<T>, V>>, i: nat) returns (s: nat)
    requires Inv(l, info, kv)
    requires i < l.slots && kv[i].Node?
    ensures RunFrom(l, kv, s, i)
    decreases i
  {
    if l.Home(kv[i].key) == i {
      s := i;
    } else {
      HomesOrdered(l, info, kv, i);
      s := RunStart(l, info, kv, i - 1);
    }
  }

  lemma FarIsCrowded<T, V>(l: Layout, info: seq<Byte>, kv: seq<Node<Key<T>, V>>, i: nat, d: nat)
    requires Inv(l, info, kv)
    requires i < l.slots && kv[i].Node?
    requires 1 + i - l.Home(kv[i].key) >= d
    ensures Crowded(l.buckets, Entries(kv).Keys, d)
  {
    var s := RunStart(l, info, kv, i);
    var b := l.Home(kv[i].key);
    var run, near := SlotKeys(kv, s, i + 1), HomeIn(l.buckets, Entries(kv).Keys, s, b);
    forall k | k in run
      ensures k in near
    {
      InSlotKeys(kv, s, i + 1, k);
      var j :| s <= j < i + 1 && StoredAt(kv, k, j);
      SlotEntry(kv, j);
    }
    SlotKeysFull(kv, s, i + 1);
    SubsetSize(run, near);
    assert CrowdedOn(l.buckets, Entries(kv).Keys, d, s, b);
  }

  lemma CrowdedIsFar<T, V>(l: Layout, info: seq<Byte>, kv: seq<Node<Key<T>, V>>, d: nat)
    requires Inv(l, info, kv)
    requires d > 0
    requires Crowded(l.buckets, Entries(kv).Keys, d)
    ensures exists i :: 0 <= i < l.slots && kv[i].Node? && 1 + i - l.Home(kv[i].key) >= d
  {
    var a: nat, b: nat :| CrowdedOn(l.buckets, Entries(kv).Keys, d, a, b);
    var near := HomeIn(l.buckets, Entries(kv).Keys, a, b);
    if forall i :: 0 <= i < l.slots && kv[i].Node? ==> 1 + i - l.Home(kv[i].key) < d {
      var hi := Min(b + d - 1, l.slots);
      forall k | k in near
        ensures k in SlotKeys(kv, a, hi)
      {
        var j := KeySlot(kv, k);
        assert a <= j < hi && StoredAt(kv, k, j);
        InSlotKeys(kv, a, hi, k);
      }
      SlotKeysAtMost(kv, a, hi);
      SubsetSize(near, SlotKeys(kv, a, hi));
      assert false;
    }
  }

  /** The distance at which an info byte with a single hash bit has no room left. */
  const FULL_DISTANCE: nat := 127

  ghost predicate SomeByteFull(inc: nat, slots: nat, info: seq<Byte>)
    requires slots <= |info|
  {
    exists i :: 0 <= i < slots && info[i] + inc > MAX_INFO
  }

  /** At the last scale an info byte is full exactly when the stored keys are crowded; at any earlier
      scale they are not crowded. */
  lemma FullIffCrowded<T, V>(l: Layout, info: seq<Byte>, kv: seq<Node<Key<T>, V>>)
    requires Inv(l, info, kv)
    ensures Crowded(l.buckets, Entries(kv).Keys, FULL_DISTANCE) <==>
            l.inc == 2 && SomeByteFull(l.inc, l.slots, info)
  {
    if Crowded(l.buckets, Entries(kv).Keys, FULL_DISTANCE) {
      CrowdedIsFar(l, info, kv, FULL_DISTANCE);
      var i :| 0 <= i < l.slots && kv[i].Node? && 1 + i - l.Home(kv[i].key) >= FULL_DISTANCE;
      ProbeClosedForm(l, kv[i].key, i);
      ScaledDistance(l.inc, 1 + i - l.Home(kv[i].key));
      assert info[i] + l.inc > MAX_INFO;
    }
    if l.inc == 2 && SomeByteFull(l.inc, l.slots, info) {
      var i :| 0 <= i < l.slots && info[i] + l.inc > MAX_INFO;
      ProbeClosedForm(l, kv[i].key, i);
      FarIsCrowded(l, info, kv, i, FULL_DISTANCE);
    }
  }

  lemma ScaledDistance(inc: nat, d: nat)
    requires d >= FULL_DISTANCE
    ensures inc * d >= FULL_DISTANCE * inc
  {
  }
}
