/** The slot layout of `robin_hood::detail::Table`: one info byte per slot, packing probe distance
    and hash bits, beside a key/value node.  Everything here is about the two sequences; the class
    that updates the arrays is in RobinHoodTable.dfy. */
module RobinHoodLayout {
  import opened Words

  /** Raw is memory in which no node has been constructed. */
  datatype Node<+K, +V> = Raw | Node(key: K, value: V)

  const SENTINEL: Byte := 1
  const MAX_INFO: nat := 0xFF

  /** A key together with its 64-bit hash value: equal keys have equal hashes, and nothing else is
      known about the hash. */
  datatype Key<+T> = Key(data: T, hash: Word)

  /** The five scales a table goes through: five hash bits in the info byte down to one. */
  predicate ScaleOk(inc: nat, shift: nat) {
    || (inc == 32 && shift == 59)
    || (inc == 16 && shift == 60)
    || (inc == 8 && shift == 61)
    || (inc == 4 && shift == 62)
    || (inc == 2 && shift == 63)
  }

  lemma Pow2At59()
    ensures Pow2(59) == 0x800_0000_0000_0000
  {
    assert Pow2(10) == 1024 && Pow2(9) == 512;
    Pow2Sum(10, 10);
    Pow2Sum(20, 20);
    Pow2Sum(10, 9);
    Pow2Sum(40, 19);
  }

  lemma ScaleWord(inc: nat, shift: nat)
    requires ScaleOk(inc, shift)
    ensures Pow2(shift) * inc == WORD
  {
    Pow2At59();
    assert Pow2(60) == 2 * Pow2(59);
    assert Pow2(61) == 2 * Pow2(60);
    assert Pow2(62) == 2 * Pow2(61);
    assert Pow2(63) == 2 * Pow2(62);
  }

  /** The size and scale of a table.  The low hash bits of a key choose its home bucket, the high ones
      go into its info byte. */
  datatype Layout = Layout(buckets: nat, slots: nat, inc: nat, shift: nat)
  {
    ghost predicate Sane() {
      && 0 < buckets <= slots
      && ScaleOk(inc, shift)
    }

    ghost function Home<T>(k: Key<T>): (r: nat)
      requires Sane()
      ensures r < buckets
    {
      Mod(k.hash, buckets)
    }

    ghost function Bits<T>(k: Key<T>): (r: nat)
      requires Sane()
      ensures r < inc
    {
      ScaleWord(inc, shift);
      ShrBelow(k.hash, shift, inc);
      Shr(k.hash, shift)
    }

    /** The info value a probe for `k` carries when it looks at slot `i`. */
    ghost function Probe<T>(k: Key<T>, i: int): (r: nat)
      requires Sane()
      ensures r >= inc
      decreases i - Home(k)
    {
      if i <= Home(k) then inc + Bits(k) else Probe(k, i - 1) + inc
    }
  }

  ghost predicate UniqueKeys<K, V>(kv: seq<Node<K, V>>) {
    forall i, j :: 0 <= i < j < |kv| && kv[i].Node? && kv[j].Node? ==> kv[i].key != kv[j].key
  }

  /** The map that a sequence of nodes stores. */
  ghost function Entries<K, V>(kv: seq<Node<K, V>>): (m: map<K, V>)
  {
    if kv == [] then map[]
    else
      var last, m := kv[|kv| - 1], Entries(kv[..|kv| - 1]);
      if last.Node? then m[last.key := last.value] else m
  }

  /** `k` is stored at slot `i` of `kv`. */
  ghost predicate StoredAt<K, V>(kv: seq<Node<K, V>>, k: K, i: nat) {
    i < |kv| && kv[i].Node? && kv[i].key == k
  }

  lemma {:induction false} KeySlot<K, V>(kv: seq<Node<K, V>>, k: K) returns (i: nat)
    requires k in Entries(kv)
    ensures StoredAt(kv, k, i) && kv[i].value == Entries(kv)[k]
  {
    var n := |kv| - 1;
    if kv[n].Node? && kv[n].key == k {
      i := n;
    } else {
      i := KeySlot(kv[..n], k);
    }
  }

  lemma {:induction false} SlotEntry<K, V>(kv: seq<Node<K, V>>, i: nat)
    requires UniqueKeys(kv)
    requires i < |kv| && kv[i].Node?
    ensures kv[i].key in Entries(kv) && Entries(kv)[kv[i].key] == kv[i].value
  {
    var n := |kv| - 1;
    if i < n {
      SlotEntry(kv[..n], i);
    }
  }

  ghost predicate Shaped<T, V>(l: Layout, info: seq<Byte>, kv: seq<Node<Key<T>, V>>) {
    && l.Sane()
    && |kv| == l.slots
    && l.slots + BYTES_PER_WORD - 1 <= |info|
    && info[l.slots] <= SENTINEL
    && (forall i :: l.slots < i < |info| ==> info[i] == 0)
    && (forall i :: 0 <= i < l.slots ==> (info[i] != 0 <==> kv[i].Node?))
  }

  /** Every stored node sits at or after its home slot, under the info byte of its distance. */
  ghost predicate Placed<T, V>(l: Layout, info: seq<Byte>, kv: seq<Node<Key<T>, V>>)
    requires Shaped(l, info, kv)
  {
    forall i :: 0 <= i < l.slots && kv[i].Node? ==>
                  l.Home(kv[i].key) <= i && info[i] == l.Probe(kv[i].key, i)
  }

  /** A displaced node follows a node at least as far along: the robin-hood order. */
  ghost predicate Ordered(inc: nat, slots: nat, info: seq<Byte>)
    requires slots <= |info|
  {
    forall i, j :: 0 <= i < slots && j == i + 1 < slots && info[j] >= 2 * inc ==> info[i] >= info[j] - inc
  }

  ghost predicate Inv<T, V>(l: Layout, info: seq<Byte>, kv: seq<Node<Key<T>, V>>) {
    && Shaped(l, info, kv)
    && Placed(l, info, kv)
    && Ordered(l.inc, l.slots, info)
    && UniqueKeys(kv)
  }

  /** The distance field: a probe is below twice the increment exactly at the home slot. */
  lemma HomeProbe<T>(l: Layout, k: Key<T>, i: int)
    requires l.Sane()
    requires l.Home(k) <= i
    ensures l.Probe(k, i) < 2 * l.inc <==> i == l.Home(k)
  {
  }

  lemma {:induction false} ProbeClosedForm<T>(l: Layout, k: Key<T>, i: int)
    requires l.Sane()
    requires l.Home(k) <= i
    ensures l.Probe(k, i) == l.inc * (1 + i - l.Home(k)) + l.Bits(k)
    decreases i
  {
    if l.Home(k) < i {
      ProbeClosedForm(l, k, i - 1);
      assert l.inc * (1 + i - l.Home(k)) == l.inc * (1 + (i - 1) - l.Home(k)) + l.inc;
    }
  }

  // ----- lookup -----

  /** On the way from its home to the slot holding it, a key's probe never exceeds the info byte. */
  lemma {:induction false} ProbeReaches<T, V>(l: Layout, info: seq<Byte>, kv: seq<Node<Key<T>, V>>, j: nat, i: nat)
    requires Inv(l, info, kv)
    requires j < l.slots && kv[j].Node?
    requires l.Home(kv[j].key) <= i <= j
    ensures l.Probe(kv[j].key, i) <= info[i]
    decreases j - i
  {
    if i < j {
      ProbeReaches(l, info, kv, j, i + 1);
      assert info[i + 1] >= 2 * l.inc;
    }
  }

  /** The first slot whose info byte is below the probe ends the search: the key is not stored there
      or later. */
  lemma StopMeansAbsent<T, V>(l: Layout, info: seq<Byte>, kv: seq<Node<Key<T>, V>>, k: Key<T>, stop: nat)
    requires Inv(l, info, kv)
    requires l.Home(k) <= stop <= l.slots
    requires l.Probe(k, stop) > info[stop]
    ensures forall j :: stop <= j < l.slots && kv[j].Node? ==> kv[j].key != k
  {
    forall j | stop <= j < l.slots && kv[j].Node?
      ensures kv[j].key != k
    {
      if kv[j].key == k {
        ProbeReaches(l, info, kv, j, stop);
      }
    }
  }

  /** A probe has passed every slot from the key's home up to `idx`. */
  ghost predicate Passed<T>(l: Layout, info: seq<Byte>, k: Key<T>, idx: nat)
    requires l.Sane() && l.slots <= |info|
  {
    && l.Home(k) <= idx <= l.slots
    && forall i :: l.Home(k) <= i < idx ==> l.Probe(k, i) <= info[i]
  }

  /** The key is at none of the slots below `idx`. */
  ghost predicate AbsentBelow<K, V>(kv: seq<Node<K, V>>, k: K, idx: nat) {
    forall i :: 0 <= i < idx && i < |kv| && kv[i].Node? ==> kv[i].key != k
  }

  lemma AbsentBeforeHome<T, V>(l: Layout, info: seq<Byte>, kv: seq<Node<Key<T>, V>>, k: Key<T>)
    requires Inv(l, info, kv)
    ensures AbsentBelow(kv, k, l.Home(k))
  {
  }

  /** A slot whose node is not `k`, or whose info byte is not the probe's, extends the absence. */
  lemma NotAt<T, V>(l: Layout, info: seq<Byte>, kv: seq<Node<Key<T>, V>>, k: Key<T>, i: nat)
    requires Inv(l, info, kv)
    requires i < |info|
    requires AbsentBelow(kv, k, i)
    requires i < l.slots && kv[i].Node? && kv[i].key == k ==> info[i] != l.Probe(k, i)
    ensures AbsentBelow(kv, k, i + 1)
  {
  }

  lemma AbsentKey<K, V>(kv: seq<Node<K, V>>, k: K)
    requires UniqueKeys(kv)
    ensures k !in Entries(kv) <==> AbsentBelow(kv, k, |kv|)
  {
    if k in Entries(kv) {
      var i := KeySlot(kv, k);
    } else {
      forall i | 0 <= i < |kv| && kv[i].Node?
        ensures kv[i].key != k
      {
        SlotEntry(kv, i);
      }
    }
  }

  lemma AbsentEverywhere<T, V>(l: Layout, info: seq<Byte>, kv: seq<Node<Key<T>, V>>, k: Key<T>, stop: nat)
    requires Inv(l, info, kv)
    requires l.Home(k) <= stop <= l.slots
    requires AbsentBelow(kv, k, stop)
    requires l.Probe(k, stop) > info[stop]
    ensures k !in Entries(kv)
  {
    StopMeansAbsent(l, info, kv, k, stop);
    AbsentKey(kv, k);
  }

  /** Stepping past an equal info byte leaves the probe at least as large as the next one. */
  lemma PastEqual<T, V>(l: Layout, info: seq<Byte>, kv: seq<Node<Key<T>, V>>, k: Key<T>, i: nat)
    requires Inv(l, info, kv)
    requires l.Home(k) <= i < l.slots
    requires l.Probe(k, i) >= info[i]
    ensures l.Probe(k, i + 1) >= info[i + 1]
  {
  }

  // ----- room -----

  lemma {:induction false} NodesAreEntries<K, V>(kv: seq<Node<K, V>>, lo: nat)
    requires UniqueKeys(kv)
    requires lo <= |kv|
    requires forall i :: lo <= i < |kv| ==> kv[i].Node?
    ensures |Entries(kv)| >= |kv| - lo
  {
    if lo < |kv| {
      var front := kv[..|kv| - 1];
      NodesAreEntries(front, lo);
      AbsentKey(front, kv[|kv| - 1].key);
    }
  }

  lemma AtLeastTwice(inc: nat, d: int)
    ensures inc >= 2 && d >= 0 ==> inc * d >= 2 * d
  {
  }

  /** No info byte can record a distance that reaches the last of 255 overflow slots. */
  lemma FarSlotEmpty<T, V>(l: Layout, info: seq<Byte>, kv: seq<Node<Key<T>, V>>, i: nat)
    requires Inv(l, info, kv)
    requires l.buckets + 126 <= i < l.slots
    ensures info[i] == 0
  {
    if kv[i].Node? {
      ProbeClosedForm(l, kv[i].key, i);
      AtLeastTwice(l.inc, 1 + i - l.Home(kv[i].key));
    }
  }

  /** The overflow buffer suffices: with fewer entries than allowed, every run of occupied slots that
      begins inside the buckets ends before the sentinel. */
  lemma RunEnds<T, V>(l: Layout, info: seq<Byte>, kv: seq<Node<Key<T>, V>>, allowed: nat, home: nat)
    requires Inv(l, info, kv)
    requires l.slots == l.buckets + Min(allowed, MAX_INFO)
    requires |Entries(kv)| < allowed
    requires home < l.buckets
    ensures exists e :: home <= e < l.slots && info[e] == 0
  {
    if allowed >= MAX_INFO {
      FarSlotEmpty(l, info, kv, l.slots - 1);
    } else if forall e :: home <= e < l.slots ==> info[e] != 0 {
      NodesAreEntries(kv, home);
      assert false;
    }
  }

  function Min(a: nat, b: nat): (r: nat)
  {
    if a < b then a else b
  }

  /** While every info byte leaves room for one more increment, the probe at the insertion point
      still fits in a byte. */
  lemma ProbeFits<T, V>(l: Layout, info: seq<Byte>, kv: seq<Node<Key<T>, V>>, k: Key<T>, p: nat)
    requires Inv(l, info, kv)
    requires Passed(l, info, k, p)
    requires forall i :: 0 <= i < l.slots ==> info[i] + l.inc <= MAX_INFO
    ensures l.Probe(k, p) <= MAX_INFO
  {
    if p == l.Home(k) {
      HomeProbe(l, k, p);
    } else {
      assert l.Probe(k, p - 1) <= info[p - 1];
    }
  }

  // ----- insertion -----

  /** `info'` is `info` with the run from `p` up to the empty slot `e` moved up by one slot, and
      byte `x` at `p`. */
  ghost predicate InfoInserted(inc: nat, info: seq<Byte>, info': seq<Byte>, p: nat, e: nat, x: Byte) {
    && |info'| == |info|
    && p <= e < |info|
    && info'[p] == x
    && (forall i {:trigger info'[i]} :: 0 <= i < |info| && (i < p || e < i) ==> info'[i] == info[i])
    && (forall i {:trigger info'[i]} :: p < i <= e ==> info'[i] == info[i - 1] + inc)
  }

  ghost predicate NodesInserted<K, V>(kv: seq<Node<K, V>>, kv': seq<Node<K, V>>, p: nat, e: nat, n: Node<K, V>) {
    && |kv'| == |kv|
    && p <= e < |kv|
    && kv'[p] == n
    && (forall i {:trigger kv'[i]} :: 0 <= i < |kv| && (i < p || e < i) ==> kv'[i] == kv[i])
    && (forall i {:trigger kv'[i]} :: p < i <= e ==> kv'[i] == kv[i - 1])
  }

  ghost predicate InsertionPoint<T, V>(l: Layout, info: seq<Byte>, kv: seq<Node<Key<T>, V>>, k: Key<T>, p: nat,
                                       e: nat) {
    && Inv(l, info, kv)
    && Passed(l, info, k, p)
    && p <= e < l.slots
    && l.Probe(k, p) > info[p]
    && info[e] == 0
    && (forall i :: p <= i < e ==> info[i] != 0)
  }

  lemma InsertKeepsShape<T, V>(l: Layout, info: seq<Byte>, kv: seq<Node<Key<T>, V>>, info': seq<Byte>,
                               kv': seq<Node<Key<T>, V>>, n: Node<Key<T>, V>, p: nat, e: nat)
    requires n.Node? && InsertionPoint(l, info, kv, n.key, p, e)
    requires l.Probe(n.key, p) <= MAX_INFO
    requires InfoInserted(l.inc, info, info', p, e, l.Probe(n.key, p))
    requires NodesInserted(kv, kv', p, e, n)
    ensures Shaped(l, info', kv')
    ensures Placed(l, info', kv')
  {
    forall i | 0 <= i < l.slots
      ensures info'[i] != 0 <==> kv'[i].Node?
      ensures kv'[i].Node? ==> l.Home(kv'[i].key) <= i && info'[i] == l.Probe(kv'[i].key, i)
    {
      if p < i <= e {
        assert kv'[i] == kv[i - 1];
        assert info[i - 1] != 0;
      }
    }
  }

  lemma InsertKeepsOrder<T, V>(l: Layout, info: seq<Byte>, kv: seq<Node<Key<T>, V>>, info': seq<Byte>, k: Key<T>,
                               p: nat, e: nat)
    requires InsertionPoint(l, info, kv, k, p, e)
    requires l.Probe(k, p) <= MAX_INFO
    requires InfoInserted(l.inc, info, info', p, e, l.Probe(k, p))
    ensures Ordered(l.inc, l.slots, info')
  {
    forall h, i | 0 <= h < l.slots && i == h + 1 < l.slots && info'[i] >= 2 * l.inc
      ensures info'[h] >= info'[i] - l.inc
    {
      if i == p {
        HomeProbe(l, k, p);
        assert l.Probe(k, p - 1) <= info[p - 1];
      } else if p + 1 < i <= e {
        assert info[i - 2] >= l.inc by { assert kv[i - 2].Node?; }
      }
    }
  }

  lemma InsertUnique<K, V>(kv: seq<Node<K, V>>, kv': seq<Node<K, V>>, n: Node<K, V>, p: nat, e: nat)
    requires UniqueKeys(kv)
    requires n.Node? && AbsentBelow(kv, n.key, |kv|)
    requires NodesInserted(kv, kv', p, e, n)
    requires kv[e].Raw?
    ensures UniqueKeys(kv')
  {
    forall i, j | 0 <= i < j < |kv'| && kv'[i].Node? && kv'[j].Node?
      ensures kv'[i].key != kv'[j].key
    {
      var i' := if p < i <= e then i - 1 else i;
      var j' := if p < j <= e then j - 1 else j;
      assert i != p ==> kv'[i] == kv[i'];
      assert j != p ==> kv'[j] == kv[j'];
    }
  }

  lemma InsertEntries<K, V>(kv: seq<Node<K, V>>, kv': seq<Node<K, V>>, n: Node<K, V>, p: nat, e: nat)
    requires UniqueKeys(kv) && UniqueKeys(kv')
    requires n.Node?
    requires NodesInserted(kv, kv', p, e, n)
    requires kv[e].Raw?
    ensures Entries(kv') == Entries(kv)[n.key := n.value]
  {
    var m, m' := Entries(kv), Entries(kv');
    SlotEntry(kv', p);
    forall k | k in m'
      ensures k == n.key || (k in m && m'[k] == m[k])
    {
      var i := KeySlot(kv', k);
      if i != p {
        SlotEntry(kv, if p < i <= e then i - 1 else i);
      }
    }
    forall k | k in m
      ensures k in m'
    {
      var i := KeySlot(kv, k);
      SlotEntry(kv', if p <= i < e then i + 1 else i);
    }
  }

  /** Inserting at the insertion point keeps the layout and adds exactly the new entry. */
  lemma InsertKeepsInv<T, V>(l: Layout, info: seq<Byte>, kv: seq<Node<Key<T>, V>>, info': seq<Byte>,
                             kv': seq<Node<Key<T>, V>>, n: Node<Key<T>, V>, p: nat, e: nat)
    requires n.Node? && InsertionPoint(l, info, kv, n.key, p, e)
    requires n.key !in Entries(kv)
    requires l.Probe(n.key, p) <= MAX_INFO
    requires InfoInserted(l.inc, info, info', p, e, l.Probe(n.key, p))
    requires NodesInserted(kv, kv', p, e, n)
    ensures Inv(l, info', kv')
    ensures Entries(kv') == Entries(kv)[n.key := n.value]
  {
    InsertKeepsShape(l, info, kv, info', kv', n, p, e);
    InsertKeepsOrder(l, info, kv, info', n.key, p, e);
    AbsentKey(kv, n.key);
    InsertUnique(kv, kv', n, p, e);
    InsertEntries(kv, kv', n, p, e);
  }

  // ----- removal -----

  /** `info'` is `info` with the displaced run after `p`, up to `q`, moved down by one slot. */
  ghost predicate InfoErased(inc: nat, info: seq<Byte>, info': seq<Byte>, p: nat, q: nat) {
    && |info'| == |info|
    && p <= q < |info|
    && info'[q] == 0
    && (forall i {:trigger info'[i]} :: 0 <= i < |info| && (i < p || q < i) ==> info'[i] == info[i])
    && (forall i {:trigger info'[i]} :: p <= i < q ==> info'[i] == info[i + 1] - inc)
  }

  ghost predicate NodesErased<K, V>(kv: seq<Node<K, V>>, kv': seq<Node<K, V>>, p: nat, q: nat) {
    && |kv'| == |kv|
    && p <= q < |kv|
    && kv'[q] == Raw
    && (forall i {:trigger kv'[i]} :: 0 <= i < |kv| && (i < p || q < i) ==> kv'[i] == kv[i])
    && (forall i {:trigger kv'[i]} :: p <= i < q ==> kv'[i] == kv[i + 1])
  }

  /** The maximal run of displaced nodes right after `p` ends at `q`. */
  ghost predicate DisplacedRun<T, V>(l: Layout, info: seq<Byte>, kv: seq<Node<Key<T>, V>>, p: nat, q: nat) {
    && Inv(l, info, kv)
    && p <= q < l.slots
    && kv[p].Node?
    && (forall i :: p < i <= q ==> info[i] >= 2 * l.inc)
    && info[q + 1] < 2 * l.inc
  }

  lemma EraseKeepsShape<T, V>(l: Layout, info: seq<Byte>, kv: seq<Node<Key<T>, V>>, info': seq<Byte>,
                              kv': seq<Node<Key<T>, V>>, p: nat, q: nat)
    requires DisplacedRun(l, info, kv, p, q)
    requires InfoErased(l.inc, info, info', p, q)
    requires NodesErased(kv, kv', p, q)
    ensures Shaped(l, info', kv')
    ensures Placed(l, info', kv')
  {
    forall i | 0 <= i < l.slots
      ensures info'[i] != 0 <==> kv'[i].Node?
      ensures kv'[i].Node? ==> l.Home(kv'[i].key) <= i && info'[i] == l.Probe(kv'[i].key, i)
    {
      if p <= i < q {
        assert kv'[i] == kv[i + 1];
        assert info[i + 1] >= 2 * l.inc;
        HomeProbe(l, kv[i + 1].key, i + 1);
      }
    }
  }

  lemma EraseKeepsOrder<T, V>(l: Layout, info: seq<Byte>, kv: seq<Node<Key<T>, V>>, info': seq<Byte>, p: nat, q: nat)
    requires DisplacedRun(l, info, kv, p, q)
    requires InfoErased(l.inc, info, info', p, q)
    ensures Ordered(l.inc, l.slots, info')
  {
    forall h, i | 0 <= h < l.slots && i == h + 1 < l.slots && info'[i] >= 2 * l.inc
      ensures info'[h] >= info'[i] - l.inc
    {
      if p <= i < q {
        assert info[i + 1] >= 2 * l.inc;
        assert info[i] >= info[i + 1] - l.inc;
      }
    }
  }

  lemma EraseUnique<K, V>(kv: seq<Node<K, V>>, kv': seq<Node<K, V>>, p: nat, q: nat)
    requires UniqueKeys(kv)
    requires NodesErased(kv, kv', p, q)
    ensures UniqueKeys(kv')
  {
    forall i, j | 0 <= i < j < |kv'| && kv'[i].Node? && kv'[j].Node?
      ensures kv'[i].key != kv'[j].key
    {
      var i' := if p <= i < q then i + 1 else i;
      var j' := if p <= j < q then j + 1 else j;
      assert kv'[i] == kv[i'] && kv'[j] == kv[j'];
    }
  }

  lemma EraseEntries<K, V>(kv: seq<Node<K, V>>, kv': seq<Node<K, V>>, p: nat, q: nat)
    requires UniqueKeys(kv) && UniqueKeys(kv')
    requires NodesErased(kv, kv', p, q)
    requires kv[p].Node?
    ensures Entries(kv') == Entries(kv) - {kv[p].key}
  {
    var m, m', gone := Entries(kv), Entries(kv'), kv[p].key;
    forall k | k in m && k != gone
      ensures k in m'
    {
      var i := KeySlot(kv, k);
      SlotEntry(kv', if p < i <= q then i - 1 else i);
    }
    forall k | k in m'
      ensures k in m && k != gone && m'[k] == m[k]
    {
      var i := KeySlot(kv', k);
      SlotEntry(kv, if p <= i < q then i + 1 else i);
    }
  }

  /** Closing the gap at `p` keeps the layout and removes exactly that entry. */
  lemma EraseKeepsInv<T, V>(l: Layout, info: seq<Byte>, kv: seq<Node<Key<T>, V>>, info': seq<Byte>,
                            kv': seq<Node<Key<T>, V>>, p: nat, q: nat)
    requires DisplacedRun(l, info, kv, p, q)
    requires InfoErased(l.inc, info, info', p, q)
    requires NodesErased(kv, kv', p, q)
    ensures Inv(l, info', kv')
    ensures Entries(kv') == Entries(kv) - {kv[p].key}
  {
    EraseKeepsShape(l, info, kv, info', kv', p, q);
    EraseKeepsOrder(l, info, kv, info', p, q);
    EraseUnique(kv, kv', p, q);
    EraseEntries(kv, kv', p, q);
  }

  // ----- rescaling -----

  /** The layout with one hash bit fewer and half the increment. */
  ghost function Rescaled(l: Layout): (l': Layout)
  {
    l.(inc := l.inc / 2, shift := l.shift + 1)
  }

  lemma {:induction false} HalveProbe<T>(l: Layout, l': Layout, k: Key<T>, i: int)
    requires l.Sane() && l.inc > 2
    requires l' == Rescaled(l)
    requires l.Home(k) <= i
    ensures l'.Probe(k, i) == l.Probe(k, i) / 2
    decreases i
  {
    if l.Home(k) < i {
      HalveProbe(l, l', k, i - 1);
    }
  }

  /** Halving every info byte of the slots keeps every home slot and distance while one hash bit is
      dropped. */
  lemma HalveKeepsInv<T, V>(l: Layout, info: seq<Byte>, kv: seq<Node<Key<T>, V>>, l': Layout, info': seq<Byte>)
    requires Inv(l, info, kv) && l.inc > 2
    requires l' == Rescaled(l)
    requires |info'| == |info|
    requires forall i :: 0 <= i < l.slots ==> info'[i] == info[i] / 2
    requires forall i :: l.slots <= i < |info| ==> info'[i] == info[i]
    ensures Inv(l', info', kv)
    ensures forall i :: 0 <= i < l.slots ==> info'[i] + l'.inc <= MAX_INFO
  {
    forall i | 0 <= i < l.slots
      ensures info'[i] != 0 <==> kv[i].Node?
      ensures kv[i].Node? ==> l'.Home(kv[i].key) <= i && info'[i] == l'.Probe(kv[i].key, i)
    {
      if kv[i].Node? {
        assert info[i] >= l.inc;
        HalveProbe(l, l', kv[i].key, i);
      }
    }
    forall h, i | 0 <= h < l.slots && i == h + 1 < l.slots && info'[i] >= 2 * l'.inc
      ensures info'[h] >= info'[i] - l'.inc
    {
      assert info[i] >= 2 * l.inc;
    }
  }
}
