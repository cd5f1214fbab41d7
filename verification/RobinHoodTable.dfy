/** `robin_hood::detail::Table` over arrays: lookup, insertion, removal, rescaling, rehashing and
    iteration. */
module RobinHoodTable {
  import opened Words
  import opened RobinHoodLayout
  import opened RobinHoodCrowding
  import opened RobinHoodHashing
  import opened RobinHoodGrowth

  /** The counters agree with the slots, and while insertion is enabled every info byte has room for
      one more increment. */
  ghost predicate Consistent<T, V>(l: Layout, allowed: nat, numElements: nat, maxAllowed: nat,
                                         info: seq<Byte>, kv: seq<Node<Key<T>, V>>) {
    && Inv(l, info, kv)
    && l.slots == l.buckets + Min(allowed, MAX_INFO)
    && numElements == |Entries(kv)| <= allowed
    && maxAllowed in {0, allowed}
    && (maxAllowed != 0 ==> !SomeByteFull(l.inc, l.slots, info))
    && (l.buckets > 1 ==> |info| == l.slots + BYTES_PER_WORD && info[l.slots] == SENTINEL)
  }

  /** Moving the run `[p, e)` up and writing byte `x` at `p` switches insertion off exactly when one of
      the written bytes has no room left. */
  ghost predicate BoundUpdated(inc: nat, info': seq<Byte>, p: nat, e: nat, maxAllowed: nat, maxAllowed': nat)
    requires p <= e < |info'|
  {
    && maxAllowed' in {0, maxAllowed}
    && (maxAllowed' != 0 <==> forall i :: p <= i <= e ==> info'[i] + inc <= MAX_INFO)
  }

  lemma InsertConsistent<T, V>(l: Layout, allowed: nat, numElements: nat, maxAllowed: nat, info: seq<Byte>,
                                     kv: seq<Node<Key<T>, V>>, n: Node<Key<T>, V>, p: nat, e: nat,
                                     maxAllowed': nat, info': seq<Byte>, kv': seq<Node<Key<T>, V>>)
    requires Consistent(l, allowed, numElements, maxAllowed, info, kv)
    requires maxAllowed != 0 && numElements < allowed
    requires n.Node? && n.key !in Entries(kv)
    requires InsertionPoint(l, info, kv, n.key, p, e)
    requires l.Probe(n.key, p) <= MAX_INFO
    requires InfoInserted(l.inc, info, info', p, e, l.Probe(n.key, p))
    requires NodesInserted(kv, kv', p, e, n)
    requires BoundUpdated(l.inc, info', p, e, maxAllowed, maxAllowed')
    ensures Consistent(l, allowed, numElements + 1, maxAllowed', info', kv')
    ensures Entries(kv') == Entries(kv)[n.key := n.value]
    ensures maxAllowed' == 0 ==> SomeByteFull(l.inc, l.slots, info')
  {
    InsertKeepsInv(l, info, kv, info', kv', n, p, e);
  }

  lemma HalveConsistent<T, V>(l: Layout, allowed: nat, numElements: nat, maxAllowed: nat,
                                    info: seq<Byte>, kv: seq<Node<Key<T>, V>>, info': seq<Byte>)
    requires Consistent(l, allowed, numElements, maxAllowed, info, kv) && l.inc > 2
    requires |info'| == |info|
    requires forall i :: 0 <= i < l.slots ==> info'[i] == info[i] / 2
    requires forall i :: l.slots <= i < |info| ==> info'[i] == info[i]
    ensures Consistent(Rescaled(l), allowed, numElements, allowed, info', kv)
    ensures !SomeByteFull(l.inc / 2, l.slots, info')
  {
    HalveKeepsInv(l, info, kv, Rescaled(l), info');
  }

  class Table<T(==), V> {
    const maxLoad: nat
    var keyVals: array<Node<Key<T>, V>>
    var info: array<Byte>
    var numElements: nat
    var mask: nat
    var maxAllowed: nat
    var infoInc: nat
    var infoHashShift: nat

    /** The abstract value: the key/value map the table stores. */
    ghost function Contents(): (m: map<Key<T>, V>)
      reads this`keyVals, keyVals
    {
      Entries(keyVals[..])
    }

    ghost function L(): (l: Layout)
      reads this`mask, this`keyVals, this`infoInc, this`infoHashShift
    {
      Layout(mask + 1, keyVals.Length, infoInc, infoHashShift)
    }

    ghost function Allowed(): (r: nat)
      reads this`mask
    {
      CalcMaxNumElementsAllowed(maxLoad, mask + 1)
    }

    ghost function G(): (g: Gauge)
      reads this`mask, this`numElements, this`maxAllowed, this`infoInc
    {
      Gauge(mask + 1, numElements, maxAllowed, infoInc)
    }

    /** The sizes. */
    ghost predicate Geometry()
      reads this`mask, this`infoInc, this`infoHashShift, this`keyVals, this`info
    {
      && 10 < maxLoad < 100
      && IsPow2(mask + 1) && mask < keyVals.Length
      && ScaleOk(infoInc, infoHashShift)
      && (mask == 0 ==> info.Length == BYTES_PER_WORD)
      && (mask != 0 ==> mask + 1 >= INITIAL_NUM_ELEMENTS)
    }

    /** What the arrays and counters hold, relative to a layout and a capacity. */
    ghost predicate Filled(l: Layout, allowed: nat)
      reads this, keyVals, info
    {
      && info as object != keyVals as object
      && infoInc == l.inc
      && Consistent(l, allowed, numElements, maxAllowed, info[..], keyVals[..])
    }

    ghost predicate Valid()
      reads this, keyVals, info
    {
      && Geometry()
      && Filled(L(), Allowed())
    }

    constructor (maxLoad: nat)
      requires 10 < maxLoad < 100
      ensures Valid() && Contents() == map[] && mask == 0 && infoInc == INITIAL_INFO_INC
      ensures this.maxLoad == maxLoad
      ensures fresh(info) && fresh(keyVals)
    {
      this.maxLoad := maxLoad;
      keyVals := new Node<Key<T>, V>[1](_ => Raw);
      info := new Byte[BYTES_PER_WORD](_ => 0);
      numElements, mask, maxAllowed := 0, 0, 0;
      infoInc, infoHashShift := INITIAL_INFO_INC, INITIAL_INFO_HASH_SHIFT;
      new;
      assert Times(1, maxLoad) == maxLoad;
      assert Pow2(0) == 1;
      EmptyEntries(keyVals[..]);
    }

    // ----- lookup -----

    /** Home slot and initial info value of a key. */
    method KeyToIdx(key: Key<T>) returns (idx: nat, inf: nat)
      requires Geometry()
      ensures idx == L().Home(key) && inf == L().Probe(key, idx)
    {
      var h := key.hash;
      inf := infoInc + Shr(h, infoHashShift);
      AndIsMask(h, mask + 1);
      idx := And(h, mask);
    }

    method NextWhileLess(ghost l: Layout, key: Key<T>, inf0: nat, idx0: nat) returns (inf: nat, idx: nat)
      requires Inv(l, info[..], keyVals[..]) && infoInc == l.inc
      requires idx0 == l.Home(key) && inf0 == l.Probe(key, idx0)
      ensures Passed(l, info[..], key, idx) && inf == l.Probe(key, idx)
      ensures AbsentBelow(keyVals[..], key, idx)
      ensures inf >= info[idx]
    {
      ghost var bytes, nodes := info[..], keyVals[..];
      inf, idx := inf0, idx0;
      AbsentBeforeHome(l, bytes, nodes, key);
      while inf < info[idx]
        invariant Passed(l, bytes, key, idx) && inf == l.Probe(key, idx)
        invariant AbsentBelow(nodes, key, idx)
        decreases l.slots - idx
      {
        NotAt(l, bytes, nodes, key, idx);
        idx := idx + 1;
        inf := inf + infoInc;
      }
    }

    /** The common head of insertion: the slot holding `key`, or else the slot where it belongs. */
    method Locate(ghost l: Layout, key: Key<T>, inf0: nat, idx0: nat) returns (found: bool, inf: nat, idx: nat)
      requires Inv(l, info[..], keyVals[..]) && infoInc == l.inc
      requires idx0 == l.Home(key) && inf0 == l.Probe(key, idx0)
      ensures found ==> StoredAt(keyVals[..], key, idx)
      ensures !found ==>
                && key !in Contents()
                && Passed(l, info[..], key, idx)
                && inf == l.Probe(key, idx) > info[idx]
    {
      ghost var bytes, nodes := info[..], keyVals[..];
      inf, idx := NextWhileLess(l, key, inf0, idx0);
      while inf == info[idx]
        invariant Passed(l, bytes, key, idx) && inf == l.Probe(key, idx)
        invariant AbsentBelow(nodes, key, idx)
        invariant inf >= bytes[idx]
        decreases l.slots - idx
      {
        assert idx < l.slots;
        if keyVals[idx].key == key {
          return true, inf, idx;
        }
        PastEqual(l, bytes, nodes, key, idx);
        NotAt(l, bytes, nodes, key, idx);
        idx := idx + 1;
        inf := inf + infoInc;
      }
      AbsentEverywhere(l, bytes, nodes, key, idx);
      found := false;
    }

    /** The index that stands for end(). */
    function End(): (r: nat)
      reads this`mask, this`keyVals
    {
      if mask == 0 then 0 else keyVals.Length
    }

    /** The twice unrolled probe loop. */
    method ProbeLoop(ghost l: Layout, key: Key<T>, inf0: nat, idx0: nat) returns (found: bool, idx: nat)
      requires Inv(l, info[..], keyVals[..]) && infoInc == l.inc
      requires idx0 == l.Home(key) && inf0 == l.Probe(key, idx0)
      ensures found ==> StoredAt(keyVals[..], key, idx) && key in Contents()
      ensures !found ==> key !in Contents()
    {
      ghost var bytes, nodes := info[..], keyVals[..];
      var inf := inf0;
      idx := idx0;
      AbsentBeforeHome(l, bytes, nodes, key);
      var more := true;
      while more
        invariant Probing(l, nodes, key, inf, idx)
        invariant more ==> idx < l.slots
        invariant !more ==> idx <= l.slots + 1 && inf > bytes[idx]
        decreases more, l.slots - idx
      {
        if inf == info[idx] && keyVals[idx].key == key {
          SlotEntry(nodes, idx);
          return true, idx;
        }
        ProbeOn(l, bytes, nodes, key, inf, idx);
        idx := idx + 1;
        inf := inf + infoInc;
        if inf == info[idx] && keyVals[idx].key == key {
          SlotEntry(nodes, idx);
          return true, idx;
        }
        ProbeOn(l, bytes, nodes, key, inf, idx);
        idx := idx + 1;
        inf := inf + infoInc;
        more := inf <= info[idx];
        if more {
          ProbeInside(l, bytes, nodes, key, inf, idx);
        }
      }
      ProbeEnds(l, bytes, nodes, key, inf, idx);
      found := false;
    }

    /** Index of the slot holding `key`, or end(). */
    method FindIdx(key: Key<T>) returns (r: nat)
      requires Valid()
      ensures key in Contents() ==> StoredAt(keyVals[..], key, r) && r != End()
      ensures key !in Contents() ==> r == End()
    {
      var idx, inf := KeyToIdx(key);
      var found, at := ProbeLoop(L(), key, inf, idx);
      r := if found then at else End();
    }

    // ----- insertion -----

    /** Moves the nodes of `[insertionIdx, startIdx)` up by one slot. */
    method ShiftNodesUp(startIdx: nat, insertionIdx: nat)
      requires insertionIdx < startIdx < keyVals.Length
      modifies keyVals
      ensures forall i {:trigger keyVals[i]} :: insertionIdx < i <= startIdx ==> keyVals[i] == old(keyVals[i - 1])
      ensures forall i {:trigger keyVals[i]} :: 0 <= i < keyVals.Length && !(insertionIdx < i <= startIdx) ==>
                keyVals[i] == old(keyVals[i])
    {
      var idx := startIdx;
      keyVals[idx] := keyVals[idx - 1];
      idx := idx - 1;
      while idx != insertionIdx
        invariant insertionIdx <= idx < startIdx
        invariant forall i {:trigger keyVals[i]} :: idx < i <= startIdx ==> keyVals[i] == old(keyVals[i - 1])
        invariant forall i {:trigger keyVals[i]} :: 0 <= i < keyVals.Length && !(idx < i <= startIdx) ==>
                  keyVals[i] == old(keyVals[i])
      {
        keyVals[idx] := keyVals[idx - 1];
        idx := idx - 1;
      }
    }

    /** Moves the info bytes of `[insertionIdx, startIdx)` up by one slot of distance, and switches
        insertion off when one of them has no room left. */
    method ShiftInfoUp(startIdx: nat, insertionIdx: nat)
      requires insertionIdx < startIdx < info.Length
      requires forall i :: insertionIdx <= i < startIdx ==> info[i] + infoInc <= MAX_INFO
      modifies info, this`maxAllowed
      ensures forall i {:trigger info[i]} :: insertionIdx < i <= startIdx ==> info[i] == old(info[i - 1]) + infoInc
      ensures forall i {:trigger info[i]} :: 0 <= i < info.Length && !(insertionIdx < i <= startIdx) ==>
                info[i] == old(info[i])
      ensures maxAllowed in {0, old(maxAllowed)}
      ensures maxAllowed == old(maxAllowed) != 0 ==>
                forall i :: insertionIdx < i <= startIdx ==> info[i] + infoInc <= MAX_INFO
      ensures maxAllowed != old(maxAllowed) ==>
                exists i :: insertionIdx < i <= startIdx && info[i] + infoInc > MAX_INFO
    {
      var idx := startIdx;
      ghost var full := startIdx;
      while idx != insertionIdx
        invariant insertionIdx <= idx <= startIdx
        invariant forall i {:trigger info[i]} :: idx < i <= startIdx ==> info[i] == old(info[i - 1]) + infoInc
        invariant forall i {:trigger info[i]} :: 0 <= i < info.Length && !(idx < i <= startIdx) ==>
                  info[i] == old(info[i])
        invariant maxAllowed in {0, old(maxAllowed)}
        invariant maxAllowed != 0 ==> forall i :: idx < i <= startIdx ==> info[i] + infoInc <= MAX_INFO
        invariant maxAllowed != old(maxAllowed) ==> idx < full <= startIdx && info[full] + infoInc > MAX_INFO
      {
        info[idx] := info[idx - 1] + infoInc;
        if info[idx] + infoInc > MAX_INFO {
          maxAllowed := 0;
          full := idx;
        }
        idx := idx - 1;
      }
    }

    /** Writes `n` into slot `p`, after moving the nodes of `[p, e)` up. */
    method MoveNodeIn(n: Node<Key<T>, V>, p: nat, e: nat)
      requires p <= e < keyVals.Length
      modifies keyVals
      ensures NodesInserted(old(keyVals[..]), keyVals[..], p, e, n)
    {
      if e != p {
        ShiftNodesUp(e, p);
      }
      keyVals[p] := n;
    }

    /** Writes info byte `inf` into slot `p`, after moving the bytes of `[p, e)` up. */
    method MoveInfoIn(p: nat, e: nat, inf: Byte)
      requires p <= e < info.Length
      requires forall i :: p <= i < e ==> info[i] + infoInc <= MAX_INFO
      requires maxAllowed != 0
      modifies info, this`maxAllowed
      ensures InfoInserted(infoInc, old(info[..]), info[..], p, e, inf)
      ensures BoundUpdated(infoInc, info[..], p, e, old(maxAllowed), maxAllowed)
    {
      ghost var full := p;
      if inf + infoInc > MAX_INFO {
        maxAllowed := 0;
      }
      if e != p {
        ShiftInfoUp(e, p);
        if inf + infoInc <= MAX_INFO && maxAllowed == 0 {
          full :| p < full <= e && info[full] + infoInc > MAX_INFO;
        }
      }
      info[p] := inf;
      assert maxAllowed == 0 ==> p <= full <= e && info[..][full] + infoInc > MAX_INFO;
    }

    /** The first empty slot from `p` on. */
    method FirstEmpty(p: nat, ghost empty: nat) returns (e: nat)
      requires p <= empty < info.Length && info[empty] == 0
      ensures p <= e <= empty && info[..][e] == 0
      ensures forall i :: p <= i < e ==> info[..][i] != 0
    {
      e := p;
      while info[e] != 0
        invariant p <= e <= empty
        invariant forall i :: p <= i < e ==> info[i] != 0
        decreases empty - e
      {
        e := e + 1;
      }
    }

    /** The first empty slot from the insertion point on. */
    method FindEmpty(ghost l: Layout, ghost allowed: nat, ghost key: Key<T>, p: nat) returns (e: nat)
      requires Filled(l, allowed) && numElements < allowed
      requires Passed(l, info[..], key, p) && l.Probe(key, p) > info[p]
      ensures InsertionPoint(l, info[..], keyVals[..], key, p, e)
    {
      ghost var bytes := info[..];
      RunEnds(l, bytes, keyVals[..], allowed, l.Home(key));
      ghost var empty :| l.Home(key) <= empty < l.slots && bytes[empty] == 0;
      e := FirstEmpty(p, empty);
    }

    /** Writes node and info byte into slot `p`, after moving the run `[p, e)` up, and counts it. */
    method MoveIn(n: Node<Key<T>, V>, p: nat, e: nat, inf: Byte)
      requires p <= e < keyVals.Length <= info.Length && info as object != keyVals as object
      requires forall i :: p <= i < e ==> info[i] + infoInc <= MAX_INFO
      requires maxAllowed != 0
      modifies keyVals, info, this`maxAllowed, this`numElements
      ensures NodesInserted(old(keyVals[..]), keyVals[..], p, e, n)
      ensures InfoInserted(infoInc, old(info[..]), info[..], p, e, inf)
      ensures BoundUpdated(infoInc, info[..], p, e, old(maxAllowed), maxAllowed)
      ensures numElements == old(numElements) + 1
    {
      MoveNodeIn(n, p, e);
      MoveInfoIn(p, e, inf);
      numElements := numElements + 1;
    }

    /** The common tail of insertion: puts `n` at its insertion point `p`, shifting the run that starts
        there up to the next empty slot. */
    method PlaceAt(ghost l: Layout, ghost allowed: nat, n: Node<Key<T>, V>, p: nat, inf: nat)
      requires Filled(l, allowed) && maxAllowed != 0 && numElements < allowed
      requires n.Node? && n.key !in Contents()
      requires Passed(l, info[..], n.key, p) && inf == l.Probe(n.key, p) > info[p]
      modifies keyVals, info, this`maxAllowed, this`numElements
      ensures Filled(l, allowed) && Contents() == old(Contents())[n.key := n.value]
      ensures p < keyVals.Length && keyVals[p] == n
      ensures maxAllowed == 0 ==> SomeByteFull(infoInc, keyVals.Length, info[..])
    {
      ghost var bytes, nodes := info[..], keyVals[..];
      ProbeFits(l, bytes, nodes, n.key, p);
      var e := FindEmpty(l, allowed, n.key, p);
      MoveIn(n, p, e, inf);
      InsertConsistent(l, allowed, old(numElements), old(maxAllowed), bytes, nodes, n, p, e,
                       maxAllowed, info[..], keyVals[..]);
    }

    // ----- rescaling -----

    /** Halves the info bytes, eight at a time, giving one hash bit up for distance. */
    method TryIncreaseInfo() returns (ok: bool)
      requires Valid() && mask != 0
      modifies info, this`infoInc, this`infoHashShift, this`maxAllowed
      ensures Valid() && Contents() == old(Contents())
      ensures ok == (old(infoInc) > 2)
      ensures ok ==> infoInc == old(infoInc) / 2 && maxAllowed == Allowed()
      ensures ok ==> !SomeByteFull(infoInc, keyVals.Length, info[..])
      ensures !ok ==> infoInc == old(infoInc) && infoHashShift == old(infoHashShift)
      ensures !ok ==> maxAllowed == old(maxAllowed) && info[..] == old(info[..])
    {
      if infoInc <= 2 {
        return false;
      }
      ghost var l, allowed := L(), Allowed();
      Rescale(l, allowed, CalcMaxNumElementsAllowed(maxLoad, mask + 1));
      assert L() == Rescaled(l) && Allowed() == allowed;
      ok := true;
    }

    method Rescale(ghost l: Layout, ghost allowed: nat, newMax: nat)
      requires Filled(l, allowed) && l.buckets > 1 && l.inc > 2
      requires newMax == allowed
      modifies info, this`infoInc, this`infoHashShift, this`maxAllowed
      ensures Filled(Rescaled(l), allowed) && !SomeByteFull(infoInc, keyVals.Length, info[..])
      ensures infoInc == old(infoInc) / 2 && infoHashShift == old(infoHashShift) + 1 && maxAllowed == allowed
    {
      ghost var bytes := info[..];
      HalveInfo(newMax);
      HalveConsistent(l, allowed, numElements, old(maxAllowed), bytes, keyVals[..], info[..]);
    }

    /** Halves the increment and the info bytes of all slots, one word at a time.  The last word may reach
        into the sentinel and the padding, so the sentinel is written again. */
    method HalveInfo(newMax: nat)
      requires info.Length == keyVals.Length + BYTES_PER_WORD && info as object != keyVals as object
      requires info[keyVals.Length] == SENTINEL && forall j :: keyVals.Length < j < info.Length ==> info[j] == 0
      modifies info, this`infoInc, this`infoHashShift, this`maxAllowed
      ensures infoInc == old(infoInc) / 2 && infoHashShift == old(infoHashShift) + 1 && maxAllowed == newMax
      ensures forall j :: 0 <= j < keyVals.Length ==> info[..][j] == old(info[..])[j] / 2
      ensures forall j :: keyVals.Length <= j < info.Length ==> info[..][j] == old(info[..])[j]
    {
      infoInc := infoInc / 2;
      infoHashShift := infoHashShift + 1;
      var i, n := 0, keyVals.Length;
      while i < n
        invariant 0 <= i < n + BYTES_PER_WORD
        invariant forall j :: 0 <= j < i ==> info[j] == old(info[j]) / 2
        invariant forall j :: i <= j < info.Length ==> info[j] == old(info[j])
        modifies info
      {
        HalveWord(i);
        i := i + BYTES_PER_WORD;
      }
      info[n] := SENTINEL;
      maxAllowed := newMax;
    }

    /** Loads the word at `i`, shifts it right by one, masks every byte's top bit and stores it. */
    method HalveWord(i: nat)
      requires i + BYTES_PER_WORD <= info.Length
      modifies info
      ensures forall j :: 0 <= j < info.Length ==>
                            info[j] == if i <= j < i + BYTES_PER_WORD then old(info[j]) / 2 else old(info[j])
    {
      ghost var bytes := info[i..i + BYTES_PER_WORD];
      var val := Pack(info[i..i + BYTES_PER_WORD]);
      val := And(val / 2, LOW_SEVEN_BITS);
      EightByteMask();
      HalvePacked(bytes);
      forall k | 0 <= k < BYTES_PER_WORD
        ensures ByteAt(val, k) == info[i + k] / 2
      {
        PackedByte(Halved(bytes), k);
      }
      StoreWord(i, val);
    }

    method StoreWord(i: nat, val: nat)
      requires i + BYTES_PER_WORD <= info.Length
      modifies info
      ensures forall j :: 0 <= j < info.Length ==>
                            info[j] == if i <= j < i + BYTES_PER_WORD then ByteAt(val, j - i) else old(info[j])
    {
      var k := 0;
      while k < BYTES_PER_WORD
        invariant k <= BYTES_PER_WORD
        invariant forall j :: 0 <= j < info.Length ==>
                                info[j] == if i <= j < i + k then ByteAt(val, j - i) else old(info[j])
      {
        info[i + k] := ByteAt(val, k);
        k := k + 1;
      }
    }

    // ----- rehashing -----

    /** Insertion is switched off only while some info byte has no room left. */
    ghost predicate Tight()
      reads this, info
    {
      maxAllowed == 0 != Allowed() ==>
        keyVals.Length <= info.Length && SomeByteFull(infoInc, keyVals.Length, info[..])
    }

    /** Zeroed arrays with a sentinel. */
    static method Allocate(slots: nat) returns (nodes: array<Node<Key<T>, V>>, bytes: array<Byte>)
      ensures fresh(nodes) && fresh(bytes) && nodes as object != bytes as object
      ensures nodes.Length == slots && bytes.Length == slots + BYTES_PER_WORD
      ensures forall i :: 0 <= i < slots ==> nodes[i] == Raw
      ensures forall i :: 0 <= i < bytes.Length ==> bytes[i] == if i == slots then SENTINEL else 0
    {
      nodes := new Node<Key<T>, V>[slots](_ => Raw);
      bytes := new Byte[slots + BYTES_PER_WORD](_ => 0);
      bytes[slots] := SENTINEL;
    }

    method SetFields(nodes: array<Node<Key<T>, V>>, bytes: array<Byte>, newMask: nat, newMax: nat)
      modifies this
      ensures keyVals == nodes && info == bytes && mask == newMask && maxAllowed == newMax
      ensures numElements == 0 && infoInc == INITIAL_INFO_INC && infoHashShift == INITIAL_INFO_HASH_SHIFT
    {
      keyVals, info, mask, maxAllowed := nodes, bytes, newMask, newMax;
      numElements, infoInc, infoHashShift := 0, INITIAL_INFO_INC, INITIAL_INFO_HASH_SHIFT;
    }

    /** Starts over with empty arrays for `maxElements` buckets. */
    method InitData(maxElements: nat)
      requires 10 < maxLoad < 100
      requires IsPow2(maxElements) && maxElements >= INITIAL_NUM_ELEMENTS
      modifies this
      ensures Valid() && Contents() == map[] && mask + 1 == maxElements
      ensures maxAllowed == Allowed() && infoInc == INITIAL_INFO_INC
      ensures fresh(keyVals) && fresh(info)
    {
      var slots := CalcNumElementsWithBuffer(maxLoad, maxElements);
      var nodes, bytes := Allocate(slots);
      SetFields(nodes, bytes, maxElements - 1, CalcMaxNumElementsAllowed(maxLoad, maxElements));
      ClearConsistent(L(), Allowed(), Allowed(), bytes[..], nodes[..]);
    }

    /** Skips every slot whose info byte is at least the probe's; the key is known to be absent. */
    method SkipForward(ghost l: Layout, key: Key<T>, inf0: nat, idx0: nat) returns (inf: nat, idx: nat)
      requires Inv(l, info[..], keyVals[..]) && infoInc == l.inc
      requires idx0 == l.Home(key) && inf0 == l.Probe(key, idx0)
      ensures Passed(l, info[..], key, idx) && inf == l.Probe(key, idx) > info[idx]
    {
      ghost var bytes := info[..];
      inf, idx := inf0, idx0;
      while inf <= info[idx]
        invariant Passed(l, bytes, key, idx) && inf == l.Probe(key, idx)
        decreases l.slots - idx
      {
        idx := idx + 1;
        inf := inf + infoInc;
      }
    }

    /** Puts a node whose key is known to be new where it belongs. */
    method InsertNew(ghost l: Layout, ghost allowed: nat, n: Node<Key<T>, V>, first: nat, home: nat)
      requires Filled(l, allowed) && maxAllowed != 0 && numElements < allowed
      requires n.Node? && n.key !in Contents()
      requires home == l.Home(n.key) && first == l.Probe(n.key, home)
      modifies keyVals, info, this`maxAllowed, this`numElements
      ensures Filled(l, allowed) && Tight() && Contents() == old(Contents())[n.key := n.value]
    {
      var inf, idx := SkipForward(l, n.key, first, home);
      PlaceAt(l, allowed, n, idx, inf);
    }

    /** Inserts a node whose key is known to be new.  Fails only when the info bytes are at their last
        scale and one of them is full. */
    method InsertMove(n: Node<Key<T>, V>) returns (ok: bool)
      requires Valid() && Tight() && mask != 0 && numElements < Allowed()
      requires n.Node? && n.key !in Contents()
      modifies keyVals, info, this`infoInc, this`infoHashShift, this`maxAllowed, this`numElements
      ensures Valid() && Tight()
      ensures ok == !(old(maxAllowed) == 0 && old(infoInc) == 2)
      ensures Contents() == if ok then old(Contents())[n.key := n.value] else old(Contents())
    {
      ok := true;
      if maxAllowed == 0 {
        ok := TryIncreaseInfo();
      }
      if ok {
        var home, first := KeyToIdx(n.key);
        ghost var l, allowed := L(), Allowed();
        InsertNew(l, allowed, n, first, home);
        assert L() == l && Allowed() == allowed;
      }
    }

    /** Moves one more node into a table that holds `m`. */
    method MoveOne(n: Node<Key<T>, V>, ghost buckets: nat, ghost m: map<Key<T>, V>) returns (ok: bool)
      requires Valid() && Tight() && mask != 0 && buckets == mask + 1 && m == Contents()
      requires n.Node? && n.key !in m && |m| < Allowed()
      modifies keyVals, info, this`infoInc, this`infoHashShift, this`maxAllowed, this`numElements
      ensures Valid() && Tight()
      ensures ok <==> !Crowded(buckets, m.Keys, FULL_DISTANCE)
      ensures Contents() == if ok then m[n.key := n.value] else m
    {
      OffIffCrowded(m.Keys);
      ok := InsertMove(n);
    }

    lemma OffIffCrowded(keys: set<Key<T>>)
      requires Valid() && Tight() && Allowed() != 0 && keys == Contents().Keys
      ensures maxAllowed == 0 && infoInc == 2 <==> Crowded(mask + 1, keys, FULL_DISTANCE)
    {
      FullIffCrowded(L(), info[..], keyVals[..]);
    }

    /** Moves every node of the old arrays. */
    method MoveAll(ghost buckets: nat, oldKeyVals: array<Node<Key<T>, V>>, oldInfo: array<Byte>) returns (ok: bool)
      requires Valid() && Tight() && mask != 0 && buckets == mask + 1 && Contents() == map[]
      requires oldKeyVals != keyVals && oldInfo != info && oldInfo as object != keyVals && oldKeyVals as object != info
      requires UniqueKeys(oldKeyVals[..]) && oldKeyVals.Length <= oldInfo.Length
      requires forall i :: 0 <= i < oldKeyVals.Length ==> (oldInfo[i] != 0 <==> oldKeyVals[i].Node?)
      requires |Entries(oldKeyVals[..])| <= Allowed()
      modifies keyVals, info, this`infoInc, this`infoHashShift, this`maxAllowed, this`numElements
      ensures Valid() && Tight()
      ensures Relocated(oldKeyVals[..], buckets, ok, Contents())
    {
      ghost var nodes := oldKeyVals[..];
      RelocatingStarts(nodes, buckets);
      var i := 0;
      while i < oldKeyVals.Length
        invariant 0 <= i <= |nodes|
        invariant Valid() && Tight() && Relocating(nodes, buckets, i, Contents())
      {
        ghost var m := Contents();
        RelocatingStep(nodes, buckets, i, m);
        if oldInfo[i] != 0 {
          ok := MoveOne(oldKeyVals[i], buckets, m);
          if !ok {
            return;
          }
        }
        i := i + 1;
      }
      assert nodes[..i] == nodes;
      ok := true;
    }

    /** Moves every entry into new arrays of `numBuckets` buckets.  All of them arrive unless the keys,
        without the one in the last occupied slot, are crowded at the new size; then the exception is
        raised half-way and the entries not yet moved are gone. */
    method RehashPowerOfTwo(numBuckets: nat) returns (ok: bool)
      requires Valid()
      requires IsPow2(numBuckets) && numBuckets >= INITIAL_NUM_ELEMENTS
      requires numElements <= CalcMaxNumElementsAllowed(maxLoad, numBuckets)
      modifies this
      ensures Valid() && Tight() && mask + 1 == numBuckets && fresh(keyVals) && fresh(info)
      ensures Relocated(old(keyVals[..]), numBuckets, ok, Contents())
    {
      ghost var nodes := keyVals[..];
      var oldKeyVals, oldInfo := keyVals, info;
      var oldMaxElementsWithBuffer := CalcNumElementsWithBuffer(maxLoad, mask + 1);
      InitData(numBuckets);
      assert oldKeyVals[..] == nodes;
      if oldMaxElementsWithBuffer > 1 {
        ok := MoveAll(numBuckets, oldKeyVals, oldInfo);
      } else {
        NothingRelocated(nodes, numBuckets);
        ok := true;
      }
    }

    // ----- growing and inserting -----

    /** The table from outside. */
    ghost function Now(): (s: Look<T, V>)
      reads this, keyVals, info
    {
      Look(G(), Contents(), keyVals[..], Tight())
    }

    lemma JudgeNow()
      requires Valid()
      ensures Judged(maxLoad, Now())
    {
      FullIffCrowded(L(), info[..], keyVals[..]);
    }

    /** Moves the table to another size.  The exception is raised half-way, with entries gone. */
    method RehashTo(numBuckets: nat, ghost s: Look<T, V>) returns (o: Outcome)
      requires Valid() && s == Now()
      requires IsPow2(numBuckets) && numBuckets >= INITIAL_NUM_ELEMENTS
      requires numElements <= CalcMaxNumElementsAllowed(maxLoad, numBuckets)
      modifies this
      ensures Valid() && mask + 1 == numBuckets && fresh(keyVals) && fresh(info)
      ensures Moved(s, o, Now())
    {
      var ok := RehashPowerOfTwo(numBuckets);
      o := if ok then Done else Lost;
      MovedOrLost(s, ok, Now());
    }

    /** The last resort: a table twice the size, or the overflow exception if less than half is used. */
    method Double(ghost s: Look<T, V>) returns (o: Outcome)
      requires Valid() && mask != 0 && s == Now()
      modifies this
      ensures Valid() && (fresh(keyVals) || keyVals == old(keyVals)) && (fresh(info) || info == old(info))
      ensures DoubleEnd(maxLoad, s, o, Now())
    {
      if numElements * 2 < CalcMaxNumElementsAllowed(maxLoad, mask + 1) {
        return Refused;
      }
      DoublePow2(mask + 1);
      DoublingAllowsMore(maxLoad, mask + 1);
      o := RehashTo((mask + 1) * 2, s);
      DoubledByMoving(maxLoad, s, o, Now());
    }

    /** Makes room for one more entry: the first allocation, a rescaling, or a table twice the size. */
    method IncreaseSize() returns (o: Outcome)
      requires Valid() && numElements >= maxAllowed
      modifies this, info
      ensures Valid() && (fresh(keyVals) || keyVals == old(keyVals)) && (fresh(info) || info == old(info))
      ensures IncreaseEnd(maxLoad, old(Now()), o, Now())
    {
      ghost var s := Now();
      if mask == 0 {
        EightIsPow2();
        InitData(INITIAL_NUM_ELEMENTS);
        IncreasedFromNothing(maxLoad, s, Now());
        return Done;
      }
      if numElements < CalcMaxNumElementsAllowed(maxLoad, mask + 1) {
        var more := TryIncreaseInfo();
        if more {
          IncreasedByRescaling(maxLoad, s, Now());
          return Done;
        }
      }
      o := Double(s);
      IncreasedByDoubling(maxLoad, s, o, Now());
    }

    /** One round of the insertion loop: finds the key, or inserts it, or asks for more room. */
    method Attempt(key: Key<T>, value: V) returns (settled: bool, inserted: bool, idx: nat)
      requires Valid()
      modifies keyVals, info, this`maxAllowed, this`numElements
      ensures Valid()
      ensures settled ==> Settled(old(Now()), key, value, inserted, idx, Now())
      ensures !settled ==> Now() == old(Now()) && Unsettled(Now(), key)
    {
      var home, first := KeyToIdx(key);
      ghost var l, allowed := L(), Allowed();
      settled, inserted, idx := AttemptAt(l, allowed, key, value, first, home);
      assert L() == l && Allowed() == allowed;
    }

    method AttemptAt(ghost l: Layout, ghost allowed: nat, key: Key<T>, value: V, first: nat, home: nat)
      returns (settled: bool, inserted: bool, idx: nat)
      requires Filled(l, allowed)
      requires home == l.Home(key) && first == l.Probe(key, home)
      modifies keyVals, info, this`maxAllowed, this`numElements
      ensures Filled(l, allowed)
      ensures settled <==> key in old(Contents()) || old(numElements < maxAllowed)
      ensures settled ==> inserted == (key !in old(Contents())) && StoredAt(keyVals[..], key, idx)
      ensures settled ==> Contents() == if inserted then old(Contents())[key := value] else old(Contents())
      ensures !settled ==> Contents() == old(Contents()) && numElements == old(numElements)
      ensures settled && inserted ==> maxAllowed == 0 ==> SomeByteFull(infoInc, keyVals.Length, info[..])
      ensures !(settled && inserted) ==> info[..] == old(info[..]) && maxAllowed == old(maxAllowed)
      ensures !(settled && inserted) ==> keyVals[..] == old(keyVals[..]) && numElements == old(numElements)
    {
      var found, inf, at := Locate(l, key, first, home);
      idx := at;
      if found {
        SlotEntry(keyVals[..], idx);
        return true, false, idx;
      }
      if numElements >= maxAllowed {
        return false, false, idx;
      }
      PlaceAt(l, allowed, Node(key, value), idx, inf);
      return true, true, idx;
    }

    /** One round of the retry loop, with `again` asking for another one. */
    method Round(key: Key<T>, value: V) returns (again: bool, o: Outcome, inserted: bool, idx: nat)
      requires Valid()
      modifies this, keyVals, info
      ensures Valid() && (fresh(keyVals) || keyVals == old(keyVals)) && (fresh(info) || info == old(info))
      ensures RoundEnd(maxLoad, old(Now()), key, value, again, o, inserted, idx, Now())
    {
      var settled;
      settled, inserted, idx := Attempt(key, value);
      if settled {
        return false, Done, inserted, idx;
      }
      o := IncreaseSize();
      again := o.Done?;
    }

    /** One round on the way from `s0`, the table looking like `s`. */
    method RoundFrom(key: Key<T>, value: V, ghost s0: Look<T, V>, ghost s: Look<T, V>)
      returns (again: bool, o: Outcome, inserted: bool, idx: nat)
      requires Valid() && s == Now() && Judged(maxLoad, s) && Along(maxLoad, s0, s)
      modifies this, keyVals, info
      ensures Valid() && (fresh(keyVals) || keyVals == old(keyVals)) && (fresh(info) || info == old(info))
      ensures !again ==> RoundEnd(maxLoad, s, key, value, false, o, inserted, idx, Now())
      ensures again ==> Along(maxLoad, s0, Now()) && key !in s.m && Smaller(maxLoad, G(), s.g) && Judged(maxLoad, Now())
    {
      again, o, inserted, idx := Round(key, value);
      JudgeNow();
      if again {
        AlongStep(maxLoad, s0, s, Now());
      }
    }

    /** The retry loop, from what the table looks like to what it looks like before the last round. */
    method Retry(key: Key<T>, value: V, ghost s0: Look<T, V>)
      returns (o: Outcome, inserted: bool, idx: nat, ghost s: Look<T, V>)
      requires Valid() && s0 == Now() && Judged(maxLoad, s0)
      modifies this, keyVals, info
      ensures Valid() && (fresh(keyVals) || keyVals == old(keyVals)) && (fresh(info) || info == old(info))
      ensures Judged(maxLoad, s) && Along(maxLoad, s0, s) && (key in s0.m ==> s == s0)
      ensures RoundEnd(maxLoad, s, key, value, false, o, inserted, idx, Now())
    {
      s := s0;
      AlongStarts(maxLoad, s0);
      while true
        invariant Valid() && s == Now() && Judged(maxLoad, s) && Along(maxLoad, s0, s)
        invariant key in s0.m ==> s == s0
        invariant (fresh(keyVals) || keyVals == old(keyVals)) && (fresh(info) || info == old(info))
        decreases Unallocated(s.g), Excess(maxLoad, s.g), s.g.inc
      {
        var again;
        again, o, inserted, idx := RoundFrom(key, value, s0, s);
        if !again {
          return;
        }
        s := Now();
      }
    }

    method InsertFrom(key: Key<T>, value: V, ghost s0: Look<T, V>) returns (o: Outcome, inserted: bool, idx: nat)
      requires Valid() && s0 == Now() && Judged(maxLoad, s0)
      modifies this, keyVals, info
      ensures Valid() && (fresh(keyVals) || keyVals == old(keyVals)) && (fresh(info) || info == old(info))
      ensures Inserted(s0, key, value, o, inserted, idx, Now()) && InsertEnd(maxLoad, s0, key, o, Now().g.buckets)
    {
      ghost var s;
      o, inserted, idx, s := Retry(key, value, s0);
      AlongEnds(maxLoad, s0, s, key, value, o, inserted, idx, Now());
    }

    /** Inserts an entry unless its key is already stored.  The retry always ends: with the key's slot, or
        with the overflow exception. */
    method DoInsert(key: Key<T>, value: V) returns (o: Outcome, inserted: bool, idx: nat)
      requires Valid()
      modifies this, keyVals, info
      ensures Valid() && (fresh(keyVals) || keyVals == old(keyVals)) && (fresh(info) || info == old(info))
      ensures Inserted(old(Now()), key, value, o, inserted, idx, Now())
      ensures InsertEnd(maxLoad, old(Now()), key, o, mask + 1)
    {
      JudgeNow();
      o, inserted, idx := InsertFrom(key, value, Now());
    }

    // ----- removing -----

    /** Closes the gap at `p` by moving the displaced run after it down by one slot. */
    method ShiftDown(p: nat) returns (ghost q: nat)
      requires p < keyVals.Length < info.Length && info as object != keyVals as object
      requires info[keyVals.Length] < 2 * infoInc
      modifies keyVals, info
      ensures InfoErased(infoInc, old(info[..]), info[..], p, q)
      ensures NodesErased(old(keyVals[..]), keyVals[..], p, q)
      ensures q < keyVals.Length && old(info[..])[q + 1] < 2 * infoInc
      ensures forall i :: p < i <= q ==> old(info[..])[i] >= 2 * infoInc
    {
      ghost var bytes, nodes := info[..], keyVals[..];
      var idx := p;
      while info[idx + 1] >= 2 * infoInc
        invariant p <= idx < keyVals.Length
        invariant ShiftingDown(infoInc, bytes, info[..], nodes, keyVals[..], p, idx)
        decreases keyVals.Length - idx
      {
        ShiftOne(bytes, nodes, p, idx);
        idx := idx + 1;
      }
      CloseGap(bytes, nodes, p, idx);
      q := idx;
    }

    method ShiftOne(ghost bytes: seq<Byte>, ghost nodes: seq<Node<Key<T>, V>>, ghost p: nat, idx: nat)
      requires ShiftingDown(infoInc, bytes, info[..], nodes, keyVals[..], p, idx)
      requires idx + 1 < keyVals.Length && info[idx + 1] >= 2 * infoInc && info as object != keyVals as object
      modifies keyVals, info
      ensures ShiftingDown(infoInc, bytes, info[..], nodes, keyVals[..], p, idx + 1)
      ensures info[keyVals.Length] == old(info[keyVals.Length])
    {
      ShiftingStep(infoInc, bytes, info[..], nodes, keyVals[..], p, idx);
      ghost var last := info[..][keyVals.Length];
      MoveDown(idx);
      assert info[..][keyVals.Length] == last;
    }

    method CloseGap(ghost bytes: seq<Byte>, ghost nodes: seq<Node<Key<T>, V>>, ghost p: nat, idx: nat)
      requires ShiftingDown(infoInc, bytes, info[..], nodes, keyVals[..], p, idx)
      requires info[idx + 1] < 2 * infoInc && info as object != keyVals as object
      modifies keyVals, info
      ensures InfoErased(infoInc, bytes, info[..], p, idx) && NodesErased(nodes, keyVals[..], p, idx)
      ensures bytes[idx + 1] < 2 * infoInc && forall i :: p < i <= idx ==> bytes[i] >= 2 * infoInc
    {
      ShiftingEnds(infoInc, bytes, info[..], nodes, keyVals[..], p, idx);
      Empty(idx);
    }

    method Empty(idx: nat)
      requires idx < info.Length && idx < keyVals.Length && info as object != keyVals as object
      modifies keyVals, info
      ensures info[..] == old(info[..])[idx := 0] && keyVals[..] == old(keyVals[..])[idx := Raw]
    {
      info[idx] := 0;
      keyVals[idx] := Raw;
    }

    method MoveDown(idx: nat)
      requires idx + 1 < info.Length && idx + 1 < keyVals.Length && info as object != keyVals as object
      requires info[idx + 1] >= infoInc
      modifies keyVals, info
      ensures info[..] == old(info[..])[idx := old(info[..])[idx + 1] - infoInc]
      ensures keyVals[..] == old(keyVals[..])[idx := old(keyVals[..])[idx + 1]]
    {
      info[idx] := info[idx + 1] - infoInc;
      keyVals[idx] := keyVals[idx + 1];
    }

    /** Removes the entry at slot `p`. */
    method EraseSlot(ghost l: Layout, ghost allowed: nat, p: nat)
      requires Filled(l, allowed)
      requires p < keyVals.Length && keyVals[p].Node?
      modifies keyVals, info, this`numElements
      ensures Filled(l, allowed) && Contents() == old(Contents()) - {old(keyVals[p].key)}
    {
      ghost var bytes, nodes := info[..], keyVals[..];
      SlotEntry(nodes, p);
      ghost var q := ShiftDown(p);
      numElements := numElements - 1;
      EraseConsistent(l, allowed, old(numElements), maxAllowed, bytes, nodes, p, q, info[..], keyVals[..]);
    }

    /** The probe loop of erase: the slot of `key`, if any. */
    method EraseLoop(ghost l: Layout, key: Key<T>, inf0: nat, idx0: nat) returns (found: bool, idx: nat)
      requires Inv(l, info[..], keyVals[..]) && infoInc == l.inc
      requires idx0 == l.Home(key) && inf0 == l.Probe(key, idx0)
      ensures found ==> StoredAt(keyVals[..], key, idx) && key in Contents()
      ensures !found ==> key !in Contents()
    {
      ghost var bytes, nodes := info[..], keyVals[..];
      var inf := inf0;
      idx := idx0;
      AbsentBeforeHome(l, bytes, nodes, key);
      var more := true;
      while more
        invariant l.Home(key) <= idx <= l.slots
        invariant inf == l.Probe(key, idx)
        invariant AbsentBelow(nodes, key, idx)
        invariant more ==> idx < l.slots
        invariant !more ==> inf > bytes[idx]
        decreases more, l.slots - idx
      {
        if inf == info[idx] && keyVals[idx].key == key {
          SlotEntry(nodes, idx);
          return true, idx;
        }
        NotAt(l, bytes, nodes, key, idx);
        idx := idx + 1;
        inf := inf + infoInc;
        more := inf <= info[idx];
      }
      AbsentEverywhere(l, bytes, nodes, key, idx);
      found := false;
    }

    /** Removes the entry of `key` and says whether there was one. */
    method Erase(key: Key<T>) returns (erased: bool)
      requires Valid()
      modifies keyVals, info, this`numElements
      ensures Valid()
      ensures erased == (key in old(Contents()))
      ensures Contents() == old(Contents()) - {key}
    {
      var home, first := KeyToIdx(key);
      ghost var l, allowed := L(), Allowed();
      erased := EraseFrom(l, allowed, key, first, home);
      assert L() == l && Allowed() == allowed;
    }

    method EraseFrom(ghost l: Layout, ghost allowed: nat, key: Key<T>, first: nat, home: nat) returns (erased: bool)
      requires Filled(l, allowed)
      requires home == l.Home(key) && first == l.Probe(key, home)
      modifies keyVals, info, this`numElements
      ensures Filled(l, allowed)
      ensures erased == (key in old(Contents()))
      ensures Contents() == old(Contents()) - {key}
    {
      var idx;
      erased, idx := EraseLoop(l, key, first, home);
      if erased {
        EraseSlot(l, allowed, idx);
      } else {
        assert Contents() - {key} == Contents();
      }
    }

    /** Removes all entries without resizing.  The insertion bound stays as it is, even when it is
        switched off. */
    method Clear()
      requires Valid()
      modifies keyVals, info, this`numElements, this`infoInc, this`infoHashShift
      ensures Valid() && Contents() == map[]
      ensures maxAllowed == old(maxAllowed) && mask == old(mask) && infoInc in {old(infoInc), INITIAL_INFO_INC}
    {
      if numElements == 0 {
        return;
      }
      Wipe();
      ClearConsistent(L(), Allowed(), maxAllowed, info[..], keyVals[..]);
    }

    /** Destroys every node, zeroes the info bytes, sets the sentinel and the initial scale. */
    method Wipe()
      requires keyVals.Length < info.Length && info as object != keyVals as object
      modifies keyVals, info, this`numElements, this`infoInc, this`infoHashShift
      ensures forall i :: 0 <= i < keyVals.Length ==> keyVals[..][i] == Raw
      ensures forall i :: 0 <= i < info.Length ==> info[..][i] == if i == keyVals.Length then SENTINEL else 0
      ensures numElements == 0 && infoInc == INITIAL_INFO_INC && infoHashShift == INITIAL_INFO_HASH_SHIFT
    {
      numElements, infoInc, infoHashShift := 0, INITIAL_INFO_INC, INITIAL_INFO_HASH_SHIFT;
      var idx := 0;
      while idx < keyVals.Length
        invariant idx <= keyVals.Length
        invariant forall i :: 0 <= i < idx ==> keyVals[i] == Raw
        modifies keyVals
      {
        keyVals[idx] := Raw;
        idx := idx + 1;
      }
      idx := 0;
      while idx < info.Length
        invariant idx <= info.Length
        invariant forall i :: 0 <= i < idx ==> info[i] == 0
        modifies info
      {
        info[idx] := 0;
        idx := idx + 1;
      }
      info[keyVals.Length] := SENTINEL;
    }

    /** The smallest power of two from eight on whose capacity is at least `c`, doubling in 64 bits: zero
        stands for a size that no longer fits. */
    method SizeFor(c: nat) returns (newSize: nat)
      requires 10 < maxLoad < 100
      ensures newSize == 0 <==> !SomeSizeHolds(maxLoad, c)
      ensures newSize != 0 ==> SmallestFor(maxLoad, c, newSize)
    {
      EightIsPow2();
      newSize := INITIAL_NUM_ELEMENTS;
      while CalcMaxNumElementsAllowed(maxLoad, newSize) < c && newSize != 0
        invariant newSize == 0 || (IsPow2(newSize) && INITIAL_NUM_ELEMENTS <= newSize <= LARGEST_SIZE)
        invariant newSize == 0 ==> !SomeSizeHolds(maxLoad, c)
        invariant newSize == 0 || HalfTooSmall(maxLoad, c, newSize)
        decreases if newSize == 0 then 0 else WORD - newSize
      {
        DoublePow2(newSize);
        HalfWord(newSize);
        if newSize == LARGEST_SIZE {
          NoSizeHolds(maxLoad, c, newSize);
        }
        newSize := (newSize * 2) % WORD;
      }
    }

    /** Rehashes to the smallest size that holds both the entries and `c` of them. */
    method Reserve(c: nat) returns (o: Outcome)
      requires Valid()
      modifies this
      ensures Valid() && (fresh(keyVals) || keyVals == old(keyVals)) && (fresh(info) || info == old(info))
      ensures ReserveEnd(maxLoad, old(Now()), c, o, Now())
    {
      var least := Max(c, numElements);
      var newSize := SizeFor(least);
      if newSize == 0 {
        return Refused;
      }
      o := RehashTo(newSize, Now());
    }

    // ----- operator[] and iteration -----

    /** Assignment through the reference that operator[] returns. */
    method AssignAt(ghost key: Key<T>, idx: nat, value: V, ghost s: Look<T, V>)
      requires Valid() && s == Now() && StoredAt(s.kv, key, idx)
      modifies keyVals
      ensures Valid() && Overwritten(s, key, value, Now())
    {
      ghost var nodes := keyVals[..];
      keyVals[idx] := Node(keyVals[idx].key, value);
      assert keyVals[..] == nodes[idx := Node(nodes[idx].key, value)];
      AssignConsistent(L(), Allowed(), numElements, maxAllowed, info[..], nodes, idx, value);
    }

    method SetFrom(key: Key<T>, value: V, default: V, ghost s: Look<T, V>) returns (o: Outcome)
      requires Valid() && s == Now() && Judged(maxLoad, s)
      modifies this, keyVals, info
      ensures Valid() && (fresh(keyVals) || keyVals == old(keyVals)) && (fresh(info) || info == old(info))
      ensures Assigned(s, key, value, o, Now()) && InsertEnd(maxLoad, s, key, o, Now().g.buckets)
    {
      var inserted, idx;
      o, inserted, idx := InsertFrom(key, default, s);
      ghost var s1 := Now();
      if o.Done? {
        AssignAt(key, idx, value, s1);
      }
      AssignedAfter(maxLoad, s, key, value, default, o, inserted, idx, s1, Now());
    }

    /** `table[key] = value`: creates the entry with a default value if there is none, then assigns. */
    method SetAt(key: Key<T>, value: V, default: V) returns (o: Outcome)
      requires Valid()
      modifies this, keyVals, info
      ensures Valid() && (fresh(keyVals) || keyVals == old(keyVals)) && (fresh(info) || info == old(info))
      ensures Assigned(old(Now()), key, value, o, Now()) && InsertEnd(maxLoad, old(Now()), key, o, mask + 1)
    {
      JudgeNow();
      o := SetFrom(key, value, default, Now());
    }

    /** The first non-empty slot from `i` on, found a word at a time. */
    method FastForward(i: nat) returns (j: nat)
      requires i <= keyVals.Length && info.Length == keyVals.Length + BYTES_PER_WORD
      requires info[keyVals.Length] == SENTINEL
      ensures i <= j <= keyVals.Length && info[j] != 0
      ensures forall k :: i <= k < j ==> info[k] == 0
    {
      j := i;
      while Pack(info[j..j + BYTES_PER_WORD]) == 0
        invariant i <= j <= keyVals.Length
        invariant forall k :: i <= k < j ==> info[k] == 0
        decreases keyVals.Length - j
      {
        NonZeroByte(j);
        j := j + BYTES_PER_WORD;
      }
      NonZeroByte(j);
      var n := Pack(info[j..j + BYTES_PER_WORD]);
      j := j + CountTrailingZeroes(n) / 8;
    }

    lemma NonZeroByte(j: nat)
      requires j + BYTES_PER_WORD <= info.Length
      ensures Pack(info[j..j + BYTES_PER_WORD]) == 0 <==> forall k :: j <= k < j + BYTES_PER_WORD ==> info[k] == 0
      ensures Pack(info[j..j + BYTES_PER_WORD]) != 0 ==>
                var z := CountTrailingZeroes(Pack(info[j..j + BYTES_PER_WORD])) / 8;
                z < BYTES_PER_WORD && info[j + z] != 0 && forall k :: j <= k < j + z ==> info[k] == 0
    {
      var bytes := info[j..j + BYTES_PER_WORD];
      FirstNonZeroByte(bytes);
      assert forall k :: j <= k < j + BYTES_PER_WORD ==> info[k] == bytes[k - j];
      assert forall i :: 0 <= i < |bytes| ==> bytes[i] == info[j + i];
    }

    /** Iterates from begin() to end(): the slots visited, in order, and the entries they hold. */
    method Iterate() returns (visited: seq<nat>, m: map<Key<T>, V>)
      requires Valid()
      ensures forall i, j :: 0 <= i < j < |visited| ==> visited[i] < visited[j]
      ensures forall s :: s in visited <==> 0 <= s < keyVals.Length && info[s] != 0
      ensures m == Contents()
    {
      if numElements == 0 {
        EmptyIteration(L(), info[..], keyVals[..]);
        return [], map[];
      }
      visited, m := Walk();
    }

    method Walk() returns (visited: seq<nat>, m: map<Key<T>, V>)
      requires info.Length == keyVals.Length + BYTES_PER_WORD && info[keyVals.Length] == SENTINEL
      requires mask != 0
      requires forall i :: 0 <= i < keyVals.Length ==> (info[i] != 0 <==> keyVals[i].Node?)
      ensures forall i, j :: 0 <= i < j < |visited| ==> visited[i] < visited[j]
      ensures forall s :: s in visited <==> 0 <= s < keyVals.Length && info[s] != 0
      ensures m == Contents()
    {
      visited, m := [], map[];
      ghost var nodes := keyVals[..];
      var it := FastForward(0);
      SkipRaw(nodes, 0, it);
      while it != End()
        invariant 0 <= it <= keyVals.Length && info[it] != 0
        invariant Visited(visited, info[..], it)
        invariant m == Entries(nodes[..it])
        decreases keyVals.Length - it
      {
        assert nodes[..it + 1][..it] == nodes[..it];
        m := m[keyVals[it].key := keyVals[it].value];
        var next := FastForward(it + 1);
        SkipRaw(nodes, it + 1, next);
        VisitedMore(visited, info[..], it, next);
        visited, it := visited + [it], next;
      }
      assert nodes[..it] == nodes;
    }
  }

  /** Every full slot below `upto`, once and in order. */
  ghost predicate Visited(visited: seq<nat>, info: seq<Byte>, upto: nat) {
    && upto <= |info|
    && (forall i, j :: 0 <= i < j < |visited| ==> visited[i] < visited[j])
    && (forall s :: s in visited <==> 0 <= s < upto && info[s] != 0)
  }

  lemma {:induction false} VisitedMore(visited: seq<nat>, info: seq<Byte>, it: nat, next: nat)
    requires Visited(visited, info, it) && it < next <= |info| && info[it] != 0
    requires forall i :: it < i < next ==> info[i] == 0
    ensures Visited(visited + [it], info, next)
  {
    assert forall i :: 0 <= i < |visited| ==> visited[i] in visited;
  }

  lemma EmptyIteration<T, V>(l: Layout, info: seq<Byte>, kv: seq<Node<Key<T>, V>>)
    requires Inv(l, info, kv) && |Entries(kv)| == 0
    ensures Entries(kv) == map[]
    ensures forall s :: 0 <= s < l.slots ==> info[s] == 0
  {
    forall s | 0 <= s < l.slots
      ensures info[s] == 0
    {
      if kv[s].Node? {
        SlotEntry(kv, s);
      }
    }
  }

  lemma {:induction false} SkipRaw<K, V>(kv: seq<Node<K, V>>, a: nat, b: nat)
    requires a <= b <= |kv|
    requires forall i :: a <= i < b ==> kv[i] == Raw
    ensures Entries(kv[..a]) == Entries(kv[..b])
    decreases b
  {
    if a < b {
      SkipRaw(kv, a, b - 1);
      assert kv[..b][..b - 1] == kv[..b - 1];
    }
  }

  /** The run after `p` moved down by one slot as far as `idx`. */
  ghost predicate ShiftingDown<K, V>(inc: nat, info: seq<Byte>, info': seq<Byte>, kv: seq<Node<K, V>>,
                                     kv': seq<Node<K, V>>, p: nat, idx: nat) {
    && |info'| == |info| && |kv'| == |kv| && p <= idx < |kv| < |info|
    && (forall i {:trigger info'[i]} :: p <= i < idx ==> info'[i] == info[i + 1] - inc)
    && (forall i {:trigger info'[i]} :: 0 <= i < |info| && !(p <= i < idx) ==> info'[i] == info[i])
    && (forall i {:trigger kv'[i]} :: p <= i < idx ==> kv'[i] == kv[i + 1])
    && (forall i {:trigger kv'[i]} :: 0 <= i < |kv| && !(p <= i < idx) ==> kv'[i] == kv[i])
    && (forall i :: p < i <= idx ==> info[i] >= 2 * inc)
  }

  lemma ShiftingStep<K, V>(inc: nat, info: seq<Byte>, info': seq<Byte>, kv: seq<Node<K, V>>, kv': seq<Node<K, V>>,
                           p: nat, idx: nat)
    requires ShiftingDown(inc, info, info', kv, kv', p, idx) && info'[idx + 1] >= 2 * inc && idx + 1 < |kv|
    ensures ShiftingDown(inc, info, info'[idx := info'[idx + 1] - inc], kv, kv'[idx := kv'[idx + 1]], p, idx + 1)
  {
  }

  lemma ShiftingEnds<K, V>(inc: nat, info: seq<Byte>, info': seq<Byte>, kv: seq<Node<K, V>>, kv': seq<Node<K, V>>,
                           p: nat, idx: nat)
    requires ShiftingDown(inc, info, info', kv, kv', p, idx) && info'[idx + 1] < 2 * inc
    ensures InfoErased(inc, info, info'[idx := 0], p, idx) && NodesErased(kv, kv'[idx := Raw], p, idx)
    ensures info[idx + 1] < 2 * inc && forall i :: p < i <= idx ==> info[i] >= 2 * inc
  {
  }

  /** A probe for `k` that has reached slot `idx` without finding it. */
  ghost predicate Probing<T, V>(l: Layout, kv: seq<Node<Key<T>, V>>, k: Key<T>, inf: int, idx: nat) {
    l.Sane() && l.Home(k) <= idx && inf == l.Probe(k, idx) && AbsentBelow(kv, k, idx)
  }

  lemma ProbeOn<T, V>(l: Layout, info: seq<Byte>, kv: seq<Node<Key<T>, V>>, k: Key<T>, inf: int, idx: nat)
    requires Inv(l, info, kv) && Probing(l, kv, k, inf, idx) && idx <= l.slots
    requires idx < l.slots && inf == info[idx] ==> kv[idx].Node? && kv[idx].key != k
    ensures Probing(l, kv, k, inf + l.inc, idx + 1)
  {
    NotAt(l, info, kv, k, idx);
  }

  lemma ProbeInside<T, V>(l: Layout, info: seq<Byte>, kv: seq<Node<Key<T>, V>>, k: Key<T>, inf: int, idx: nat)
    requires Inv(l, info, kv) && Probing(l, kv, k, inf, idx) && idx <= l.slots + 1 && inf <= info[idx]
    ensures idx < l.slots
  {
  }

  lemma ProbeEnds<T, V>(l: Layout, info: seq<Byte>, kv: seq<Node<Key<T>, V>>, k: Key<T>, inf: int, idx: nat)
    requires Inv(l, info, kv) && Probing(l, kv, k, inf, idx) && idx <= l.slots + 1 && inf > info[idx]
    ensures k !in Entries(kv)
  {
    if idx <= l.slots {
      AbsentEverywhere(l, info, kv, k, idx);
    } else {
      AbsentKey(kv, k);
    }
  }

  lemma AssignConsistent<T, V>(l: Layout, allowed: nat, numElements: nat, maxAllowed: nat, info: seq<Byte>,
                               kv: seq<Node<Key<T>, V>>, p: nat, v: V)
    requires Consistent(l, allowed, numElements, maxAllowed, info, kv)
    requires p < |kv| && kv[p].Node?
    ensures Consistent(l, allowed, numElements, maxAllowed, info, kv[p := Node(kv[p].key, v)])
    ensures Entries(kv[p := Node(kv[p].key, v)]) == Entries(kv)[kv[p].key := v]
  {
    var kv' := kv[p := Node(kv[p].key, v)];
    assert Shaped(l, info, kv') && Placed(l, info, kv') && UniqueKeys(kv');
    SlotEntry(kv, p);
    SlotEntry(kv', p);
    var m, m' := Entries(kv), Entries(kv');
    forall k | k in m'
      ensures k == kv[p].key || (k in m && m'[k] == m[k])
    {
      var i := KeySlot(kv', k);
      SlotEntry(kv, i);
    }
    forall k | k in m
      ensures k in m'
    {
      var i := KeySlot(kv, k);
      SlotEntry(kv', i);
    }
    assert m' == m[kv[p].key := v];
  }

  lemma EraseSize<K, V>(m: map<K, V>, k: K)
    requires k in m
    ensures |m - {k}| == |m| - 1
  {
    assert m == (m - {k})[k := m[k]];
  }

  lemma EraseKeepsRoom(inc: nat, slots: nat, info: seq<Byte>, info': seq<Byte>, p: nat, q: nat)
    requires slots <= |info| && q < slots
    requires InfoErased(inc, info, info', p, q)
    requires !SomeByteFull(inc, slots, info)
    ensures !SomeByteFull(inc, slots, info')
  {
    forall i | 0 <= i < slots
      ensures info'[i] + inc <= MAX_INFO
    {
      assert info[i] + inc <= MAX_INFO;
      if p <= i < q {
        assert info[i + 1] + inc <= MAX_INFO;
      }
    }
  }

  lemma EraseConsistent<T, V>(l: Layout, allowed: nat, numElements: nat, maxAllowed: nat, info: seq<Byte>,
                              kv: seq<Node<Key<T>, V>>, p: nat, q: nat, info': seq<Byte>, kv': seq<Node<Key<T>, V>>)
    requires Consistent(l, allowed, numElements, maxAllowed, info, kv)
    requires DisplacedRun(l, info, kv, p, q)
    requires InfoErased(l.inc, info, info', p, q)
    requires NodesErased(kv, kv', p, q)
    ensures numElements > 0
    ensures Consistent(l, allowed, numElements - 1, maxAllowed, info', kv')
    ensures Entries(kv') == Entries(kv) - {kv[p].key}
  {
    SlotEntry(kv, p);
    EraseSize(Entries(kv), kv[p].key);
    EraseKeepsInv(l, info, kv, info', kv', p, q);
    if maxAllowed != 0 {
      EraseKeepsRoom(l.inc, l.slots, info, info', p, q);
    }
  }

  lemma ClearConsistent<T, V>(l: Layout, allowed: nat, maxAllowed: nat, info: seq<Byte>, kv: seq<Node<Key<T>, V>>)
    requires l.Sane() && l.inc == INITIAL_INFO_INC
    requires l.slots == |kv| == l.buckets + Min(allowed, MAX_INFO)
    requires |info| == |kv| + BYTES_PER_WORD
    requires forall i :: 0 <= i < |kv| ==> kv[i] == Raw
    requires forall i :: 0 <= i < |info| ==> info[i] == if i == |kv| then SENTINEL else 0
    requires maxAllowed in {0, allowed}
    ensures Consistent(l, allowed, 0, maxAllowed, info, kv)
    ensures Entries(kv) == map[]
  {
    EmptyEntries(kv);
  }

  lemma EightIsPow2()
    ensures IsPow2(INITIAL_NUM_ELEMENTS)
  {
    assert Pow2(3) == 8;
  }

  /** The nodes before an occupied slot store strictly less, and no more than all nodes but the last. */
  lemma {:induction false} PrefixEntries<K, V>(kv: seq<Node<K, V>>, i: nat)
    requires UniqueKeys(kv)
    requires i < |kv| && kv[i].Node?
    ensures kv[i].key !in Entries(kv[..i])
    ensures StrictSubMap(Entries(kv[..i]), Entries(kv))
    ensures |Entries(kv[..i])| < |Entries(kv)|
    ensures Entries(kv[..i]).Keys <= AllButLast(kv)
    decreases |kv|
  {
    var n := |kv| - 1;
    var front := kv[..n];
    if i == n {
      AbsentKey(front, kv[n].key);
    } else {
      assert front[..i] == kv[..i];
      PrefixEntries(front, i);
      AbsentKey(front, if kv[n].Node? then kv[n].key else kv[i].key);
    }
  }

  /** The first `i` nodes of `kv` have been moved to `buckets` buckets. */
  ghost predicate Relocating<T, V>(kv: seq<Node<Key<T>, V>>, buckets: nat, i: nat, m: map<Key<T>, V>) {
    buckets > 0 && i <= |kv| && m == Entries(kv[..i]) && !Crowded(buckets, AllButLast(kv[..i]), FULL_DISTANCE)
  }

  lemma {:induction false} RelocatingStarts<T, V>(kv: seq<Node<Key<T>, V>>, buckets: nat)
    requires buckets > 0
    ensures Relocating(kv, buckets, 0, map[])
  {
    NotCrowdedEmpty(buckets, AllButLast(kv[..0]));
  }

  lemma {:induction false} RelocatingStep<T, V>(kv: seq<Node<Key<T>, V>>, buckets: nat, i: nat, m: map<Key<T>, V>)
    requires UniqueKeys(kv) && Relocating(kv, buckets, i, m) && i < |kv|
    ensures kv[i].Raw? ==> Relocating(kv, buckets, i + 1, m)
    ensures kv[i].Node? ==> kv[i].key !in m && |m| < |Entries(kv)|
    ensures kv[i].Node? && !Crowded(buckets, m.Keys, FULL_DISTANCE) ==>
              Relocating(kv, buckets, i + 1, m[kv[i].key := kv[i].value])
    ensures kv[i].Node? && Crowded(buckets, m.Keys, FULL_DISTANCE) ==> Relocated(kv, buckets, false, m)
  {
    assert kv[..i + 1][..i] == kv[..i];
    if kv[i].Node? {
      PrefixEntries(kv, i);
      if Crowded(buckets, m.Keys, FULL_DISTANCE) {
        CrowdedMonotone(buckets, m.Keys, AllButLast(kv), FULL_DISTANCE);
      }
    }
  }

  lemma {:induction false} EmptyEntries<K, V>(kv: seq<Node<K, V>>)
    requires forall i :: 0 <= i < |kv| ==> kv[i].Raw?
    ensures UniqueKeys(kv) && Entries(kv) == map[]
  {
    if kv != [] {
      EmptyEntries(kv[..|kv| - 1]);
    }
  }
}
