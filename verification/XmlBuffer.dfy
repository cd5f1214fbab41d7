/** The loops over character buffers: decoding in place, and writing text in runs between entities. */
module XmlBuffer {
  import opened XmlText

  const INT_MAX: nat := 0x7FFF_FFFF

  // ----- decoding in place -----

  /** The part of the buffer that has not been written is as it was. */
  ghost predicate Unwritten(buf: seq<Byte>, s: seq<Byte>, start: nat, q: nat, end: nat) {
    start <= q <= end <= |buf| && |s| == end - start && buf[q..end] == s[q - start..]
  }

  /** Decodes the text between `start` and `end` where it stands; the write position never passes the read
      position. */
  method GetStr(buf: array<Byte>, start: nat, end: nat, entities: bool) returns (q: nat)
    requires start <= end < buf.Length
    modifies buf
    ensures start <= q <= end && buf[q] == 0
    ensures buf[start..q] == Taken(old(buf[start..end]), entities)
    ensures buf[..start] == old(buf[..start]) && buf[end + 1..] == old(buf[end + 1..])
  {
    ghost var b, s := buf[..], buf[start..end];
    buf[end] := 0;
    var p := start;
    q := start;
    DecodeStart(b, buf[..], s, start, end);
    ghost var i, out := 0, [];
    HalfwayStart(s, entities);
    while p < end
      invariant Decoding(b, buf[..], s, start, p, q, end)
      invariant i == p - start && out == buf[..][start..q] && Halfway(s, i, out, entities)
    {
      ghost var b1, p1, q1 := buf[..], p, q;
      p, q, i, out := DecodeNext(buf, start, p, q, end, entities, s, i, out);
      DecodeOn(b, b1, buf[..], s, start, p1, q1, p, q, end);
    }
    HalfwayEnd(s, out, entities);
    buf[q] := 0;
  }

  /** What has been written, and what the text from position `i` on will add. */
  ghost predicate Halfway(s: seq<Byte>, i: nat, out: seq<Byte>, entities: bool) {
    |out| <= i <= |s| && Overlaid(s, Pieces(s[i..], entities), out) == Taken(s, entities)
  }

  lemma {:induction false} HalfwayStart(s: seq<Byte>, entities: bool)
    ensures Halfway(s, 0, [], entities)
  {
    assert s[0..] == s;
  }

  /** What one step writes. */
  ghost predicate Writes(s: seq<Byte>, i: nat, n: nat, u: Unit, bytes: seq<Byte>, entities: bool)
    requires n <= i < |s|
  {
    u == Step(s[i..], entities) && bytes == if Unknown(s[i..], entities) then [s[n]] else u.bytes
  }

  lemma {:induction false} HalfwayOn(s: seq<Byte>, i: nat, out: seq<Byte>, u: Unit, bytes: seq<Byte>, entities: bool)
    requires Halfway(s, i, out, entities) && i < |s| && Writes(s, i, |out|, u, bytes, entities)
    ensures Halfway(s, i + u.read, out + bytes, entities)
  {
    assert s[i..][u.read..] == s[i + u.read..];
    assert Pieces(s[i..], entities)[1..] == Pieces(s[i + u.read..], entities);
  }

  lemma {:induction false} HalfwayEnd(s: seq<Byte>, out: seq<Byte>, entities: bool)
    requires Halfway(s, |s|, out, entities)
    ensures out == Taken(s, entities)
  {
    assert s[|s|..] == [];
  }

  /** The loop of GetStr: what is left to read, and what is out of its reach. */
  ghost predicate Decoding(b: seq<Byte>, b': seq<Byte>, s: seq<Byte>, start: nat, p: nat, q: nat, end: nat) {
    && start <= q <= p <= end < |b| == |b'| && Unwritten(b', s, start, q, end)
    && b'[..start] == b[..start] && b'[end + 1..] == b[end + 1..]
  }

  lemma {:induction false} DecodeStart(b: seq<Byte>, b': seq<Byte>, s: seq<Byte>, start: nat, end: nat)
    requires start <= end < |b| && s == b[start..end] && b' == b[end := 0]
    ensures Decoding(b, b', s, start, start, start, end)
  {
    assert s[0..] == s && b'[start..end] == s;
  }

  lemma {:induction false} DecodeOn(b: seq<Byte>, b1: seq<Byte>, b2: seq<Byte>, s: seq<Byte>, start: nat, p1: nat,
                                    q1: nat, p2: nat, q2: nat, end: nat)
    requires Decoding(b, b1, s, start, p1, q1, end) && p1 < end && Moved(b1, b2, s, start, q1, p2, q2, end)
    ensures Decoding(b, b2, s, start, p2, q2, end)
  {
    assert b2[end + 1..] == b2[end..][1..] && b1[end + 1..] == b1[end..][1..];
  }

  /** What one step does to the buffer. */
  ghost predicate Moved(b: seq<Byte>, b': seq<Byte>, s: seq<Byte>, start: nat, q: nat, p': nat, q': nat, end: nat) {
    && start <= q <= q' <= p' <= end < |b| == |b'| && Unwritten(b', s, start, q', end)
    && b'[..start] == b[..start] && b'[end..] == b[end..]
  }

  /** One step of the loop, and what has been written so far. */
  method DecodeNext(buf: array<Byte>, start: nat, p: nat, q: nat, end: nat, entities: bool, ghost s: seq<Byte>,
                    ghost i: nat, ghost out: seq<Byte>)
    returns (p': nat, q': nat, ghost i': nat, ghost out': seq<Byte>)
    requires start <= q <= p < end < buf.Length && Unwritten(buf[..], s, start, q, end)
    requires i == p - start && out == buf[..][start..q] && Halfway(s, i, out, entities)
    modifies buf
    ensures p < p' && Moved(old(buf[..]), buf[..], s, start, q, p', q', end)
    ensures i' == p' - start && out' == buf[..][start..q'] && Halfway(s, i', out', entities)
  {
    ghost var u, bytes;
    p', q', u, bytes := DecodeOne(buf, start, p, q, end, entities, s, i, |out|);
    HalfwayOn(s, i, out, u, bytes, entities);
    i', out' := i + u.read, out + bytes;
  }

  /** One step of the loop. */
  method DecodeOne(buf: array<Byte>, start: nat, p: nat, q: nat, end: nat, entities: bool, ghost s: seq<Byte>,
                   ghost i: nat, ghost n: nat)
    returns (p': nat, q': nat, ghost u: Unit, ghost bytes: seq<Byte>)
    requires start <= q <= p < end < buf.Length && Unwritten(buf[..], s, start, q, end)
    requires i == p - start && n == q - start
    modifies buf
    ensures Writes(s, i, n, u, bytes, entities) && p' == p + u.read > p
    ensures Moved(old(buf[..]), buf[..], s, start, q, p', q', end)
    ensures buf[..][start..q'] == old(buf[..][start..q]) + bytes
  {
    ghost var b := buf[..];
    var t := buf[p..end];
    StillThere(b, s, start, p, q, end);
    assert t == s[i..];
    var step := Step(t, entities);
    u := step;
    if Unknown(t, entities) {
      p', q', bytes := p + 1, q + 1, [s[n]];
      NextByte(b, s, start, q, end);
    } else {
      Put(buf, q, step.bytes);
      p', q', bytes := p + step.read, q + |step.bytes|, step.bytes;
      StepPut(b, buf[..], s, start, p', q, end, step.bytes);
    }
  }

  lemma {:induction false} StillThere(b: seq<Byte>, s: seq<Byte>, start: nat, p: nat, q: nat, end: nat)
    requires start <= q <= p <= end < |b| && Unwritten(b, s, start, q, end)
    ensures b[p..end] == s[p - start..]
  {
    assert b[p..end] == b[q..end][p - q..];
  }

  lemma {:induction false} NextByte(b: seq<Byte>, s: seq<Byte>, start: nat, q: nat, end: nat)
    requires start <= q < end < |b| && Unwritten(b, s, start, q, end)
    ensures b[start..q + 1] == b[start..q] + [s[q - start]] && Unwritten(b, s, start, q + 1, end)
  {
    assert b[q..end][0] == s[q - start..][0] && b[q + 1..end] == b[q..end][1..];
  }

  /** The buffer with `bytes` written over it from `q` on. */
  ghost predicate Overwritten(b: seq<Byte>, b': seq<Byte>, q: nat, bytes: seq<Byte>) {
    && q + |bytes| <= |b| == |b'|
    && (forall i :: 0 <= i < |b| && !(q <= i < q + |bytes|) ==> b'[i] == b[i])
    && b'[q..q + |bytes|] == bytes
  }

  lemma {:induction false} StepPut(b: seq<Byte>, b': seq<Byte>, s: seq<Byte>, start: nat, p': nat, q: nat, end: nat,
                                   bytes: seq<Byte>)
    requires start <= q && q + |bytes| <= p' <= end < |b| && Unwritten(b, s, start, q, end)
    requires Overwritten(b, b', q, bytes)
    ensures Moved(b, b', s, start, q, p', q + |bytes|, end)
    ensures b'[start..q + |bytes|] == b[start..q] + bytes
  {
    var q' := q + |bytes|;
    SamePart(b, b', q', end);
    assert b[q'..end] == b[q..end][|bytes|..];
    SamePart(b, b', start, q);
    assert b'[start..q'] == b'[start..q] + b'[q..q'];
    SamePart(b, b', 0, start);
    SamePart(b, b', end, |b|);
  }

  lemma {:induction false} SamePart(b: seq<Byte>, b': seq<Byte>, lo: nat, hi: nat)
    requires lo <= hi <= |b| == |b'| && forall i :: lo <= i < hi ==> b'[i] == b[i]
    ensures b'[lo..hi] == b[lo..hi]
  {
  }

  method Put(buf: array<Byte>, q: nat, bytes: seq<Byte>)
    requires q + |bytes| <= buf.Length
    modifies buf
    ensures Overwritten(old(buf[..]), buf[..], q, bytes)
  {
    var i := 0;
    while i < |bytes|
      invariant 0 <= i <= |bytes|
      invariant forall k :: 0 <= k < buf.Length && !(q <= k < q + i) ==> buf[k] == old(buf[k])
      invariant buf[q..q + i] == bytes[..i]
    {
      buf[q + i] := bytes[i];
      i := i + 1;
    }
  }

  // ----- writing in runs -----

  ghost predicate Ordinary(s: seq<Byte>, from: nat, to: nat, restricted: bool)
    requires from <= to <= |s|
  {
    forall i :: from <= i < to ==> !Special(s[i], restricted)
  }

  lemma {:induction false} EscapeConcat(a: seq<Byte>, b: seq<Byte>, restricted: bool)
    ensures Escape(a + b, restricted) == Escape(a, restricted) + Escape(b, restricted)
  {
    if a == [] {
      assert a + b == b;
    } else {
      assert (a + b)[1..] == a[1..] + b;
      EscapeConcat(a[1..], b, restricted);
    }
  }

  /** A run without special characters is written as it is. */
  lemma {:induction false} EscapeRun(s: seq<Byte>, restricted: bool)
    requires Ordinary(s, 0, |s|, restricted)
    ensures Escape(s, restricted) == s
  {
    if s != [] {
      EscapeRun(s[1..], restricted);
    }
  }

  lemma {:induction false} RunWritten(s: seq<Byte>, p: nat, q: nat, restricted: bool)
    requires p <= q <= |s| && Ordinary(s, p, q, restricted)
    ensures Escape(s[..q], restricted) == Escape(s[..p], restricted) + s[p..q]
  {
    assert s[..q] == s[..p] + s[p..q];
    EscapeConcat(s[..p], s[p..q], restricted);
    EscapeRun(s[p..q], restricted);
  }

  lemma {:induction false} EntityWritten(s: seq<Byte>, p: nat, q: nat, restricted: bool)
    requires p <= q < |s| && Ordinary(s, p, q, restricted)
    ensures Escape(s[..q + 1], restricted) == Escape(s[..p], restricted) + s[p..q] + Escaped(s[q], restricted)
  {
    RunWritten(s, p, q, restricted);
    assert s[..q + 1] == s[..q] + [s[q]];
    EscapeConcat(s[..q], [s[q]], restricted);
    assert Escape([s[q]], restricted) == Escaped(s[q], restricted) + Escape([], restricted);
  }

  /** Where the last run starts. */
  function LastRun(s: seq<Byte>, restricted: bool): (i: nat)
    ensures i <= |s| && Ordinary(s, i, |s|, restricted)
  {
    if s == [] || Special(s[|s| - 1], restricted) then |s| else LastRun(s[..|s| - 1], restricted)
  }

  /** What is printed: everything, except that a last run of more than INT_MAX characters is cut off. */
  function Printed(s: seq<Byte>, restricted: bool): (out: seq<Byte>)
  {
    var run := LastRun(s, restricted);
    Escape(s[..if |s| - run <= INT_MAX then |s| else run + INT_MAX], restricted)
  }

  lemma {:induction false} LastRunIs(s: seq<Byte>, p: nat, restricted: bool)
    requires p <= |s| && Ordinary(s, p, |s|, restricted) && (p == 0 || Special(s[p - 1], restricted))
    ensures LastRun(s, restricted) == p
  {
    if p < |s| {
      LastRunIs(s[..|s| - 1], p, restricted);
    }
  }

  method Flush(out: seq<Byte>, s: seq<Byte>, start: nat, q: nat) returns (out': seq<Byte>)
    requires start <= q <= |s|
    ensures out' == out + s[start..q]
  {
    var p := start;
    out' := out;
    while p < q
      invariant start <= p <= q && out' == out + s[start..p]
    {
      var toPrint := if INT_MAX < q - p then INT_MAX else q - p;
      assert s[start..p] + s[p..p + toPrint] == s[start..p + toPrint];
      out' := out' + s[p..p + toPrint];
      p := p + toPrint;
    }
  }

  /** Prints a string with its special characters replaced. */
  method PrintString(s: seq<Byte>, restricted: bool) returns (out: seq<Byte>)
    ensures out == Printed(s, restricted)
  {
    var p, q := 0, 0;
    out := [];
    while q < |s|
      invariant Printing(s, p, q, out, restricted)
    {
      PrintingStep(s, p, q, out, restricted);
      if Special(s[q], restricted) {
        out := Flush(out, s, p, q);
        out := out + ([AMP] + Pattern(s[q]) + [SEMICOLON]);
        p := q + 1;
      }
      q := q + 1;
    }
    PrintedIs(s, p, restricted);
    if p < q {
      var toPrint := if INT_MAX < q - p then INT_MAX else q - p;
      out := out + s[p..p + toPrint];
    }
  }

  /** All before `p` is printed, and there is nothing special from there to `q`. */
  ghost predicate Printing(s: seq<Byte>, p: nat, q: nat, out: seq<Byte>, restricted: bool) {
    && p <= q <= |s| && out == Escape(s[..p], restricted) && Ordinary(s, p, q, restricted)
    && (p == 0 || Special(s[p - 1], restricted))
  }

  lemma {:induction false} PrintingStep(s: seq<Byte>, p: nat, q: nat, out: seq<Byte>, restricted: bool)
    requires Printing(s, p, q, out, restricted) && q < |s|
    ensures if Special(s[q], restricted)
            then Printing(s, q + 1, q + 1, out + s[p..q] + ([AMP] + Pattern(s[q]) + [SEMICOLON]), restricted)
            else Printing(s, p, q + 1, out, restricted)
  {
    EntityWritten(s, p, q, restricted);
  }

  lemma {:induction false} PrintedIs(s: seq<Byte>, p: nat, restricted: bool)
    requires p <= |s| && Ordinary(s, p, |s|, restricted) && (p == 0 || Special(s[p - 1], restricted))
    ensures Printed(s, restricted) == Escape(s[..p], restricted) + s[p..if |s| - p <= INT_MAX then |s| else p + INT_MAX]
    ensures p == |s| ==> Printed(s, restricted) == Escape(s[..p], restricted)
  {
    LastRunIs(s, p, restricted);
    RunWritten(s, p, if |s| - p <= INT_MAX then |s| else p + INT_MAX, restricted);
  }

  /** A printed string reads back as it was exactly when its last run is short enough. */
  lemma {:induction false} PrintedReadsBack(s: seq<Byte>, restricted: bool)
    requires Plain(s)
    ensures Taken(Printed(s, restricted), true) == s <==> |s| - LastRun(s, restricted) <= INT_MAX
  {
    var run := LastRun(s, restricted);
    var n := if |s| - run <= INT_MAX then |s| else run + INT_MAX;
    var cut := s[..n];
    assert Plain(cut) && |cut| == n && (n == |s| ==> cut == s);
    EscapeTaken(cut, restricted);
    assert Printed(s, restricted) == Escape(cut, restricted);
  }
}
