/** The chunked transfer coding (section 4.1 of RFC 7230) as functions on bytes: what the server writes, and
    what the reader makes of any input. */
module ChunkedCoding {
  import Words

  type Byte = Words.Byte

  const CR: Byte := 13
  const LF: Byte := 10
  const CRLF: seq<Byte> := [CR, LF]
  const ULONG_MAX: nat := 0xFFFF_FFFF_FFFF_FFFF

  // ----- writing -----

  function HexDigit(d: nat): (b: Byte)
    requires d < 16
  {
    if d < 10 then 48 + d else 87 + d
  }

  /** A number in hexadecimal, without leading zeros. */
  function Hex(n: nat): (s: seq<Byte>)
    ensures |s| >= 1
  {
    if n < 16 then [HexDigit(n)] else Hex(n / 16) + [HexDigit(n % 16)]
  }

  function Chunk(d: seq<Byte>): (s: seq<Byte>) {
    Hex(|d|) + CRLF + d + CRLF
  }

  const DONE_MARKER: seq<Byte> := [48] + CRLF + CRLF

  /** What a content provider does with its sink. */
  datatype SinkOp = Write(data: seq<Byte>) | Done

  function Encoded(op: SinkOp): (s: seq<Byte>) {
    if op.Write? then Chunk(op.data) else DONE_MARKER
  }

  function EncodedAll(ops: seq<SinkOp>): (s: seq<Byte>) {
    if ops == [] then [] else Encoded(ops[0]) + EncodedAll(ops[1..])
  }

  // ----- reading -----

  /** Up to and including the first line feed, or to the end of the input. */
  function Line(input: seq<Byte>): (line: seq<Byte>)
    ensures |line| <= |input| && line == input[..|line|] && (input != [] ==> line != [])
  {
    if input == [] then [] else if input[0] == LF then [LF] else [input[0]] + Line(input[1..])
  }

  predicate IsSpace(b: Byte) {
    b == 32 || 9 <= b <= 13
  }

  function SkipSpace(s: seq<Byte>): (r: seq<Byte>) {
    if s != [] && IsSpace(s[0]) then SkipSpace(s[1..]) else s
  }

  function HexValue(b: Byte): (v: int)
    ensures -1 <= v < 16
  {
    if 48 <= b <= 57 then b - 48
    else if 97 <= b <= 102 then b - 87
    else if 65 <= b <= 70 then b - 55
    else -1
  }

  predicate StartsWithHex(s: seq<Byte>) {
    s != [] && HexValue(s[0]) >= 0
  }

  function Digits(s: seq<Byte>, acc: nat): (n: nat) {
    if StartsWithHex(s) then Digits(s[1..], 16 * acc + HexValue(s[0])) else acc
  }

  /** strtoul in base 16: white space, a sign, a prefix 0x, then digits; saturates, and negates modulo 2^64. */
  function StrToUl(s: seq<Byte>): (n: int)
    ensures -1 <= n <= ULONG_MAX
  {
    var t := SkipSpace(s);
    var negative := t != [] && t[0] == 45;
    var u := if t != [] && (t[0] == 43 || t[0] == 45) then t[1..] else t;
    var w := if |u| >= 2 && u[0] == 48 && (u[1] == 120 || u[1] == 88) && StartsWithHex(u[2..]) then u[2..] else u;
    if !StartsWithHex(w) then -1
    else
      var v := Digits(w, 0);
      if v > ULONG_MAX then ULONG_MAX else if negative && v > 0 then ULONG_MAX + 1 - v else v
  }

  /** Whether reading succeeded, what the receiver got, and what is left of the input after a success. */
  datatype Outcome = Outcome(ok: bool, out: seq<Byte>, rest: seq<Byte>)

  function Prepended(d: seq<Byte>, o: Outcome): (o': Outcome) {
    o.(out := d + o.out)
  }

  /** The reader: lines with sizes, data, and the line ends in between. */
  function Decoded(input: seq<Byte>): (o: Outcome)
    decreases |input|
  {
    var line := Line(input);
    var rest := input[|line|..];
    var n := StrToUl(line);
    if line == [] || n == -1 || n == ULONG_MAX then Outcome(false, [], rest)
    else if n == 0 then
      var last := Line(rest);
      Outcome(last == CRLF, [], rest[|last|..])
    else if n > |rest| then Outcome(false, rest, [])
    else
      var after := rest[n..];
      var end := Line(after);
      if end == [] then Outcome(false, rest[..n], [])
      else if end != CRLF then Outcome(true, rest[..n], after[|end|..])
      else Prepended(rest[..n], Decoded(after[|end|..]))
  }

  predicate WholeLine(s: seq<Byte>) {
    var line := Line(s);
    line != [] && line[|line| - 1] == LF
  }

  /** The reader stops without asking for more than there is. */
  predicate Sealed(input: seq<Byte>)
    decreases |input|
  {
    var line := Line(input);
    var rest := input[|line|..];
    var n := StrToUl(line);
    WholeLine(input) &&
    if n == -1 || n == ULONG_MAX then true
    else if n == 0 then WholeLine(rest)
    else
      n <= |rest| && WholeLine(rest[n..]) &&
      (Line(rest[n..]) == CRLF ==> Sealed(rest[n..][|CRLF|..]))
  }

  // ----- reading back what was written -----

  lemma Regroup<T>(a: seq<T>, b: seq<T>, c: seq<T>)
    ensures a + b + c == a + (b + c)
  {
  }

  lemma {:induction false} HexParses(n: nat, tail: seq<Byte>)
    requires !StartsWithHex(tail)
    ensures StartsWithHex(Hex(n) + tail) && Digits(Hex(n) + tail, 0) == n
  {
    DigitsOfHex(n, tail);
    HexStarts(n);
    assert (Hex(n) + tail)[0] == Hex(n)[0];
  }

  /** Digits are read in the order they were written. */
  lemma {:induction false} DigitsOfHex(n: nat, tail: seq<Byte>)
    ensures Digits(Hex(n) + tail, 0) == Digits(tail, n)
  {
    if n < 16 {
      var s := Hex(n) + tail;
      assert s[0] == HexDigit(n) && s[1..] == tail;
      assert HexValue(s[0]) == n;
    } else {
      var q, d := n / 16, HexDigit(n % 16);
      var t := [d] + tail;
      assert Hex(n) + tail == Hex(q) + t;
      DigitsOfHex(q, t);
      assert t[0] == d && t[1..] == tail && HexValue(d) == n % 16;
    }
  }

  /** Hexadecimal numbers start with a digit, never with space, a sign or a prefix. */
  lemma {:induction false} HexStarts(n: nat)
    ensures HexValue(Hex(n)[0]) >= 0 && forall i :: 0 <= i < |Hex(n)| ==> HexValue(Hex(n)[i]) >= 0 && Hex(n)[i] != LF
  {
    if n >= 16 {
      HexStarts(n / 16);
    }
  }

  lemma {:induction false} LineOf(a: seq<Byte>, tail: seq<Byte>)
    requires forall i :: 0 <= i < |a| ==> a[i] != LF
    ensures Line(a + [LF] + tail) == a + [LF]
  {
    var s := a + [LF] + tail;
    if a != [] {
      assert s[1..] == a[1..] + [LF] + tail;
      LineOf(a[1..], tail);
    }
  }

  /** A chunk size and its line end. */
  lemma {:induction false} SizeLine(n: nat, tail: seq<Byte>)
    ensures Line(Hex(n) + CRLF + tail) == Hex(n) + CRLF
    ensures StrToUl(Hex(n) + CRLF) == if n > ULONG_MAX then ULONG_MAX else n
  {
    HexStarts(n);
    var a := Hex(n) + [CR];
    assert Hex(n) + CRLF + tail == a + [LF] + tail && a + [LF] == Hex(n) + CRLF;
    LineOf(a, tail);
    var s := Hex(n) + CRLF;
    HexParses(n, CRLF);
    assert s[0] == Hex(n)[0];
    assert |Hex(n)| == 1 ==> s[1] == CR;
    assert |Hex(n)| > 1 ==> s[1] == Hex(n)[1];
  }

  lemma {:induction false} CrlfLine(tail: seq<Byte>)
    ensures Line(CRLF + tail) == CRLF
  {
    assert CRLF + tail == [CR] + [LF] + tail;
    LineOf([CR], tail);
  }

  /** After a size line, the data and the end of its line. */
  lemma {:induction false} DataRead(head: seq<Byte>, d: seq<Byte>, tail: seq<Byte>)
    requires Line(head + (d + CRLF + tail)) == head && head != [] && head[|head| - 1] == LF
    requires StrToUl(head) == |d| && 0 < |d| < ULONG_MAX
    ensures Decoded(head + (d + CRLF + tail)) == Prepended(d, Decoded(tail))
    ensures Sealed(tail) ==> Sealed(head + (d + CRLF + tail))
  {
    var rest := d + CRLF + tail;
    assert (head + rest)[|head|..] == rest;
    assert rest[..|d|] == d && rest[|d|..] == CRLF + tail;
    CrlfLine(tail);
    assert (CRLF + tail)[2..] == tail;
  }

  lemma {:induction false} ChunkDecodes(d: seq<Byte>, tail: seq<Byte>)
    requires 0 < |d| < ULONG_MAX
    ensures Decoded(Chunk(d) + tail) == Prepended(d, Decoded(tail))
    ensures Sealed(tail) ==> Sealed(Chunk(d) + tail)
  {
    var head, rest := Hex(|d|) + CRLF, d + CRLF + tail;
    assert Chunk(d) + tail == head + rest;
    SizeLine(|d|, rest);
    DataRead(head, d, tail);
  }

  lemma {:induction false} EmptyChunkDecodes(tail: seq<Byte>)
    ensures Chunk([]) == DONE_MARKER
    ensures Decoded(DONE_MARKER + tail) == Outcome(true, [], tail)
    ensures Sealed(DONE_MARKER + tail)
  {
    assert Hex(0) == [48];
    assert DONE_MARKER == Hex(0) + CRLF + CRLF;
    var input := DONE_MARKER + tail;
    assert input == Hex(0) + CRLF + (CRLF + tail);
    SizeLine(0, CRLF + tail);
    assert input[3..] == CRLF + tail;
    CrlfLine(tail);
    assert (CRLF + tail)[2..] == tail;
  }

  /** The data a reader gets: the writes before the first empty one or the end marker. */
  function Content(ops: seq<SinkOp>): (s: seq<Byte>) {
    if ops == [] || ops[0].Done? || ops[0].data == [] then [] else ops[0].data + Content(ops[1..])
  }

  predicate Terminated(ops: seq<SinkOp>) {
    ops != [] && (ops[0].Done? || ops[0].data == [] || Terminated(ops[1..]))
  }

  /** Whatever the provider writes, the reader returns the data before the first empty write or end marker,
      leaves what follows that unread, and does not look beyond it. */
  lemma {:induction false} RoundTrip(ops: seq<SinkOp>, tail: seq<Byte>)
    requires Terminated(ops) && forall i :: 0 <= i < |ops| ==> ops[i].Write? ==> |ops[i].data| < ULONG_MAX
    ensures (var o := Decoded(EncodedAll(ops) + tail); o.ok && o.out == Content(ops))
    ensures Sealed(EncodedAll(ops) + tail)
  {
    var rest := EncodedAll(ops[1..]) + tail;
    assert EncodedAll(ops) + tail == Encoded(ops[0]) + rest;
    EmptyChunkDecodes(rest);
    if ops[0].Write? && ops[0].data != [] {
      ChunkDecodes(ops[0].data, rest);
      assert forall i :: 0 <= i < |ops[1..]| ==> ops[1..][i] == ops[i + 1];
      RoundTrip(ops[1..], tail);
    }
  }

  function Joined(writes: seq<seq<Byte>>): (s: seq<Byte>) {
    if writes == [] then [] else writes[0] + Joined(writes[1..])
  }

  function Writes(writes: seq<seq<Byte>>): (ops: seq<SinkOp>) {
    if writes == [] then [] else [Write(writes[0])] + Writes(writes[1..])
  }

  /** All data comes back, in order, exactly when no write before the last data is empty. */
  lemma {:induction false} AllWritesDecode(writes: seq<seq<Byte>>, tail: seq<Byte>)
    requires forall i :: 0 <= i < |writes| ==> |writes[i]| < ULONG_MAX
    ensures (var o := Decoded(EncodedAll(Writes(writes) + [Done]) + tail);
             && o.ok
             && (o.out == Joined(writes) <==> NoGap(writes))
             && (NoEmpty(writes) ==> o.rest == tail))
  {
    TerminatedWrites(writes);
    RoundTrip(Writes(writes) + [Done], tail);
    ContentOfWrites(writes);
    if NoEmpty(writes) {
      RestOfWrites(writes, tail);
    }
  }

  predicate NoEmpty(writes: seq<seq<Byte>>) {
    writes == [] || (writes[0] != [] && NoEmpty(writes[1..]))
  }

  /** After an empty write there are only empty ones. */
  predicate NoGap(writes: seq<seq<Byte>>) {
    writes == [] || if writes[0] == [] then Joined(writes) == [] else NoGap(writes[1..])
  }

  lemma {:induction false} TerminatedWrites(writes: seq<seq<Byte>>)
    requires forall i :: 0 <= i < |writes| ==> |writes[i]| < ULONG_MAX
    ensures (var ops := Writes(writes) + [Done];
             Terminated(ops) && forall i :: 0 <= i < |ops| ==> ops[i].Write? ==> |ops[i].data| < ULONG_MAX)
  {
    var ops := Writes(writes) + [Done];
    if writes != [] {
      assert ops[0] == Write(writes[0]) && ops[1..] == Writes(writes[1..]) + [Done];
      TerminatedWrites(writes[1..]);
      assert forall i :: 0 < i < |ops| ==> ops[i] == ops[1..][i - 1];
    }
  }

  lemma {:induction false} ContentOfWrites(writes: seq<seq<Byte>>)
    ensures (Content(Writes(writes) + [Done]) == Joined(writes)) <==> NoGap(writes)
  {
    var ops := Writes(writes) + [Done];
    if writes != [] {
      assert ops[0] == Write(writes[0]) && ops[1..] == Writes(writes[1..]) + [Done];
      ContentOfWrites(writes[1..]);
      var w, content, rest := writes[0], Content(ops[1..]), Joined(writes[1..]);
      if w != [] && w + content == w + rest {
        assert content == (w + content)[|w|..] && rest == (w + rest)[|w|..];
      }
    }
  }

  lemma {:induction false} RestOfWrites(writes: seq<seq<Byte>>, tail: seq<Byte>)
    requires NoEmpty(writes) && forall i :: 0 <= i < |writes| ==> |writes[i]| < ULONG_MAX
    ensures Decoded(EncodedAll(Writes(writes) + [Done]) + tail).rest == tail
  {
    var ops := Writes(writes) + [Done];
    if writes == [] {
      assert ops[1..] == [];
      assert EncodedAll(ops) + tail == DONE_MARKER + tail;
      EmptyChunkDecodes(tail);
    } else {
      assert ops[0] == Write(writes[0]) && ops[1..] == Writes(writes[1..]) + [Done];
      var rest := EncodedAll(ops[1..]) + tail;
      assert EncodedAll(ops) + tail == Chunk(writes[0]) + rest;
      ChunkDecodes(writes[0], rest);
      RestOfWrites(writes[1..], tail);
    }
  }
}
