/** The chunk sizes that section 4.1 of RFC 7230 allows: hexadecimal digits in any mix of cases, with leading zeros
    or without, and an optional chunk extension.  Whatever the spelling, the reader gets the data. */
module ChunkedSizes {
  import opened ChunkedCoding

  const LOWER: string := "0123456789abcdef"
  const UPPER: string := "0123456789ABCDEF"

  // ----- numbers by position -----

  ghost predicate IsDigit(b: Byte, d: nat) {
    d < 16 && (b == LOWER[d] as int || b == UPPER[d] as int)
  }

  ghost predicate Spells(s: seq<Byte>, ds: seq<nat>) {
    |s| == |ds| && forall i :: 0 <= i < |s| ==> IsDigit(s[i], ds[i])
  }

  function Power(k: nat): (p: nat) {
    if k == 0 then 1 else 16 * Power(k - 1)
  }

  /** The digit at the front counts most. */
  function Value(ds: seq<nat>): (v: nat) {
    if ds == [] then 0 else ds[0] * Power(|ds| - 1) + Value(ds[1..])
  }

  lemma {:induction false} LetterTable(b: Byte, d: nat)
    requires 10 <= d < 16
    ensures IsDigit(b, d) <==> b == 87 + d || b == 55 + d
  {
    assert d == 10 || d == 11 || d == 12 || d == 13 || d == 14 || d == 15;
  }

  lemma {:induction false} FigureTable(b: Byte, d: nat)
    requires d < 10
    ensures IsDigit(b, d) <==> b == 48 + d
  {
    assert d == 0 || d == 1 || d == 2 || d == 3 || d == 4 || d == 5 || d == 6 || d == 7 || d == 8 || d == 9;
  }

  /** The reader takes exactly the sixteen digits in both cases, each for its value. */
  lemma {:induction false} DigitRead(b: Byte, d: nat)
    ensures HexValue(b) == d <==> IsDigit(b, d)
  {
    if d < 10 {
      FigureTable(b, d);
    } else if d < 16 {
      LetterTable(b, d);
    }
  }

  lemma {:induction false} DigitsRead(s: seq<Byte>, ds: seq<nat>, tail: seq<Byte>, acc: nat)
    requires Spells(s, ds) && !StartsWithHex(tail)
    ensures Digits(s + tail, acc) == acc * Power(|ds|) + Value(ds)
    decreases |s|
  {
    if s == [] {
      assert s + tail == tail;
    } else {
      var t, next := s + tail, 16 * acc + ds[0];
      assert t[0] == s[0] && t[1..] == s[1..] + tail;
      assert IsDigit(s[0], ds[0]);
      DigitRead(s[0], ds[0]);
      DigitsRead(s[1..], ds[1..], tail, next);
      Distribute(acc, ds[0], Power(|ds| - 1));
    }
  }

  lemma {:induction false} AllDigitsRead(s: seq<Byte>, ds: seq<nat>, tail: seq<Byte>)
    requires Spells(s, ds) && !StartsWithHex(tail)
    ensures Digits(s + tail, 0) == Value(ds)
  {
    DigitsRead(s, ds, tail, 0);
    assert 0 * Power(|ds|) == 0;
  }

  lemma Distribute(acc: nat, d: nat, p: nat)
    ensures (16 * acc + d) * p == acc * (16 * p) + d * p
  {
  }

  // ----- strtoul -----

  predicate AllSpace(s: seq<Byte>) {
    forall i :: 0 <= i < |s| ==> IsSpace(s[i])
  }

  lemma {:induction false} SkipAll(s: seq<Byte>, tail: seq<Byte>)
    requires AllSpace(s) && (tail == [] || !IsSpace(tail[0]))
    ensures SkipSpace(s + tail) == tail
    decreases |s|
  {
    if s == [] {
      assert s + tail == tail;
    } else {
      assert (s + tail)[1..] == s[1..] + tail;
      SkipAll(s[1..], tail);
    }
  }

  datatype Sign = NoSign | Positive | Negative

  function SignText(sign: Sign): (s: seq<Byte>) {
    match sign
    case NoSign => []
    case Positive => ['+' as int]
    case Negative => ['-' as int]
  }

  /** An optional prefix 0x or 0X. */
  predicate IsPrefix(s: seq<Byte>) {
    s == [] || s == ['0' as int, 'x' as int] || s == ['0' as int, 'X' as int]
  }

  /** The tail does not go on with a digit, nor turn a single zero into a prefix. */
  ghost predicate Ends(prefix: seq<Byte>, s: seq<Byte>, tail: seq<Byte>) {
    && !StartsWithHex(tail)
    && (prefix == [] && |s| == 1 && tail != [] && (tail[0] == 'x' as int || tail[0] == 'X' as int) ==>
          !StartsWithHex(tail[1..]))
  }

  lemma {:induction false} SpelledStart(s: seq<Byte>, ds: seq<nat>, i: nat)
    requires Spells(s, ds) && i < |s|
    ensures HexValue(s[i]) >= 0 && !IsSpace(s[i]) && s[i] != 43 && s[i] != 45 && s[i] != 120 && s[i] != 88
  {
    assert IsDigit(s[i], ds[i]);
    DigitRead(s[i], ds[i]);
  }

  /** White space, a sign, a prefix and digits: the number, saturated; a negative one modulo 2^64. */
  lemma {:induction false} NumberRead(space: seq<Byte>, sign: Sign, prefix: seq<Byte>, s: seq<Byte>, ds: seq<nat>,
                                      tail: seq<Byte>)
    requires AllSpace(space) && IsPrefix(prefix) && Spells(s, ds) && s != [] && Ends(prefix, s, tail)
    ensures StrToUl(space + (SignText(sign) + (prefix + (s + tail))))
         == if Value(ds) > ULONG_MAX then ULONG_MAX
            else if sign.Negative? && Value(ds) > 0 then ULONG_MAX + 1 - Value(ds) else Value(ds)
  {
    var u := prefix + (s + tail);
    PrefixSkipped(prefix, s, ds, tail);
    SpelledStart(s, ds, 0);
    SignSkipped(space, sign, u);
    AllDigitsRead(s, ds, tail);
    NumberOf(space + (SignText(sign) + u), SignText(sign) + u, u, s + tail, sign);
  }

  lemma {:induction false} SignSkipped(space: seq<Byte>, sign: Sign, u: seq<Byte>)
    requires AllSpace(space) && u != [] && !IsSpace(u[0]) && u[0] != 43 && u[0] != 45
    ensures (var t := SignText(sign) + u;
             && SkipSpace(space + t) == t && (t[0] == 45 <==> sign.Negative?)
             && (if t[0] == 43 || t[0] == 45 then t[1..] else t) == u)
  {
    var t := SignText(sign) + u;
    assert t[0] == if sign.NoSign? then u[0] else SignText(sign)[0];
    assert !sign.NoSign? ==> t[1..] == u;
    assert sign.NoSign? ==> t == u;
    SkipAll(space, t);
  }

  lemma {:induction false} NumberOf(text: seq<Byte>, t: seq<Byte>, u: seq<Byte>, w: seq<Byte>, sign: Sign)
    requires t == SkipSpace(text) && t != [] && (t[0] == 45 <==> sign.Negative?) && StartsWithHex(w)
    requires u == if t[0] == 43 || t[0] == 45 then t[1..] else t
    requires w == if |u| >= 2 && u[0] == 48 && (u[1] == 120 || u[1] == 88) && StartsWithHex(u[2..]) then u[2..] else u
    ensures (var v := Digits(w, 0);
             StrToUl(text) == if v > ULONG_MAX then ULONG_MAX
                              else if sign.Negative? && v > 0 then ULONG_MAX + 1 - v else v)
  {
  }

  lemma {:induction false} PrefixSkipped(prefix: seq<Byte>, s: seq<Byte>, ds: seq<nat>, tail: seq<Byte>)
    requires IsPrefix(prefix) && Spells(s, ds) && s != [] && Ends(prefix, s, tail)
    ensures (var u := prefix + (s + tail);
             && StartsWithHex(s + tail) && !IsSpace(u[0]) && u[0] != 43 && u[0] != 45
             && (if |u| >= 2 && u[0] == 48 && (u[1] == 120 || u[1] == 88) && StartsWithHex(u[2..]) then u[2..] else u)
                == s + tail)
  {
    var w := s + tail;
    var u := prefix + w;
    SpelledStart(s, ds, 0);
    assert w[0] == s[0];
    if prefix == [] {
      assert u == w;
      if |s| > 1 {
        SpelledStart(s, ds, 1);
        assert w[1] == s[1];
      } else if tail != [] {
        assert w[1] == tail[0] && w[2..] == tail[1..];
      }
    } else {
      assert u[0] == 48 && u[1] == prefix[1] && u[2..] == w;
    }
  }

  /** Without a digit there is no number. */
  lemma {:induction false} NoNumber(space: seq<Byte>, sign: Sign, tail: seq<Byte>)
    requires AllSpace(space) && !StartsWithHex(tail)
    requires sign.NoSign? ==> tail == [] || (!IsSpace(tail[0]) && tail[0] != 43 && tail[0] != 45)
    ensures StrToUl(space + (SignText(sign) + tail)) == -1
  {
    var t := SignText(sign) + tail;
    assert sign.NoSign? ==> t == tail;
    assert !sign.NoSign? ==> t[0] == SignText(sign)[0] && t[1..] == tail;
    SkipAll(space, t);
  }

  // ----- messages -----

  /** A chunk as it may be sent: the digits of its size, an extension, and its data. */
  datatype Piece = Piece(size: seq<Byte>, extension: seq<Byte>, data: seq<Byte>)

  /** Nothing, or anything after a semicolon that stays on the line. */
  ghost predicate IsExtension(e: seq<Byte>) {
    (e == [] || e[0] == ';' as int) && forall i :: 0 <= i < |e| ==> e[i] != LF
  }

  /** The digits stand for `n`. */
  ghost predicate SizeIs(s: seq<Byte>, n: nat) {
    s != [] && exists ds :: Spells(s, ds) && Value(ds) == n
  }

  ghost predicate GoodPiece(p: Piece) {
    0 < |p.data| < ULONG_MAX && SizeIs(p.size, |p.data|) && IsExtension(p.extension)
  }

  function SizeText(size: seq<Byte>, extension: seq<Byte>): (s: seq<Byte>) {
    size + extension + CRLF
  }

  function PieceText(p: Piece): (s: seq<Byte>) {
    SizeText(p.size, p.extension) + p.data + CRLF
  }

  function MessageText(ps: seq<Piece>): (s: seq<Byte>) {
    if ps == [] then [] else PieceText(ps[0]) + MessageText(ps[1..])
  }

  function MessageData(ps: seq<Piece>): (s: seq<Byte>) {
    if ps == [] then [] else ps[0].data + MessageData(ps[1..])
  }

  /** A size line reads as its number, whatever its spelling and extension. */
  lemma {:induction false} SizeLineRead(s: seq<Byte>, n: nat, e: seq<Byte>, tail: seq<Byte>)
    requires SizeIs(s, n) && IsExtension(e)
    ensures Line(SizeText(s, e) + tail) == SizeText(s, e) && (SizeText(s, e) + tail)[|SizeText(s, e)|..] == tail
    ensures StrToUl(SizeText(s, e)) == if n > ULONG_MAX then ULONG_MAX else n
  {
    var ds :| Spells(s, ds) && Value(ds) == n;
    var a := s + e + [CR];
    forall i | 0 <= i < |s|
      ensures s[i] != LF
    {
      SpelledStart(s, ds, i);
    }
    assert SizeText(s, e) == a + [LF] && SizeText(s, e) + tail == a + [LF] + tail;
    LineOf(a, tail);
    var rest := e + CRLF;
    assert SizeText(s, e) == [] + ([] + ([] + (s + rest))) && SignText(NoSign) == [];
    NumberRead([], NoSign, [], s, ds, rest);
  }

  lemma {:induction false} PieceRead(p: Piece, tail: seq<Byte>)
    requires GoodPiece(p)
    ensures Decoded(PieceText(p) + tail) == Prepended(p.data, Decoded(tail))
    ensures Sealed(tail) ==> Sealed(PieceText(p) + tail)
  {
    var head, rest := SizeText(p.size, p.extension), p.data + CRLF + tail;
    assert PieceText(p) + tail == head + rest;
    SizeLineRead(p.size, |p.data|, p.extension, rest);
    DataRead(head, p.data, tail);
  }

  /** What follows the chunks: after a size of zero, a line; the reader accepts the message if and only if that
      line is empty, so it rejects trailers. */
  lemma {:induction false} LastRead(s: seq<Byte>, e: seq<Byte>, tail: seq<Byte>)
    requires SizeIs(s, 0) && IsExtension(e)
    ensures (var o := Decoded(SizeText(s, e) + tail);
             o.out == [] && (o.ok <==> Line(tail) == CRLF) && o.rest == tail[|Line(tail)|..])
    ensures WholeLine(tail) ==> Sealed(SizeText(s, e) + tail)
  {
    SizeLineRead(s, 0, e, tail);
  }

  /** A chunk that is cut short is passed on as far as it goes, and the message rejected.  A whole chunk whose data
      is not followed by an empty line ends the message: it is accepted there, unless nothing follows at all. */
  lemma {:induction false} BrokenRead(s: seq<Byte>, n: nat, e: seq<Byte>, rest: seq<Byte>)
    requires SizeIs(s, n) && IsExtension(e) && 0 < n < ULONG_MAX
    ensures (var o := Decoded(SizeText(s, e) + rest);
             && (|rest| < n ==> !o.ok && o.out == rest)
             && (|rest| >= n && Line(rest[n..]) != CRLF ==> (o.ok <==> |rest| > n) && o.out == rest[..n]))
  {
    SizeLineRead(s, n, e, rest);
  }

  /** A size line without a number is an error. */
  lemma {:induction false} UnsizedRead(input: seq<Byte>)
    requires StrToUl(Line(input)) == -1
    ensures Decoded(input).out == [] && !Decoded(input).ok
  {
  }

  lemma {:induction false} PiecesRead(ps: seq<Piece>, tail: seq<Byte>)
    requires forall i :: 0 <= i < |ps| ==> GoodPiece(ps[i])
    ensures Decoded(MessageText(ps) + tail) == Prepended(MessageData(ps), Decoded(tail))
    ensures Sealed(tail) ==> Sealed(MessageText(ps) + tail)
    decreases |ps|
  {
    if ps == [] {
      assert [] + tail == tail && [] + Decoded(tail).out == Decoded(tail).out;
    } else {
      var p, text, data := ps[0], MessageText(ps[1..]), MessageData(ps[1..]);
      PiecesRead(ps[1..], tail);
      PieceRead(p, text + tail);
      Regroup(PieceText(p), text, tail);
      Regroup(p.data, data, Decoded(tail).out);
    }
  }

  /** However the sizes of a message are spelled, the reader returns its data, and accepts it if and only if the
      line after the last size is empty; it reads no further. */
  lemma {:induction false} MessageRead(ps: seq<Piece>, last: seq<Byte>, e: seq<Byte>, tail: seq<Byte>)
    requires (forall i :: 0 <= i < |ps| ==> GoodPiece(ps[i])) && SizeIs(last, 0) && IsExtension(e)
    ensures (var input := MessageText(ps) + (SizeText(last, e) + tail);
             var o := Decoded(input);
             && o.out == MessageData(ps) && (o.ok <==> Line(tail) == CRLF) && o.rest == tail[|Line(tail)|..]
             && (WholeLine(tail) ==> Sealed(input)))
  {
    LastRead(last, e, tail);
    PiecesRead(ps, SizeText(last, e) + tail);
    assert MessageData(ps) + [] == MessageData(ps);
  }

  // ----- what the server writes -----

  lemma {:induction false} DigitWritten(d: nat)
    requires d < 16
    ensures HexDigit(d) == LOWER[d] as int
  {
    assert d == 0 || d == 1 || d == 2 || d == 3 || d == 4 || d == 5 || d == 6 || d == 7
        || d == 8 || d == 9 || d == 10 || d == 11 || d == 12 || d == 13 || d == 14 || d == 15;
  }

  lemma {:induction false} ValueMore(ds: seq<nat>, d: nat)
    ensures Value(ds + [d]) == 16 * Value(ds) + d
  {
    if ds == [] {
      assert [d][1..] == [] && [] + [d] == [d];
    } else {
      assert (ds + [d])[1..] == ds[1..] + [d];
      ValueMore(ds[1..], d);
      assert ds[0] * (16 * Power(|ds| - 1)) == 16 * (ds[0] * Power(|ds| - 1));
    }
  }

  /** The server writes the lower-case digits of the number, without leading zeros. */
  lemma {:induction false} HexSpells(n: nat) returns (ds: seq<nat>)
    ensures Value(ds) == n && |ds| == |Hex(n)| && (|ds| > 1 ==> ds[0] != 0)
    ensures forall i :: 0 <= i < |ds| ==> ds[i] < 16 && Hex(n)[i] == LOWER[ds[i]] as int
  {
    if n < 16 {
      DigitWritten(n);
      ds := [n];
      assert Value([]) == 0 && Power(0) == 1;
    } else {
      var front := HexSpells(n / 16);
      DigitWritten(n % 16);
      ValueMore(front, n % 16);
      ds := front + [n % 16];
      if |front| == 1 {
        FirstDigit(front, n / 16);
      }
    }
  }

  lemma {:induction false} FirstDigit(ds: seq<nat>, n: nat)
    requires |ds| == 1 && Value(ds) == n
    ensures ds[0] == n
  {
    assert ds[1..] == [];
  }
}
