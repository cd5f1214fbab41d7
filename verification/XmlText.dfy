/** Text of an XML document: escaping when printing, decoding when reading. */
module XmlText {
  import Words

  type Byte = Words.Byte

  const LF: Byte := 10
  const CR: Byte := 13
  const QUOT: Byte := 34
  const HASH: Byte := 35
  const AMP: Byte := 38
  const APOS: Byte := 39
  const SEMICOLON: Byte := 59
  const LT: Byte := 60
  const GT: Byte := 62
  const LOWER_X: Byte := 120

  /** A plain character never is a carriage return or a NUL. */
  ghost predicate Plain(s: seq<Byte>) {
    forall i :: 0 <= i < |s| ==> s[i] != CR && s[i] != 0
  }

  // ----- escaping -----

  /** The characters the printer replaces: all five entities in attributes, three of them in text. */
  predicate Special(b: Byte, restricted: bool) {
    b == AMP || b == LT || b == GT || (!restricted && (b == QUOT || b == APOS))
  }

  function Pattern(b: Byte): (s: seq<Byte>)
    requires Special(b, false)
  {
    if b == QUOT then [113, 117, 111, 116]
    else if b == AMP then [97, 109, 112]
    else if b == APOS then [97, 112, 111, 115]
    else if b == LT then [108, 116]
    else [103, 116]
  }

  function Escaped(b: Byte, restricted: bool): (s: seq<Byte>)
    ensures s != []
  {
    if Special(b, restricted) then [AMP] + Pattern(b) + [SEMICOLON] else [b]
  }

  function Escape(s: seq<Byte>, restricted: bool): (r: seq<Byte>) {
    if s == [] then [] else Escaped(s[0], restricted) + Escape(s[1..], restricted)
  }

  // ----- decoding -----

  predicate StartsWith(s: seq<Byte>, prefix: seq<Byte>) {
    |prefix| <= |s| && s[..|prefix|] == prefix
  }

  /** The entity at an ampersand, in the order of the table; 0 if there is none. */
  function EntityAt(s: seq<Byte>): (b: Byte)
    requires s != []
    ensures b != 0 ==> Special(b, false) && |s| >= |Pattern(b)| + 2
  {
    var t := s[1..];
    if StartsWith(t, Pattern(QUOT) + [SEMICOLON]) then QUOT
    else if StartsWith(t, Pattern(AMP) + [SEMICOLON]) then AMP
    else if StartsWith(t, Pattern(APOS) + [SEMICOLON]) then APOS
    else if StartsWith(t, Pattern(LT) + [SEMICOLON]) then LT
    else if StartsWith(t, Pattern(GT) + [SEMICOLON]) then GT
    else 0
  }

  /** What one step of decoding writes, and how much it reads. */
  datatype Unit = Unit(bytes: seq<Byte>, read: nat)

  /** UTF-8; nothing for a number that has no encoding of up to four bytes. */
  function Utf8(u: nat): (s: seq<Byte>)
    ensures |s| <= 4 && (u < 0x80 ==> |s| == 1)
  {
    if u < 0x80 then [u]
    else if u < 0x800 then [192 + u / 64, 128 + u % 64]
    else if u < 0x10000 then [224 + u / 4096, 128 + u / 64 % 64, 128 + u % 64]
    else if u < 0x200000 then [240 + u / 262144, 128 + u / 4096 % 64, 128 + u / 64 % 64, 128 + u % 64]
    else []
  }

  function DigitValue(b: Byte, radix: nat): (v: int)
    ensures -1 <= v < 16
  {
    if 48 <= b <= 57 then b - 48
    else if radix == 16 && 97 <= b <= 102 then b - 87
    else if radix == 16 && 65 <= b <= 70 then b - 55
    else -1
  }

  const WORD: nat := 0x1_0000_0000
  const LONG: nat := 0x1_0000_0000_0000_0000

  /** The digits before position `i`, read backwards to the mark; -1 if one is no digit.  The place value is
      a 32-bit number, the sum a 64-bit number. */
  function RefValue(s: seq<Byte>, i: nat, mark: Byte, radix: nat, place: nat): (v: int)
    requires i <= |s|
    ensures -1 <= v
    decreases i
  {
    if i == 0 || s[i - 1] == mark then 0
    else
      var d := DigitValue(s[i - 1], radix);
      var rest := RefValue(s, i - 1, mark, radix, place * radix % WORD);
      if d < 0 || rest < 0 then -1 else (rest + place * d % WORD) % LONG
  }

  function Find(s: seq<Byte>, b: Byte, from: nat): (i: nat)
    requires from <= |s|
    ensures from <= i <= |s|
    ensures i < |s| ==> s[i] == b
    ensures forall k :: from <= k < i ==> s[k] != b
    decreases |s| - from
  {
    if from == |s| || s[from] == b then from else Find(s, b, from + 1)
  }

  /** A numeric character reference; reads nothing if it is malformed. */
  function CharRef(s: seq<Byte>): (u: Unit)
    requires |s| >= 2 && s[1] == HASH
    ensures u.read <= |s| && |u.bytes| <= u.read
  {
    if |s| == 2 then Unit([], 1)
    else
      var hex := s[2] == LOWER_X;
      var from := if hex then 3 else 2;
      var end := Find(s, SEMICOLON, from);
      if end == |s| then Unit([], 0)
      else
        var v := RefValue(s, end, if hex then LOWER_X else HASH, if hex then 16 else 10, 1);
        SmallRef(s, end, if hex then LOWER_X else HASH, if hex then 16 else 10);
        if v < 0 then Unit([], 0) else Unit(Utf8(v), end + 1)
  }

  /** A reference of three or four characters has at most one digit, so its encoding fits where it stood. */
  lemma {:induction false} SmallRef(s: seq<Byte>, end: nat, mark: Byte, radix: nat)
    requires 2 <= end <= |s| && (radix == 16 || radix == 10) && (s[1] == mark || (end >= 3 && s[2] == mark))
    ensures end <= 3 ==> RefValue(s, end, mark, radix, 1) < 0x80
  {
    if end == 3 && s[2] != mark {
      OneDigit(s, mark, radix);
    }
  }

  lemma {:induction false} OneDigit(s: seq<Byte>, mark: Byte, radix: nat)
    requires |s| >= 3 && (radix == 16 || radix == 10) && s[1] == mark != s[2]
    ensures RefValue(s, 3, mark, radix, 1) < 0x80
  {
    var d := DigitValue(s[2], radix);
    assert RefValue(s, 2, mark, radix, 1 * radix % WORD) == 0;
    assert 1 * d % WORD == d || d == -1;
    assert d >= 0 ==> (0 + d) % LONG == d;
  }

  /** One step of decoding. */
  function Step(s: seq<Byte>, entities: bool): (u: Unit)
    requires s != []
    ensures 1 <= u.read <= |s| && |u.bytes| <= u.read
  {
    if s[0] == CR then Unit([LF], if |s| > 1 && s[1] == LF then 2 else 1)
    else if s[0] == LF then Unit([LF], if |s| > 1 && s[1] == CR then 2 else 1)
    else if entities && s[0] == AMP then
      if |s| > 1 && s[1] == HASH then
        var u := CharRef(s);
        if u.read == 0 then Unit([AMP], 1) else u
      else if EntityAt(s) != 0 then Unit([EntityAt(s)], |Pattern(EntityAt(s))| + 2)
      else Unit([AMP], 1)
    else Unit([s[0]], 1)
  }

  function Decode(s: seq<Byte>, entities: bool): (r: seq<Byte>)
    decreases |s|
  {
    if s == [] then [] else Step(s, entities).bytes + Decode(s[Step(s, entities).read..], entities)
  }

  /** What one step of decoding reads stands for, and whether it is an unknown ampersand. */
  datatype Piece = Piece(bytes: seq<Byte>, unknown: bool)

  function Pieces(s: seq<Byte>, entities: bool): (ps: seq<Piece>)
    decreases |s|
  {
    if s == [] then []
    else [Piece(Step(s, entities).bytes, Unknown(s, entities))] + Pieces(s[Step(s, entities).read..], entities)
  }

  function ByteAt(s: seq<Byte>, n: nat): (b: Byte) {
    if n < |s| then s[n] else 0
  }

  /** Decoding in place: an unknown ampersand passes over a character without writing it, so the byte that stood
      where the output has got to stays. */
  function Overlaid(s: seq<Byte>, ps: seq<Piece>, out: seq<Byte>): (r: seq<Byte>)
    decreases |ps|
  {
    if ps == [] then out
    else Overlaid(s, ps[1..], out + if ps[0].unknown then [ByteAt(s, |out|)] else ps[0].bytes)
  }

  /** What a text is read as. */
  function Taken(s: seq<Byte>, entities: bool): (r: seq<Byte>) {
    Overlaid(s, Pieces(s, entities), [])
  }

  /** Every ampersand that is reached starts a known entity or a numeric reference. */
  predicate Known(s: seq<Byte>, entities: bool)
    decreases |s|
  {
    s == [] || (!Unknown(s, entities) && Known(s[Step(s, entities).read..], entities))
  }

  predicate Unknown(s: seq<Byte>, entities: bool) {
    s != [] && entities && s[0] == AMP && !(|s| > 1 && s[1] == HASH) && EntityAt(s) == 0
  }

  ghost function AllBytes(ps: seq<Piece>): (r: seq<Byte>) {
    if ps == [] then [] else ps[0].bytes + AllBytes(ps[1..])
  }

  lemma {:induction false} PiecesDecode(s: seq<Byte>, entities: bool)
    ensures AllBytes(Pieces(s, entities)) == Decode(s, entities)
    decreases |s|
  {
    if s != [] {
      PiecesDecode(s[Step(s, entities).read..], entities);
      assert Pieces(s, entities)[1..] == Pieces(s[Step(s, entities).read..], entities);
    }
  }

  ghost predicate AllKnown(ps: seq<Piece>) {
    forall k :: 0 <= k < |ps| ==> !ps[k].unknown
  }

  lemma {:induction false} KnownPieces(s: seq<Byte>, entities: bool)
    requires Known(s, entities)
    ensures AllKnown(Pieces(s, entities))
    decreases |s|
  {
    if s != [] {
      KnownPieces(s[Step(s, entities).read..], entities);
    }
  }

  lemma {:induction false} OverlaidKnown(s: seq<Byte>, ps: seq<Piece>, out: seq<Byte>)
    requires AllKnown(ps)
    ensures Overlaid(s, ps, out) == out + AllBytes(ps)
    decreases |ps|
  {
    if ps == [] {
      assert out + [] == out;
    } else {
      OverlaidKnown(s, ps[1..], out + ps[0].bytes);
      Regroup(out, ps[0].bytes, AllBytes(ps[1..]));
    }
  }

  lemma {:induction false} Regroup(a: seq<Byte>, b: seq<Byte>, c: seq<Byte>)
    ensures (a + b) + c == a + (b + c)
  {
  }

  /** With all entities known, decoding in place is decoding. */
  lemma {:induction false} KnownTaken(s: seq<Byte>, entities: bool)
    requires Known(s, entities)
    ensures Taken(s, entities) == Decode(s, entities)
  {
    KnownPieces(s, entities);
    PiecesDecode(s, entities);
    OverlaidKnown(s, Pieces(s, entities), []);
    assert [] + Decode(s, entities) == Decode(s, entities);
  }

  // ----- decoding undoes escaping -----

  lemma {:induction false} EntityOf(b: Byte, tail: seq<Byte>)
    requires Special(b, false)
    ensures EntityAt([AMP] + Pattern(b) + [SEMICOLON] + tail) == b
  {
    var s := [AMP] + Pattern(b) + [SEMICOLON] + tail;
    var t := s[1..];
    assert t == Pattern(b) + [SEMICOLON] + tail;
    assert t[..|Pattern(b)| + 1] == Pattern(b) + [SEMICOLON];
    assert t[0] == Pattern(b)[0] && t[1] == Pattern(b)[1];
    EntityStarts(t, QUOT);
    EntityStarts(t, AMP);
    EntityStarts(t, APOS);
    EntityStarts(t, LT);
  }

  /** Two letters tell the entities apart. */
  lemma {:induction false} EntityStarts(t: seq<Byte>, b: Byte)
    requires Special(b, false) && |t| >= 2
    ensures StartsWith(t, Pattern(b) + [SEMICOLON]) ==> t[0] == Pattern(b)[0] && t[1] == Pattern(b)[1]
  {
    if StartsWith(t, Pattern(b) + [SEMICOLON]) {
      assert t[..|Pattern(b)| + 1][0] == t[0] && t[..|Pattern(b)| + 1][1] == t[1];
    }
  }

  lemma {:induction false} EscapedStep(b: Byte, restricted: bool, tail: seq<Byte>)
    requires b != CR && (tail == [] || tail[0] != CR)
    ensures (var s := Escaped(b, restricted) + tail;
             Step(s, true) == Unit([b], |Escaped(b, restricted)|) && !Unknown(s, true)
             && s[|Escaped(b, restricted)|..] == tail)
  {
    var s := Escaped(b, restricted) + tail;
    assert s[|Escaped(b, restricted)|..] == tail;
    if Special(b, restricted) {
      EntityOf(b, tail);
      assert s[1] == Pattern(b)[0];
    } else {
      assert s[0] == b && (tail != [] ==> s[1] == tail[0]);
    }
  }

  lemma {:induction false} EscapeNoCr(s: seq<Byte>, restricted: bool)
    requires Plain(s)
    ensures Plain(Escape(s, restricted))
  {
    if s != [] {
      EscapeNoCr(s[1..], restricted);
    }
  }

  /** Reading back escaped text gives the text. */
  lemma {:induction false} EscapeDecodes(s: seq<Byte>, restricted: bool)
    requires Plain(s)
    ensures Decode(Escape(s, restricted), true) == s && Known(Escape(s, restricted), true)
  {
    if s != [] {
      var rest := Escape(s[1..], restricted);
      EscapeNoCr(s[1..], restricted);
      EscapedStep(s[0], restricted, rest);
      EscapeDecodes(s[1..], restricted);
    }
  }

  lemma {:induction false} EscapeTaken(s: seq<Byte>, restricted: bool)
    requires Plain(s)
    ensures Taken(Escape(s, restricted), true) == s
  {
    EscapeDecodes(s, restricted);
    KnownTaken(Escape(s, restricted), true);
  }

  /** Escaped text holds none of the characters that end text or an attribute. */
  lemma {:induction false} EscapeNoEnd(s: seq<Byte>, restricted: bool)
    ensures forall i :: 0 <= i < |Escape(s, restricted)| ==>
                        Escape(s, restricted)[i] != LT && (!restricted ==> Escape(s, restricted)[i] != QUOT)
  {
    if s != [] {
      EscapeNoEnd(s[1..], restricted);
    }
  }

  /** Text without entities decodes to itself. */
  lemma {:induction false} PlainDecodes(s: seq<Byte>)
    requires Plain(s)
    ensures Decode(s, false) == s && Known(s, false)
  {
    if s != [] {
      PlainDecodes(s[1..]);
    }
  }
}
