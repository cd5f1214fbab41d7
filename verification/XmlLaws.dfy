/** The characters of XML text by their names: what is escaped and how, what references and line ends stand for,
    and which characters make up names and space. */
module XmlLaws {
  import opened XmlText
  import opened XmlTree
  import Words

  ghost function Bytes(s: string): (r: seq<Byte>)
    ensures |r| == |s| && forall i :: 0 <= i < |s| ==> r[i] == s[i] as int % 256
  {
    seq(|s|, i requires 0 <= i < |s| => s[i] as int % 256)
  }

  // ----- escaping -----

  ghost function EntityName(b: Byte): (s: seq<Byte>) {
    if b == '&' as int then Bytes("&amp;")
    else if b == '<' as int then Bytes("&lt;")
    else if b == '>' as int then Bytes("&gt;")
    else if b == '"' as int then Bytes("&quot;")
    else if b == '\'' as int then Bytes("&apos;")
    else [b]
  }

  /** Five characters are printed as entities in attributes, all but the quotes in text, all others as they are. */
  lemma {:induction false} EscapedIs(b: Byte, restricted: bool)
    ensures Escaped(b, restricted)
         == if restricted && (b == '"' as int || b == '\'' as int) then [b] else EntityName(b)
  {
    if b == AMP {
      assert Bytes("&amp;") == [38, 97, 109, 112, 59];
    } else if b == LT {
      assert Bytes("&lt;") == [38, 108, 116, 59];
    } else if b == GT {
      assert Bytes("&gt;") == [38, 103, 116, 59];
    } else if b == QUOT {
      assert Bytes("&quot;") == [38, 113, 117, 111, 116, 59];
    } else if b == APOS {
      assert Bytes("&apos;") == [38, 97, 112, 111, 115, 59];
    }
  }

  ghost predicate ReadsOn(s: seq<Byte>, bytes: seq<Byte>, tail: seq<Byte>, entities: bool) {
    && Decode(s + tail, entities) == bytes + Decode(tail, entities)
    && (Known(s + tail, entities) <==> Known(tail, entities))
  }

  /** And their names decode to them. */
  lemma {:induction false} EntityDecodes(b: Byte, tail: seq<Byte>)
    requires Special(b, false)
    ensures ReadsOn(EntityName(b), [b], tail, true)
  {
    var s := Escaped(b, false) + tail;
    EscapedIs(b, false);
    EntityOf(b, tail);
    assert s[0] == AMP && s[1] == Pattern(b)[0] && s[|Escaped(b, false)|..] == tail;
  }

  // ----- line ends -----

  /** Each of the four line ends becomes one line feed; all other characters but an ampersand stay. */
  lemma {:induction false} LineEnds(b: Byte, tail: seq<Byte>, entities: bool)
    ensures ReadsOn(Bytes("\r\n"), Bytes("\n"), tail, entities) && ReadsOn(Bytes("\n\r"), Bytes("\n"), tail, entities)
    ensures tail == [] || tail[0] != '\n' as int ==> ReadsOn(Bytes("\r"), Bytes("\n"), tail, entities)
    ensures tail == [] || tail[0] != '\r' as int ==> ReadsOn(Bytes("\n"), Bytes("\n"), tail, entities)
    ensures b !in Bytes("\r\n") && !(entities && b == '&' as int) ==> ReadsOn([b], [b], tail, entities)
  {
    assert Bytes("\r\n") == [CR, LF] && Bytes("\n\r") == [LF, CR] && Bytes("\r") == [CR] && Bytes("\n") == [LF];
    StepReads([CR, LF], LF, tail, entities);
    StepReads([LF, CR], LF, tail, entities);
    StepReads([CR], LF, tail, entities);
    StepReads([LF], LF, tail, entities);
    StepReads([b], b, tail, entities);
  }

  lemma {:induction false} StepReads(s: seq<Byte>, b: Byte, tail: seq<Byte>, entities: bool)
    requires s != []
    ensures Step(s + tail, entities) == Unit([b], |s|) && !(entities && s[0] == AMP) ==> ReadsOn(s, [b], tail, entities)
  {
    assert (s + tail)[|s|..] == tail;
  }

  // ----- references -----

  const LOWER_DIGITS: string := "0123456789abcdef"
  const UPPER_DIGITS: string := "0123456789ABCDEF"

  ghost predicate IsDigit(b: Byte, d: nat, radix: nat) {
    d < radix <= 16 && (b == LOWER_DIGITS[d] as int || b == UPPER_DIGITS[d] as int)
  }

  ghost predicate Spells(s: seq<Byte>, ds: seq<nat>, radix: nat) {
    |s| == |ds| && forall i :: 0 <= i < |s| ==> IsDigit(s[i], ds[i], radix)
  }

  function Number(ds: seq<nat>, radix: nat): (v: nat) {
    if ds == [] then 0 else Number(ds[..|ds| - 1], radix) * radix + ds[|ds| - 1]
  }

  lemma {:induction false} DigitRead(b: Byte, d: nat, radix: nat)
    requires IsDigit(b, d, radix) && (radix == 10 || radix == 16)
    ensures DigitValue(b, radix) == d && b != SEMICOLON && b != HASH && b != LOWER_X
  {
    assert d == 0 || d == 1 || d == 2 || d == 3 || d == 4 || d == 5 || d == 6 || d == 7
        || d == 8 || d == 9 || d == 10 || d == 11 || d == 12 || d == 13 || d == 14 || d == 15;
  }

  /** Place values wrap only where the digit is zero. */
  lemma {:induction false} PlaceFits(p: nat, d: nat)
    requires d * p < WORD
    ensures (p % WORD) * d % WORD == d * p
  {
    if d > 0 {
      assert p <= d * p;
      assert p % WORD == p;
    }
  }

  lemma {:induction false} WrappedPlace(p: nat, radix: nat)
    ensures p % WORD * radix % WORD == p * radix % WORD
  {
    assert p == WORD * (p / WORD) + p % WORD;
    assert p * radix == WORD * ((p / WORD) * radix) + (p % WORD) * radix;
    ModAdd((p / WORD) * radix, (p % WORD) * radix);
  }

  lemma {:induction false} ModAdd(q: nat, r: nat)
    ensures (WORD * q + r) % WORD == r % WORD
  {
  }

  ghost predicate ReadsAs(s: seq<Byte>, from: nat, ds: seq<nat>, mark: Byte, radix: nat)
    requires from + |ds| <= |s|
  {
    forall i :: 0 <= i < |ds| ==> DigitValue(s[from + i], radix) == ds[i] && s[from + i] != mark
  }

  /** The digits with the last of them at place value `p`. */
  ghost function Scaled(ds: seq<nat>, radix: nat, p: nat): (v: nat) {
    if ds == [] then 0 else Scaled(ds[..|ds| - 1], radix, Words.Times(p, radix)) + Words.Times(ds[|ds| - 1], p)
  }

  lemma {:induction false} ScaledIs(ds: seq<nat>, radix: nat, p: nat)
    ensures Scaled(ds, radix, p) == Number(ds, radix) * p
  {
    if ds != [] {
      Words.TimesIsProduct(p, radix);
      Words.TimesIsProduct(ds[|ds| - 1], p);
      ScaledIs(ds[..|ds| - 1], radix, p * radix);
      Carried(Number(ds[..|ds| - 1], radix), ds[|ds| - 1], radix, p);
    }
  }

  lemma {:induction false} Carried(front: nat, d: nat, radix: nat, p: nat)
    ensures (front * radix + d) * p == front * (p * radix) + d * p
  {
  }

  lemma {:induction false} RefValueIs(s: seq<Byte>, from: nat, ds: seq<nat>, mark: Byte, radix: nat, p: nat)
    requires 1 <= from && from + |ds| <= |s| && s[from - 1] == mark && ReadsAs(s, from, ds, mark, radix)
    requires Scaled(ds, radix, p) < WORD
    ensures RefValue(s, from + |ds|, mark, radix, p % WORD) == Scaled(ds, radix, p)
    decreases |ds|
  {
    var n := |ds|;
    if n > 0 {
      var front := ds[..n - 1];
      assert ReadsAs(s, from, front, mark, radix);
      RefValueIs(s, from, front, mark, radix, Words.Times(p, radix));
      assert s[from + (n - 1)] == s[from + n - 1];
      RefStep(s, from + n, mark, radix, p, ds[n - 1], Scaled(front, radix, Words.Times(p, radix)));
    }
  }

  lemma {:induction false} RefStep(s: seq<Byte>, i: nat, mark: Byte, radix: nat, p: nat, d: nat, rest: nat)
    requires 0 < i <= |s| && s[i - 1] != mark && DigitValue(s[i - 1], radix) == d && rest + Words.Times(d, p) < WORD
    requires RefValue(s, i - 1, mark, radix, Words.Times(p, radix) % WORD) == rest
    ensures RefValue(s, i, mark, radix, p % WORD) == rest + Words.Times(d, p)
  {
    PlaceWraps(p, d, radix);
    RefAdds(s, i, mark, radix, p % WORD, d, rest, Words.Times(d, p));
  }

  lemma {:induction false} RefAdds(s: seq<Byte>, i: nat, mark: Byte, radix: nat, q: nat, d: nat, rest: nat, term: nat)
    requires 0 < i <= |s| && s[i - 1] != mark && DigitValue(s[i - 1], radix) == d
    requires RefValue(s, i - 1, mark, radix, q * radix % WORD) == rest && q * d % WORD == term && rest + term < WORD
    ensures RefValue(s, i, mark, radix, q) == rest + term
  {
  }

  lemma {:induction false} PlaceWraps(p: nat, d: nat, radix: nat)
    requires Words.Times(d, p) < WORD
    ensures p % WORD * radix % WORD == Words.Times(p, radix) % WORD && p % WORD * d % WORD == Words.Times(d, p)
  {
    Words.TimesIsProduct(p, radix);
    Words.TimesIsProduct(d, p);
    WrappedPlace(p, radix);
    PlaceFits(p, d);
  }

  ghost function Reference(digits: seq<Byte>, hex: bool): (s: seq<Byte>) {
    Bytes("&#") + (if hex then Bytes("x") else []) + digits + Bytes(";")
  }

  /** A reference to a number below 2 to the 32, in decimal or hexadecimal digits of either case and with any
      number of leading zeros, decodes to the number in UTF-8. */
  lemma {:induction false} ReferenceDecodes(digits: seq<Byte>, ds: seq<nat>, hex: bool, tail: seq<Byte>)
    requires Spells(digits, ds, if hex then 16 else 10) && Number(ds, if hex then 16 else 10) < WORD
    ensures ReadsOn(Reference(digits, hex), Utf8(Number(ds, if hex then 16 else 10)), tail, true)
  {
    var radix, mark, from := if hex then 16 else 10, if hex then LOWER_X else HASH, if hex then 3 else 2;
    var s := Reference(digits, hex) + tail;
    var end := from + |digits|;
    ReferenceText(digits, hex, tail);
    DigitsRead(s, from, digits, ds, radix);
    ScaledIs(ds, radix, 1);
    RefValueIs(s, from, ds, mark, radix, 1);
    ReferenceRead(s, from, end, mark, radix, Number(ds, radix));
  }

  lemma {:induction false} DigitsRead(s: seq<Byte>, from: nat, digits: seq<Byte>, ds: seq<nat>, radix: nat)
    requires from + |digits| <= |s| && s[from..from + |digits|] == digits && Spells(digits, ds, radix)
    requires radix == 10 || radix == 16
    ensures ReadsAs(s, from, ds, HASH, radix) && ReadsAs(s, from, ds, LOWER_X, radix)
    ensures forall i :: from <= i < from + |ds| ==> s[i] != SEMICOLON && s[i] != LOWER_X
  {
    forall i | 0 <= i < |ds|
      ensures DigitValue(s[from + i], radix) == ds[i] && s[from + i] !in {HASH, LOWER_X, SEMICOLON}
    {
      assert s[from + i] == digits[i];
      DigitRead(digits[i], ds[i], radix);
    }
    assert forall i :: from <= i < from + |ds| ==> s[i] == s[from + (i - from)];
  }

  lemma {:induction false} ReferenceText(digits: seq<Byte>, hex: bool, tail: seq<Byte>)
    ensures (var s, from := Reference(digits, hex) + tail, if hex then 3 else 2;
             var end := from + |digits|;
             && |s| == end + 1 + |tail| && s[0] == AMP && s[1] == HASH && (hex ==> s[2] == LOWER_X)
             && s[from..end] == digits && s[end] == SEMICOLON && s[end + 1..] == tail)
  {
  }

  lemma {:induction false} ReferenceRead(s: seq<Byte>, from: nat, end: nat, mark: Byte, radix: nat, v: nat)
    requires 2 <= from <= end < |s| && s[0] == AMP && s[1] == HASH && s[end] == SEMICOLON
    requires forall i :: from <= i < end ==> s[i] != SEMICOLON
    requires if s[2] == LOWER_X then from == 3 && mark == LOWER_X && radix == 16
             else from == 2 && mark == HASH && radix == 10
    requires RefValue(s, end, mark, radix, 1) == v
    ensures Decode(s, true) == Utf8(v) + Decode(s[end + 1..], true)
    ensures Known(s, true) <==> Known(s[end + 1..], true)
  {
    assert Find(s, SEMICOLON, from) == end;
    assert CharRef(s) == Unit(Utf8(v), end + 1);
  }

  ghost function Joined(bits: int, b: Byte): (r: int) {
    bits * 64 + (b - 0x80)
  }

  ghost predicate Continues(s: seq<Byte>) {
    forall i :: 1 <= i < |s| ==> 0x80 <= s[i] < 0xC0
  }

  /** The encoding of RFC 3629, section 3: the number of bytes a number needs, the marks of the bytes and the
      number they carry. */
  ghost predicate Encodes(s: seq<Byte>, u: nat) {
    match |s|
    case 1 => s[0] == u < 0x80
    case 2 => 0x80 <= u < 0x800 && 0xC0 <= s[0] < 0xE0 && Continues(s) && u == Joined(s[0] - 0xC0, s[1])
    case 3 =>
      0x800 <= u < 0x10000 && 0xE0 <= s[0] < 0xF0 && Continues(s) && u == Joined(Joined(s[0] - 0xE0, s[1]), s[2])
    case 4 =>
      && 0x10000 <= u < 0x200000 && 0xF0 <= s[0] < 0xF8 && Continues(s)
      && u == Joined(Joined(Joined(s[0] - 0xF0, s[1]), s[2]), s[3])
    case _ => false
  }

  /** Below 2 to the 21 every number is encoded so; beyond nothing is written. */
  lemma {:induction false} Utf8Encodes(u: nat)
    ensures if u < 0x200000 then Encodes(Utf8(u), u) else Utf8(u) == []
  {
    if u < 0x80 {
    } else if u < 0x800 {
      assert Continues(Utf8(u));
    } else if u < 0x10000 {
      assert u / 4096 == u / 64 / 64;
      assert Continues(Utf8(u));
    } else if u < 0x200000 {
      assert u / 262144 == u / 64 / 64 / 64 && u / 4096 == u / 64 / 64;
      assert Continues(Utf8(u));
    }
  }

  // ----- names and space -----

  ghost predicate Between(first: char, b: Byte, last: char) {
    first as int <= b <= last as int
  }

  /** A name starts with a letter, a colon, an underscore or a byte that is not ASCII, and goes on with these,
      digits, dots and hyphens. */
  lemma {:induction false} NameCharacters(b: Byte)
    ensures IsNameStart(b) <==> Between('a', b, 'z') || Between('A', b, 'Z') || b in Bytes(":_") || b >= 128
    ensures IsNameChar(b) <==> IsNameStart(b) || Between('0', b, '9') || b in Bytes(".-")
    ensures IsSpace(b) <==> b in Bytes(" \t\n\r") || b == 11 || b == 12
  {
    assert Bytes(":_") == [58, 95] && Bytes(".-") == [46, 45] && Bytes(" \t\n\r") == [32, 9, 10, 13];
  }

  // ----- markup -----

  lemma {:induction false} Characters()
    ensures LT == '<' as int && GT == '>' as int && SLASH == '/' as int && EQUALS == '=' as int
    ensures QUOT == '"' as int && APOS == '\'' as int && SPACE == ' ' as int
    ensures MAX_DEPTH == 100
  {
  }

  /** How the nodes that last until a marker start and end. */
  lemma {:induction false} Markers(v: seq<Byte>)
    ensures PrintNode(Comment(v)) == Bytes("<!--") + v + Bytes("-->")
    ensures PrintNode(Text(v, true)) == Bytes("<![CDATA[") + v + Bytes("]]>")
    ensures PrintNode(Declaration(v)) == Bytes("<?") + v + Bytes("?>")
    ensures PrintNode(Node.Unknown(v)) == Bytes("<!") + v + Bytes(">")
  {
    assert Bytes("<!--") == COMMENT_START && Bytes("-->") == COMMENT_END;
    assert Bytes("<![CDATA[") == CDATA_START && Bytes("]]>") == CDATA_END;
    assert Bytes("<?") == DECLARATION_START && Bytes("?>") == DECLARATION_END;
    assert Bytes("<!") == UNKNOWN_START && Bytes(">") == [GT];
  }
}
