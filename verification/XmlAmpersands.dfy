/** Ampersands that start neither an entity nor a numeric reference: decoding in place does not always keep
    them. */
module XmlAmpersands {
  import opened XmlText
  import opened XmlLaws

  /** An ampersand that starts neither an entity nor a numeric reference is unknown. */
  lemma {:induction false} UnknownIs(tail: seq<Byte>)
    ensures Unknown([AMP] + tail, true) <==>
            (tail == [] || tail[0] != '#' as int)
            && forall b :: Special(b, false) ==> !StartsWith([AMP] + tail, EntityName(b))
  {
    var s := [AMP] + tail;
    assert s[1..] == tail && (tail != [] ==> s[1] == tail[0]);
    EntityFound(tail);
    forall b | Special(b, false) && StartsWith(s, EntityName(b)) ensures EntityAt(s) == b {
      EntityThere(s, b);
    }
  }

  lemma {:induction false} EntityThere(s: seq<Byte>, b: Byte)
    requires Special(b, false) && StartsWith(s, EntityName(b))
    ensures s != [] && EntityAt(s) == b
  {
    EscapedIs(b, false);
    assert s == EntityName(b) + s[|EntityName(b)|..];
    EntityOf(b, s[|EntityName(b)|..]);
  }

  lemma {:induction false} EntityFound(tail: seq<Byte>)
    ensures (var b := EntityAt([AMP] + tail); b != 0 ==> StartsWith([AMP] + tail, EntityName(b)))
  {
    var b := EntityAt([AMP] + tail);
    if b != 0 {
      EscapedIs(b, false);
      assert ([AMP] + tail)[1..] == tail;
      StartsInside(tail, Pattern(b) + [SEMICOLON]);
      assert [AMP] + (Pattern(b) + [SEMICOLON]) == EntityName(b);
    }
  }

  lemma {:induction false} StartsInside(tail: seq<Byte>, prefix: seq<Byte>)
    requires StartsWith(tail, prefix)
    ensures StartsWith([AMP] + tail, [AMP] + prefix)
  {
    assert ([AMP] + tail)[..1 + |prefix|] == [AMP] + tail[..|prefix|];
  }

  /** Wherever an unknown ampersand is met, an ampersand stands where the output has got to, for instance
      because no entity, reference or line end of two characters comes before it. */
  ghost predicate Undisturbed(s: seq<Byte>, ps: seq<Piece>, n: nat) {
    ps == [] || ((ps[0].unknown ==> ByteAt(s, n) == AMP) && Undisturbed(s, ps[1..], n + |ps[0].bytes|))
  }

  lemma {:induction false} OverlaidExactly(s: seq<Byte>, ps: seq<Piece>, out: seq<Byte>)
    requires forall k :: 0 <= k < |ps| && ps[k].unknown ==> ps[k].bytes == [AMP]
    ensures Overlaid(s, ps, out) == out + AllBytes(ps) <==> Undisturbed(s, ps, |out|)
    decreases |ps|
  {
    if ps == [] {
      assert out + [] == out;
    } else if ps[0].unknown && ByteAt(s, |out|) != AMP {
      var b := ByteAt(s, |out|);
      OutputStays(s, ps[1..], out + [b]);
      OtherByte(Overlaid(s, ps, out), out, b, AllBytes(ps));
    } else {
      OverlaidExactly(s, ps[1..], out + ps[0].bytes);
      Regroup(out, ps[0].bytes, AllBytes(ps[1..]));
    }
  }

  lemma {:induction false} OutputStays(s: seq<Byte>, ps: seq<Piece>, out: seq<Byte>)
    ensures |out| <= |Overlaid(s, ps, out)| && Overlaid(s, ps, out)[..|out|] == out
    decreases |ps|
  {
    if ps != [] {
      var more := out + if ps[0].unknown then [ByteAt(s, |out|)] else ps[0].bytes;
      OutputStays(s, ps[1..], more);
      assert Overlaid(s, ps, out)[..|out|] == Overlaid(s, ps, out)[..|more|][..|out|];
    }
  }

  lemma {:induction false} OtherByte(r: seq<Byte>, out: seq<Byte>, b: Byte, rest: seq<Byte>)
    requires |r| > |out| && r[..|out| + 1] == out + [b] && rest != [] && rest[0] != b
    ensures r != out + rest
  {
    assert r[|out|] == r[..|out| + 1][|out|] == b && (out + rest)[|out|] == rest[0];
  }

  lemma {:induction false} UnknownPieces(s: seq<Byte>)
    ensures forall k :: 0 <= k < |Pieces(s, true)| && Pieces(s, true)[k].unknown ==> Pieces(s, true)[k].bytes == [AMP]
    decreases |s|
  {
    if s != [] {
      var rest := Pieces(s[Step(s, true).read..], true);
      UnknownPieces(s[Step(s, true).read..]);
      assert forall k :: 0 < k < |Pieces(s, true)| ==> Pieces(s, true)[k] == rest[k - 1];
    }
  }

  /** Unknown ampersands are kept as they are exactly when they are undisturbed. */
  lemma {:induction false} UnknownKept(s: seq<Byte>)
    ensures Taken(s, true) == Decode(s, true) <==> Undisturbed(s, Pieces(s, true), 0)
  {
    UnknownPieces(s);
    PiecesDecode(s, true);
    OverlaidExactly(s, Pieces(s, true), []);
    assert [] + Decode(s, true) == Decode(s, true);
  }

  lemma {:induction false} AmpersandKept(tail: seq<Byte>)
    requires Unknown([AMP] + tail, true)
    ensures Decode([AMP] + tail, true) == [AMP] + Decode(tail, true)
  {
    assert ([AMP] + tail)[1..] == tail;
  }

  /** A text in which they are not: one ampersand is read as a letter. */
  lemma {:induction false} UnknownLost()
    ensures Taken(Bytes("&lt;&x"), true) == Bytes("<lx")
    ensures Decode(Bytes("&lt;&x"), true) == Bytes("<&x")
  {
    assert Bytes("&lt;&x") == [38, 108, 116, 59, 38, 120];
    assert Bytes("<lx") == [60, 108, 120] && Bytes("<&x") == [60, 38, 120];
    LostIn([38, 108, 116, 59, 38, 120]);
  }

  lemma {:induction false} LostIn(s: seq<Byte>)
    requires s == [38, 108, 116, 59, 38, 120]
    ensures Taken(s, true) == [60, 108, 120] && Decode(s, true) == [60, 38, 120]
  {
    FirstTaken(s);
    TwoLeft();
    PiecesDecode(s, true);
    ThreePieces(s, Pieces(s, true));
  }

  lemma {:induction false} ThreePieces(s: seq<Byte>, ps: seq<Piece>)
    requires |s| > 1 && s[1] == 108 && ps == [Piece([60], false), Piece([38], true), Piece([120], false)]
    ensures Overlaid(s, ps, []) == [60, 108, 120] && AllBytes(ps) == [60, 38, 120]
  {
    var last: seq<Piece> := [Piece([120], false)];
    assert ps[1..][1..] == last && last[1..] == [];
    assert [] + [60] == [60] && [60] + [108] == [60, 108] && [60, 108] + [120] == [60, 108, 120];
    assert Overlaid(s, last, [60, 108]) == Overlaid(s, [], [60, 108] + [120]);
    assert AllBytes(last) == [120] + AllBytes([]) && AllBytes(ps[1..]) == [38] + [120];
  }

  lemma {:induction false} FirstTaken(s: seq<Byte>)
    requires s == [38, 108, 116, 59, 38, 120]
    ensures Pieces(s, true) == [Piece([60], false)] + Pieces([38, 120], true)
  {
    EscapedStep(LT, false, [38, 120]);
    assert Escaped(LT, false) + [38, 120] == s && s[4..] == [38, 120];
  }

  lemma {:induction false} TwoLeft()
    ensures Pieces([38, 120], true) == [Piece([38], true)] + [Piece([120], false)]
  {
    var s: seq<Byte> := [38, 120];
    assert s == [38] + [120] && s[1..] == [120] && [120][1..] == [];
    EntityFound([120]);
    assert EntityAt(s) == 0;
    assert Pieces([120], true) == [Piece([120], false)] + Pieces([], true);
  }
}
