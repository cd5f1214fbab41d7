/** Every text the parser accepts is made of tokens, so the machine decides for all texts. */
module XmlSplitting {
  import opened XmlText
  import opened XmlTree
  import opened XmlRoundTrip
  import opened XmlTokens
  import opened XmlReading

  // ----- names, space and values -----

  lemma {:induction false} LeadingSpace(s: seq<Byte>) returns (ws: seq<Byte>)
    ensures Blank(ws) && s == ws + SkipSpace(s)
  {
    if s != [] && IsSpace(s[0]) {
      var more := LeadingSpace(s[1..]);
      ws := [s[0]] + more;
      assert s == [s[0]] + s[1..];
    } else {
      ws := [];
    }
  }

  lemma {:induction false} NameEndIs(s: seq<Byte>, i: nat)
    requires i <= |s|
    ensures forall k :: i <= k < NameEnd(s, i) ==> IsNameChar(s[k])
    ensures NameEnd(s, i) == |s| || !IsNameChar(s[NameEnd(s, i)])
    decreases |s| - i
  {
    if i < |s| && IsNameChar(s[i]) {
      NameEndIs(s, i + 1);
    }
  }

  lemma {:induction false} NameSplit(s: seq<Byte>)
    requires NameLength(s) > 0
    ensures ValidName(s[..NameLength(s)]) && (NameLength(s) == |s| || !IsNameChar(s[NameLength(s)]))
  {
    NameEndIs(s, 1);
  }

  lemma {:induction false} ValueSplit(s: seq<Byte>)
    returns (left: seq<Byte>, right: seq<Byte>, quote: Byte, raw: seq<Byte>)
    requires ParseValue(s).SomeValue?
    ensures Blank(left) && Blank(right) && (quote == QUOT || quote == APOS) && quote !in raw
    ensures s == left + ([EQUALS] + (right + ([quote] + (raw + ([quote] + ParseValue(s).rest)))))
  {
    var t := SkipSpace(s);
    var u := SkipSpace(t[1..]);
    left := LeadingSpace(s);
    right := LeadingSpace(t[1..]);
    quote := u[0];
    var v := u[1..];
    var end := Find(v, quote, 0);
    raw := v[..end];
    AtByte(v, end);
    AtByte(u, 0);
    AtByte(t, 0);
    NoBytes([u[0]] + u[1..]);
    NoBytes([t[0]] + t[1..]);
  }

  lemma {:induction false} AtByte(s: seq<Byte>, i: nat)
    requires i < |s|
    ensures s == s[..i] + ([s[i]] + s[i + 1..])
  {
  }

  lemma {:induction false} NoBytes(s: seq<Byte>)
    ensures [] + s == s
  {
  }

  lemma {:induction false} Halves(s: seq<Byte>, n: nat)
    requires n <= |s|
    ensures s == s[..n] + s[n..]
  {
  }

  lemma {:induction false} AttributeSplit(t: seq<Byte>, ws: seq<Byte>) returns (a: Spelling)
    requires ParseAttribute(t).SomeAttribute? && Blank(ws)
    ensures GoodSpelling(a) && a.before == ws && ws + t == SpellingText(a) + ParseAttribute(t).rest
  {
    var n := NameLength(t);
    NameSplit(t);
    var left, right, quote, raw := ValueSplit(t[n..]);
    a := Spelling(ws, t[..n], left, right, quote, raw);
    SpellingGrouped(a, ParseAttribute(t).rest);
    Halves(t, n);
  }

  // ----- tags -----

  /** Attributes and the end of their tag; only a name at the start of the text has no space before it. */
  ghost predicate SpelledOut(s: seq<Byte>, attributes: seq<Spelling>, pad: seq<Byte>, tag: ParsedTag) {
    && tag.Tag? && Blank(pad) && (forall i :: 0 <= i < |attributes| ==> GoodSpelling(attributes[i]))
    && s == SpellingsText(attributes) + (pad + (TagEnd(tag.closed) + tag.rest))
    && (attributes != [] && attributes[0].before == [] ==> s != [] && IsNameStart(s[0]))
  }

  lemma {:induction false} AttributesSplit(s: seq<Byte>, seen: seq<Attribute>)
    returns (attributes: seq<Spelling>, pad: seq<Byte>)
    requires ParseAttributes(s, seen).Tag?
    ensures SpelledOut(s, attributes, pad, ParseAttributes(s, seen))
    decreases |s|
  {
    var t, tag := SkipSpace(s), ParseAttributes(s, seen);
    var ws := LeadingSpace(s);
    AttributesNext(s, seen);
    if IsNameStart(t[0]) {
      var a := AttributeSplit(t, ws);
      var r := ParseAttribute(t);
      var more;
      more, pad := AttributesSplit(r.rest, seen + [r.attribute]);
      attributes := [a] + more;
      SpelledFirst(s, ws, t, a, r.rest, more, pad, tag);
    } else {
      attributes, pad := [], ws;
      NoSpelling(s);
    }
  }

  lemma {:induction false} SpelledFirst(s: seq<Byte>, ws: seq<Byte>, t: seq<Byte>, a: Spelling, rest: seq<Byte>,
                                        more: seq<Spelling>, pad: seq<Byte>, tag: ParsedTag)
    requires s == ws + t == SpellingText(a) + rest && GoodSpelling(a) && a.before == ws && t != [] && IsNameStart(t[0])
    requires SpelledOut(rest, more, pad, tag)
    ensures SpelledOut(s, [a] + more, pad, tag)
  {
    SpelledMore(a, more, rest, tag, pad);
    assert ws == [] ==> s == t;
  }

  lemma {:induction false} NoSpelling(s: seq<Byte>)
    ensures SpellingsText([]) + s == s
  {
  }

  lemma {:induction false} AttributesNext(s: seq<Byte>, seen: seq<Attribute>)
    requires ParseAttributes(s, seen).Tag?
    ensures (var t, tag := SkipSpace(s), ParseAttributes(s, seen);
             && t != []
             && if IsNameStart(t[0]) then
                  var a := ParseAttribute(t);
                  a.SomeAttribute? && tag == ParseAttributes(a.rest, seen + [a.attribute])
                else t == TagEnd(tag.closed) + tag.rest)
  {
    var t := SkipSpace(s);
    if !IsNameStart(t[0]) {
      var closed := t[0] != GT;
      assert t == TagEnd(closed) + t[if closed then 2 else 1..];
    }
  }

  lemma {:induction false} SpelledMore(a: Spelling, more: seq<Spelling>, rest: seq<Byte>, tag: ParsedTag,
                                       pad: seq<Byte>)
    requires tag.Tag? && rest == SpellingsText(more) + (pad + (TagEnd(tag.closed) + tag.rest))
    ensures SpellingText(a) + rest == SpellingsText([a] + more) + (pad + (TagEnd(tag.closed) + tag.rest))
  {
    assert ([a] + more)[1..] == more;
    assert SpellingsText([a] + more) == SpellingText(a) + SpellingsText(more);
  }

  ghost predicate HasSlash(v: seq<Byte>) {
    v != [] && v[0] == SLASH
  }

  ghost function Unslashed(v: seq<Byte>): (u: seq<Byte>) {
    if HasSlash(v) then v[1..] else v
  }

  /** The rest of a tag from its name on, if it is one. */
  ghost function TagAfter(u: seq<Byte>): (tag: ParsedTag) {
    if NameLength(u) == 0 then NoTag else ParseAttributes(u[NameLength(u)..], [])
  }

  lemma {:induction false} NamedSplit(u: seq<Byte>) returns (attributes: seq<Spelling>, pad: seq<Byte>)
    requires TagAfter(u).Tag?
    ensures ValidName(u[..NameLength(u)]) && Blank(pad)
    ensures forall i :: 0 <= i < |attributes| ==> GoodSpelling(attributes[i])
    ensures attributes != [] ==> attributes[0].before != []
    ensures (var tag := TagAfter(u);
             u == u[..NameLength(u)] + (SpellingsText(attributes) + (pad + (TagEnd(tag.closed) + tag.rest))))
  {
    var n := NameLength(u);
    NameSplit(u);
    attributes, pad := AttributesSplit(u[n..], []);
    assert n < |u| ==> u[n..][0] == u[n];
    Halves(u, n);
  }

  /** What a tag is made of, once its attributes parse. */
  lemma {:induction false} TagSplit(s: seq<Byte>) returns (t: Token)
    requires TagAfter(Unslashed(SkipSpace(s))).Tag?
    ensures t.Tag? && GoodTag(t) && [LT] + s == TokenText(t) + TagAfter(Unslashed(SkipSpace(s))).rest
  {
    var v := SkipSpace(s);
    var u, tag := Unslashed(v), TagAfter(Unslashed(v));
    var lead := LeadingSpace(s);
    var attributes, pad := NamedSplit(u);
    t := Token.Tag(lead, HasSlash(v), u[..NameLength(u)], attributes, pad, tag.closed);
    SlashSplit(v);
    TagGrouped(t, tag.rest);
  }

  lemma {:induction false} SlashSplit(v: seq<Byte>)
    ensures v == Slash(HasSlash(v)) + Unslashed(v)
  {
  }

  // ----- marked nodes -----

  /** Where a marker is found, it is found first. */
  lemma {:induction false} FoundFirst(s: seq<Byte>, marker: seq<Byte>)
    requires FindMarker(s, marker) >= 0 && marker != []
    ensures FindMarker(s[..FindMarker(s, marker)], marker) == -1
  {
    var i := FindMarker(s, marker);
    if i > 0 {
      assert s[1..][..i - 1] == s[..i][1..];
      FoundFirst(s[1..], marker);
      ShorterStart(s, i, marker);
    }
  }

  lemma {:induction false} MarkedSplit(k: Kind, body: seq<Byte>) returns (t: Token)
    requires FindMarker(body, EndOf(k)) >= 0
    requires k.UnknownKind? ==> !StartsWith(body, COMMENT_START[2..]) && !StartsWith(body, CDATA_START[2..])
    ensures GoodToken(t) && t.Markup?
    ensures (var i := FindMarker(body, EndOf(k));
             StartOf(k) + body == TokenText(t) + body[i + |EndOf(k)|..])
  {
    var i := FindMarker(body, EndOf(k));
    var raw, rest := body[..i], body[i + |EndOf(k)|..];
    t := Markup(k, raw);
    FoundFirst(body, EndOf(k));
    WithoutMarker(raw, EndOf(k));
    ShorterStart(body, i, COMMENT_START[2..]);
    ShorterStart(body, i, CDATA_START[2..]);
    Around(body, i, EndOf(k));
    Regroup4(StartOf(k), raw, EndOf(k), rest);
  }

  lemma {:induction false} Around(s: seq<Byte>, i: nat, marker: seq<Byte>)
    requires i + |marker| <= |s| && s[i..i + |marker|] == marker
    ensures s == s[..i] + marker + s[i + |marker|..]
  {
  }

  lemma {:induction false} ShorterStart(s: seq<Byte>, i: nat, prefix: seq<Byte>)
    requires i <= |s|
    ensures StartsWith(s[..i], prefix) ==> StartsWith(s, prefix)
  {
    assert |prefix| <= i ==> s[..i][..|prefix|] == s[..|prefix|];
  }

  // ----- levels -----

  lemma {:induction false} TextsJoin(a: seq<Token>, b: seq<Token>)
    ensures TokensText(a + b) == TokensText(a) + TokensText(b)
  {
    if a == [] {
      assert a + b == b;
    } else {
      assert (a + b)[1..] == a[1..] + b && (a + b)[0] == a[0];
      TextsJoin(a[1..], b);
    }
  }

  lemma {:induction false} GoodJoin(a: seq<Token>, b: seq<Token>)
    requires GoodTokens(a) && GoodTokens(b) && !(LastIsCharacters(a) && b != [] && b[0].Characters?)
    ensures GoodTokens(a + b)
  {
  }

  ghost function Spaced(ws: seq<Byte>): (ts: seq<Token>) {
    if ws == [] then [] else [Characters(ws)]
  }

  /** The tokens of a part of a level: space, a tag or marked node, and what comes after it. */
  ghost predicate Splits(s: seq<Byte>, ts: seq<Token>, rest: seq<Byte>) {
    GoodTokens(ts) && s == TokensText(ts) + rest
  }

  lemma {:induction false} SplitMore(s: seq<Byte>, a: seq<Token>, mid: seq<Byte>, b: seq<Token>, rest: seq<Byte>)
    requires Splits(s, a, mid) && Splits(mid, b, rest) && !(LastIsCharacters(a) && b != [] && b[0].Characters?)
    ensures Splits(s, a + b, rest)
    ensures b != [] ==> (LastIsCharacters(a + b) <==> LastIsCharacters(b))
  {
    TextsJoin(a, b);
    GoodJoin(a, b);
    Regroup(TokensText(a), TokensText(b), rest);
    LastOf(a, b);
  }

  lemma {:induction false} LastOf(a: seq<Token>, b: seq<Token>)
    ensures b != [] ==> (LastIsCharacters(a + b) <==> LastIsCharacters(b))
  {
    assert b != [] ==> (a + b)[|a + b| - 1] == b[|b| - 1];
  }

  lemma {:induction false} SplitOne(t: Token, rest: seq<Byte>)
    requires GoodToken(t)
    ensures Splits(TokenText(t) + rest, [t], rest)
  {
    OneToken(START, t, rest);
  }

  lemma {:induction false} SplitSpace(ws: seq<Byte>, rest: seq<Byte>)
    requires Blank(ws)
    ensures Splits(ws + rest, Spaced(ws), rest)
  {
    if ws == [] {
      assert ws + rest == TokensText([]) + rest;
    } else {
      SplitOne(Characters(ws), rest);
    }
  }

  /** Space and a tag or marked node. */
  lemma {:induction false} SplitSpaced(ws: seq<Byte>, t: Token, rest: seq<Byte>)
    requires Blank(ws) && GoodToken(t) && !t.Characters?
    ensures Splits(ws + (TokenText(t) + rest), Spaced(ws) + [t], rest)
    ensures !LastIsCharacters(Spaced(ws) + [t])
  {
    SplitSpace(ws, TokenText(t) + rest);
    SplitOne(t, rest);
    SplitMore(ws + (TokenText(t) + rest), Spaced(ws), TokenText(t) + rest, [t], rest);
  }

  /** A split of what a level has read: the end of the input is its end, an end tag its last token. */
  ghost predicate LevelSplit(s: seq<Byte>, ts: seq<Token>, l: Level) {
    && l.Level? && Splits(s, ts, l.rest) && (l.rest != [] ==> l.end.EndTag?)
    && (l.end.EndTag? ==> ts != [] && !LastIsCharacters(ts))
  }

  lemma {:induction false} SplitNext(s: seq<Byte>, a: seq<Token>, mid: seq<Byte>, b: seq<Token>, l: Level)
    requires Splits(s, a, mid) && LevelSplit(mid, b, l) && (LastIsCharacters(a) ==> mid != [] && mid[0] == LT)
    ensures LevelSplit(s, a + b, l)
  {
    if b != [] && b[0].Characters? {
      HeadToken(b, l.rest);
      assert mid[0] == b[0].raw[0];
    }
    SplitMore(s, a, mid, b, l.rest);
  }

  // ----- what a level has read -----

  /** The recursive calls of the parser on an element, and what they add up to. */
  lemma {:induction false} ElementLevel(s: seq<Byte>, depth: nat)
    requires ParseElement(s, depth).Level?
    ensures (var v := SkipSpace(s);
             var tag, l := TagAfter(Unslashed(v)), ParseElement(s, depth);
             && tag.Tag? && |tag.rest| < |s|
             && if tag.closed then
                  var next := ParseNodes(tag.rest, depth, false);
                  next.Level? && l.rest == next.rest && l.end == next.end
                else if HasSlash(v) then l.rest == tag.rest && l.end.EndTag?
                else
                  var inner := ParseNodes(tag.rest, depth + 1, false);
                  && inner.Level? && inner.end.EndTag?
                  && (var next := ParseNodes(inner.rest, depth, false);
                      next.Level? && l.rest == next.rest && l.end == next.end))
  {
  }

  lemma {:induction false} ElementSplit(s: seq<Byte>, ws: seq<Byte>, depth: nat) returns (ts: seq<Token>)
    requires ParseElement(s, depth).Level? && Blank(ws)
    ensures LevelSplit(ws + ([LT] + s), ts, ParseElement(s, depth))
    decreases |s|, 0
  {
    var v, l := SkipSpace(s), ParseElement(s, depth);
    var tag := TagAfter(Unslashed(v));
    ElementLevel(s, depth);
    var t := TagSplit(s);
    SplitSpaced(ws, t, tag.rest);
    var a := Spaced(ws) + [t];
    if tag.closed {
      var b := NodesSplit(tag.rest, depth, false);
      SplitOn(ws + ([LT] + s), a, tag.rest, b, ParseNodes(tag.rest, depth, false), l);
      ts := a + b;
    } else if HasSlash(v) {
      ts := a;
    } else {
      var inner := ParseNodes(tag.rest, depth + 1, false);
      var b := NodesSplit(tag.rest, depth + 1, false);
      SplitMore(ws + ([LT] + s), a, tag.rest, b, inner.rest);
      var c := NodesSplit(inner.rest, depth, false);
      SplitOn(ws + ([LT] + s), a + b, inner.rest, c, ParseNodes(inner.rest, depth, false), l);
      ts := a + b + c;
    }
  }

  lemma {:induction false} SplitOn(s: seq<Byte>, a: seq<Token>, mid: seq<Byte>, b: seq<Token>, next: Level, l: Level)
    requires Splits(s, a, mid) && LevelSplit(mid, b, next) && !LastIsCharacters(a)
    requires l.Level? && l.rest == next.rest && l.end == next.end
    ensures LevelSplit(s, a + b, l)
  {
    SplitNext(s, a, mid, b, next);
  }

  lemma {:induction false} MarkedLevel(k: Kind, body: seq<Byte>, depth: nat)
    requires ParseMarked(body, k, depth).Level?
    ensures (var i, l := FindMarker(body, EndOf(k)), ParseMarked(body, k, depth);
             && i >= 0
             && (var next := ParseNodes(body[i + |EndOf(k)|..], depth, k.DeclarationKind?);
                 next.Level? && l.rest == next.rest && l.end == next.end))
  {
    var i := FindMarker(body, EndOf(k));
    var next := ParseNodes(body[i + |EndOf(k)|..], depth, k.DeclarationKind?);
    assert ParseMarked(body, k, depth) == Prepend(Marked(k, Taken(body[..i], false)), next);
  }

  /** A marked node that has been found, and what follows it. */
  lemma {:induction false} MarkupSplit(s: seq<Byte>, ws: seq<Byte>, t: Token, rest: seq<Byte>, depth: nat,
                                       declare: bool, l: Level) returns (ts: seq<Token>)
    requires Blank(ws) && GoodToken(t) && t.Markup? && s == ws + (TokenText(t) + rest) && l.Level?
    requires (var next := ParseNodes(rest, depth, declare);
              next.Level? && l.rest == next.rest && l.end == next.end)
    ensures LevelSplit(s, ts, l)
    decreases |rest|, 2
  {
    SplitSpaced(ws, t, rest);
    var b := NodesSplit(rest, depth, declare);
    SplitOn(s, Spaced(ws) + [t], rest, b, ParseNodes(rest, depth, declare), l);
    ts := Spaced(ws) + [t] + b;
  }

  lemma {:induction false} TextSplit(s: seq<Byte>, i: nat, depth: nat, l: Level) returns (ts: seq<Token>)
    requires 0 < i == Find(s, LT, 0) < |s| && l.Level?
    requires (var next := ParseNodes(s[i..], depth, false);
              next.Level? && l.rest == next.rest && l.end == next.end)
    ensures LevelSplit(s, ts, l)
    decreases |s|, 0
  {
    var raw, next := s[..i], ParseNodes(s[i..], depth, false);
    assert s == raw + s[i..];
    SplitOne(Characters(raw), s[i..]);
    var b := NodesSplit(s[i..], depth, false);
    SplitNext(s, [Characters(raw)], s[i..], b, next);
    ts := [Characters(raw)] + b;
  }

  ghost predicate StartsMarked(t: seq<Byte>) {
    StartsWith(t, DECLARATION_START) || StartsWith(t, UNKNOWN_START)
  }

  ghost function KindOf(t: seq<Byte>): (k: Kind) {
    if StartsWith(t, DECLARATION_START) then DeclarationKind
    else if StartsWith(t, COMMENT_START) then CommentKind
    else if StartsWith(t, CDATA_START) then CDataKind
    else UnknownKind
  }

  lemma {:induction false} LongerStart(t: seq<Byte>, start: seq<Byte>)
    requires |start| >= 2 && start[..2] == UNKNOWN_START && StartsWith(t, start)
    ensures StartsWith(t, UNKNOWN_START)
  {
    assert t[..|start|][..2] == t[..2];
  }

  lemma {:induction false} KindSplit(t: seq<Byte>)
    requires StartsMarked(t)
    ensures (var k := KindOf(t);
             && |StartOf(k)| <= |t| && t == StartOf(k) + t[|StartOf(k)|..]
             && (k.UnknownKind? ==> !StartsWith(t[2..], COMMENT_START[2..]) && !StartsWith(t[2..], CDATA_START[2..])))
  {
    var k := KindOf(t);
    assert StartsWith(t, StartOf(k));
    assert t == t[..|StartOf(k)|] + t[|StartOf(k)|..];
    if k.UnknownKind? {
      StartsBefore(t[2..], COMMENT_START);
      StartsBefore(t[2..], CDATA_START);
    }
  }

  lemma {:induction false} NodesLevel(s: seq<Byte>, depth: nat, declare: bool)
    requires ParseNodes(s, depth, declare).Level?
    ensures (var t, l := SkipSpace(s), ParseNodes(s, depth, declare);
             if t == [] then l == Level(Nil, [], EndOfInput)
             else if StartsMarked(t) then
               |StartOf(KindOf(t))| <= |t| && l == ParseMarked(t[|StartOf(KindOf(t))|..], KindOf(t), depth)
             else if t[0] == LT then l == ParseElement(t[1..], depth)
             else
               var i := Find(s, LT, 0);
               && 0 < i < |s|
               && (var next := ParseNodes(s[i..], depth, false);
                   next.Level? && l.rest == next.rest && l.end == next.end))
  {
    var t := SkipSpace(s);
    if StartsWith(t, COMMENT_START) {
      LongerStart(t, COMMENT_START);
    }
    if StartsWith(t, CDATA_START) {
      LongerStart(t, CDATA_START);
    }
    if t != [] && !StartsMarked(t) && t[0] != LT {
      assert Find(s, LT, 0) > 0;
    }
  }

  /** Whatever a level of the parser has read is made of tokens. */
  lemma {:induction false} NodesSplit(s: seq<Byte>, depth: nat, declare: bool) returns (ts: seq<Token>)
    requires ParseNodes(s, depth, declare).Level?
    ensures LevelSplit(s, ts, ParseNodes(s, depth, declare))
    decreases |s|, 1
  {
    var t, l := SkipSpace(s), ParseNodes(s, depth, declare);
    var ws := LeadingSpace(s);
    NodesLevel(s, depth, declare);
    if t == [] {
      SplitSpace(ws, []);
      ts := Spaced(ws);
    } else if StartsMarked(t) {
      ts := KindLevelSplit(s, ws, t, depth, l);
    } else if t[0] == LT {
      assert t == [LT] + t[1..];
      ts := ElementSplit(t[1..], ws, depth);
    } else {
      ts := TextSplit(s, Find(s, LT, 0), depth, l);
    }
  }

  lemma {:induction false} KindLevelSplit(s: seq<Byte>, ws: seq<Byte>, t: seq<Byte>, depth: nat, l: Level)
    returns (ts: seq<Token>)
    requires Blank(ws) && s == ws + t && StartsMarked(t) && |StartOf(KindOf(t))| <= |t| && l.Level?
    requires l == ParseMarked(t[|StartOf(KindOf(t))|..], KindOf(t), depth)
    ensures LevelSplit(s, ts, l)
    decreases |s|, 0
  {
    var k := KindOf(t);
    var body := t[|StartOf(k)|..];
    KindSplit(t);
    MarkedLevel(k, body, depth);
    var token := MarkedSplit(k, body);
    ts := MarkupSplit(s, ws, token, body[FindMarker(body, EndOf(k)) + |EndOf(k)|..], depth, k.DeclarationKind?, l);
  }

  lemma {:induction false} StartsBefore(body: seq<Byte>, start: seq<Byte>)
    requires |start| >= 2 && start[..2] == UNKNOWN_START
    ensures StartsWith(body, start[2..]) ==> StartsWith(UNKNOWN_START + body, start)
  {
    var s := UNKNOWN_START + body;
    assert |start| <= |s| ==> s[..|start|] == UNKNOWN_START + body[..|start| - 2];
    assert start == UNKNOWN_START + start[2..];
  }

  // ----- documents -----

  lemma {:induction false} SomeRead(s: seq<Byte>, depth: nat, declare: bool)
    requires s != [] && ParseNodes(s, depth, declare).Level?
    ensures |ParseNodes(s, depth, declare).rest| < |s|
  {
    NodesLevel(s, depth, declare);
  }

  lemma {:induction false} OnTopRest(ns: seq<Node>, l: Level)
    ensures (var r := OnTop(ns, l); (r.Level? <==> l.Level?) && (r.Level? ==> r.rest == l.rest))
  {
    if ns != [] {
      OnTopRest(ns[1..], l);
    }
  }

  lemma {:induction false} ResumeRest(frames: seq<Frame>, l: Level)
    requires Resume(frames, l).Level?
    ensures l.Level? && |Resume(frames, l).rest| <= |l.rest|
    decreases |frames|
  {
    if frames != [] {
      var f := frames[|frames| - 1];
      var element := Element(f.name, f.attributes, l.nodes);
      var outer := Prepend(element, ParseNodes(l.rest, |frames|, false));
      ResumeLast(frames, l);
      ResumeRest(frames[..|frames| - 1], OnTop(f.before, outer));
      OnTopRest(f.before, outer);
    }
  }

  /** Whatever is open, parsing on reads something. */
  lemma {:induction false} WholeRest(st: State, s: seq<Byte>)
    requires s != [] && Whole(st, s).Level?
    ensures |Whole(st, s).rest| < |s|
  {
    var l := ParseNodes(s, Depth(st), st.declare);
    ResumeRest(st.frames, OnTop(st.nodes, l));
    OnTopRest(st.nodes, l);
    SomeRead(s, Depth(st), st.declare);
  }

  /** A text in tokens, and after a token that decides anything. */
  ghost predicate MadeOf(s: seq<Byte>, space: seq<Byte>, bom: bool, ts: seq<Token>, tail: seq<Byte>) {
    && GoodDocument(space, bom, ts) && s == DocumentText(space, bom, ts) + tail
    && (Run(START, ts).Running? ==> tail == [])
  }

  /** If the machine goes on after the tokens of a level, nothing is left. */
  lemma {:induction false} NothingLeft(body: seq<Byte>, ts: seq<Token>)
    requires LevelSplit(body, ts, ParseNodes(body, 1, true)) && Run(START, ts).Running?
    ensures ParseNodes(body, 1, true).rest == []
  {
    var tail := ParseNodes(body, 1, true).rest;
    if tail != [] {
      TokensTaken(START, ts, tail);
      StartWhole(body);
      WholeRest(Run(START, ts).state, tail);
    }
  }

  lemma {:induction false} DocumentSplit(s: seq<Byte>)
    returns (space: seq<Byte>, bom: bool, ts: seq<Token>, tail: seq<Byte>)
    requires ParseDocument(s).Parsed?
    ensures MadeOf(s, space, bom, ts, tail)
  {
    var t := SkipSpace(s);
    space := LeadingSpace(s);
    bom := StartsWith(t, BYTE_ORDER_MARK);
    var body := if bom then t[3..] else t;
    assert t == Mark(bom) + body;
    ts := NodesSplit(body, 1, true);
    tail := ParseNodes(body, 1, true).rest;
    if Run(START, ts).Running? {
      NothingLeft(body, ts);
    }
    if !bom && ts != [] && ts[0].Characters? {
      HeadToken(ts, tail);
      FirstCharacters(ts[0].raw, TokensText(ts[1..]) + tail);
    }
    BodyText(space, Mark(bom), TokensText(ts), tail);
  }

  lemma {:induction false} FirstCharacters(raw: seq<Byte>, rest: seq<Byte>)
    requires raw != []
    ensures (raw + rest)[0] == raw[0] && (StartsWith(raw, BYTE_ORDER_MARK) ==> StartsWith(raw + rest, BYTE_ORDER_MARK))
  {
    assert |raw| >= 3 ==> (raw + rest)[..3] == raw[..3];
  }

  /** The parser accepts a text, as these nodes, exactly if it is made of tokens of which the machine makes them. */
  lemma {:induction false} AcceptedExactly(s: seq<Byte>, nodes: Nodes)
    ensures ParseDocument(s) == Parsed(nodes) <==>
            exists space, bom, ts, tail ::
              MadeOf(s, space, bom, ts, tail) && Result(Run(START, ts), ts) == Parsed(nodes)
  {
    if ParseDocument(s) == Parsed(nodes) {
      var space, bom, ts, tail := DocumentSplit(s);
      DocumentRead(space, bom, ts, tail);
      assert MadeOf(s, space, bom, ts, tail);
    }
    if space, bom, ts, tail :| MadeOf(s, space, bom, ts, tail) && Result(Run(START, ts), ts) == Parsed(nodes) {
      DocumentRead(space, bom, ts, tail);
    }
  }
}
