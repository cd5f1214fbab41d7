/** Texts as sequences of tags, marked nodes and character data, in every spelling the parser takes, and how
    the parser reads one token. */
module XmlTokens {
  import opened XmlText
  import opened XmlTree
  import opened XmlRoundTrip

  ghost predicate Blank(s: seq<Byte>) {
    forall i :: 0 <= i < |s| ==> IsSpace(s[i])
  }

  /** An attribute as it is spelled: space before it and around its equals sign, either quote. */
  datatype Spelling = Spelling(before: seq<Byte>, name: seq<Byte>, left: seq<Byte>, right: seq<Byte>, quote: Byte,
                               raw: seq<Byte>)

  datatype Token =
    | Tag(lead: seq<Byte>, slash: bool, name: seq<Byte>, attributes: seq<Spelling>, pad: seq<Byte>, closed: bool)
    | Markup(kind: Kind, raw: seq<Byte>)
    | Characters(raw: seq<Byte>)

  ghost predicate GoodSpelling(a: Spelling) {
    && Blank(a.before) && ValidName(a.name) && Blank(a.left) && Blank(a.right)
    && (a.quote == QUOT || a.quote == APOS) && a.quote !in a.raw
  }

  /** Space before the first attribute separates it from the element's name. */
  ghost predicate GoodTag(t: Token)
    requires t.Tag?
  {
    && Blank(t.lead) && ValidName(t.name) && Blank(t.pad)
    && (forall i :: 0 <= i < |t.attributes| ==> GoodSpelling(t.attributes[i]))
    && (t.attributes != [] ==> t.attributes[0].before != [])
  }

  ghost predicate Without(s: seq<Byte>, marker: seq<Byte>) {
    forall before: seq<Byte>, after: seq<Byte> :: s != before + marker + after
  }

  ghost predicate GoodMarkup(k: Kind, raw: seq<Byte>) {
    && Without(raw, EndOf(k))
    && (k.UnknownKind? ==> !StartsWith(raw, COMMENT_START[2..]) && !StartsWith(raw, CDATA_START[2..]))
  }

  ghost predicate GoodToken(t: Token) {
    match t
    case Tag(_, _, _, _, _, _) => GoodTag(t)
    case Markup(k, raw) => GoodMarkup(k, raw)
    case Characters(raw) => raw != [] && LT !in raw
  }

  /** Character data lasts until the next tag or marked node. */
  ghost predicate GoodTokens(ts: seq<Token>) {
    && (forall i :: 0 <= i < |ts| ==> GoodToken(ts[i]))
    && (forall i :: 0 < i < |ts| ==> !(ts[i - 1].Characters? && ts[i].Characters?))
  }

  ghost function SpellingText(a: Spelling): (s: seq<Byte>) {
    a.before + a.name + a.left + [EQUALS] + a.right + [a.quote] + a.raw + [a.quote]
  }

  ghost function SpellingsText(attributes: seq<Spelling>): (s: seq<Byte>) {
    if attributes == [] then [] else SpellingText(attributes[0]) + SpellingsText(attributes[1..])
  }

  ghost function Slash(slash: bool): (s: seq<Byte>) {
    if slash then [SLASH] else []
  }

  ghost function TagEnd(closed: bool): (s: seq<Byte>) {
    if closed then [SLASH, GT] else [GT]
  }

  ghost function TokenText(t: Token): (s: seq<Byte>) {
    match t
    case Tag(lead, slash, name, attributes, pad, closed) =>
      [LT] + lead + Slash(slash) + name + SpellingsText(attributes) + pad + TagEnd(closed)
    case Markup(k, raw) => StartOf(k) + raw + EndOf(k)
    case Characters(raw) => raw
  }

  ghost function TokensText(ts: seq<Token>): (s: seq<Byte>) {
    if ts == [] then [] else TokenText(ts[0]) + TokensText(ts[1..])
  }

  /** What the spelled attributes say. */
  ghost function Values(attributes: seq<Spelling>): (r: seq<Attribute>)
    ensures |r| == |attributes|
  {
    seq(|attributes|, i requires 0 <= i < |attributes| =>
                        Attribute(attributes[i].name, Taken(attributes[i].raw, true)))
  }

  ghost predicate Distinct(attributes: seq<Attribute>) {
    forall i, j :: 0 <= i < j < |attributes| ==> attributes[i].name != attributes[j].name
  }

  // ----- space -----

  lemma {:induction false} SkipBlank(ws: seq<Byte>, s: seq<Byte>)
    requires Blank(ws)
    ensures SkipSpace(ws + s) == SkipSpace(s)
    ensures s == [] || !IsSpace(s[0]) ==> SkipSpace(ws + s) == s
  {
    if ws == [] {
      assert ws + s == s;
    } else {
      assert (ws + s)[1..] == ws[1..] + s && (ws + s)[0] == ws[0];
      SkipBlank(ws[1..], s);
    }
  }

  /** Neither space nor the start of a tag comes first after the space before character data. */
  lemma {:induction false} SkipCharacters(raw: seq<Byte>, tail: seq<Byte>)
    requires LT !in raw && !Blank(raw)
    ensures (var t := SkipSpace(raw + tail); t != [] && t[0] != LT)
  {
    assert (raw + tail)[0] == raw[0] && raw[0] in raw;
    if IsSpace(raw[0]) {
      assert (raw + tail)[1..] == raw[1..] + tail;
      SkipCharacters(raw[1..], tail);
    }
  }

  // ----- attributes -----

  lemma {:induction false} FirstOf(ws: seq<Byte>, b: Byte, s: seq<Byte>)
    requires Blank(ws) && !IsNameChar(b)
    ensures !IsNameChar((ws + ([b] + s))[0])
  {
    if ws != [] {
      assert (ws + ([b] + s))[0] == ws[0];
    }
  }

  lemma {:induction false} ValueRead(a: Spelling, rest: seq<Byte>)
    requires GoodSpelling(a)
    ensures ParseValue(a.left + ([EQUALS] + (a.right + ([a.quote] + (a.raw + ([a.quote] + rest))))))
         == SomeValue(Taken(a.raw, true), rest)
  {
    var v := a.raw + ([a.quote] + rest);
    var u := [a.quote] + v;
    var t := [EQUALS] + (a.right + u);
    SkipBlank(a.left, t);
    SkipBlank(a.right, u);
    assert t[1..] == a.right + u && u[1..] == v;
    FindAt(a.raw, a.quote, [a.quote] + rest);
    assert v[..|a.raw|] == a.raw && v[|a.raw| + 1..] == rest;
  }

  lemma {:induction false} SpellingGrouped(a: Spelling, rest: seq<Byte>)
    ensures SpellingText(a) + rest
         == a.before + (a.name + (a.left + ([EQUALS] + (a.right + ([a.quote] + (a.raw + ([a.quote] + rest)))))))
  {
  }

  lemma {:induction false} AttributeRead(a: Spelling, seen: seq<Attribute>, rest: seq<Byte>)
    requires GoodSpelling(a)
    ensures (var value := Attribute(a.name, Taken(a.raw, true));
             ParseAttributes(SpellingText(a) + rest, seen)
             == if HasAttribute(seen, a.name) then NoTag else ParseAttributes(rest, seen + [value]))
  {
    var w := a.right + ([a.quote] + (a.raw + ([a.quote] + rest)));
    var v := a.left + ([EQUALS] + w);
    var t := a.name + v;
    SpellingGrouped(a, rest);
    SkipBlank(a.before, t);
    FirstOf(a.left, EQUALS, w);
    NameOf(a.name, v);
    ValueRead(a, rest);
    assert ParseAttribute(t) == SomeAttribute(Attribute(a.name, Taken(a.raw, true)), rest);
  }

  /** The attributes of a tag and its end: an error exactly if a name occurs twice. */
  lemma {:induction false} AttributesRead(attributes: seq<Spelling>, seen: seq<Attribute>, pad: seq<Byte>, closed: bool,
                                          rest: seq<Byte>)
    requires (forall i :: 0 <= i < |attributes| ==> GoodSpelling(attributes[i])) && Blank(pad) && Distinct(seen)
    ensures (var all := seen + Values(attributes);
             ParseAttributes(SpellingsText(attributes) + (pad + (TagEnd(closed) + rest)), seen)
             == if Distinct(all) then ParsedTag.Tag(all, closed, rest) else NoTag)
    decreases |attributes|
  {
    var end := pad + (TagEnd(closed) + rest);
    if attributes == [] {
      assert SpellingsText(attributes) + end == end && seen + Values(attributes) == seen;
      SkipBlank(pad, TagEnd(closed) + rest);
      TagEnds(seen, closed, rest);
      PadSkipped(pad, TagEnd(closed) + rest, seen);
    } else {
      var a, more := attributes[0], attributes[1..];
      var value := Attribute(a.name, Taken(a.raw, true));
      assert Values(attributes) == [value] + Values(more);
      assert seen + Values(attributes) == (seen + [value]) + Values(more);
      assert SpellingsText(attributes) + end == SpellingText(a) + (SpellingsText(more) + end);
      AttributeRead(a, seen, SpellingsText(more) + end);
      DistinctMore(seen, value, Values(more));
      if !HasAttribute(seen, a.name) {
        AttributesRead(more, seen + [value], pad, closed, rest);
      }
    }
  }

  lemma {:induction false} PadSkipped(pad: seq<Byte>, s: seq<Byte>, seen: seq<Attribute>)
    requires Blank(pad)
    ensures ParseAttributes(pad + s, seen) == ParseAttributes(s, seen)
  {
    SkipBlank(pad, s);
  }

  lemma {:induction false} DistinctMore(seen: seq<Attribute>, a: Attribute, more: seq<Attribute>)
    requires Distinct(seen)
    ensures Distinct(seen + [a]) <==> !HasAttribute(seen, a.name)
    ensures HasAttribute(seen, a.name) ==> !Distinct((seen + [a]) + more)
  {
    var s := seen + [a];
    if HasAttribute(seen, a.name) {
      var i :| 0 <= i < |seen| && seen[i].name == a.name;
      assert s[i].name == s[|seen|].name && (s + more)[i].name == (s + more)[|seen|].name;
    }
  }

  // ----- tags -----

  /** Whatever follows a less-than sign, a slash, a name or space makes a tag of it. */
  lemma {:induction false} TagStarts(s: seq<Byte>, depth: nat, declare: bool)
    requires depth < MAX_DEPTH && s != [] && (IsNameStart(s[0]) || s[0] == SLASH || IsSpace(s[0]))
    ensures ParseNodes([LT] + s, depth, declare) == ParseElement(s, depth)
  {
    var t := [LT] + s;
    assert SkipSpace(t) == t && t[1..] == s && t[1] == s[0];
    Differ(t, DECLARATION_START, 1);
    Differ(t, COMMENT_START, 1);
    Differ(t, CDATA_START, 1);
    Differ(t, UNKNOWN_START, 1);
  }

  lemma {:induction false} TagGrouped(t: Token, rest: seq<Byte>)
    requires t.Tag?
    ensures TokenText(t) + rest
         == [LT] + (t.lead + (Slash(t.slash)
            + (t.name + (SpellingsText(t.attributes) + (t.pad + (TagEnd(t.closed) + rest))))))
  {
    var attributes := SpellingsText(t.attributes);
    Grouped([LT], t.lead, Slash(t.slash), t.name, attributes, t.pad, TagEnd(t.closed), rest);
  }

  lemma {:induction false} Grouped(a: seq<Byte>, b: seq<Byte>, c: seq<Byte>, d: seq<Byte>, e: seq<Byte>, f: seq<Byte>,
                                   g: seq<Byte>, h: seq<Byte>)
    ensures a + b + c + d + e + f + g + h == a + (b + (c + (d + (e + (f + (g + h))))))
  {
  }

  lemma {:induction false} NameEnds(t: Token, rest: seq<Byte>)
    requires t.Tag? && GoodTag(t)
    ensures (var s := SpellingsText(t.attributes) + (t.pad + (TagEnd(t.closed) + rest)); s != [] && !IsNameChar(s[0]))
  {
    var end := t.pad + (TagEnd(t.closed) + rest);
    var s := SpellingsText(t.attributes) + end;
    if t.attributes == [] {
      assert s == end;
      assert end[0] == if t.pad == [] then TagEnd(t.closed)[0] else t.pad[0];
    } else {
      var a := t.attributes[0];
      assert s[0] == SpellingText(a)[0] == a.before[0];
    }
  }

  /** What a tag makes of the level it stands in. */
  ghost function TagLevel(t: Token, rest: seq<Byte>, depth: nat): (l: Level)
    requires t.Tag?
  {
    var values := Values(t.attributes);
    if !Distinct(values) then Failed
    else if t.closed then Prepend(Element(t.name, values, Nil), ParseNodes(rest, depth, false))
    else if t.slash then Level(Nil, rest, EndTag(t.name))
    else
      var inner := ParseNodes(rest, depth + 1, false);
      if inner.Failed? || inner.end != EndTag(t.name) then Failed
      else Prepend(Element(t.name, values, inner.nodes), ParseNodes(inner.rest, depth, false))
  }

  lemma {:induction false} TagRead(t: Token, rest: seq<Byte>, depth: nat, declare: bool)
    requires t.Tag? && GoodTag(t) && depth < MAX_DEPTH
    ensures ParseNodes(TokenText(t) + rest, depth, declare) == TagLevel(t, rest, depth)
  {
    var after := SpellingsText(t.attributes) + (t.pad + (TagEnd(t.closed) + rest));
    var u := t.name + after;
    var v := Slash(t.slash) + u;
    var s := t.lead + v;
    TagGrouped(t, rest);
    ElementStarts(t.lead, t.slash, t.name, after, depth, declare);
    NameEnds(t, rest);
    NameOf(t.name, after);
    AttributesRead(t.attributes, [], t.pad, t.closed, rest);
    assert [] + Values(t.attributes) == Values(t.attributes);
    ElementRead(s, v, u, t, after, rest, depth);
  }

  lemma {:induction false} ElementStarts(lead: seq<Byte>, slash: bool, name: seq<Byte>, after: seq<Byte>, depth: nat,
                                         declare: bool)
    requires Blank(lead) && ValidName(name) && depth < MAX_DEPTH
    ensures (var v := Slash(slash) + (name + after);
             var s := lead + v;
             && ParseNodes([LT] + s, depth, declare) == ParseElement(s, depth) && SkipSpace(s) == v
             && v != [] && (v[0] == SLASH <==> slash) && v[if slash then 1 else 0..] == name + after)
  {
    var v := Slash(slash) + (name + after);
    var s := lead + v;
    SlashOrName(slash, name, after);
    SkipBlank(lead, v);
    assert s[0] == if lead == [] then v[0] else lead[0];
    TagStarts(s, depth, declare);
  }

  lemma {:induction false} SlashOrName(slash: bool, name: seq<Byte>, after: seq<Byte>)
    requires ValidName(name)
    ensures (var v := Slash(slash) + (name + after);
             && (v[0] == SLASH <==> slash) && !IsSpace(v[0]) && (IsNameStart(v[0]) || v[0] == SLASH)
             && v[if slash then 1 else 0..] == name + after)
  {
    var v := Slash(slash) + (name + after);
    assert v[0] == if slash then SLASH else name[0];
  }

  lemma {:induction false} ElementRead(s: seq<Byte>, v: seq<Byte>, u: seq<Byte>, t: Token, after: seq<Byte>,
                                       rest: seq<Byte>, depth: nat)
    requires t.Tag? && SkipSpace(s) == v && v != [] && (v[0] == SLASH <==> t.slash)
    requires v[if t.slash then 1 else 0..] == u && 0 < NameLength(u) == |t.name|
    requires u[..|t.name|] == t.name && u[|t.name|..] == after
    requires ParseAttributes(after, [])
          == if Distinct(Values(t.attributes)) then ParsedTag.Tag(Values(t.attributes), t.closed, rest) else NoTag
    ensures ParseElement(s, depth) == TagLevel(t, rest, depth)
  {
    assert v[0..] == v;
    if rest == [] {
      assert ParseNodes(rest, depth + 1, false).Level? ==> ParseNodes(rest, depth + 1, false).end == EndOfInput;
    }
  }

  // ----- marked nodes and character data -----

  /** A marker is found exactly where it occurs. */
  lemma {:induction false} WithoutMarker(s: seq<Byte>, marker: seq<Byte>)
    ensures FindMarker(s, marker) == -1 <==> Without(s, marker)
  {
    var i := FindMarker(s, marker);
    if i >= 0 {
      assert s == s[..i] + marker + s[i + |marker|..];
    }
    forall before: seq<Byte>, after: seq<Byte> | s == before + marker + after ensures i >= 0 {
      MarkerOccurs(before, marker, after);
    }
  }

  lemma {:induction false} MarkerOccurs(before: seq<Byte>, marker: seq<Byte>, after: seq<Byte>)
    ensures FindMarker(before + marker + after, marker) >= 0
  {
    var s := before + marker + after;
    if before == [] {
      assert s[..|marker|] == marker;
    } else if !StartsWith(s, marker) {
      assert s[1..] == before[1..] + marker + after;
      MarkerOccurs(before[1..], marker, after);
    }
  }

  lemma {:induction false} MarkupRead(k: Kind, raw: seq<Byte>, rest: seq<Byte>, depth: nat, declare: bool)
    requires GoodMarkup(k, raw) && depth < MAX_DEPTH
    ensures ParseNodes(StartOf(k) + raw + EndOf(k) + rest, depth, declare)
         == if k.DeclarationKind? && !declare then Failed
            else Prepend(Marked(k, Taken(raw, false)), ParseNodes(rest, depth, k.DeclarationKind?))
  {
    var body := raw + EndOf(k) + rest;
    Regroup4(StartOf(k), raw, EndOf(k), rest);
    if k.UnknownKind? {
      PrefixInside(raw, rest, COMMENT_START[2..]);
      PrefixInside(raw, rest, CDATA_START[2..]);
    }
    if k.DeclarationKind? && !declare {
      LateDeclaration(body, depth);
    } else {
      KindParses(k, body, depth, declare);
      WithoutMarker(raw, EndOf(k));
      MarkerAfter(raw, k, rest);
      assert body[..|raw|] == raw && body[|raw| + |EndOf(k)|..] == rest;
    }
  }

  lemma {:induction false} LateDeclaration(body: seq<Byte>, depth: nat)
    ensures ParseNodes(DECLARATION_START + body, depth, false) == Failed
  {
    var s := DECLARATION_START + body;
    assert SkipSpace(s) == s && s[..2] == DECLARATION_START;
  }

  lemma {:induction false} BlankRead(raw: seq<Byte>, rest: seq<Byte>, depth: nat, declare: bool)
    requires Blank(raw) && (rest == [] || rest[0] == LT)
    ensures ParseNodes(raw + rest, depth, declare) == ParseNodes(rest, depth, declare)
  {
    SkipBlank(raw, rest);
    SkipBlank([], rest);
    assert [] + rest == rest;
  }

  lemma {:induction false} CharactersRead(raw: seq<Byte>, rest: seq<Byte>, depth: nat, declare: bool)
    requires LT !in raw && !Blank(raw) && |rest| >= 2 && rest[0] == LT && depth < MAX_DEPTH
    ensures ParseNodes(raw + rest, depth, declare)
         == Prepend(Text(Taken(raw, true), false), ParseNodes(rest, depth, false))
  {
    SkipCharacters(raw, rest);
    FindAt(raw, LT, rest);
    TextStep(raw, rest, depth, declare);
  }

  lemma {:induction false} LastCharacters(raw: seq<Byte>, depth: nat, declare: bool)
    requires LT !in raw && !Blank(raw)
    ensures ParseNodes(raw, depth, declare) == Failed
  {
    SkipCharacters(raw, []);
    assert raw + [] == raw;
    var t := SkipSpace(raw);
    NotStarted(t, DECLARATION_START);
    NotStarted(t, COMMENT_START);
    NotStarted(t, CDATA_START);
    NotStarted(t, UNKNOWN_START);
    assert Find(raw, LT, 0) == |raw|;
  }
}
