/** The parser's loops: a cursor over the text, moved on by each method and handed to the next.  The text is
    what comes before the terminating NUL, so the end of the input is the end of the sequence. */
module XmlParser {
  import opened XmlText
  import opened XmlTree

  method SkipWhiteSpace(text: seq<Byte>, p: nat) returns (q: nat)
    requires p <= |text|
    ensures p <= q <= |text| && text[q..] == SkipSpace(text[p..])
  {
    q := p;
    while q < |text| && IsSpace(text[q])
      invariant p <= q <= |text| && SkipSpace(text[q..]) == SkipSpace(text[p..])
    {
      assert text[q..][1..] == text[q + 1..];
      q := q + 1;
    }
  }

  /** The end of the name at the cursor; the cursor itself if there is no name. */
  method ParseName(text: seq<Byte>, p: nat) returns (q: nat)
    requires p <= |text|
    ensures q == p + NameLength(text[p..])
  {
    if p == |text| || !IsNameStart(text[p]) {
      return p;
    }
    q := p + 1;
    while q < |text| && IsNameChar(text[q])
      invariant p < q <= |text| && NameEnd(text[p..], q - p) == NameEnd(text[p..], 1)
    {
      q := q + 1;
    }
  }

  /** The content before a marker and the place after it. */
  method ParseText(text: seq<Byte>, p: nat, marker: seq<Byte>) returns (found: bool, content: seq<Byte>, q: nat)
    requires p <= |text| && marker != []
    ensures p <= q <= |text| && found == (FindMarker(text[p..], marker) >= 0)
    ensures found ==> content == text[p..][..FindMarker(text[p..], marker)] && q == p + |content| + |marker|
  {
    q := p;
    while q < |text|
      invariant Scanned(text, p, q, marker)
    {
      if text[q] == marker[0] && StartsWith(text[q..], marker) {
        MarkerHere(text, p, q, marker);
        content := text[p..q];
        return true, content, q + |marker|;
      }
      MarkerLater(text, p, q, marker);
      q := q + 1;
    }
    return false, [], q;
  }

  /** The first marker from `p` on is the first one from `q` on. */
  ghost predicate Scanned(text: seq<Byte>, p: nat, q: nat, marker: seq<Byte>)
    requires marker != []
  {
    && p <= q <= |text|
    && (var from := FindMarker(text[q..], marker);
        FindMarker(text[p..], marker) == if from < 0 then -1 else from + (q - p))
  }

  lemma {:induction false} MarkerHere(text: seq<Byte>, p: nat, q: nat, marker: seq<Byte>)
    requires marker != [] && Scanned(text, p, q, marker) && q < |text| && StartsWith(text[q..], marker)
    ensures FindMarker(text[p..], marker) == q - p && text[p..][..q - p] == text[p..q] && q + |marker| <= |text|
  {
  }

  lemma {:induction false} MarkerLater(text: seq<Byte>, p: nat, q: nat, marker: seq<Byte>)
    requires marker != [] && Scanned(text, p, q, marker) && q < |text|
    requires !(text[q] == marker[0] && StartsWith(text[q..], marker))
    ensures Scanned(text, p, q + 1, marker)
  {
    assert text[q..][1..] == text[q + 1..];
    assert |marker| <= |text[q..]| ==> text[q..][..|marker|][0] == text[q];
  }

  /** Where the quoted value after an equals sign starts, quote included. */
  method FindQuote(text: seq<Byte>, p: nat) returns (found: bool, u: nat)
    requires p <= |text|
    ensures found ==> p < u < |text| && QuoteAt(text[p..], text[u..])
    ensures !found ==> ParseValue(text[p..]).NoValue?
  {
    u := p;
    var t := SkipWhiteSpace(text, p);
    if t == |text| || text[t] != EQUALS {
      return false, u;
    }
    assert text[t..][1..] == text[t + 1..];
    u := SkipWhiteSpace(text, t + 1);
    found := u < |text| && (text[u] == QUOT || text[u] == APOS);
  }

  ghost predicate QuoteAt(s: seq<Byte>, u: seq<Byte>) {
    var t := SkipSpace(s);
    t != [] && t[0] == EQUALS && u != [] && u == SkipSpace(t[1..]) && (u[0] == QUOT || u[0] == APOS)
  }

  lemma {:induction false} ValueFound(s: seq<Byte>, u: seq<Byte>, value: seq<Byte>, rest: seq<Byte>)
    requires QuoteAt(s, u) && FindMarker(u[1..], [u[0]]) == |value|
    requires value == u[1..][..|value|] && rest == u[|value| + 2..]
    ensures ParseValue(s) == SomeValue(Taken(value, true), rest)
  {
    MarkerIsChar(u[1..], u[0]);
    assert u[1..][|value| + 1..] == rest;
  }

  lemma {:induction false} ValueMissing(s: seq<Byte>, u: seq<Byte>)
    requires QuoteAt(s, u) && FindMarker(u[1..], [u[0]]) < 0
    ensures ParseValue(s).NoValue?
  {
    MarkerIsChar(u[1..], u[0]);
  }

  method ParseQuoted(text: seq<Byte>, p: nat) returns (r: ParsedValue, q: nat)
    requires p <= |text|
    ensures r == ParseValue(text[p..])
    ensures r.SomeValue? ==> p < q <= |text| && r.rest == text[q..]
  {
    var found, u := FindQuote(text, p);
    if !found {
      return NoValue, p;
    }
    assert text[u..][1..] == text[u + 1..];
    var value;
    found, value, q := ParseText(text, u + 1, [text[u]]);
    if !found {
      ValueMissing(text[p..], text[u..]);
      return NoValue, q;
    }
    assert text[u..][|value| + 2..] == text[q..];
    ValueFound(text[p..], text[u..], value, text[q..]);
    r := SomeValue(Taken(value, true), text[q..]);
  }

  method ParseOneAttribute(text: seq<Byte>, p: nat) returns (r: ParsedAttribute, q: nat)
    requires p <= |text|
    ensures r == ParseAttribute(text[p..])
    ensures r.SomeAttribute? ==> p < q <= |text| && r.rest == text[q..]
  {
    q := p;
    var n := ParseName(text, p);
    if n == p {
      return NoAttribute, q;
    }
    assert text[p..][n - p..] == text[n..] && text[p..][..n - p] == text[p..n];
    var v, after := ParseQuoted(text, n);
    if v.NoValue? {
      return NoAttribute, q;
    }
    r, q := SomeAttribute(Attribute(text[p..n], v.value), v.rest), after;
  }

  /** The attributes and the end of a tag. */
  method ParseTagEnd(text: seq<Byte>, p: nat) returns (r: ParsedTag, q: nat)
    requires p <= |text|
    ensures r == ParseAttributes(text[p..], [])
    ensures r.Tag? ==> p < q <= |text| && r.rest == text[q..]
  {
    var at, seen := p, [];
    while true
      invariant p <= at <= |text| && ParseAttributes(text[p..], []) == ParseAttributes(text[at..], seen)
      decreases |text| - at
    {
      q := SkipWhiteSpace(text, at);
      if q == |text| {
        return NoTag, q;
      }
      var t := text[q..];
      assert t[0] == text[q] && t[1..] == text[q + 1..];
      if IsNameStart(text[q]) {
        var a, after := ParseOneAttribute(text, q);
        if a.NoAttribute? || HasAttribute(seen, a.attribute.name) {
          return NoTag, q;
        }
        at, seen := after, seen + [a.attribute];
      } else if text[q] == GT {
        return Tag(seen, false, text[q + 1..]), q + 1;
      } else if text[q] == SLASH && q + 1 < |text| && text[q + 1] == GT {
        assert t[2..] == text[q + 2..];
        return Tag(seen, true, text[q + 2..]), q + 2;
      } else {
        return NoTag, q;
      }
    }
  }

  lemma {:induction false} MarkerIsChar(s: seq<Byte>, b: Byte)
    ensures FindMarker(s, [b]) == if Find(s, b, 0) == |s| then -1 else Find(s, b, 0)
  {
    if s != [] && s[0] != b {
      MarkerIsChar(s[1..], b);
      var i := Find(s[1..], b, 0);
      assert forall k :: 1 <= k < i + 1 ==> s[k] == s[1..][k - 1];
      assert s[..1][0] == s[0];
    } else if s != [] {
      assert s[..1] == [b];
    }
  }

  // ----- nodes -----

  /** What stands at the cursor: a node, the end of this level, or an error. */
  datatype Item = Bad | Stop(end: End) | Got(node: Node)

  ghost predicate Read(l: Level, text: seq<Byte>, p: nat, depth: nat, item: Item, q: nat) {
    match item
    case Bad => l.Failed?
    case Stop(end) => p <= q <= |text| && l == Level(Nil, text[q..], end)
    case Got(node) => p < q <= |text| && l == Prepend(node, ParseNodes(text[q..], depth, node.Declaration?))
  }

  lemma {:induction false} ReadEarlier(l: Level, text: seq<Byte>, p: nat, p': nat, depth: nat, item: Item, q: nat)
    requires Read(l, text, p', depth, item, q) && p <= p'
    ensures Read(l, text, p, depth, item, q)
  {
  }

  method ParseUntil(text: seq<Byte>, p: nat, k: Kind, depth: nat) returns (item: Item, q: nat)
    requires p <= |text|
    ensures Read(ParseMarked(text[p..], k, depth), text, p, depth, item, q)
  {
    var found, content;
    found, content, q := ParseText(text, p, EndOf(k));
    if !found {
      return Bad, q;
    }
    assert text[p..][|content| + |EndOf(k)|..] == text[q..];
    item := Got(Marked(k, Taken(content, false)));
    MarkedFound(text, p, k, depth, content, q);
  }

  lemma {:induction false} MarkedFound(text: seq<Byte>, p: nat, k: Kind, depth: nat, content: seq<Byte>, q: nat)
    requires p <= |text| && q <= |text| && FindMarker(text[p..], EndOf(k)) == |content|
    requires content == text[p..][..|content|]
    requires q == p + |content| + |EndOf(k)|
    ensures Read(ParseMarked(text[p..], k, depth), text, p, depth, Got(Marked(k, Taken(content, false))), q)
  {
    assert text[p..][|content| + |EndOf(k)|..] == text[q..];
  }

  /** What a text that is not white space starts with. */
  datatype Start = MarkedStart(k: Kind) | TagStart | CharacterStart

  method Identify(u: seq<Byte>) returns (start: Start)
    requires u != []
    ensures match start
            case MarkedStart(k) => StartsKind(u, k)
            case TagStart => StartsTag(u)
            case CharacterStart => u[0] != LT
  {
    if StartsWith(u, DECLARATION_START) {
      start := MarkedStart(DeclarationKind);
    } else if StartsWith(u, COMMENT_START) {
      start := MarkedStart(CommentKind);
    } else if StartsWith(u, CDATA_START) {
      start := MarkedStart(CDataKind);
    } else if StartsWith(u, UNKNOWN_START) {
      start := MarkedStart(UnknownKind);
    } else {
      start := if u[0] == LT then TagStart else CharacterStart;
    }
  }

  ghost predicate StartsTag(u: seq<Byte>) {
    && u != [] && u[0] == LT && !StartsWith(u, DECLARATION_START) && !StartsWith(u, COMMENT_START)
    && !StartsWith(u, CDATA_START) && !StartsWith(u, UNKNOWN_START)
  }

  method ParseNode(text: seq<Byte>, p: nat, depth: nat, declare: bool) returns (item: Item, q: nat)
    requires p <= |text| && depth < MAX_DEPTH
    ensures Read(ParseNodes(text[p..], depth, declare), text, p, depth, item, q)
    decreases |text| - p, 1
  {
    var t := SkipWhiteSpace(text, p);
    if t == |text| {
      NothingLeft(text[p..], depth, declare);
      return Stop(EndOfInput), t;
    }
    var start := Identify(text[t..]);
    match start
    case MarkedStart(k) =>
      if k.DeclarationKind? && !declare {
        NotHere(text[p..], depth);
        return Bad, t;
      }
      item, q := AfterStart(text, p, t, k, depth, declare);
    case TagStart =>
      TagIs(text[p..], text[t..], depth, declare);
      assert text[t..][1..] == text[t + 1..];
      item, q := ParseElementAt(text, t + 1, depth);
      ReadEarlier(ParseElement(text[t + 1..], depth), text, p, t + 1, depth, item, q);
    case CharacterStart => item, q := ParseTextAt(text, p, depth, declare);
  }

  lemma {:induction false} NothingLeft(s: seq<Byte>, depth: nat, declare: bool)
    requires SkipSpace(s) == [] && depth < MAX_DEPTH
    ensures ParseNodes(s, depth, declare) == Level(Nil, [], EndOfInput)
  {
  }

  lemma {:induction false} NotHere(s: seq<Byte>, depth: nat)
    requires StartsWith(SkipSpace(s), DECLARATION_START)
    ensures ParseNodes(s, depth, false).Failed?
  {
  }

  lemma {:induction false} TagIs(s: seq<Byte>, u: seq<Byte>, depth: nat, declare: bool)
    requires u == SkipSpace(s) && StartsTag(u) && depth < MAX_DEPTH
    ensures ParseNodes(s, depth, declare) == ParseElement(u[1..], depth)
  {
  }

  /** Which kind of marked node a text starts with. */
  ghost predicate StartsKind(u: seq<Byte>, k: Kind) {
    && StartsWith(u, StartOf(k))
    && (!k.DeclarationKind? ==> !StartsWith(u, DECLARATION_START))
    && (k.CDataKind? || k.UnknownKind? ==> !StartsWith(u, COMMENT_START))
    && (k.UnknownKind? ==> !StartsWith(u, CDATA_START))
  }

  method AfterStart(text: seq<Byte>, ghost p: nat, t: nat, k: Kind, depth: nat,
                    ghost declare: bool) returns (item: Item, q: nat)
    requires p <= t < |text| && depth < MAX_DEPTH && text[t..] == SkipSpace(text[p..]) && StartsKind(text[t..], k)
    requires k.DeclarationKind? ==> declare
    ensures Read(ParseNodes(text[p..], depth, declare), text, p, depth, item, q)
  {
    var at := t + |StartOf(k)|;
    item, q := ParseUntil(text, at, k, depth);
    ReadMarked(text, p, t, k, at, depth, declare, item, q);
  }

  lemma {:induction false} ReadMarked(text: seq<Byte>, p: nat, t: nat, k: Kind, at: nat, depth: nat, declare: bool,
                                      item: Item, q: nat)
    requires p <= t < |text| && depth < MAX_DEPTH && text[t..] == SkipSpace(text[p..]) && StartsKind(text[t..], k)
    requires k.DeclarationKind? ==> declare
    requires at == t + |StartOf(k)| <= |text| && Read(ParseMarked(text[at..], k, depth), text, at, depth, item, q)
    ensures Read(ParseNodes(text[p..], depth, declare), text, p, depth, item, q)
  {
    assert text[t..][|StartOf(k)|..] == text[at..];
    KindIs(text[p..], text[t..], k, depth, declare);
    ReadEarlier(ParseMarked(text[at..], k, depth), text, p, at, depth, item, q);
  }

  lemma {:induction false} KindIs(s: seq<Byte>, u: seq<Byte>, k: Kind, depth: nat, declare: bool)
    requires u == SkipSpace(s) && StartsKind(u, k) && depth < MAX_DEPTH && (k.DeclarationKind? ==> declare)
    ensures ParseNodes(s, depth, declare) == ParseMarked(u[|StartOf(k)|..], k, depth)
  {
  }

  method ParseTextAt(text: seq<Byte>, p: nat, depth: nat, ghost declare: bool) returns (item: Item, q: nat)
    requires p < |text| && depth < MAX_DEPTH
    requires (var t := SkipSpace(text[p..]); t != [] && t[0] != LT)
    ensures Read(ParseNodes(text[p..], depth, declare), text, p, depth, item, q)
  {
    var found, content;
    found, content, q := ParseText(text, p, [LT]);
    MarkerIsChar(text[p..], LT);
    NoKind(SkipSpace(text[p..]));
    if !found || q == |text| {
      return Bad, q;
    }
    q := q - 1;
    assert text[p..][|content|..] == text[q..];
    item := Got(Text(Taken(content, true), false));
  }

  lemma {:induction false} NoKind(t: seq<Byte>)
    requires t != [] && t[0] != LT
    ensures !StartsWith(t, DECLARATION_START) && !StartsWith(t, COMMENT_START) && !StartsWith(t, CDATA_START)
            && !StartsWith(t, UNKNOWN_START)
  {
    assert |t| >= 2 ==> t[..2][0] == t[0];
    assert |t| >= 4 ==> t[..4][0] == t[0];
    assert |t| >= 9 ==> t[..9][0] == t[0];
  }

  /** The tag at the cursor: whether it is an end tag, its name, and the attributes and end after that. */
  method ParseTag(text: seq<Byte>, p: nat) returns (ok: bool, closing: bool, name: seq<Byte>, tag: ParsedTag, q: nat)
    requires p <= |text|
    ensures ok ==> TagRead(text[p..], closing, name, tag) && p < q <= |text| && tag.rest == text[q..]
    ensures !ok ==> forall depth :: ParseElement(text[p..], depth).Failed?
  {
    q := SkipWhiteSpace(text, p);
    closing := q < |text| && text[q] == SLASH;
    var u := if closing then q + 1 else q;
    assert closing ==> text[q..][1..] == text[u..];
    var n := ParseName(text, u);
    assert text[u..][..n - u] == text[u..n] && text[u..][n - u..] == text[n..];
    name := text[u..n];
    tag, q := ParseTagEnd(text, n);
    ok := n > u && tag.Tag?;
  }

  ghost predicate TagRead(s: seq<Byte>, closing: bool, name: seq<Byte>, tag: ParsedTag) {
    var t := SkipSpace(s);
    var u := if t != [] && t[0] == SLASH then t[1..] else t;
    && closing == (t != [] && t[0] == SLASH)
    && name != [] && name == u[..NameLength(u)] && tag == ParseAttributes(u[|name|..], []) && tag.Tag?
  }

  ghost function AfterTag(closing: bool, name: seq<Byte>, tag: ParsedTag, depth: nat): (l: Level)
    requires tag.Tag?
  {
    if tag.closed then Prepend(Element(name, tag.attributes, Nil), ParseNodes(tag.rest, depth, false))
    else if closing then Level(Nil, tag.rest, EndTag(name))
    else if tag.rest == [] then Failed
    else
      var inner := ParseNodes(tag.rest, depth + 1, false);
      if inner.Failed? || inner.end != EndTag(name) then Failed
      else Prepend(Element(name, tag.attributes, inner.nodes), ParseNodes(inner.rest, depth, false))
  }

  lemma {:induction false} TagReadIs(s: seq<Byte>, closing: bool, name: seq<Byte>, tag: ParsedTag, depth: nat)
    requires TagRead(s, closing, name, tag)
    ensures ParseElement(s, depth) == AfterTag(closing, name, tag, depth)
  {
  }

  /** An element with everything in it, or an end tag. */
  method ParseElementAt(text: seq<Byte>, p: nat, depth: nat) returns (item: Item, q: nat)
    requires p <= |text| && depth < MAX_DEPTH
    ensures Read(ParseElement(text[p..], depth), text, p, depth, item, q)
    decreases |text| - p, 0
  {
    var ok, closing, name, tag;
    ok, closing, name, tag, q := ParseTag(text, p);
    if !ok {
      return Bad, q;
    }
    TagReadIs(text[p..], closing, name, tag, depth);
    item, q := ParseRest(text, p, q, closing, name, tag, depth);
  }

  method ParseRest(text: seq<Byte>, ghost p: nat, at: nat, closing: bool, name: seq<Byte>, tag: ParsedTag, depth: nat)
    returns (item: Item, q: nat)
    requires p < at <= |text| && depth < MAX_DEPTH && tag.Tag? && tag.rest == text[at..]
    ensures Read(AfterTag(closing, name, tag, depth), text, p, depth, item, q)
    decreases |text| - at, 3
  {
    q := at;
    if tag.closed {
      item := Got(Element(name, tag.attributes, Nil));
    } else if closing {
      item := Stop(EndTag(name));
    } else if at == |text| {
      item := Bad;
    } else {
      var level;
      level, q := ParseDeep(text, at, depth + 1, false);
      if level.Failed? || level.end != EndTag(name) {
        item := Bad;
      } else {
        item := Got(Element(name, tag.attributes, level.nodes));
      }
    }
  }

  function ToNodes(done: seq<Node>, ns: Nodes): (r: Nodes) {
    if done == [] then ns else ToNodes(done[..|done| - 1], Cons(done[|done| - 1], ns))
  }

  ghost function PrependSeq(done: seq<Node>, l: Level): (r: Level) {
    if done == [] then l else PrependSeq(done[..|done| - 1], Prepend(done[|done| - 1], l))
  }

  lemma {:induction false} PrependMore(done: seq<Node>, n: Node, l: Level)
    ensures PrependSeq(done + [n], l) == PrependSeq(done, Prepend(n, l))
  {
    assert (done + [n])[..|done|] == done;
  }

  lemma {:induction false} PrependFailed(done: seq<Node>)
    ensures PrependSeq(done, Failed) == Failed
  {
    if done != [] {
      PrependFailed(done[..|done| - 1]);
    }
  }

  lemma {:induction false} PrependNodes(done: seq<Node>, ns: Nodes, rest: seq<Byte>, end: End)
    ensures PrependSeq(done, Level(ns, rest, end)) == Level(ToNodes(done, ns), rest, end)
  {
    if done != [] {
      PrependNodes(done[..|done| - 1], Cons(done[|done| - 1], ns), rest, end);
    }
  }

  /** All nodes of a level. */
  method ParseDeep(text: seq<Byte>, p: nat, depth: nat, declare: bool) returns (level: Level, q: nat)
    requires p <= |text|
    ensures level == ParseNodes(text[p..], depth, declare)
    ensures level.Level? ==> p <= q <= |text| && level.rest == text[q..]
    decreases |text| - p, 2
  {
    q := p;
    if depth >= MAX_DEPTH {
      return Failed, q;
    }
    var done, allowed := [], declare;
    while true
      invariant p <= q <= |text|
      invariant ParseNodes(text[p..], depth, declare) == PrependSeq(done, ParseNodes(text[q..], depth, allowed))
      decreases |text| - q
    {
      var item;
      item, q := ParseNode(text, q, depth, allowed);
      match item
      case Bad =>
        PrependFailed(done);
        return Failed, q;
      case Stop(end) =>
        PrependNodes(done, Nil, text[q..], end);
        return Level(ToNodes(done, Nil), text[q..], end), q;
      case Got(node) =>
        PrependMore(done, node, ParseNodes(text[q..], depth, node.Declaration?));
        done, allowed := done + [node], node.Declaration?;
    }
  }

  /** Parses a document. */
  method Parse(text: seq<Byte>) returns (d: Document)
    ensures d == ParseDocument(text)
  {
    var p := SkipWhiteSpace(text, 0);
    assert text[0..] == text;
    if StartsWith(text[p..], BYTE_ORDER_MARK) {
      assert text[p..][3..] == text[p + 3..];
      p := p + 3;
    }
    if p == |text| {
      return Error;
    }
    var level, q := ParseDeep(text, p, 1, true);
    d := if level.Failed? then Error else Parsed(level.nodes);
  }
}
