/** Which texts the parser accepts and what it makes of them, by a machine that reads one token at a time and
    keeps the elements that are open on a stack. */
module XmlReading {
  import opened XmlText
  import opened XmlTree
  import opened XmlRoundTrip
  import opened XmlTokens

  // ----- the machine -----

  /** An open element and the nodes before it in its parent. */
  datatype Frame = Frame(name: seq<Byte>, attributes: seq<Attribute>, before: seq<Node>)

  /** The open elements from the outermost on, the nodes so far of the innermost, and whether a declaration may
      come next. */
  datatype State = State(frames: seq<Frame>, nodes: seq<Node>, declare: bool)

  datatype Outcome = Rejected | Finished(nodes: seq<Node>) | Running(state: State)

  const START: State := State([], [], true)

  ghost function List(ns: seq<Node>): (r: Nodes) {
    if ns == [] then Nil else Cons(ns[0], List(ns[1..]))
  }

  ghost function Add(st: State, n: Node): (st': State) {
    State(st.frames, st.nodes + [n], false)
  }

  /** An end tag closes the innermost element and must have its name; without any open element it ends the
      document.  At most 98 elements are open at a time. */
  ghost function TakeTag(st: State, t: Token): (o: Outcome)
    requires t.Tag?
  {
    var values, open := Values(t.attributes), |st.frames|;
    if !Distinct(values) then Rejected
    else if t.closed then Running(Add(st, Element(t.name, values, Nil)))
    else if !t.slash then
      if open == 98 then Rejected else Running(State(st.frames + [Frame(t.name, values, st.nodes)], [], false))
    else if open == 0 then Finished(st.nodes)
    else
      var f := st.frames[open - 1];
      if f.name != t.name then Rejected
      else Running(State(st.frames[..open - 1], f.before + [Element(f.name, f.attributes, List(st.nodes))], false))
  }

  ghost function Take(st: State, t: Token): (o: Outcome) {
    match t
    case Tag(_, _, _, _, _, _) => TakeTag(st, t)
    case Markup(k, raw) =>
      if k.DeclarationKind? && !st.declare then Rejected
      else Running(Add(st, Marked(k, Taken(raw, false))).(declare := k.DeclarationKind?))
    case Characters(raw) =>
      Running(if Blank(raw) then st else Add(st, Text(Taken(raw, true), false)))
  }

  ghost function Run(st: State, ts: seq<Token>): (o: Outcome)
    decreases |ts|
  {
    if ts == [] then Running(st)
    else var o := Take(st, ts[0]); if o.Running? then Run(o.state, ts[1..]) else o
  }

  ghost predicate LastIsCharacters(ts: seq<Token>) {
    ts != [] && ts[|ts| - 1].Characters?
  }

  ghost predicate EndsInCharacters(ts: seq<Token>) {
    LastIsCharacters(ts) && !Blank(ts[|ts| - 1].raw)
  }

  /** At the end of the text no element is open and no character data is last. */
  ghost function Result(o: Outcome, ts: seq<Token>): (d: Document) {
    match o
    case Rejected => Error
    case Finished(ns) => Parsed(List(ns))
    case Running(st) =>
      if ts != [] && st.frames == [] && !EndsInCharacters(ts) then Parsed(List(st.nodes)) else Error
  }

  // ----- what is left to parse -----

  ghost function OnTop(ns: seq<Node>, l: Level): (l': Level) {
    if ns == [] then l else Prepend(ns[0], OnTop(ns[1..], l))
  }

  /** What the enclosing levels make of the innermost one. */
  ghost function Resume(frames: seq<Frame>, l: Level): (l': Level) {
    if frames == [] then l
    else
      var f := frames[|frames| - 1];
      if l.Failed? || l.end != EndTag(f.name) then Failed
      else
        var after := ParseNodes(l.rest, |frames|, false);
        Resume(frames[..|frames| - 1], OnTop(f.before, Prepend(Element(f.name, f.attributes, l.nodes), after)))
  }

  ghost function Rejoin(st: State, l: Level): (l': Level) {
    Resume(st.frames, OnTop(st.nodes, l))
  }

  ghost function Depth(st: State): (d: nat) {
    1 + |st.frames|
  }

  ghost function Whole(st: State, s: seq<Byte>): (l: Level) {
    Rejoin(st, ParseNodes(s, Depth(st), st.declare))
  }

  ghost predicate Fits(st: State) {
    |st.frames| <= 98
  }

  lemma {:induction false} OnTopMore(ns: seq<Node>, n: Node, l: Level)
    ensures OnTop(ns + [n], l) == OnTop(ns, Prepend(n, l))
  {
    if ns == [] {
      assert ns + [n] == [n] && [n][1..] == [];
    } else {
      assert (ns + [n])[1..] == ns[1..] + [n] && (ns + [n])[0] == ns[0];
      OnTopMore(ns[1..], n, l);
    }
  }

  lemma {:induction false} OnTopLevel(ns: seq<Node>, rest: seq<Byte>, end: End)
    ensures OnTop(ns, Level(Nil, rest, end)) == Level(List(ns), rest, end)
  {
    if ns != [] {
      OnTopLevel(ns[1..], rest, end);
    }
  }

  lemma {:induction false} OnTopFailed(ns: seq<Node>)
    ensures OnTop(ns, Failed) == Failed
  {
    if ns != [] {
      OnTopFailed(ns[1..]);
    }
  }

  lemma {:induction false} FailedWhole(st: State, s: seq<Byte>)
    requires ParseNodes(s, Depth(st), st.declare) == Failed
    ensures Whole(st, s) == Failed
  {
    OnTopFailed(st.nodes);
  }

  lemma {:induction false} AddedWhole(st: State, s: seq<Byte>, n: Node, rest: seq<Byte>, declare: bool)
    requires ParseNodes(s, Depth(st), st.declare) == Prepend(n, ParseNodes(rest, Depth(st), declare))
    ensures Whole(st, s) == Whole(State(st.frames, st.nodes + [n], declare), rest)
  {
    RejoinMore(st, n, declare, ParseNodes(rest, Depth(st), declare));
  }

  lemma {:induction false} RejoinMore(st: State, n: Node, declare: bool, l: Level)
    ensures Rejoin(st, Prepend(n, l)) == Rejoin(State(st.frames, st.nodes + [n], declare), l)
  {
    OnTopMore(st.nodes, n, l);
  }

  // ----- one token -----

  ghost predicate Follows(o: Outcome, l: Level, rest: seq<Byte>) {
    match o
    case Rejected => l == Failed
    case Finished(ns) => l.Level? && l.nodes == List(ns)
    case Running(st) => Fits(st) && l == Whole(st, rest)
  }

  lemma {:induction false} ResumeOpen(frames: seq<Frame>, f: Frame, l: Level)
    ensures Resume(frames + [f], l)
         == if l.Failed? || l.end != EndTag(f.name) then Failed
            else Resume(frames, OnTop(f.before, Prepend(Element(f.name, f.attributes, l.nodes),
                                                        ParseNodes(l.rest, 1 + |frames|, false))))
  {
    var more := frames + [f];
    assert more[..|more| - 1] == frames && more[|more| - 1] == f;
  }

  lemma {:induction false} OpenRead(st: State, s: seq<Byte>, t: Token, rest: seq<Byte>)
    requires Fits(st) && t.Tag? && !t.slash && !t.closed && Distinct(Values(t.attributes))
    requires ParseNodes(s, Depth(st), st.declare) == TagLevel(t, rest, Depth(st))
    ensures Follows(TakeTag(st, t), Whole(st, s), rest)
  {
    var inner := ParseNodes(rest, Depth(st) + 1, false);
    var f := Frame(t.name, Values(t.attributes), st.nodes);
    if inner.Failed? || inner.end != EndTag(t.name) {
      FailedWhole(st, s);
    }
    Opened(st, f, inner);
  }

  lemma {:induction false} Opened(st: State, f: Frame, inner: Level)
    requires f.before == st.nodes
    ensures Rejoin(State(st.frames + [f], [], false), inner)
         == if inner.Failed? || inner.end != EndTag(f.name) then Failed
            else Rejoin(st, Prepend(Element(f.name, f.attributes, inner.nodes),
                                    ParseNodes(inner.rest, Depth(st), false)))
    ensures Depth(State(st.frames + [f], [], false)) == Depth(st) + 1
  {
    ResumeOpen(st.frames, f, inner);
    assert OnTop([], inner) == inner;
  }

  lemma {:induction false} EndRead(st: State, s: seq<Byte>, t: Token, rest: seq<Byte>)
    requires Fits(st) && t.Tag? && t.slash && !t.closed && Distinct(Values(t.attributes))
    requires ParseNodes(s, Depth(st), st.declare) == TagLevel(t, rest, Depth(st))
    ensures Follows(TakeTag(st, t), Whole(st, s), rest)
  {
    OnTopLevel(st.nodes, rest, EndTag(t.name));
    if |st.frames| > 0 {
      var f := st.frames[|st.frames| - 1];
      var element := Element(f.name, f.attributes, List(st.nodes));
      ResumeLast(st.frames, Level(List(st.nodes), rest, EndTag(t.name)));
      OnTopMore(f.before, element, ParseNodes(rest, |st.frames|, false));
    }
  }

  lemma {:induction false} ResumeLast(frames: seq<Frame>, l: Level)
    requires frames != []
    ensures (var f := frames[|frames| - 1];
             Resume(frames, l)
             == if l.Failed? || l.end != EndTag(f.name) then Failed
                else Resume(frames[..|frames| - 1],
                            OnTop(f.before, Prepend(Element(f.name, f.attributes, l.nodes),
                                                    ParseNodes(l.rest, |frames|, false)))))
  {
  }

  lemma {:induction false} EmptyRead(st: State, s: seq<Byte>, t: Token, rest: seq<Byte>)
    requires Fits(st) && t.Tag? && t.closed && Distinct(Values(t.attributes))
    requires ParseNodes(s, Depth(st), st.declare) == TagLevel(t, rest, Depth(st))
    ensures Follows(TakeTag(st, t), Whole(st, s), rest)
  {
    AddedWhole(st, s, Element(t.name, Values(t.attributes), Nil), rest, false);
  }

  lemma {:induction false} RepeatedRead(st: State, s: seq<Byte>, t: Token, rest: seq<Byte>)
    requires Fits(st) && t.Tag? && !Distinct(Values(t.attributes))
    requires ParseNodes(s, Depth(st), st.declare) == TagLevel(t, rest, Depth(st))
    ensures Follows(TakeTag(st, t), Whole(st, s), rest)
  {
    FailedWhole(st, s);
  }

  lemma {:induction false} LevelTaken(st: State, s: seq<Byte>, t: Token, rest: seq<Byte>)
    requires Fits(st) && t.Tag?
    requires ParseNodes(s, Depth(st), st.declare) == TagLevel(t, rest, Depth(st))
    ensures Follows(TakeTag(st, t), Whole(st, s), rest)
  {
    if !Distinct(Values(t.attributes)) {
      RepeatedRead(st, s, t, rest);
    } else if t.closed {
      EmptyRead(st, s, t, rest);
    } else if t.slash {
      EndRead(st, s, t, rest);
    } else {
      OpenRead(st, s, t, rest);
    }
  }

  lemma {:induction false} TagTaken(st: State, t: Token, rest: seq<Byte>)
    requires Fits(st) && t.Tag? && GoodTag(t)
    ensures Follows(TakeTag(st, t), Whole(st, TokenText(t) + rest), rest)
  {
    TagRead(t, rest, Depth(st), st.declare);
    LevelTaken(st, TokenText(t) + rest, t, rest);
  }

  lemma {:induction false} MarkupTaken(st: State, k: Kind, raw: seq<Byte>, rest: seq<Byte>)
    requires Fits(st) && GoodMarkup(k, raw)
    ensures Follows(Take(st, Markup(k, raw)), Whole(st, TokenText(Markup(k, raw)) + rest), rest)
  {
    var s := TokenText(Markup(k, raw)) + rest;
    MarkupRead(k, raw, rest, Depth(st), st.declare);
    if k.DeclarationKind? && !st.declare {
      FailedWhole(st, s);
    } else {
      AddedWhole(st, s, Marked(k, Taken(raw, false)), rest, k.DeclarationKind?);
    }
  }

  lemma {:induction false} CharactersTaken(st: State, raw: seq<Byte>, rest: seq<Byte>)
    requires Fits(st) && LT !in raw
    requires (rest == [] && Blank(raw)) || (|rest| >= 2 && rest[0] == LT)
    ensures Follows(Take(st, Characters(raw)), Whole(st, raw + rest), rest)
  {
    if Blank(raw) {
      BlankRead(raw, rest, Depth(st), st.declare);
    } else {
      CharactersRead(raw, rest, Depth(st), st.declare);
      AddedWhole(st, raw + rest, Text(Taken(raw, true), false), rest, false);
    }
  }

  lemma {:induction false} TokenTaken(st: State, t: Token, rest: seq<Byte>)
    requires Fits(st) && GoodToken(t)
    requires t.Characters? ==> (rest == [] && Blank(t.raw)) || (|rest| >= 2 && rest[0] == LT)
    ensures Follows(Take(st, t), Whole(st, TokenText(t) + rest), rest)
  {
    match t
    case Tag(_, _, _, _, _, _) => TagTaken(st, t, rest);
    case Markup(k, raw) => MarkupTaken(st, k, raw, rest);
    case Characters(raw) => CharactersTaken(st, raw, rest);
  }

  // ----- many tokens -----

  ghost predicate StartsTag(s: seq<Byte>) {
    |s| >= 2 && s[0] == LT
  }

  lemma {:induction false} TokenStarts(t: Token, rest: seq<Byte>)
    requires GoodToken(t) && !t.Characters?
    ensures StartsTag(TokenText(t) + rest)
  {
    if t.Tag? {
      TagGrouped(t, rest);
    }
  }

  lemma {:induction false} HeadToken(ts: seq<Token>, tail: seq<Byte>)
    requires ts != []
    ensures TokensText(ts) + tail == TokenText(ts[0]) + (TokensText(ts[1..]) + tail)
  {
  }

  lemma {:induction false} RestGood(ts: seq<Token>)
    requires GoodTokens(ts) && ts != []
    ensures GoodTokens(ts[1..])
    ensures |ts| > 1 && ts[0].Characters? ==> !ts[1].Characters?
  {
  }

  lemma {:induction false} AfterCharacters(ts: seq<Token>, tail: seq<Byte>)
    requires GoodTokens(ts) && |ts| > 1 && ts[0].Characters?
    ensures StartsTag(TokensText(ts[1..]) + tail)
  {
    RestGood(ts);
    HeadToken(ts[1..], tail);
    TokenStarts(ts[1], TokensText(ts[1..][1..]) + tail);
  }

  ghost predicate Reads(o: Outcome, l: Level, ts: seq<Token>, tail: seq<Byte>) {
    if o.Running? && tail == [] && EndsInCharacters(ts) then l == Failed else Follows(o, l, tail)
  }

  lemma {:induction false} TokensTaken(st: State, ts: seq<Token>, tail: seq<Byte>)
    requires Fits(st) && GoodTokens(ts)
    requires Run(st, ts).Running? && LastIsCharacters(ts) ==> tail == [] || StartsTag(tail)
    ensures Reads(Run(st, ts), Whole(st, TokensText(ts) + tail), ts, tail)
    decreases |ts|
  {
    if ts == [] {
      assert TokensText(ts) + tail == tail;
    } else {
      var rest := TokensText(ts[1..]) + tail;
      HeadToken(ts, tail);
      RestGood(ts);
      if |ts| == 1 {
        LastTaken(st, ts, tail);
      } else {
        if ts[0].Characters? {
          AfterCharacters(ts, tail);
        }
        var o := FirstTaken(st, ts, rest);
        if o.Running? {
          assert ts[1..][|ts| - 2] == ts[|ts| - 1];
          TokensTaken(o.state, ts[1..], tail);
        }
      }
    }
  }

  lemma {:induction false} FirstTaken(st: State, ts: seq<Token>, rest: seq<Byte>) returns (o: Outcome)
    requires Fits(st) && ts != [] && GoodToken(ts[0]) && (ts[0].Characters? ==> StartsTag(rest))
    ensures Run(st, ts) == if o.Running? then Run(o.state, ts[1..]) else o
    ensures Follows(o, Whole(st, TokenText(ts[0]) + rest), rest)
  {
    o := Take(st, ts[0]);
    TokenTaken(st, ts[0], rest);
  }

  lemma {:induction false} LastTaken(st: State, ts: seq<Token>, tail: seq<Byte>)
    requires Fits(st) && GoodTokens(ts) && |ts| == 1
    requires Run(st, ts).Running? && LastIsCharacters(ts) ==> tail == [] || StartsTag(tail)
    ensures Reads(Run(st, ts), Whole(st, TokensText(ts) + tail), ts, tail)
  {
    var t := ts[0];
    OneToken(st, t, tail);
    assert ts == [t];
    if EndsInCharacters(ts) && tail == [] {
      assert t.raw + tail == t.raw;
      LastCharacters(t.raw, Depth(st), st.declare);
      FailedWhole(st, t.raw);
    } else {
      TokenTaken(st, t, tail);
    }
  }

  lemma {:induction false} OneToken(st: State, t: Token, tail: seq<Byte>)
    ensures Run(st, [t]) == Take(st, t) && TokensText([t]) + tail == TokenText(t) + tail
  {
    assert [t][1..] == [];
    assert TokensText([t]) == TokenText(t) + [];
  }

  // ----- documents -----

  ghost function Mark(bom: bool): (s: seq<Byte>) {
    if bom then BYTE_ORDER_MARK else []
  }

  ghost function DocumentText(space: seq<Byte>, bom: bool, ts: seq<Token>): (s: seq<Byte>) {
    space + (Mark(bom) + TokensText(ts))
  }

  /** Space before everything and before the byte order mark is no part of the tokens. */
  ghost predicate GoodDocument(space: seq<Byte>, bom: bool, ts: seq<Token>) {
    && Blank(space) && GoodTokens(ts)
    && (!bom && ts != [] && ts[0].Characters? ==> !IsSpace(ts[0].raw[0]) && !StartsWith(ts[0].raw, BYTE_ORDER_MARK))
  }

  lemma {:induction false} BodyOf(space: seq<Byte>, bom: bool, body: seq<Byte>)
    requires Blank(space) && (!bom && body != [] ==> !IsSpace(body[0]) && !StartsWith(body, BYTE_ORDER_MARK))
    ensures ParseDocument(space + (Mark(bom) + body))
         == (var l := ParseNodes(body, 1, true); if body == [] || l.Failed? then Error else Parsed(l.nodes))
  {
    var t := Mark(bom) + body;
    assert bom ==> t[0] == BYTE_ORDER_MARK[0];
    SkipBlank(space, t);
    assert bom ==> t[..3] == BYTE_ORDER_MARK && t[3..] == body;
    assert !bom ==> t == body;
    assert body == [] ==> !StartsWith(body, BYTE_ORDER_MARK);
  }

  lemma {:induction false} CharactersFirst(raw: seq<Byte>, rest: seq<Byte>)
    requires raw != [] && !StartsWith(raw, BYTE_ORDER_MARK) && (rest == [] || rest[0] == LT)
    ensures !StartsWith(raw + rest, BYTE_ORDER_MARK)
  {
    var s := raw + rest;
    if rest == [] {
      assert s == raw;
    } else if |raw| < 3 {
      Differ(s, BYTE_ORDER_MARK, |raw|);
    } else {
      assert s[..3] == raw[..3];
    }
  }

  lemma {:induction false} BodyStarts(space: seq<Byte>, ts: seq<Token>, tail: seq<Byte>)
    requires GoodDocument(space, false, ts) && ts != [] && (|ts| == 1 && ts[0].Characters? ==> tail == [])
    ensures (var body := TokensText(ts) + tail;
             body != [] && !IsSpace(body[0]) && !StartsWith(body, BYTE_ORDER_MARK))
  {
    var t, rest := ts[0], TokensText(ts[1..]) + tail;
    HeadToken(ts, tail);
    if t.Characters? {
      if |ts| > 1 {
        AfterCharacters(ts, tail);
      } else {
        assert rest == [];
      }
      CharactersFirst(t.raw, rest);
      assert (t.raw + rest)[0] == t.raw[0];
    } else {
      TokenStarts(t, rest);
      Differ(TokenText(t) + rest, BYTE_ORDER_MARK, 0);
    }
  }

  lemma {:induction false} BodyText(space: seq<Byte>, mark: seq<Byte>, body: seq<Byte>, tail: seq<Byte>)
    ensures space + (mark + body) + tail == space + (mark + (body + tail))
  {
  }

  /** A text in tokens parses to what the machine makes of it, and is refused exactly when the machine refuses;
      whatever follows a token that decides does not matter. */
  lemma {:induction false} DocumentRead(space: seq<Byte>, bom: bool, ts: seq<Token>, tail: seq<Byte>)
    requires GoodDocument(space, bom, ts) && (Run(START, ts).Running? ==> tail == [])
    ensures ParseDocument(DocumentText(space, bom, ts) + tail) == Result(Run(START, ts), ts)
  {
    BodyText(space, Mark(bom), TokensText(ts), tail);
    if ts != [] {
      BodyNotEmpty(ts, tail);
      if !bom {
        NotOnlyCharacters(ts, tail);
        BodyStarts(space, ts, tail);
      }
    }
    BodyOf(space, bom, TokensText(ts) + tail);
    BodyRead(ts, tail);
  }

  lemma {:induction false} NotOnlyCharacters(ts: seq<Token>, tail: seq<Byte>)
    requires Run(START, ts).Running? ==> tail == []
    ensures |ts| == 1 && ts[0].Characters? ==> tail == []
  {
    if |ts| == 1 {
      OneToken(START, ts[0], tail);
      assert ts == [ts[0]];
    }
  }

  lemma {:induction false} BodyRead(ts: seq<Token>, tail: seq<Byte>)
    requires GoodTokens(ts) && (Run(START, ts).Running? ==> tail == [])
    ensures (var body := TokensText(ts) + tail;
             var l := ParseNodes(body, 1, true);
             && (body == [] <==> ts == [])
             && Result(Run(START, ts), ts) == if body == [] || l.Failed? then Error else Parsed(l.nodes))
  {
    if ts != [] {
      BodyNotEmpty(ts, tail);
    }
    TokensTaken(START, ts, tail);
    StartWhole(TokensText(ts) + tail);
    if Run(START, ts).Running? && !EndsInCharacters(ts) {
      EndWhole(Run(START, ts).state);
    }
  }

  lemma {:induction false} BodyNotEmpty(ts: seq<Token>, tail: seq<Byte>)
    requires GoodTokens(ts) && ts != []
    ensures TokensText(ts) + tail != []
  {
    HeadToken(ts, tail);
    if !ts[0].Characters? {
      TokenStarts(ts[0], TokensText(ts[1..]) + tail);
    }
  }

  lemma {:induction false} StartWhole(s: seq<Byte>)
    ensures Whole(START, s) == ParseNodes(s, 1, true)
  {
  }

  /** The end of the input leaves what is open unfinished. */
  lemma {:induction false} EndWhole(st: State)
    requires Fits(st)
    ensures Whole(st, []) == if st.frames == [] then Level(List(st.nodes), [], EndOfInput) else Failed
  {
    assert ParseNodes([], Depth(st), st.declare) == Level(Nil, [], EndOfInput);
    OnTopLevel(st.nodes, [], EndOfInput);
  }
}
