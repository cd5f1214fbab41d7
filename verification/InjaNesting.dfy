/** Which sequences of statements the parser accepts.  It keeps open ifs and open loops on two separate stacks, so
    it accepts exactly the sequences in which the ifs nest properly once the loops are left out, and the loops once
    the ifs are. */
module InjaNesting {
  import opened InjaSyntax
  import opened InjaCode
  import opened InjaParser
  import opened InjaLayout

  /** All statements are parsed and nothing is left open. */
  ghost predicate Accepted(ts: seq<Token>) {
    var r := ParseAll(State([], [], []), ts);
    r.0.Parsed? && r.1.ifs == [] && r.1.loops == []
  }

  predicate OfIf(t: Token) {
    t.TIf? || t.TElseIf? || t.TElse? || t.TEndIf?
  }

  predicate OfFor(t: Token) {
    t.TFor? || t.TEndFor?
  }

  function OnlyIfs(ts: seq<Token>): (r: seq<Token>) {
    if ts == [] then [] else (if OfIf(ts[0]) then [ts[0]] else []) + OnlyIfs(ts[1..])
  }

  function OnlyFors(ts: seq<Token>): (r: seq<Token>) {
    if ts == [] then [] else (if OfFor(ts[0]) then [ts[0]] else []) + OnlyFors(ts[1..])
  }

  /** The statements of some properly nested template. */
  ghost predicate Nested(ts: seq<Token>) {
    exists b :: BlockTokens(b) == ts
  }

  // ----- the stacks without positions -----

  /** For each open if, whether it may still get an else. */
  function IfStep(open: seq<bool>, t: Token): (r: Option<seq<bool>>) {
    match t
    case TIf(_) => Some(open + [true])
    case TElse => if open == [] || !open[|open| - 1] then None else Some(open[..|open| - 1] + [false])
    case TElseIf(_) => if open == [] || !open[|open| - 1] then None else Some(open)
    case TEndIf => if open == [] then None else Some(open[..|open| - 1])
    case _ => Some(open)
  }

  function IfRun(open: seq<bool>, ts: seq<Token>): (r: Option<seq<bool>>)
    decreases |ts|
  {
    if ts == [] then Some(open)
    else
      match IfStep(open, ts[0])
      case None => None
      case Some(open') => IfRun(open', ts[1..])
  }

  function ForStep(open: nat, t: Token): (r: Option<nat>) {
    if t.TFor? then Some(open + 1)
    else if t.TEndFor? then if open == 0 then None else Some(open - 1)
    else Some(open)
  }

  function ForRun(open: nat, ts: seq<Token>): (r: Option<nat>)
    decreases |ts|
  {
    if ts == [] then Some(open)
    else
      match ForStep(open, ts[0])
      case None => None
      case Some(open') => ForRun(open', ts[1..])
  }

  ghost function Pendings(ifs: seq<IfData>): (open: seq<bool>) {
    seq(|ifs|, i requires 0 <= i < |ifs| => ifs[i].prevCondJump.Some?)
  }

  /** What a statement does to the stacks. */
  ghost predicate OnStacks(st: State, t: Token, v: Verdict, st': State) {
    && (v.Parsed? <==> IfStep(Pendings(st.ifs), t).Some? && ForStep(|st.loops|, t).Some?)
    && (v.Parsed? ==>
          IfStep(Pendings(st.ifs), t) == Some(Pendings(st'.ifs)) && ForStep(|st.loops|, t) == Some(|st'.loops|))
  }

  lemma {:induction false} LastPending(ifs: seq<IfData>, d: IfData)
    ensures Pendings(ifs + [d]) == Pendings(ifs) + [d.prevCondJump.Some?]
  {
  }

  lemma {:induction false} StepOnStacks(st: State, t: Token)
    requires StackOk(st)
    ensures OnStacks(st, t, ParseStep(st, t).0, ParseStep(st, t).1)
  {
    if st.ifs != [] {
      assert st.ifs == PopIf(st) + [LastIf(st)];
      LastPending(PopIf(st), LastIf(st));
    }
    if t.TIf? {
      LastPending(st.ifs, IfData(Some(|st.code| + |ExprCode(t.cond)|), []));
    } else if (t.TElse? || t.TElseIf?) && st.ifs != [] && LastIf(st).prevCondJump.Some? {
      ElseOnStacks(st, t);
    }
  }

  lemma {:induction false} ElseOnStacks(st: State, t: Token)
    requires StackOk(st) && st.ifs != [] && LastIf(st).prevCondJump.Some? && (t.TElse? || t.TElseIf?)
    requires Pendings(st.ifs) == Pendings(PopIf(st)) + [true]
    ensures OnStacks(st, t, ParseStep(st, t).0, ParseStep(st, t).1)
  {
    var st1 := LeaveBody(st);
    assert PopIf(st1) == PopIf(st);
    LastPending(PopIf(st), LastIf(st1));
    if t.TElseIf? {
      LastPending(PopIf(st), LastIf(ParseStep(st, t).1));
    }
  }

  lemma {:induction false} RunOnStacks(st: State, ts: seq<Token>)
    requires StackOk(st)
    ensures (var r := ParseAll(st, ts);
             && (r.0.Parsed? <==> IfRun(Pendings(st.ifs), ts).Some? && ForRun(|st.loops|, ts).Some?)
             && (r.0.Parsed? ==> IfRun(Pendings(st.ifs), ts) == Some(Pendings(r.1.ifs))
                                 && ForRun(|st.loops|, ts) == Some(|r.1.loops|)))
    decreases |ts|
  {
    if ts != [] {
      StepOnStacks(st, ts[0]);
      if ParseStep(st, ts[0]).0.Parsed? {
        RunOnStacks(ParseStep(st, ts[0]).1, ts[1..]);
      } else {
        FirstFails(st, ts);
      }
    }
  }

  lemma {:induction false} FirstFails(st: State, ts: seq<Token>)
    requires StackOk(st) && ts != [] && !ParseStep(st, ts[0]).0.Parsed?
    requires !(IfStep(Pendings(st.ifs), ts[0]).Some? && ForStep(|st.loops|, ts[0]).Some?)
    ensures !(IfRun(Pendings(st.ifs), ts).Some? && ForRun(|st.loops|, ts).Some?)
  {
  }

  lemma {:induction false} AcceptedIff(ts: seq<Token>)
    ensures Accepted(ts) <==> IfRun([], ts) == Some([]) && ForRun(0, ts) == Some(0)
  {
    var st := State([], [], []);
    RunOnStacks(st, ts);
    assert Pendings([]) == [];
    var r := ParseAll(st, ts);
    assert |Pendings(r.1.ifs)| == |r.1.ifs|;
  }

  lemma {:induction false} OnlyIfsMatter(open: seq<bool>, ts: seq<Token>)
    ensures IfRun(open, ts) == IfRun(open, OnlyIfs(ts))
    decreases |ts|
  {
    if ts != [] {
      var us := OnlyIfs(ts[1..]);
      if OfIf(ts[0]) {
        assert ([ts[0]] + us)[1..] == us;
        if IfStep(open, ts[0]).Some? {
          OnlyIfsMatter(IfStep(open, ts[0]).value, ts[1..]);
        }
      } else {
        assert [] + us == us;
        OnlyIfsMatter(open, ts[1..]);
      }
    }
  }

  lemma {:induction false} OnlyForsMatter(open: nat, ts: seq<Token>)
    ensures ForRun(open, ts) == ForRun(open, OnlyFors(ts))
    decreases |ts|
  {
    if ts != [] {
      var us := OnlyFors(ts[1..]);
      if OfFor(ts[0]) {
        assert ([ts[0]] + us)[1..] == us;
        if ForStep(open, ts[0]).Some? {
          OnlyForsMatter(ForStep(open, ts[0]).value, ts[1..]);
        }
      } else {
        assert [] + us == us;
        OnlyForsMatter(open, ts[1..]);
      }
    }
  }

  // ----- building the tree -----

  /** A body and the chain that closes it. */
  ghost predicate BodyAndChain(ts: seq<Token>, b: Block, c: Chain, rest: seq<Token>) {
    ts == BlockTokens(b) + (ChainTokens(c) + rest)
  }

  ghost predicate BodyAnd(ts: seq<Token>, b: Block, t: Token, rest: seq<Token>) {
    ts == BlockTokens(b) + ([t] + rest)
  }

  /** The statements close the open ifs one after the other. */
  ghost predicate ClosesIfs(open: seq<bool>, ts: seq<Token>)
    decreases |open|
  {
    if open == [] then Nested(ts)
    else
      var front := open[..|open| - 1];
      if open[|open| - 1] then exists b, c, rest :: BodyAndChain(ts, b, c, rest) && ClosesIfs(front, rest)
      else exists b, rest :: BodyAnd(ts, b, TEndIf, rest) && ClosesIfs(front, rest)
  }

  ghost predicate ClosesFors(open: nat, ts: seq<Token>)
    decreases open
  {
    if open == 0 then Nested(ts)
    else exists b, rest :: BodyAnd(ts, b, TEndFor, rest) && ClosesFors(open - 1, rest)
  }

  lemma {:induction false} StmtFirst(s: Stmt, ts: seq<Token>, b: Block, rest: seq<Token>)
    requires ts == BlockTokens(b) + rest
    ensures StmtTokens(s) + ts == BlockTokens(Then(s, b)) + rest
  {
  }

  /** A whole statement in front of statements that close the open ifs. */
  lemma {:induction false} StmtBefore(open: seq<bool>, s: Stmt, ts: seq<Token>)
    requires ClosesIfs(open, ts)
    ensures ClosesIfs(open, StmtTokens(s) + ts)
  {
    if open == [] {
      var b :| BlockTokens(b) == ts;
      assert BlockTokens(Then(s, b)) == StmtTokens(s) + ts;
    } else {
      var front := open[..|open| - 1];
      if open[|open| - 1] {
        var b, c, rest :| BodyAndChain(ts, b, c, rest) && ClosesIfs(front, rest);
        StmtFirst(s, ts, b, ChainTokens(c) + rest);
        assert BodyAndChain(StmtTokens(s) + ts, Then(s, b), c, rest);
      } else {
        var b, rest :| BodyAnd(ts, b, TEndIf, rest) && ClosesIfs(front, rest);
        StmtFirst(s, ts, b, [TEndIf] + rest);
        assert BodyAnd(StmtTokens(s) + ts, Then(s, b), TEndIf, rest);
      }
    }
  }

  lemma {:induction false} StmtBeforeFor(open: nat, s: Stmt, ts: seq<Token>)
    requires ClosesFors(open, ts)
    ensures ClosesFors(open, StmtTokens(s) + ts)
  {
    if open == 0 {
      var b :| BlockTokens(b) == ts;
      assert BlockTokens(Then(s, b)) == StmtTokens(s) + ts;
    } else {
      var b, rest :| BodyAnd(ts, b, TEndFor, rest) && ClosesFors(open - 1, rest);
      StmtFirst(s, ts, b, [TEndFor] + rest);
      assert BodyAnd(StmtTokens(s) + ts, Then(s, b), TEndFor, rest);
    }
  }

  lemma {:induction false} IfOpens(open: seq<bool>, t: Token, ts: seq<Token>)
    requires t.TIf? && ClosesIfs(open + [true], ts)
    ensures ClosesIfs(open, [t] + ts)
  {
    assert (open + [true])[..|open|] == open;
    var b, c, rest :| BodyAndChain(ts, b, c, rest) && ClosesIfs(open, rest);
    var s := If(t.cond, b, c);
    StmtBefore(open, s, rest);
    IfText(t, b, c, rest);
  }

  lemma {:induction false} IfText(t: Token, b: Block, c: Chain, rest: seq<Token>)
    requires t.TIf?
    ensures [t] + (BlockTokens(b) + (ChainTokens(c) + rest)) == StmtTokens(If(t.cond, b, c)) + rest
  {
  }

  lemma {:induction false} ElseCloses(front: seq<bool>, ts: seq<Token>)
    requires ClosesIfs(front + [false], ts)
    ensures ClosesIfs(front + [true], [TElse] + ts)
  {
    assert (front + [true])[..|front|] == front && (front + [false])[..|front|] == front;
    var b, rest :| BodyAnd(ts, b, TEndIf, rest) && ClosesIfs(front, rest);
    assert [TElse] + ts == [] + (ChainTokens(Else(b)) + rest);
    assert BodyAndChain([TElse] + ts, End, Else(b), rest);
  }

  lemma {:induction false} ElseIfCloses(front: seq<bool>, t: Token, ts: seq<Token>)
    requires t.TElseIf? && ClosesIfs(front + [true], ts)
    ensures ClosesIfs(front + [true], [t] + ts)
  {
    assert (front + [true])[..|front|] == front;
    var b, c, rest :| BodyAndChain(ts, b, c, rest) && ClosesIfs(front, rest);
    ElseIfText(t, b, c, rest);
    assert BodyAndChain([t] + ts, End, ElseIf(t.cond, b, c), rest);
  }

  lemma {:induction false} ElseIfText(t: Token, b: Block, c: Chain, rest: seq<Token>)
    requires t.TElseIf?
    ensures [t] + (BlockTokens(b) + (ChainTokens(c) + rest)) == [] + (ChainTokens(ElseIf(t.cond, b, c)) + rest)
  {
  }

  lemma {:induction false} EndCloses(open: seq<bool>, ts: seq<Token>)
    requires open != [] && ClosesIfs(open[..|open| - 1], ts)
    ensures ClosesIfs(open, [TEndIf] + ts)
  {
    assert [TEndIf] + ts == [] + ([TEndIf] + ts);
    assert BodyAnd([TEndIf] + ts, End, TEndIf, ts) && BodyAndChain([TEndIf] + ts, End, EndIf, ts);
  }

  lemma {:induction false} IfsClose(open: seq<bool>, ts: seq<Token>)
    requires IfRun(open, ts) == Some([]) && forall i :: 0 <= i < |ts| ==> OfIf(ts[i])
    ensures ClosesIfs(open, ts)
    decreases |ts|
  {
    if ts == [] {
      assert BlockTokens(End) == ts;
    } else {
      var t, rest := ts[0], ts[1..];
      assert ts == [t] + rest && OfIf(t);
      IfsClose(IfStep(open, t).value, rest);
      if t.TIf? {
        IfOpens(open, t, rest);
      } else if t.TEndIf? {
        EndCloses(open, rest);
      } else {
        var front := open[..|open| - 1];
        assert open == front + [true];
        if t.TElse? {
          ElseCloses(front, rest);
        } else {
          ElseIfCloses(front, t, rest);
        }
      }
    }
  }

  lemma {:induction false} ForsClose(open: nat, ts: seq<Token>)
    requires ForRun(open, ts) == Some(0) && forall i :: 0 <= i < |ts| ==> OfFor(ts[i])
    ensures ClosesFors(open, ts)
    decreases |ts|
  {
    if ts == [] {
      assert BlockTokens(End) == ts;
    } else {
      var t, rest := ts[0], ts[1..];
      assert ts == [t] + rest && OfFor(t);
      ForsClose(ForStep(open, t).value, rest);
      if t.TFor? {
        ForOpens(open, t, rest);
      } else {
        assert ts == [] + ([t] + rest);
        assert BodyAnd(ts, End, TEndFor, rest);
      }
    }
  }

  lemma {:induction false} ForOpens(open: nat, t: Token, ts: seq<Token>)
    requires t.TFor? && ClosesFors(open + 1, ts)
    ensures ClosesFors(open, [t] + ts)
  {
    var b, rest :| BodyAnd(ts, b, TEndFor, rest) && ClosesFors(open, rest);
    var s := For(t.key, t.value, t.over, b);
    StmtBeforeFor(open, s, rest);
    ForText(t, b, rest);
  }

  lemma {:induction false} ForText(t: Token, b: Block, rest: seq<Token>)
    requires t.TFor?
    ensures [t] + (BlockTokens(b) + ([TEndFor] + rest)) == StmtTokens(For(t.key, t.value, t.over, b)) + rest
  {
  }

  // ----- acceptance -----

  lemma {:induction false} OnlyKinds(ts: seq<Token>)
    ensures forall i :: 0 <= i < |OnlyIfs(ts)| ==> OfIf(OnlyIfs(ts)[i])
    ensures forall i :: 0 <= i < |OnlyFors(ts)| ==> OfFor(OnlyFors(ts)[i])
    decreases |ts|
  {
    if ts != [] {
      OnlyKinds(ts[1..]);
    }
  }

  lemma {:induction false} NestedAccepted(ts: seq<Token>)
    requires Nested(ts)
    ensures Accepted(ts)
  {
    var b :| BlockTokens(b) == ts;
    TemplateParses(b);
  }

  /** The parser accepts exactly the sequences whose ifs nest properly without the loops, and whose loops nest
      properly without the ifs. */
  lemma {:induction false} AcceptedExactly(ts: seq<Token>)
    ensures Accepted(ts) <==> Nested(OnlyIfs(ts)) && Nested(OnlyFors(ts))
  {
    AcceptedIff(ts);
    OnlyIfsMatter([], ts);
    OnlyForsMatter(0, ts);
    OnlyKinds(ts);
    if Accepted(ts) {
      IfsClose([], OnlyIfs(ts));
      ForsClose(0, OnlyFors(ts));
    }
    if Nested(OnlyIfs(ts)) && Nested(OnlyFors(ts)) {
      NestedAccepted(OnlyIfs(ts));
      AcceptedIff(OnlyIfs(ts));
      NestedAccepted(OnlyFors(ts));
      AcceptedIff(OnlyFors(ts));
    }
  }

  // ----- overlapping statements -----

  /** One stack for both kinds: an end must match the statement opened last. */
  function OneStack(open: seq<bool>, ts: seq<Token>): (ok: bool)
    decreases |ts|
  {
    if ts == [] then open == []
    else
      match ts[0]
      case TIf(_) => OneStack(open + [true], ts[1..])
      case TFor(_, _, _) => OneStack(open + [false], ts[1..])
      case TEndIf => open != [] && open[|open| - 1] && OneStack(open[..|open| - 1], ts[1..])
      case TEndFor => open != [] && !open[|open| - 1] && OneStack(open[..|open| - 1], ts[1..])
      case TElse => open != [] && open[|open| - 1] && OneStack(open, ts[1..])
      case TElseIf(_) => open != [] && open[|open| - 1] && OneStack(open, ts[1..])
      case _ => OneStack(open, ts[1..])
  }

  lemma {:induction false} OneFirst(open: seq<bool>, t: Token, ts: seq<Token>)
    ensures ([t] + ts)[0] == t && ([t] + ts)[1..] == ts
  {
  }

  lemma {:induction false} BlockOnOneStack(b: Block, open: seq<bool>, rest: seq<Token>)
    ensures OneStack(open, BlockTokens(b) + rest) == OneStack(open, rest)
    decreases b, 0
  {
    match b
    case End => assert [] + rest == rest;
    case Then(head, tail) =>
      assert BlockTokens(b) + rest == StmtTokens(head) + (BlockTokens(tail) + rest);
      StmtOnOneStack(head, open, BlockTokens(tail) + rest);
      BlockOnOneStack(tail, open, rest);
  }

  lemma {:induction false} StmtOnOneStack(s: Stmt, open: seq<bool>, rest: seq<Token>)
    ensures OneStack(open, StmtTokens(s) + rest) == OneStack(open, rest)
    decreases s, 0
  {
    match s
    case Text(text) => OneFirst(open, TText(text), rest);
    case Print(expr) => OneFirst(open, TPrint(expr), rest);
    case If(cond, body, chain) =>
      var more := ChainTokens(chain) + rest;
      IfText(TIf(cond), body, chain, rest);
      OneFirst(open, TIf(cond), BlockTokens(body) + more);
      BlockOnOneStack(body, open + [true], more);
      ChainOnOneStack(chain, open, rest);
    case For(key, value, over, body) =>
      var f, end := TFor(key, value, over), [TEndFor] + rest;
      ForText(f, body, rest);
      OneFirst(open, f, BlockTokens(body) + end);
      BlockOnOneStack(body, open + [false], end);
      OneFirst(open, TEndFor, rest);
      assert (open + [false])[..|open|] == open;
  }

  lemma {:induction false} ChainOnOneStack(c: Chain, open: seq<bool>, rest: seq<Token>)
    ensures OneStack(open + [true], ChainTokens(c) + rest) == OneStack(open, rest)
    decreases c, 0
  {
    var inner, end := open + [true], [TEndIf] + rest;
    assert inner[..|open|] == open;
    OneFirst(inner, TEndIf, rest);
    match c
    case EndIf =>
    case Else(body) =>
      assert ChainTokens(c) + rest == [TElse] + (BlockTokens(body) + end);
      OneFirst(inner, TElse, BlockTokens(body) + end);
      BlockOnOneStack(body, inner, end);
    case ElseIf(cond, body, chain) =>
      var more := ChainTokens(chain) + rest;
      assert ChainTokens(c) + rest == [TElseIf(cond)] + (BlockTokens(body) + more);
      OneFirst(inner, TElseIf(cond), BlockTokens(body) + more);
      BlockOnOneStack(body, inner, more);
      ChainOnOneStack(chain, open, rest);
  }

  lemma {:induction false} NestedOnOneStack(ts: seq<Token>)
    ensures Nested(ts) ==> OneStack([], ts)
  {
    if Nested(ts) {
      var b :| BlockTokens(b) == ts;
      BlockOnOneStack(b, [], []);
      assert ts + [] == ts;
    }
  }

  lemma {:induction false} OverlapParts(cond: Expr, f: Token)
    requires f.TFor?
    ensures OnlyIfs([TIf(cond), f, TEndIf, TEndFor]) == [TIf(cond), TEndIf]
    ensures OnlyFors([TIf(cond), f, TEndIf, TEndFor]) == [f, TEndFor]
  {
    var ts := [TIf(cond), f, TEndIf, TEndFor];
    assert ts[1..] == [f, TEndIf, TEndFor] && ts[1..][1..] == [TEndIf, TEndFor];
    assert [TEndIf, TEndFor][1..] == [TEndFor] && [TEndFor][1..] == [];
    assert OnlyIfs([TEndFor]) == [] && OnlyFors([TEndFor]) == [TEndFor];
    assert OnlyIfs([TEndIf, TEndFor]) == [TEndIf] && OnlyFors([TEndIf, TEndFor]) == [TEndFor];
  }

  lemma {:induction false} PartsNested(cond: Expr, name: string, over: Expr)
    ensures Nested([TIf(cond), TEndIf]) && Nested([TFor("", name, over), TEndFor])
  {
    var i, f := If(cond, End, EndIf), For("", name, over, End);
    assert BlockTokens(End) == [] && StmtTokens(i) == [TIf(cond), TEndIf];
    assert StmtTokens(f) == [TFor("", name, over)] + [] + [TEndFor] == [TFor("", name, over), TEndFor];
    assert BlockTokens(Then(i, End)) == [TIf(cond), TEndIf];
    assert BlockTokens(Then(f, End)) == [TFor("", name, over), TEndFor];
  }

  lemma {:induction false} OverlapFails(cond: Expr, f: Token)
    requires f.TFor?
    ensures !OneStack([], [TIf(cond), f, TEndIf, TEndFor])
  {
    var ts := [TIf(cond), f, TEndIf, TEndFor];
    assert ts[1..] == [f, TEndIf, TEndFor] && ts[1..][1..] == [TEndIf, TEndFor];
    assert [] + [true] == [true] && [true] + [false] == [true, false];
    assert !OneStack([true, false], [TEndIf, TEndFor]);
  }

  /** An if and a loop that overlap are accepted, although no template nests like that. */
  lemma {:induction false} OverlapAccepted(cond: Expr, name: string, over: Expr)
    ensures (var ts := [TIf(cond), TFor("", name, over), TEndIf, TEndFor]; Accepted(ts) && !Nested(ts))
  {
    var f := TFor("", name, over);
    var ts := [TIf(cond), f, TEndIf, TEndFor];
    OverlapParts(cond, f);
    PartsNested(cond, name, over);
    AcceptedExactly(ts);
    OverlapFails(cond, f);
    NestedOnOneStack(ts);
  }
}
