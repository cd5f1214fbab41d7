/** The parser lays a nested template out exactly as `BlockCode` does: every jump and loop instruction ends
    up with its final target, and both stacks are back where they were. */
module InjaLayout {
  import opened InjaSyntax
  import opened InjaCode
  import opened InjaParser

  /** Parsing the tokens takes the parser from `st` to `st'`, through the states of some trace. */
  ghost predicate Runs(st: State, ts: seq<Token>, st': State) {
    exists trace :: IsTrace(trace, ts) && trace[0] == st && trace[|ts|] == st'
  }

  ghost predicate StepsTo(st: State, t: Token, st': State) {
    StackOk(st) && ParseStep(st, t) == (Parsed, st')
  }

  ghost predicate IsTrace(trace: seq<State>, ts: seq<Token>)
    ensures IsTrace(trace, ts) ==> |trace| == |ts| + 1
  {
    && |trace| == |ts| + 1
    && (forall i, j {:trigger StepsTo(trace[i], ts[i], trace[j])} ::
          0 <= i < |ts| && j == i + 1 ==> StepsTo(trace[i], ts[i], trace[j]))
  }

  lemma {:induction false} RunsNothing(st: State)
    requires StackOk(st)
    ensures Runs(st, [], st)
  {
    assert IsTrace([st], []);
  }

  lemma {:induction false} RunsOne(st: State, t: Token)
    requires StackOk(st) && ParseStep(st, t).0.Parsed?
    ensures Runs(st, [t], ParseStep(st, t).1)
  {
    assert IsTrace([st, ParseStep(st, t).1], [t]);
  }

  lemma {:induction false} RunsConcat(st: State, ts: seq<Token>, mid: State, us: seq<Token>, st': State)
    requires Runs(st, ts, mid) && Runs(mid, us, st')
    ensures Runs(st, ts + us, st')
  {
    var t0 :| IsTrace(t0, ts) && t0[0] == st && t0[|ts|] == mid;
    var t1 :| IsTrace(t1, us) && t1[0] == mid && t1[|us|] == st';
    var trace := t0 + t1[1..];
    TracesJoin(t0, ts, t1, us);
    assert trace[|ts + us|] == st';
  }

  lemma {:induction false} RunsThree(st: State, t: Token, st1: State, ts: seq<Token>, st2: State, us: seq<Token>,
                                     st3: State)
    requires Runs(st, [t], st1) && Runs(st1, ts, st2) && Runs(st2, us, st3)
    ensures Runs(st, [t] + ts + us, st3)
  {
    RunsConcat(st, [t], st1, ts, st2);
    RunsConcat(st, [t] + ts, st2, us, st3);
  }

  lemma {:induction false} TracesJoin(t0: seq<State>, ts: seq<Token>, t1: seq<State>, us: seq<Token>)
    requires IsTrace(t0, ts) && IsTrace(t1, us) && t0[|ts|] == t1[0]
    ensures IsTrace(t0 + t1[1..], ts + us)
  {
    var trace := t0 + t1[1..];
    forall i, j | 0 <= i < |ts + us| && j == i + 1
      ensures StepsTo(trace[i], (ts + us)[i], trace[j])
    {
      if i >= |ts| {
        assert StepsTo(t1[i - |ts|], us[i - |ts|], t1[j - |ts|]);
      } else {
        assert StepsTo(t0[i], ts[i], t0[j]);
      }
    }
  }

  lemma {:induction false} RunsParses(st: State, ts: seq<Token>, st': State)
    requires StackOk(st) && Runs(st, ts, st')
    ensures ParseAll(st, ts) == (Parsed, st')
    decreases |ts|
  {
    var trace :| IsTrace(trace, ts) && trace[0] == st && trace[|ts|] == st';
    if ts != [] {
      var tail := trace[1..];
      assert StepsTo(trace[0], ts[0], trace[1]);
      assert IsTrace(tail, ts[1..]) by {
        forall i, j | 0 <= i < |ts[1..]| && j == i + 1
          ensures StepsTo(tail[i], ts[1..][i], tail[j])
        {
          assert StepsTo(trace[i + 1], ts[i + 1], trace[j + 1]);
        }
      }
      RunsParses(trace[1], ts[1..], st');
    }
  }

  lemma {:induction false} PatchPrefix(x: seq<Bytecode>, y: seq<Bytecode>, js: seq<nat>, target: nat)
    requires Below(js, |x|)
    ensures Below(js, |x + y|) && PatchAll(x + y, js, target) == PatchAll(x, js, target) + y
  {
    if js != [] {
      PatchPrefix(x, y, js[..|js| - 1], target);
    }
  }

  lemma {:induction false} SetArgsMiddle(x: seq<Bytecode>, bc: Bytecode, y: seq<Bytecode>, target: nat)
    ensures SetArgs(x + [bc] + y, |x|, target) == x + [bc.(args := target)] + y
  {
  }

  lemma {:induction false} PatchLast(code: seq<Bytecode>, js: seq<nat>, j: nat, target: nat)
    requires Below(js, |code|) && j < |code|
    ensures Below(js + [j], |code|)
    ensures PatchAll(code, js + [j], target) == SetArgs(PatchAll(code, js, target), j, target)
  {
    assert (js + [j])[..|js|] == js;
  }

  /** Patching the jump that was appended right after `x` as well. */
  lemma {:induction false} PatchJump(x: seq<Bytecode>, y: seq<Bytecode>, js: seq<nat>, target: nat)
    requires Below(js, |x|)
    ensures Below(js + [|x|], |x + [Plain(Jump, 0)] + y|)
    ensures PatchAll(x + [Plain(Jump, 0)] + y, js + [|x|], target)
            == PatchAll(x, js, target) + [Plain(Jump, target)] + y
  {
    var jump := Plain(Jump, 0);
    AppendAssoc(x, [jump], y);
    PatchPrefix(x, [jump] + y, js, target);
    PatchLast(x + [jump] + y, js, |x|, target);
    AppendAssoc(PatchAll(x, js, target), [jump], y);
    SetArgsMiddle(PatchAll(x, js, target), jump, y, target);
  }

  /** Filling in an instruction that was appended after `x + test`. */
  lemma {:induction false} PatchedMiddle(x: seq<Bytecode>, test: seq<Bytecode>, bc: Bytecode, inner: seq<Bytecode>,
                                         target: nat, rest: seq<Bytecode>)
    ensures SetArgs(x + test + [bc] + inner, |x| + |test|, target) + rest
         == x + (test + [bc.(args := target)] + inner + rest)
  {
  }

  lemma {:induction false} SetArgsPrefix(x: seq<Bytecode>, y: seq<Bytecode>, i: nat, target: nat)
    requires i < |x|
    ensures SetArgs(x + y, i, target) == SetArgs(x, i, target) + y
  {
  }

  function Appended(st: State, code: seq<Bytecode>): (st': State) {
    st.(code := st.code + code)
  }

  lemma {:induction false} StmtParses(s: Stmt, st: State, base: nat)
    requires StackOk(st) && base == |st.code|
    ensures Runs(st, StmtTokens(s), Appended(st, StmtCode(s, base)))
    decreases s, 2
  {
    match s
    case Text(text) => RunsOne(st, TText(text));
    case Print(expr) => RunsOne(st, TPrint(expr));
    case If(_, _, _) => IfParses(s, st, base);
    case For(_, _, _, _) => ForParses(s, st, base);
  }

  lemma {:induction false} IfParses(s: Stmt, st: State, base: nat)
    requires StackOk(st) && base == |st.code| && s.If?
    ensures Runs(st, StmtTokens(s), Appended(st, StmtCode(s, base)))
    decreases s, 1
  {
    var at1 := base + |ExprCode(s.cond)| + 1;
    var at := at1 + BlockSize(s.body);
    IfRuns(s, st, base, at1, at);
    IfShape(s, base, at1, at);
    assert StmtTokens(s) == [TIf(s.cond)] + BlockTokens(s.body) + ChainTokens(s.chain);
  }

  lemma {:induction false} IfRuns(s: Stmt, st: State, base: nat, at1: nat, at: nat)
    requires StackOk(st) && base == |st.code| && s.If?
    requires at1 == base + |ExprCode(s.cond)| + 1 && at == at1 + BlockSize(s.body)
    ensures Runs(st, [TIf(s.cond)] + BlockTokens(s.body) + ChainTokens(s.chain),
                 Appended(st, ExprCode(s.cond) + [Plain(ConditionalJump, ElseTarget(s.chain, at))]
                          + BlockCode(s.body, at1)
                              + ChainCode(s.chain, at, at + ChainSize(s.chain))))
    decreases s, 0
  {
    var st1 := AppendIf(st, ExprCode(s.cond));
    var inner := BlockCode(s.body, at1);
    RunsOne(st, TIf(s.cond));
    BlockParses(s.body, st1, at1);
    ChainParses(s.chain, Appended(st1, inner), base + |ExprCode(s.cond)|, [], at, at + ChainSize(s.chain));
    IfCloses(st, TIf(s.cond), ExprCode(s.cond), BlockTokens(s.body), inner, ChainTokens(s.chain),
             ElseTarget(s.chain, at), ChainCode(s.chain, at, at + ChainSize(s.chain)));
  }

  lemma {:induction false} IfCloses(st: State, t: Token, test: seq<Bytecode>, ts: seq<Token>, inner: seq<Bytecode>,
                 us: seq<Token>, target: nat, rest: seq<Bytecode>)
    requires StackOk(st)
    requires Runs(st, [t], AppendIf(st, test))
    requires Runs(AppendIf(st, test), ts, Appended(AppendIf(st, test), inner))
    requires Runs(Appended(AppendIf(st, test), inner), us,
                  Closed(Appended(AppendIf(st, test), inner), |st.code| + |test|, [], target, rest))
    ensures Runs(st, [t] + ts + us, Appended(st, test + [Plain(ConditionalJump, target)] + inner + rest))
  {
    var st2 := Appended(AppendIf(st, test), inner);
    RunsThree(st, t, AppendIf(st, test), ts, st2, us, Closed(st2, |st.code| + |test|, [], target, rest));
    PatchedMiddle(st.code, test, Plain(ConditionalJump, 0), inner, target, rest);
  }

  lemma {:induction false} ForParses(s: Stmt, st: State, base: nat)
    requires StackOk(st) && base == |st.code| && s.For?
    ensures Runs(st, StmtTokens(s), Appended(st, StmtCode(s, base)))
    decreases s, 0
  {
    var For(key, value, over, body) := s;
    var range := ExprCode(over);
    var inner := BlockCode(body, base + |range| + 1);
    var st1 := AppendFor(st, key, value, range);
    var st2 := Appended(st1, inner);
    RunsOne(st, TFor(key, value, over));
    BlockParses(body, st1, base + |range| + 1);
    RunsOne(st2, TEndFor);
    ForCloses(st, TFor(key, value, over), key, value, range, BlockTokens(body), inner);
  }

  lemma {:induction false} ForCloses(st: State, t: Token, key: string, value: string, range: seq<Bytecode>,
                                     ts: seq<Token>, inner: seq<Bytecode>)
    requires StackOk(st)
    requires Runs(st, [t], AppendFor(st, key, value, range))
    requires Runs(AppendFor(st, key, value, range), ts, Appended(AppendFor(st, key, value, range), inner))
    ensures (var start := |st.code| + |range|;
             Runs(st, [t] + ts + [TEndFor],
                  Appended(st, range + [LoopStart(key, value, start + 1 + |inner|)]
                           + inner + [Plain(EndLoop, start + 1)])))
  {
    var st1 := AppendFor(st, key, value, range);
    var st2 := Appended(st1, inner);
    RunsOne(st2, TEndFor);
    RunsThree(st, t, st1, ts, st2, [TEndFor], CloseFor(st2));
    var start := |st.code| + |range|;
    PatchedMiddle(st.code, range, LoopStart(key, value, 0), inner, start + 1 + |inner|, [Plain(EndLoop, start + 1)]);
    assert (st.loops + [start])[..|st.loops|] == st.loops;
  }

  ghost predicate Pending(st: State, p: nat, js: seq<nat>) {
    StackOk(st) && st.ifs != [] && LastIf(st) == IfData(Some(p), js)
  }

  /** An if closed: its pending condition at `p` goes to `target`, its jumps at `js` to the end, and `rest`
      is the code of what followed. */
  ghost function Closed(st: State, p: nat, js: seq<nat>, target: nat, rest: seq<Bytecode>): (st': State)
    requires Pending(st, p, js)
  {
    State(PatchAll(SetArgs(st.code, p, target), js, |st.code| + |rest|) + rest, PopIf(st), st.loops)
  }

  lemma {:induction false} ChainParses(c: Chain, st: State, p: nat, js: seq<nat>, at: nat, end: nat)
    requires Pending(st, p, js) && at == |st.code| && end == at + ChainSize(c)
    ensures Runs(st, ChainTokens(c), Closed(st, p, js, ElseTarget(c, at), ChainCode(c, at, end)))
    decreases c, 2
  {
    match c
    case EndIf =>
      RunsOne(st, TEndIf);
      assert CloseIf(st).code + [] == CloseIf(st).code;
    case Else(_) => ElseParses(c, st, p, js, at, end);
    case ElseIf(_, _, _) => ElseIfParses(c, st, p, js, at, end);
  }

  lemma {:induction false} ElseParses(c: Chain, st: State, p: nat, js: seq<nat>, at: nat, end: nat)
    requires Pending(st, p, js) && c.Else? && at == |st.code| && end == at + ChainSize(c)
    ensures Runs(st, ChainTokens(c), Closed(st, p, js, at + 1, ChainCode(c, at, end)))
    decreases c, 0
  {
    BlockParses(c.body, LeaveBody(st), at + 1);
    ElseJoined(c, st, p, js, at, end);
  }

  lemma {:induction false} ElseJoined(c: Chain, st: State, p: nat, js: seq<nat>, at: nat, end: nat)
    requires Pending(st, p, js) && c.Else? && at == |st.code| && end == at + ChainSize(c)
    requires Runs(LeaveBody(st), BlockTokens(c.body), Appended(LeaveBody(st), BlockCode(c.body, at + 1)))
    ensures Runs(st, ChainTokens(c), Closed(st, p, js, at + 1, ChainCode(c, at, end)))
  {
    ElseRuns(st, p, js, BlockTokens(c.body), BlockCode(c.body, at + 1));
    ElseShape(c, at, end);
  }

  lemma {:induction false} ElseRuns(st: State, p: nat, js: seq<nat>, ts: seq<Token>, inner: seq<Bytecode>)
    requires Pending(st, p, js) && Runs(LeaveBody(st), ts, Appended(LeaveBody(st), inner))
    ensures Runs(st, [TElse] + ts + [TEndIf],
                 Closed(st, p, js, |st.code| + 1, [Plain(Jump, |st.code| + 1 + |inner|)] + inner))
  {
    var st1 := LeaveBody(st);
    var st2 := Appended(st1, inner);
    RunsOne(st2, TEndIf);
    ElseCloses(st, p, js, inner);
    RunsOne(st, TElse);
    RunsThree(st, TElse, st1, ts, st2, [TEndIf], CloseIf(st2));
  }

  lemma {:induction false} ElseShape(c: Chain, at: nat, end: nat)
    requires c.Else?
    ensures ChainTokens(c) == [TElse] + BlockTokens(c.body) + [TEndIf]
    ensures ChainCode(c, at, end) == [Plain(Jump, end)] + BlockCode(c.body, at + 1)
    ensures ChainSize(c) == 1 + |BlockCode(c.body, at + 1)|
  {
  }

  lemma {:induction false} ElseCloses(st: State, p: nat, js: seq<nat>, inner: seq<Bytecode>)
    requires Pending(st, p, js)
    ensures (var st1, at := LeaveBody(st), |st.code|;
             CloseIf(Appended(st1, inner))
             == Closed(st, p, js, at + 1, [Plain(Jump, at + 1 + |inner|)] + inner))
  {
    var at, end := |st.code|, |st.code| + 1 + |inner|;
    var x := SetArgs(st.code, p, at + 1);
    SetArgsPrefix(st.code, [Plain(Jump, 0)], p, at + 1);
    PatchJump(x, inner, js, end);
    AppendAssoc(PatchAll(x, js, end), [Plain(Jump, end)], inner);
  }

  lemma {:induction false} ElseIfParses(c: Chain, st: State, p: nat, js: seq<nat>, at: nat, end: nat)
    requires Pending(st, p, js) && c.ElseIf? && at == |st.code| && end == at + ChainSize(c)
    ensures Runs(st, ChainTokens(c), Closed(st, p, js, at + 1, ChainCode(c, at, end)))
    decreases c, 1
  {
    var at1 := at + 1 + |ExprCode(c.cond)| + 1;
    var at2 := at1 + BlockSize(c.body);
    ElseIfRuns(c, st, p, js, at1, at2, end);
    ElseIfShape(c, at, at1, at2, end);
    assert ChainTokens(c) == [TElseIf(c.cond)] + BlockTokens(c.body) + ChainTokens(c.chain);
  }

  lemma {:induction false} ElseIfRuns(c: Chain, st: State, p: nat, js: seq<nat>, at1: nat, at: nat, end: nat)
    requires Pending(st, p, js) && c.ElseIf?
    requires at1 == |st.code| + 1 + |ExprCode(c.cond)| + 1
    requires at == at1 + BlockSize(c.body) && end == at + ChainSize(c.chain)
    ensures Runs(st, [TElseIf(c.cond)] + BlockTokens(c.body) + ChainTokens(c.chain),
                 Closed(st, p, js, |st.code| + 1,
                        [Plain(Jump, end)] + ExprCode(c.cond) + [Plain(ConditionalJump, ElseTarget(c.chain, at))]
                        + BlockCode(c.body, at1) + ChainCode(c.chain, at, end)))
    decreases c, 0
  {
    var st1 := AppendElseIf(LeaveBody(st), ExprCode(c.cond));
    var inner := BlockCode(c.body, at1);
    var st2 := Appended(st1, inner);
    ElseIfPending(st, p, js, c.cond, inner);
    BlockParses(c.body, st1, at1);
    ChainParses(c.chain, st2, |st.code| + 1 + |ExprCode(c.cond)|, js + [|st.code|], at, end);
    ElseIfCloses(st, p, js, TElseIf(c.cond), ExprCode(c.cond), BlockTokens(c.body), inner, ChainTokens(c.chain),
                 ElseTarget(c.chain, at), ChainCode(c.chain, at, end), end);
  }

  lemma {:induction false} ElseIfPending(st: State, p: nat, js: seq<nat>, cond: Expr, inner: seq<Bytecode>)
    requires Pending(st, p, js)
    ensures (var st1 := AppendElseIf(LeaveBody(st), ExprCode(cond));
             Runs(st, [TElseIf(cond)], st1) &&
             Pending(Appended(st1, inner), |st.code| + 1 + |ExprCode(cond)|, js + [|st.code|]))
  {
    RunsOne(st, TElseIf(cond));
  }

  lemma {:induction false} ElseIfCloses(st: State, p: nat, js: seq<nat>, t: Token, test: seq<Bytecode>,
                                        ts: seq<Token>, inner: seq<Bytecode>,
                     us: seq<Token>, target: nat, rest: seq<Bytecode>, end: nat)
    requires Pending(st, p, js) && end == |st.code| + 1 + |test| + 1 + |inner| + |rest|
    requires Runs(st, [t], AppendElseIf(LeaveBody(st), test))
    requires Runs(AppendElseIf(LeaveBody(st), test), ts, Appended(AppendElseIf(LeaveBody(st), test), inner))
    requires Runs(Appended(AppendElseIf(LeaveBody(st), test), inner), us,
                  Closed(Appended(AppendElseIf(LeaveBody(st), test), inner), |st.code| + 1 + |test|,
                         js + [|st.code|], target, rest))
    ensures Runs(st, [t] + ts + us,
                 Closed(st, p, js, |st.code| + 1,
                        [Plain(Jump, end)] + test + [Plain(ConditionalJump, target)] + inner + rest))
  {
    var at := |st.code|;
    var st1 := AppendElseIf(LeaveBody(st), test);
    var st2 := Appended(st1, inner);
    RunsThree(st, t, st1, ts, st2, us, Closed(st2, at + 1 + |test|, js + [at], target, rest));
    SetArgsPrefix(st.code, [Plain(Jump, 0)], p, at + 1);
    PatchedBoth(SetArgs(st.code, p, at + 1), js, test, inner, target, end, rest);
  }

  /** Filling in the jump after `x` and the conditional jump after `test`, whichever comes first. */
  lemma {:induction false} PatchedBoth(x: seq<Bytecode>, js: seq<nat>, test: seq<Bytecode>, inner: seq<Bytecode>,
                                       target: nat, end: nat, rest: seq<Bytecode>)
    requires Below(js, |x|)
    ensures Below(js + [|x|], |x| + 1)
    ensures PatchAll(SetArgs(x + [Plain(Jump, 0)] + test + [Plain(ConditionalJump, 0)] + inner,
            |x| + 1 + |test|, target),
                     js + [|x|], end) + rest
         == PatchAll(x, js, end) + ([Plain(Jump, end)] + test + [Plain(ConditionalJump, target)] + inner + rest)
  {
    var whole := test + [Plain(ConditionalJump, target)] + inner;
    SetArgsMiddle(x + [Plain(Jump, 0)] + test, Plain(ConditionalJump, 0), inner, target);
    assert x + [Plain(Jump, 0)] + test + [Plain(ConditionalJump, target)] + inner == x + [Plain(Jump, 0)] + whole;
    PatchJump(x, whole, js, end);
    RegroupJump(PatchAll(x, js, end), [Plain(Jump, end)], test, [Plain(ConditionalJump, target)], inner, rest);
  }

  lemma {:induction false} RegroupJump(x: seq<Bytecode>, j: seq<Bytecode>, test: seq<Bytecode>, c: seq<Bytecode>,
                                       inner: seq<Bytecode>, rest: seq<Bytecode>)
    ensures x + j + (test + c + inner) + rest == x + (j + test + c + inner + rest)
  {
  }

  lemma {:induction false} BlockParses(b: Block, st: State, at: nat)
    requires StackOk(st) && at == |st.code|
    ensures Runs(st, BlockTokens(b), Appended(st, BlockCode(b, at)))
    decreases b, 0
  {
    match b
    case End =>
      RunsNothing(st);
      assert st.code + [] == st.code;
    case Then(head, tail) =>
      var first, rest := StmtCode(head, at), BlockCode(tail, at + StmtSize(head));
      var st1 := Appended(st, first);
      StmtParses(head, st, at);
      BlockParses(tail, st1, at + StmtSize(head));
      RunsConcat(st, StmtTokens(head), st1, BlockTokens(tail), Appended(st1, rest));
      AppendAssoc(st.code, first, rest);
  }

  /** Parsing the tokens of a template produces its code and leaves nothing open. */
  lemma TemplateParses(b: Block)
    ensures ParseAll(State([], [], []), BlockTokens(b)) == (Parsed, State(BlockCode(b, 0), [], []))
  {
    BlockParses(b, State([], [], []), 0);
    assert [] + BlockCode(b, 0) == BlockCode(b, 0);
    RunsParses(State([], [], []), BlockTokens(b), State(BlockCode(b, 0), [], []));
  }

  lemma {:induction false} CodeSizeConcat(ts: seq<Token>, us: seq<Token>)
    ensures CodeSize(ts + us) == CodeSize(ts) + CodeSize(us)
  {
    if ts == [] {
      assert ts + us == us;
    } else {
      assert (ts + us)[1..] == ts[1..] + us;
      CodeSizeConcat(ts[1..], us);
    }
  }

  lemma CodeSizeThree(t: Token, ts: seq<Token>, us: seq<Token>)
    ensures CodeSize([t] + ts + us) == TokenSize(t) + CodeSize(ts) + CodeSize(us)
  {
    CodeSizeConcat([t] + ts, us);
    assert ([t] + ts)[1..] == ts;
  }

  lemma {:induction false} StmtCodeSize(s: Stmt)
    ensures CodeSize(StmtTokens(s)) == StmtSize(s)
  {
    match s
    case Text(_) =>
    case Print(_) =>
    case If(cond, body, chain) =>
      CodeSizeThree(TIf(cond), BlockTokens(body), ChainTokens(chain));
      BlockCodeSize(body);
      ChainCodeSize(chain);
    case For(key, value, over, body) =>
      CodeSizeThree(TFor(key, value, over), BlockTokens(body), [TEndFor]);
      BlockCodeSize(body);
  }

  lemma {:induction false} ChainCodeSize(c: Chain)
    ensures CodeSize(ChainTokens(c)) == ChainSize(c)
  {
    match c
    case EndIf =>
    case Else(body) =>
      CodeSizeThree(TElse, BlockTokens(body), [TEndIf]);
      BlockCodeSize(body);
    case ElseIf(cond, body, chain) =>
      CodeSizeThree(TElseIf(cond), BlockTokens(body), ChainTokens(chain));
      BlockCodeSize(body);
      ChainCodeSize(chain);
  }

  lemma {:induction false} BlockCodeSize(b: Block)
    ensures CodeSize(BlockTokens(b)) == BlockSize(b)
  {
    match b
    case End =>
    case Then(head, tail) =>
      CodeSizeConcat(StmtTokens(head), BlockTokens(tail));
      StmtCodeSize(head);
      BlockCodeSize(tail);
  }

  /** A fresh parser turns every properly nested template whose code fits the 30-bit operands into exactly
      its code. */
  method ParseTemplate(b: Block) returns (code: seq<Bytecode>)
    requires BlockSize(b) < ARGS_LIMIT
    ensures code == BlockCode(b, 0)
  {
    var parser := new Parser();
    BlockCodeSize(b);
    TemplateParses(b);
    var v := parser.ParseInto(BlockTokens(b));
    assert v == Parsed;
    code := parser.bytecodes;
  }
}
