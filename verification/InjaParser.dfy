/** The statement parser: it appends bytecode, merges an operator into a preceding push, and fills in
    jump targets once it knows them. */
module InjaParser {
  import opened InjaSyntax
  import opened InjaCode

  /** Instructions keep their argument in 30 bits. */
  const ARGS_LIMIT: nat := 0x4000_0000

  function Narrow(n: nat): (r: nat)
  {
    n % ARGS_LIMIT
  }

  /** An open if: its last conditional jump, while that has no target, and the jumps that leave it. */
  datatype IfData = IfData(prevCondJump: Option<nat>, uncondJumps: seq<nat>)

  datatype State = State(code: seq<Bytecode>, ifs: seq<IfData>, loops: seq<nat>)

  /** Undefined stands for writing through an index outside the code. */
  datatype Verdict = Parsed | Mismatched | Undefined

  function AllCode(es: Exprs): (code: seq<Bytecode>)
    ensures |code| >= Count(es)
  {
    if es.Only? then ExprCode(es.expr) else ExprCode(es.expr) + AllCode(es.rest)
  }

  function SetArgs(code: seq<Bytecode>, i: nat, target: nat): (r: seq<Bytecode>)
    requires i < |code|
    ensures |r| == |code|
  {
    code[i := code[i].(args := target)]
  }

  ghost predicate Below(js: seq<nat>, n: nat) {
    forall i :: 0 <= i < |js| ==> js[i] < n
  }

  function PatchAll(code: seq<Bytecode>, js: seq<nat>, target: nat): (r: seq<Bytecode>)
    requires Below(js, |code|)
    ensures |r| == |code|
  {
    if js == [] then code else SetArgs(PatchAll(code, js[..|js| - 1], target), js[|js| - 1], target)
  }

  /** How many instructions a token appends. */
  function TokenSize(t: Token): (n: nat)
  {
    match t
    case TText(_) => 1
    case TPrint(expr) => |Operated(expr, PrintValue, 1)|
    case TIf(cond) => |ExprCode(cond)| + 1
    case TElseIf(cond) => 1 + |ExprCode(cond)| + 1
    case TElse => 1
    case TEndIf => 0
    case TFor(_, _, over) => |ExprCode(over)| + 1
    case TEndFor => 1
  }

  /** The stacks only remember positions in the code. */
  ghost predicate StackOk(st: State) {
    && (forall i :: 0 <= i < |st.ifs| ==> IfOk(st.ifs[i], |st.code|))
    && Below(st.loops, |st.code|)
  }

  ghost predicate IfOk(d: IfData, n: nat) {
    && (d.prevCondJump.Some? ==> d.prevCondJump.value < n)
    && Below(d.uncondJumps, n)
  }

  function LastIf(st: State): (d: IfData)
    requires st.ifs != []
  {
    st.ifs[|st.ifs| - 1]
  }

  function PopIf(st: State): (ifs: seq<IfData>)
    requires st.ifs != []
  {
    st.ifs[..|st.ifs| - 1]
  }

  ghost function AppendIf(st: State, test: seq<Bytecode>): (st': State)
    requires StackOk(st)
    ensures StackOk(st')
  {
    st.(code := st.code + test + [Plain(ConditionalJump, 0)],
        ifs := st.ifs + [IfData(Some(|st.code| + |test|), [])])
  }

  /** Leaving a body: a jump whose target endif fills in, and the target of the pending condition. */
  ghost function LeaveBody(st: State): (st': State)
    requires StackOk(st) && st.ifs != [] && LastIf(st).prevCondJump.Some?
    ensures StackOk(st') && st'.ifs != []
  {
    var at, d := |st.code|, LastIf(st);
    st.(code := SetArgs(st.code + [Plain(Jump, 0)], d.prevCondJump.value, at + 1),
        ifs := PopIf(st) + [IfData(None, d.uncondJumps + [at])])
  }

  ghost function AppendElseIf(st: State, test: seq<Bytecode>): (st': State)
    requires StackOk(st) && st.ifs != []
    ensures StackOk(st')
  {
    st.(code := st.code + test + [Plain(ConditionalJump, 0)],
        ifs := PopIf(st) + [LastIf(st).(prevCondJump := Some(|st.code| + |test|))])
  }

  ghost function CloseIf(st: State): (st': State)
    requires StackOk(st) && st.ifs != []
    ensures StackOk(st')
  {
    var at, d := |st.code|, LastIf(st);
    var code := if d.prevCondJump.Some? then SetArgs(st.code, d.prevCondJump.value, at) else st.code;
    st.(code := PatchAll(code, d.uncondJumps, at), ifs := PopIf(st))
  }

  ghost function AppendFor(st: State, key: string, value: string, range: seq<Bytecode>): (st': State)
    requires StackOk(st)
    ensures StackOk(st')
  {
    st.(code := st.code + range + [LoopStart(key, value, 0)], loops := st.loops + [|st.code| + |range|])
  }

  ghost function CloseFor(st: State): (st': State)
    requires StackOk(st) && st.loops != []
    ensures StackOk(st')
  {
    var start := st.loops[|st.loops| - 1];
    st.(code := SetArgs(st.code, start, |st.code|) + [Plain(EndLoop, start + 1)],
        loops := st.loops[..|st.loops| - 1])
  }

  /** The effect of one token. */
  ghost function ParseStep(st: State, t: Token): (r: (Verdict, State))
    requires StackOk(st)
    ensures StackOk(r.1)
    ensures r.0.Parsed? ==> |r.1.code| == |st.code| + TokenSize(t)
  {
    match t
    case TText(text) => (Parsed, st.(code := st.code + [Bytecode(PrintText, 0, ValuePop, Null, text)]))
    case TPrint(expr) => (Parsed, st.(code := st.code + Operated(expr, PrintValue, 1)))
    case TIf(cond) => (Parsed, AppendIf(st, ExprCode(cond)))
    case TElse =>
      if st.ifs == [] then (Mismatched, st)
      else if LastIf(st).prevCondJump.None? then (Undefined, st)
      else (Parsed, LeaveBody(st))
    case TElseIf(cond) =>
      if st.ifs == [] then (Mismatched, st)
      else if LastIf(st).prevCondJump.None? then (Undefined, st)
      else (Parsed, AppendElseIf(LeaveBody(st), ExprCode(cond)))
    case TEndIf => if st.ifs == [] then (Mismatched, st) else (Parsed, CloseIf(st))
    case TFor(key, value, over) => (Parsed, AppendFor(st, key, value, ExprCode(over)))
    case TEndFor => if st.loops == [] then (Mismatched, st) else (Parsed, CloseFor(st))
  }

  ghost function ParseAll(st: State, ts: seq<Token>): (r: (Verdict, State))
    requires StackOk(st)
    ensures StackOk(r.1)
    decreases |ts|
  {
    if ts == [] then (Parsed, st)
    else
      var first := ParseStep(st, ts[0]);
      if first.0.Parsed? then ParseAll(first.1, ts[1..]) else first
  }

  function CodeSize(ts: seq<Token>): (n: nat)
  {
    if ts == [] then 0 else TokenSize(ts[0]) + CodeSize(ts[1..])
  }

  class Parser {
    var bytecodes: seq<Bytecode>
    var ifStack: seq<IfData>
    var loopStack: seq<nat>

    ghost function St(): (st: State)
      reads this
    {
      State(bytecodes, ifStack, loopStack)
    }

    constructor ()
      ensures St() == State([], [], [])
    {
      bytecodes, ifStack, loopStack := [], [], [];
    }

    /** Appends an operator, or merges it into the push before it. */
    method AppendFunction(op: OpCode, numArgs: nat)
      modifies this`bytecodes
      ensures bytecodes == AfterFunction(old(bytecodes), op, Narrow(numArgs))
    {
      if bytecodes != [] {
        var last := |bytecodes| - 1;
        if bytecodes[last].op == Push {
          bytecodes := bytecodes[last := bytecodes[last].(op := op, args := Narrow(numArgs))];
          return;
        }
      }
      bytecodes := bytecodes + [Plain(op, Narrow(numArgs))];
    }

    /** Appends a callback, or merges it into a push of an immediate value before it. */
    method AppendCallback(name: string, numArgs: nat)
      modifies this`bytecodes
      ensures bytecodes == AfterCallback(old(bytecodes), name, Narrow(numArgs))
    {
      if bytecodes != [] {
        var last := |bytecodes| - 1;
        if bytecodes[last].op == Push && bytecodes[last].flag == ValueImmediate {
          bytecodes := bytecodes[last := bytecodes[last].(op := Callback, args := Narrow(numArgs), str := name)];
          return;
        }
      }
      bytecodes := bytecodes + [Plain(Callback, Narrow(numArgs)).(str := name)];
    }

    /** Emits an expression. */
    method ParseExpression(e: Expr)
      requires |bytecodes| + |ExprCode(e)| < ARGS_LIMIT
      modifies this`bytecodes
      ensures bytecodes == old(bytecodes) + ExprCode(e)
      decreases e, 1
    {
      match e
      case Literal(value) => bytecodes := bytecodes + [Bytecode(Push, 0, ValueImmediate, value, "")];
      case Lookup(name) => bytecodes := bytecodes + [Bytecode(Push, 0, ValueLookup, Null, name)];
      case Apply(op, args) =>
        ArgsSize(e);
        ParseApply(op, args);
      case Call(name, args) =>
        ArgsSize(e);
        ParseCall(name, args);
    }

    method ParseApply(op: Builtin, args: Exprs)
      requires |bytecodes| + |AllCode(args)| < ARGS_LIMIT
      modifies this`bytecodes
      ensures bytecodes == old(bytecodes) + (FrontCode(args) + Operated(LastOf(args), Operator(op), Count(args)))
      decreases args, 1
    {
      ghost var before, front, last := bytecodes, FrontCode(args), LastOf(args);
      var n := ParseArguments(args);
      assert Narrow(n) == n;
      AppendFunction(Operator(op), n);
      MergedFunction(before + front, last, Operator(op), n);
      AppendAssoc(before, front, Operated(last, Operator(op), n));
    }

    method ParseCall(name: string, args: Exprs)
      requires |bytecodes| + |AllCode(args)| < ARGS_LIMIT
      modifies this`bytecodes
      ensures bytecodes == old(bytecodes) + (FrontCode(args) + Called(LastOf(args), name, Count(args)))
      decreases args, 1
    {
      ghost var before, front, last := bytecodes, FrontCode(args), LastOf(args);
      var n := ParseArguments(args);
      assert Narrow(n) == n;
      AppendCallback(name, n);
      MergedCallback(before + front, last, name, n);
      AppendAssoc(before, front, Called(last, name, n));
    }

    /** Emits the arguments of a call from left to right and counts them. */
    method ParseArguments(es: Exprs) returns (n: nat)
      requires |bytecodes| + |AllCode(es)| < ARGS_LIMIT
      modifies this`bytecodes
      ensures n == Count(es)
      ensures bytecodes == old(bytecodes) + FrontCode(es) + ExprCode(LastOf(es))
      decreases es, 0
    {
      ghost var before, done := bytecodes, [];
      var rest := es;
      n := 0;
      while true
        invariant rest == es || rest < es
        invariant n + Count(rest) == Count(es)
        invariant bytecodes == before + done
        invariant done + AllCode(rest) == AllCode(es)
        decreases rest
      {
        AllCodeStep(done, rest);
        AppendAssoc(before, done, ExprCode(rest.expr));
        ParseExpression(rest.expr);
        n := n + 1;
        done := done + ExprCode(rest.expr);
        if rest.Only? {
          AllCodeSplit(es);
          AppendAssoc(before, FrontCode(es), ExprCode(LastOf(es)));
          return;
        }
        rest := rest.rest;
      }
    }

    /** Handles one token. */
    method ParseToken(t: Token) returns (v: Verdict)
      requires StackOk(St()) && |bytecodes| + TokenSize(t) < ARGS_LIMIT
      modifies this
      ensures (v, St()) == ParseStep(old(St()), t)
    {
      match t
      case TText(text) =>
        bytecodes := bytecodes + [Bytecode(PrintText, 0, ValuePop, Null, text)];
        v := Parsed;
      case TPrint(expr) =>
        ParsePrint(expr);
        v := Parsed;
      case TIf(cond) =>
        ParseIf(cond);
        v := Parsed;
      case TElse => v := ParseElse();
      case TElseIf(cond) =>
        v := ParseElse();
        if v.Parsed? {
          ParseElseIf(cond);
        }
      case TEndIf => v := ParseEndIf();
      case TFor(key, value, over) =>
        ParseFor(key, value, over);
        v := Parsed;
      case TEndFor => v := ParseEndFor();
    }

    method ParsePrint(expr: Expr)
      requires |bytecodes| + |Operated(expr, PrintValue, 1)| < ARGS_LIMIT
      modifies this`bytecodes
      ensures bytecodes == old(bytecodes) + Operated(expr, PrintValue, 1)
    {
      PrintSize(expr);
      ParseExpression(expr);
      MergedFunction(old(bytecodes), expr, PrintValue, 1);
      AppendFunction(PrintValue, 1);
    }

    method ParseIf(cond: Expr)
      requires StackOk(St()) && |bytecodes| + |ExprCode(cond)| + 1 < ARGS_LIMIT
      modifies this`bytecodes, this`ifStack
      ensures St() == AppendIf(old(St()), ExprCode(cond))
    {
      ParseExpression(cond);
      ifStack := ifStack + [IfData(Some(|bytecodes|), [])];
      bytecodes := bytecodes + [Plain(ConditionalJump, 0)];
    }

    method ParseElseIf(cond: Expr)
      requires StackOk(St()) && ifStack != [] && |bytecodes| + |ExprCode(cond)| + 1 < ARGS_LIMIT
      modifies this`bytecodes, this`ifStack
      ensures St() == AppendElseIf(old(St()), ExprCode(cond))
    {
      ParseExpression(cond);
      var d := ifStack[|ifStack| - 1];
      ifStack := ifStack[..|ifStack| - 1] + [d.(prevCondJump := Some(|bytecodes|))];
      bytecodes := bytecodes + [Plain(ConditionalJump, 0)];
    }

    method ParseFor(key: string, value: string, over: Expr)
      requires StackOk(St()) && |bytecodes| + |ExprCode(over)| + 1 < ARGS_LIMIT
      modifies this`bytecodes, this`loopStack
      ensures St() == AppendFor(old(St()), key, value, ExprCode(over))
    {
      ParseExpression(over);
      loopStack := loopStack + [|bytecodes|];
      bytecodes := bytecodes + [LoopStart(key, value, 0)];
    }

    method ParseEndFor() returns (v: Verdict)
      requires StackOk(St()) && |bytecodes| + 1 < ARGS_LIMIT
      modifies this`bytecodes, this`loopStack
      ensures (v, St()) == ParseStep(old(St()), TEndFor)
    {
      if loopStack == [] {
        return Mismatched;
      }
      var start := loopStack[|loopStack| - 1];
      bytecodes := SetArgs(bytecodes, start, Narrow(|bytecodes|));
      bytecodes := bytecodes + [Plain(EndLoop, Narrow(start + 1))];
      loopStack := loopStack[..|loopStack| - 1];
      v := Parsed;
    }

    method ParseElse() returns (v: Verdict)
      requires StackOk(St()) && |bytecodes| + 1 < ARGS_LIMIT
      modifies this`bytecodes, this`ifStack
      ensures (v, St()) == ParseStep(old(St()), TElse)
    {
      if ifStack == [] {
        return Mismatched;
      }
      var d := ifStack[|ifStack| - 1];
      if d.prevCondJump.None? {
        return Undefined;
      }
      var jumps := d.uncondJumps + [|bytecodes|];
      bytecodes := bytecodes + [Plain(Jump, 0)];
      bytecodes := SetArgs(bytecodes, d.prevCondJump.value, Narrow(|bytecodes|));
      ifStack := ifStack[..|ifStack| - 1] + [IfData(None, jumps)];
      v := Parsed;
    }

    method ParseEndIf() returns (v: Verdict)
      requires StackOk(St()) && |bytecodes| < ARGS_LIMIT
      modifies this`bytecodes, this`ifStack
      ensures (v, St()) == ParseStep(old(St()), TEndIf)
    {
      if ifStack == [] {
        return Mismatched;
      }
      var d := ifStack[|ifStack| - 1];
      if d.prevCondJump.Some? {
        bytecodes := SetArgs(bytecodes, d.prevCondJump.value, Narrow(|bytecodes|));
      }
      ghost var code := bytecodes;
      var i := 0;
      while i < |d.uncondJumps|
        invariant 0 <= i <= |d.uncondJumps|
        invariant |bytecodes| == |code|
        invariant bytecodes == PatchAll(code, d.uncondJumps[..i], |code|)
        modifies this`bytecodes
      {
        assert d.uncondJumps[..i + 1][..i] == d.uncondJumps[..i];
        bytecodes := SetArgs(bytecodes, d.uncondJumps[i], Narrow(|bytecodes|));
        i := i + 1;
      }
      assert d.uncondJumps[..i] == d.uncondJumps;
      ifStack := ifStack[..|ifStack| - 1];
      v := Parsed;
    }

    /** Parses a whole template; at its end no if and no loop may be open. */
    method ParseInto(ts: seq<Token>) returns (v: Verdict)
      requires StackOk(St()) && |bytecodes| + CodeSize(ts) < ARGS_LIMIT
      modifies this
      ensures St() == ParseAll(old(St()), ts).1
      ensures v == if ParseAll(old(St()), ts).0.Parsed? && (ifStack != [] || loopStack != []) then Mismatched
                   else ParseAll(old(St()), ts).0
    {
      var i := 0;
      while i < |ts|
        invariant 0 <= i <= |ts|
        invariant StackOk(St()) && |bytecodes| + CodeSize(ts[i..]) < ARGS_LIMIT
        invariant ParseAll(St(), ts[i..]) == ParseAll(old(St()), ts)
      {
        assert ts[i..][1..] == ts[i + 1..];
        v := ParseToken(ts[i]);
        if !v.Parsed? {
          return;
        }
        i := i + 1;
      }
      v := if ifStack != [] || loopStack != [] then Mismatched else Parsed;
    }
  }

  function AfterFunction(code: seq<Bytecode>, op: OpCode, n: nat): (r: seq<Bytecode>)
  {
    if code != [] && code[|code| - 1].op == Push then code[|code| - 1 := code[|code| - 1].(op := op, args := n)]
    else code + [Plain(op, n)]
  }

  function AfterCallback(code: seq<Bytecode>, name: string, n: nat): (r: seq<Bytecode>)
  {
    if code != [] && code[|code| - 1].op == Push && code[|code| - 1].flag == ValueImmediate then
      code[|code| - 1 := code[|code| - 1].(op := Callback, args := n, str := name)]
    else code + [Plain(Callback, n).(str := name)]
  }

  /** Merging into the last instruction of an expression's code gives the code of the operator applied to
      it, whatever stands before. */
  lemma MergedFunction(before: seq<Bytecode>, last: Expr, op: OpCode, n: nat)
    ensures AfterFunction(before + ExprCode(last), op, n) == before + Operated(last, op, n)
  {
    var code := before + ExprCode(last);
    LastInstruction(last);
    assert code[|code| - 1] == ExprCode(last)[|ExprCode(last)| - 1];
  }

  lemma MergedCallback(before: seq<Bytecode>, last: Expr, name: string, n: nat)
    ensures AfterCallback(before + ExprCode(last), name, n) == before + Called(last, name, n)
  {
    var code := before + ExprCode(last);
    LastInstruction(last);
    assert code[|code| - 1] == ExprCode(last)[|ExprCode(last)| - 1];
  }

  lemma {:induction false} AllCodeSplit(es: Exprs)
    ensures AllCode(es) == FrontCode(es) + ExprCode(LastOf(es))
  {
    if es.More? {
      AllCodeSplit(es.rest);
    }
  }

  lemma AppendAssoc(a: seq<Bytecode>, b: seq<Bytecode>, c: seq<Bytecode>)
    ensures a + b + c == a + (b + c)
  {
  }

  lemma AllCodeStep(done: seq<Bytecode>, es: Exprs)
    ensures es.Only? ==> done + AllCode(es) == done + ExprCode(es.expr)
    ensures es.More? ==> done + AllCode(es) == (done + ExprCode(es.expr)) + AllCode(es.rest)
    ensures |ExprCode(es.expr)| <= |AllCode(es)|
  {
  }

  lemma ArgsSize(e: Expr)
    requires e.Apply? || e.Call?
    ensures Count(e.args) <= |AllCode(e.args)| <= |ExprCode(e)|
  {
    AllCodeSplit(e.args);
  }

  lemma PrintSize(e: Expr)
    ensures |ExprCode(e)| <= |Operated(e, PrintValue, 1)|
  {
  }
}
