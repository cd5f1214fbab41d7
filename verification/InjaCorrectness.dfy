/** Compiled statements: conditions, jumps and loops on the machine against the tree interpretation. */
module InjaCorrectness {
  import opened InjaSyntax
  import opened InjaSemantics
  import opened InjaCode
  import opened InjaMachine
  import opened InjaSimulation

  /** The machine at `pc` having written a rendering's output, or failed after it. */
  ghost function Ended(m: Machine, pc: nat, r: Rendering): (m': Machine)
    requires m.Running?
  {
    if r.ok then m.(pc := pc, out := m.out + r.out) else Failed(m.out + r.out)
  }

  lemma {:induction false} EndedSequence(m: Machine, pc: nat, pc': nat, first: Rendering, second: Rendering)
    requires m.Running? && first.ok
    ensures Ended(m, pc, first).Running?
    ensures Ended(Ended(m, pc, first), pc', second) == Ended(m, pc', Sequence(first, second))
  {
    assert m.out + first.out + second.out == m.out + (first.out + second.out);
  }

  lemma {:induction false} SequenceRuns(job: Job, m: Machine, pc: nat, end: nat, first: Rendering, second: Rendering)
    requires m.Running? && Reaches(job, m, Ended(m, pc, first))
    requires first.ok ==> Reaches(job, Ended(m, pc, first), Ended(Ended(m, pc, first), end, second))
    ensures Reaches(job, m, Ended(m, end, Sequence(first, second)))
  {
    if first.ok {
      EndedSequence(m, pc, end, first, second);
      ReachesTrans(job, m, Ended(m, pc, first), Ended(m, end, Sequence(first, second)));
    }
  }

  // ----- output, conditions and jumps -----

  lemma {:induction false} TextRuns(job: Job, m: Machine, text: string)
    requires m.Running? && CodeAt(job, m.pc, [Bytecode(PrintText, 0, ValuePop, Null, text)])
    ensures Reaches(job, m, Ended(m, m.pc + 1, Rendering(true, text)))
  {
    AtOne(job, m.pc, Bytecode(PrintText, 0, ValuePop, Null, text));
    ReachesStep(job, m);
  }

  ghost function Printed(env: Env, v: Option<Json>): (r: Rendering)
  {
    if v.None? then Fail() else Rendering(true, Shown(env, v.value))
  }

  lemma {:induction false} PrintRuns(job: Job, m: Machine, expr: Expr)
    requires m.Running? && CodeAt(job, m.pc, Operated(expr, PrintValue, 1))
    ensures Reaches(job, m, Ended(m, m.pc + |Operated(expr, PrintValue, 1)|,
                                  Printed(job.env, Eval(job.env, Data(job, m), expr))))
  {
    if IsLeaf(expr) {
      PrintLeafRuns(job, m, expr);
    } else {
      assert m.pc + |Operated(expr, PrintValue, 1)| == m.pc + |ExprCode(expr)| + 1;
      PrintStackRuns(job, m, expr);
    }
  }

  lemma {:induction false} PrintStackRuns(job: Job, m: Machine, expr: Expr)
    requires m.Running? && CodeAt(job, m.pc, ExprCode(expr) + [Plain(PrintValue, 1)])
    ensures Reaches(job, m, Ended(m, m.pc + |ExprCode(expr)| + 1, Printed(job.env, Eval(job.env, Data(job, m), expr))))
  {
    var pc, v := m.pc + |ExprCode(expr)|, Eval(job.env, Data(job, m), expr);
    var m1 := ExprThen(job, m, expr, Plain(PrintValue, 1));
    PrintOtherRuns(job, m, m1, pc, v);
  }

  lemma {:induction false} PrintOtherRuns(job: Job, m: Machine, m1: Machine, pc: nat, v: Option<Json>)
    requires m.Running? && m1 == Valued(m, pc, m.stack, v) && Reaches(job, m, m1)
    requires CodeAt(job, pc, [Plain(PrintValue, 1)])
    ensures Reaches(job, m, Ended(m, pc + 1, Printed(job.env, v)))
  {
    if v.None? {
      assert m.out + "" == m.out;
    } else {
      PrintTopRuns(job, m, m1, v.value);
      ReachesTrans(job, m, m1, Ended(m, pc + 1, Printed(job.env, v)));
    }
  }

  lemma {:induction false} PrintLeafRuns(job: Job, m: Machine, expr: Expr)
    requires m.Running? && IsLeaf(expr) && CodeAt(job, m.pc, [PushOf(expr).(op := PrintValue, args := 1)])
    ensures Reaches(job, m, Ended(m, m.pc + 1, Printed(job.env, Eval(job.env, Data(job, m), expr))))
  {
    var bc := PushOf(expr).(op := PrintValue, args := 1);
    AtOne(job, m.pc, bc);
    assert m.stack[|m.stack|..] == [] && m.stack[..|m.stack|] == m.stack;
    assert m.out + "" == m.out;
    ReachesStep(job, m);
  }

  lemma {:induction false} PrintTopRuns(job: Job, m: Machine, m1: Machine, v: Json)
    requires m.Running? && m1.Running? && m1 == m.(pc := m1.pc, stack := m.stack + [v])
    requires CodeAt(job, m1.pc, [Plain(PrintValue, 1)])
    ensures Reaches(job, m1, Ended(m, m1.pc + 1, Rendering(true, Shown(job.env, v))))
  {
    AtOne(job, m1.pc, Plain(PrintValue, 1));
    assert m1.stack[|m1.stack| - 1..] == [v] && m1.stack[..|m1.stack| - 1] == m.stack;
    ReachesStep(job, m1);
  }

  /** Where a condition leads. */
  ghost function Chosen(m: Machine, cond: Option<bool>, yes: nat, no: nat): (m': Machine)
    requires m.Running?
  {
    if cond.None? then Failed(m.out) else m.(pc := if cond.value then yes else no)
  }

  lemma {:induction false} ConditionRuns(job: Job, m: Machine, cond: Expr, target: nat)
    requires m.Running? && CodeAt(job, m.pc, ExprCode(cond) + [Plain(ConditionalJump, target)])
    ensures Reaches(job, m, Chosen(m, Condition(job.env, Data(job, m), cond), m.pc + |ExprCode(cond)| + 1, target))
  {
    var v := Eval(job.env, Data(job, m), cond);
    var m1 := ExprThen(job, m, cond, Plain(ConditionalJump, target));
    if v.Some? {
      TestRuns(job, m, m1, v.value, target);
      ReachesTrans(job, m, m1, Chosen(m, Truthy(v.value), m1.pc + 1, target));
    }
  }

  lemma {:induction false} TestRuns(job: Job, m: Machine, m1: Machine, v: Json, target: nat)
    requires m.Running? && m1.Running? && m1 == m.(pc := m1.pc, stack := m.stack + [v])
    requires CodeAt(job, m1.pc, [Plain(ConditionalJump, target)])
    ensures Reaches(job, m1, Chosen(m, Truthy(v), m1.pc + 1, target))
  {
    AtOne(job, m1.pc, Plain(ConditionalJump, target));
    assert m1.stack[..|m1.stack| - 1] == m.stack;
    ReachesStep(job, m1);
  }

  lemma {:induction false} JumpRuns(job: Job, m: Machine, target: nat)
    requires m.Running? && CodeAt(job, m.pc, [Plain(Jump, target)])
    ensures Reaches(job, m, m.(pc := target))
  {
    AtOne(job, m.pc, Plain(Jump, target));
    ReachesStep(job, m);
  }

  // ----- loops -----

  /** How many iterations are left, the current one included. */
  ghost function Remaining(level: Level): (n: int)
  {
    if level.ArrayLevel? then |level.items| - level.index else |level.entries| - level.pos
  }

  /** The interpretation of the iterations from a level's position on, each in a fresh scope. */
  ghost function ExecLevel(env: Env, scope: Json, level: Level, body: Block): (r: Rendering)
    requires Remaining(level) >= 0
  {
    if level.ArrayLevel? then ExecItems(env, scope, level.name, level.items, level.index, body)
    else ExecEntries(env, scope, level.key, level.name, level.entries, level.pos, body)
  }

  lemma {:induction false} ExecLevelUnfold(env: Env, scope: Json, level: Level, body: Block)
    requires Remaining(level) > 0
    ensures ExecLevel(env, scope, level, body)
         == match Update(level.(data := scope))
            case None => Fail()
            case Some(l) => Sequence(ExecBlock(env, l.data, body), ExecLevel(env, scope, Moved(level), body))
  {
  }

  lemma {:induction false} BindItemAgain(scope: Json, name: string, items: seq<Json>, i: nat, j: nat)
    requires i < |items| && j < |items| && BindItem(scope, name, items, i).Some?
    ensures BindItem(BindItem(scope, name, items, i).value, name, items, j) == BindItem(scope, name, items, j)
  {
    var fields := if scope.Null? then map[] else scope.fields;
    var data := BindItem(scope, name, items, i).value;
    if name != "loop" {
      var loop := FieldOrNull(Object(fields), "loop");
      assert FieldOrNull(SetField(scope, name, items[i]).value, "loop") == loop;
      LoopInfoAgain(loop, i, j, |items|);
      var info, info' := LoopInfo(loop, i, |items|).value, LoopInfo(loop, j, |items|).value;
      assert data.fields == fields[name := items[i]]["loop" := info];
      assert data.fields[name := items[j]]["loop" := info'] == fields[name := items[j]]["loop" := info'];
      assert FieldOrNull(SetField(data, name, items[j]).value, "loop") == info;
    } else {
      assert data.fields[name := items[j]] == fields[name := items[j]];
    }
  }

  lemma {:induction false} LoopInfoAgain(loop: Json, i: nat, j: nat, count: nat)
    requires LoopInfo(loop, i, count).Some?
    ensures LoopInfo(LoopInfo(loop, i, count).value, j, count) == LoopInfo(loop, j, count)
    ensures LoopInfo(loop, j, count).Some?
  {
    var fields := if loop.Null? then map[] else loop.fields;
    assert LoopInfo(loop, i, count).value.fields
             ["index" := Integer(j)]["index1" := Integer(j + 1)]
               ["is_first" := Bool(j == 0)]["is_last" := Bool(j == count - 1)]
        == fields["index" := Integer(j)]["index1" := Integer(j + 1)]
          ["is_first" := Bool(j == 0)]["is_last" := Bool(j == count - 1)];
  }

  lemma {:induction false} BindEntryAgain(scope: Json, key: string, name: string, e: (string, Json), f: (string, Json))
    requires BindEntry(scope, key, name, e).Some?
    ensures BindEntry(BindEntry(scope, key, name, e).value, key, name, f) == BindEntry(scope, key, name, f)
  {
    var fields := if scope.Null? then map[] else scope.fields;
    var data := BindEntry(scope, key, name, e).value;
    assert data.fields == fields[key := Str(e.0)][name := e.1];
    assert data.fields[key := Str(f.0)][name := f.1] == fields[key := Str(f.0)][name := f.1];
  }

  /** Updating the data of the previous iteration gives what a fresh scope would. */
  lemma {:induction false} UpdateAgain(scope: Json, level: Level)
    requires Remaining(level) > 0 && Update(level.(data := scope)) == Some(level)
    ensures Remaining(Moved(level)) > 0 ==> Update(Moved(level)) == Update(Moved(level).(data := scope))
  {
    if Remaining(Moved(level)) > 0 {
      if level.ArrayLevel? {
        BindItemAgain(scope, level.name, level.items, level.index, level.index + 1);
      } else {
        BindEntryAgain(scope, level.key, level.name, level.entries[level.pos], level.entries[level.pos + 1]);
      }
    }
  }

  ghost function InLoop(m: Machine, pc: nat, level: Level): (m': Machine)
    requires m.Running?
    ensures m'.Running?
  {
    m.(pc := pc, loops := m.loops + [level])
  }

  /** The end of an iteration: leave the loop, fail, or start the next one. */
  lemma {:induction false} EndRuns(job: Job, m: Machine, scope: Json, level: Level, start: nat, end: nat)
    requires m.Running? && CodeAt(job, end, [Plain(EndLoop, start)])
    requires Remaining(level) > 0 && Update(level.(data := scope)) == Some(level)
    ensures (var next := Moved(level);
             var level' := if Remaining(next) > 0 then Update(next.(data := scope)) else None;
             Reaches(job, InLoop(m, end, level),
                     if Remaining(next) == 0 then m.(pc := end + 1)
                     else if level'.None? then Failed(m.out)
                     else InLoop(m, start, level'.value)))
  {
    var inside := InLoop(m, end, level);
    AtOne(job, end, Plain(EndLoop, start));
    UpdateAgain(scope, level);
    assert inside.loops[..|inside.loops| - 1] == m.loops;
    ReachesStep(job, inside);
  }

  lemma {:induction false} LevelRuns(job: Job, m: Machine, scope: Json, level: Level, body: Block, start: nat, end: nat)
    requires m.Running? && Remaining(level) > 0 && Update(level.(data := scope)) == Some(level)
    requires end == start + BlockSize(body)
    requires CodeAt(job, start, BlockCode(body, start)) && CodeAt(job, end, [Plain(EndLoop, start)])
    ensures Reaches(job, InLoop(m, start, level), Ended(m, end + 1, ExecLevel(job.env, scope, level, body)))
    decreases body, 1, Remaining(level)
  {
    var inside, first := InLoop(m, start, level), ExecBlock(job.env, level.data, body);
    BlockRuns(job, inside, body, end);
    ExecLevelUnfold(job.env, scope, level, body);
    if first.ok {
      var m1 := Ended(m, end, first);
      EndRuns(job, m1, scope, level, start, end);
      NextRuns(job, m1, scope, level, body, start, end);
      var rest := ExecLevel(job.env, scope, Moved(level), body);
      EndedSequence(m, end, end + 1, first, rest);
      ReachesTrans(job, inside, InLoop(m1, end, level), Ended(m1, end + 1, rest));
    }
  }

  lemma {:induction false} NextRuns(job: Job, m: Machine, scope: Json, level: Level, body: Block, start: nat, end: nat)
    requires m.Running? && Remaining(level) > 0 && Update(level.(data := scope)) == Some(level)
    requires end == start + BlockSize(body)
    requires CodeAt(job, start, BlockCode(body, start)) && CodeAt(job, end, [Plain(EndLoop, start)])
    ensures Reaches(job, InLoop(m, end, level), Ended(m, end + 1, ExecLevel(job.env, scope, Moved(level), body)))
    decreases body, 1, Remaining(level), 0
  {
    var next := Moved(level);
    EndRuns(job, m, scope, level, start, end);
    assert m.out + "" == m.out;
    if Remaining(next) > 0 {
      ExecLevelUnfold(job.env, scope, next, body);
      var level' := Update(next.(data := scope));
      if level'.Some? {
        LevelRuns(job, m, scope, level'.value, body, start, end);
        ReachesTrans(job, InLoop(m, end, level), InLoop(m, start, level'.value),
                     Ended(m, end + 1, ExecLevel(job.env, scope, level'.value, body)));
      }
    }
  }

  lemma {:induction false} ThenCode(job: Job, pc: nat, head: Stmt, tail: Block)
    requires CodeAt(job, pc, BlockCode(Then(head, tail), pc))
    ensures CodeAt(job, pc, StmtCode(head, pc))
    ensures CodeAt(job, pc + StmtSize(head), BlockCode(tail, pc + StmtSize(head)))
    ensures BlockSize(Then(head, tail)) == StmtSize(head) + BlockSize(tail)
  {
    AtSplit(job, pc, StmtCode(head, pc), BlockCode(tail, pc + StmtSize(head)));
  }

  lemma {:induction false} BlockRuns(job: Job, m: Machine, b: Block, end: nat)
    requires m.Running? && CodeAt(job, m.pc, BlockCode(b, m.pc)) && end == m.pc + BlockSize(b)
    ensures Reaches(job, m, Ended(m, end, ExecBlock(job.env, Data(job, m), b)))
    decreases b, 0
  {
    match b
    case End =>
      ReachesSelf(job, m);
      assert m.out + "" == m.out;
    case Then(head, tail) =>
      var pc := m.pc + StmtSize(head);
      ThenCode(job, m.pc, head, tail);
      StmtRuns(job, m, head, pc);
      var first := ExecStmt(job.env, Data(job, m), head);
      if first.ok {
        BlockRuns(job, Ended(m, pc, first), tail, end);
      }
      SequenceRuns(job, m, pc, end, first, ExecBlock(job.env, Data(job, m), tail));
  }

  lemma {:induction false} StmtRuns(job: Job, m: Machine, s: Stmt, end: nat)
    requires m.Running? && CodeAt(job, m.pc, StmtCode(s, m.pc)) && end == m.pc + StmtSize(s)
    ensures Reaches(job, m, Ended(m, end, ExecStmt(job.env, Data(job, m), s)))
    decreases s, 2
  {
    match s
    case Text(text) => TextRuns(job, m, text);
    case Print(expr) => PrintRuns(job, m, expr);
    case If(_, _, _) => IfRuns(job, m, s, end);
    case For(_, _, _, _) => ForRuns(job, m, s, end);
  }

  // ----- if -----

  /** A body, and the jump to the end that follows it unless the if ends there. */
  lemma {:induction false} BranchRuns(job: Job, m: Machine, body: Block, c: Chain, at: nat, end: nat)
    requires m.Running? && CodeAt(job, m.pc, BlockCode(body, m.pc)) && at == m.pc + BlockSize(body)
    requires CodeAt(job, at, ChainCode(c, at, end)) && end == at + ChainSize(c)
    ensures Reaches(job, m, Ended(m, end, ExecBlock(job.env, Data(job, m), body)))
    decreases body, 1
  {
    BlockRuns(job, m, body, at);
    var r := ExecBlock(job.env, Data(job, m), body);
    if r.ok && !c.EndIf? {
      var m1 := Ended(m, at, r);
      LeavingJump(job, c, at, end);
      JumpRuns(job, m1, end);
      ReachesTrans(job, m, m1, Ended(m, end, r));
    }
  }

  lemma {:induction false} LeavingJump(job: Job, c: Chain, at: nat, end: nat)
    requires !c.EndIf? && CodeAt(job, at, ChainCode(c, at, end))
    ensures CodeAt(job, at, [Plain(Jump, end)])
  {
    var code := ChainCode(c, at, end);
    assert code == [Plain(Jump, end)] + code[1..];
    AtSplit(job, at, [Plain(Jump, end)], code[1..]);
  }

  /** Both ways a condition can go, once it has been evaluated. */
  lemma {:induction false} ChosenRuns(job: Job, m: Machine, cond: Option<bool>, yes: nat, no: nat, end: nat,
                                      taken: Rendering, other: Rendering)
    requires m.Running? && Reaches(job, m, Chosen(m, cond, yes, no))
    requires cond == Some(true) ==> Reaches(job, m.(pc := yes), Ended(m, end, taken))
    requires cond == Some(false) ==> Reaches(job, m.(pc := no), Ended(m, end, other))
    ensures Reaches(job, m, Ended(m, end, if cond.None? then Fail() else if cond.value then taken else other))
  {
    if cond.None? {
      assert m.out + "" == m.out;
    } else if cond.value {
      ReachesTrans(job, m, m.(pc := yes), Ended(m, end, taken));
    } else {
      ReachesTrans(job, m, m.(pc := no), Ended(m, end, other));
    }
  }

  lemma {:induction false} IfRuns(job: Job, m: Machine, s: Stmt, end: nat)
    requires m.Running? && s.If? && CodeAt(job, m.pc, StmtCode(s, m.pc)) && end == m.pc + StmtSize(s)
    ensures Reaches(job, m, Ended(m, end, ExecStmt(job.env, Data(job, m), s)))
    decreases s, 1
  {
    var yes := m.pc + |ExprCode(s.cond)| + 1;
    var at := yes + BlockSize(s.body);
    IfParts(job, m.pc, s, yes, at, end);
    ConditionRuns(job, m, s.cond, ElseTarget(s.chain, at));
    BranchRuns(job, m.(pc := yes), s.body, s.chain, at, end);
    ChainRuns(job, m.(pc := ElseTarget(s.chain, at)), s.chain, at, end);
    var data := Data(job, m);
    ChosenRuns(job, m, Condition(job.env, data, s.cond), yes, ElseTarget(s.chain, at), end,
               ExecBlock(job.env, data, s.body), ExecChain(job.env, data, s.chain));
  }

  lemma {:induction false} IfParts(job: Job, base: nat, s: Stmt, yes: nat, at: nat, end: nat)
    requires s.If? && CodeAt(job, base, StmtCode(s, base)) && end == base + StmtSize(s)
    requires yes == base + |ExprCode(s.cond)| + 1 && at == yes + BlockSize(s.body)
    ensures CodeAt(job, base, ExprCode(s.cond) + [Plain(ConditionalJump, ElseTarget(s.chain, at))])
    ensures CodeAt(job, yes, BlockCode(s.body, yes))
    ensures CodeAt(job, at, ChainCode(s.chain, at, end)) && end == at + ChainSize(s.chain)
  {
    var test := ExprCode(s.cond) + [Plain(ConditionalJump, ElseTarget(s.chain, at))];
    IfShape(s, base, yes, at);
    assert end == at + ChainSize(s.chain);
    AtSplit(job, base, test + BlockCode(s.body, yes), ChainCode(s.chain, at, end));
    AtSplit(job, base, test, BlockCode(s.body, yes));
  }

  /** What a false condition leads to. */
  lemma {:induction false} ChainRuns(job: Job, m: Machine, c: Chain, at: nat, end: nat)
    requires m.Running? && m.pc == ElseTarget(c, at)
    requires CodeAt(job, at, ChainCode(c, at, end)) && end == at + ChainSize(c)
    ensures Reaches(job, m, Ended(m, end, ExecChain(job.env, Data(job, m), c)))
    decreases c, 1
  {
    match c
    case EndIf =>
      ReachesSelf(job, m);
      assert m.out + "" == m.out;
    case Else(body) =>
      AtSplit(job, at, [Plain(Jump, end)], BlockCode(body, at + 1));
      BlockRuns(job, m, body, end);
    case ElseIf(_, _, _) => ElseIfRuns(job, m, c, at, end);
  }

  lemma {:induction false} ElseIfRuns(job: Job, m: Machine, c: Chain, at: nat, end: nat)
    requires m.Running? && c.ElseIf? && m.pc == at + 1
    requires CodeAt(job, at, ChainCode(c, at, end)) && end == at + ChainSize(c)
    ensures Reaches(job, m, Ended(m, end, ExecChain(job.env, Data(job, m), c)))
    decreases c, 0
  {
    var yes := at + 1 + |ExprCode(c.cond)| + 1;
    var at2 := yes + BlockSize(c.body);
    ElseIfParts(job, at, c, yes, at2, end);
    ConditionRuns(job, m, c.cond, ElseTarget(c.chain, at2));
    BranchRuns(job, m.(pc := yes), c.body, c.chain, at2, end);
    ChainRuns(job, m.(pc := ElseTarget(c.chain, at2)), c.chain, at2, end);
    var data := Data(job, m);
    ChosenRuns(job, m, Condition(job.env, data, c.cond), yes, ElseTarget(c.chain, at2), end,
               ExecBlock(job.env, data, c.body), ExecChain(job.env, data, c.chain));
  }

  lemma {:induction false} ElseIfParts(job: Job, at: nat, c: Chain, yes: nat, at2: nat, end: nat)
    requires c.ElseIf? && CodeAt(job, at, ChainCode(c, at, end)) && end == at + ChainSize(c)
    requires yes == at + 1 + |ExprCode(c.cond)| + 1 && at2 == yes + BlockSize(c.body)
    ensures CodeAt(job, at + 1, ExprCode(c.cond) + [Plain(ConditionalJump, ElseTarget(c.chain, at2))])
    ensures CodeAt(job, yes, BlockCode(c.body, yes))
    ensures CodeAt(job, at2, ChainCode(c.chain, at2, end)) && end == at2 + ChainSize(c.chain)
  {
    ElseIfShape(c, at, yes, at2, end);
    AtFive(job, at, [Plain(Jump, end)], ExprCode(c.cond), [Plain(ConditionalJump, ElseTarget(c.chain, at2))], yes,
           BlockCode(c.body, yes), at2, ChainCode(c.chain, at2, end));
  }

  lemma {:induction false} AtFive(job: Job, at: nat, jump: seq<Bytecode>, test: seq<Bytecode>, target: seq<Bytecode>,
                                  yes: nat, body: seq<Bytecode>, at2: nat, rest: seq<Bytecode>)
    requires CodeAt(job, at, jump + test + target + body + rest) && |jump| == |target| == 1
    requires yes == at + 1 + |test| + 1 && at2 == yes + |body|
    ensures CodeAt(job, at + 1, test + target) && CodeAt(job, yes, body) && CodeAt(job, at2, rest)
  {
    AtSplit(job, at, jump + test + target + body, rest);
    AtSplit(job, at, jump + test + target, body);
    assert jump + test + target == jump + (test + target);
    AtSplit(job, at, jump, test + target);
  }

  // ----- for -----

  ghost function ForResult(env: Env, scope: Option<Json>, bc: Bytecode, v: Option<Json>, body: Block): (r: Rendering)
  {
    if v.None? then Fail()
    else if IsEmpty(v.value) then Rendering(true, "")
    else if scope.None? || NewLevel(scope.value, bc, v.value).None? then Fail()
    else ExecLevel(env, scope.value, NewLevel(scope.value, bc, v.value).value, body)
  }

  lemma {:induction false} ForRuns(job: Job, m: Machine, s: Stmt, end: nat)
    requires m.Running? && s.For? && CodeAt(job, m.pc, StmtCode(s, m.pc)) && end == m.pc + StmtSize(s)
    ensures Reaches(job, m, Ended(m, end, ExecStmt(job.env, Data(job, m), s)))
    decreases s, 1
  {
    var start := m.pc + |ExprCode(s.over)| + 1;
    var bc := LoopStart(s.key, s.value, start + BlockSize(s.body));
    assert end == bc.args + 1;
    ForReaches(job, m, s, start, bc);
    ForResultExec(job.env, Data(job, m), s, bc);
  }

  lemma {:induction false} ForReaches(job: Job, m: Machine, s: Stmt, start: nat, bc: Bytecode)
    requires m.Running? && s.For? && CodeAt(job, m.pc, StmtCode(s, m.pc)) && start == m.pc + |ExprCode(s.over)| + 1
    requires bc == LoopStart(s.key, s.value, start + BlockSize(s.body))
    ensures Reaches(job, m, Ended(m, bc.args + 1, ForResult(job.env, WithParent(Data(job, m)), bc,
                                                            Eval(job.env, Data(job, m), s.over), s.body)))
    decreases s, 0
  {
    ForParts(job, m.pc, s, start, bc.args, bc);
    var m1 := ExprThen(job, m, s.over, bc);
    assert m.pc + |ExprCode(s.over)| == start - 1;
    LoopRuns(job, m, m1, Eval(job.env, Data(job, m), s.over), s.body, bc, start, bc.args);
  }

  lemma {:induction false} ForResultExec(env: Env, data: Json, s: Stmt, bc: Bytecode)
    requires s.For? && bc == LoopStart(s.key, s.value, bc.args)
    ensures ExecStmt(env, data, s) == ForResult(env, WithParent(data), bc, Eval(env, data, s.over), s.body)
  {
  }

  lemma {:induction false} ForParts(job: Job, base: nat, s: Stmt, start: nat, endAt: nat, bc: Bytecode)
    requires s.For? && CodeAt(job, base, StmtCode(s, base))
    requires start == base + |ExprCode(s.over)| + 1 && endAt == start + BlockSize(s.body)
    requires bc == LoopStart(s.key, s.value, endAt)
    ensures CodeAt(job, base, ExprCode(s.over) + [bc])
    ensures CodeAt(job, start, BlockCode(s.body, start)) && CodeAt(job, endAt, [Plain(EndLoop, start)])
  {
    AtSplit(job, base, ExprCode(s.over) + [bc] + BlockCode(s.body, start), [Plain(EndLoop, start)]);
    AtSplit(job, base, ExprCode(s.over) + [bc], BlockCode(s.body, start));
  }

  /** A loop instruction with the value to iterate over on top of the stack. */
  lemma {:induction false} LoopRuns(job: Job, m: Machine, m1: Machine, v: Option<Json>, body: Block, bc: Bytecode,
                                    start: nat, endAt: nat)
    requires m.Running? && start > 0 && m1 == Valued(m, start - 1, m.stack, v) && Reaches(job, m, m1)
    requires CodeAt(job, start - 1, [bc]) && bc.op == StartLoop && bc.args == endAt == start + BlockSize(body)
    requires CodeAt(job, start, BlockCode(body, start)) && CodeAt(job, endAt, [Plain(EndLoop, start)])
    ensures Reaches(job, m, Ended(m, endAt + 1, ForResult(job.env, WithParent(Data(job, m)), bc, v, body)))
    decreases body, 2
  {
    if v.Some? {
      StartRuns(job, m, m1, v.value, bc);
      var m2 := Started(job, m, bc, v.value, start);
      ReachesTrans(job, m, m1, m2);
      StartedRuns(job, m, v.value, body, bc, start, endAt);
      ReachesTrans(job, m, m2, Ended(m, endAt + 1, ForResult(job.env, WithParent(Data(job, m)), bc, v, body)));
    } else {
      assert m.out + "" == m.out;
    }
  }

  lemma {:induction false} StartedRuns(job: Job, m: Machine, v: Json, body: Block, bc: Bytecode, start: nat, endAt: nat)
    requires m.Running? && bc.args == endAt == start + BlockSize(body)
    requires CodeAt(job, start, BlockCode(body, start)) && CodeAt(job, endAt, [Plain(EndLoop, start)])
    ensures Reaches(job, Started(job, m, bc, v, start),
                    Ended(m, endAt + 1, ForResult(job.env, WithParent(Data(job, m)), bc, Some(v), body)))
    decreases body, 1
  {
    assert m.out + "" == m.out;
    var m2 := Started(job, m, bc, v, start);
    if m2.Running? && !IsEmpty(v) {
      var scope := WithParent(Data(job, m)).value;
      var level := NewLevel(scope, bc, v).value;
      LevelRuns(job, m, scope, Update(level).value, body, start, endAt);
    } else {
      ReachesSelf(job, m2);
    }
  }

  ghost function Started(job: Job, m: Machine, bc: Bytecode, v: Json, start: nat): (m': Machine)
    requires m.Running?
  {
    if IsEmpty(v) then m.(pc := bc.args + 1)
    else
      var level := Opened(WithParent(Data(job, m)), bc, v);
      if level.None? then Failed(m.out) else InLoop(m, start, level.value)
  }

  lemma {:induction false} StartRuns(job: Job, m: Machine, m1: Machine, v: Json, bc: Bytecode)
    requires m.Running? && m1.Running? && m1 == m.(pc := m1.pc, stack := m.stack + [v])
    requires CodeAt(job, m1.pc, [bc]) && bc.op == StartLoop
    ensures Reaches(job, m1, Started(job, m, bc, v, m1.pc + 1))
  {
    AtOne(job, m1.pc, bc);
    assert m1.stack[..|m1.stack| - 1] == m.stack;
    ReachesStep(job, m1);
  }

  // ----- whole templates -----

  /** Rendering the code of a template stops, never in undefined behaviour: at the end of the code with
      both stacks empty and the output of the interpretation, or failed exactly where that fails. */
  lemma {:induction false} TemplateRenders(env: Env, root: Json, b: Block) returns (n: nat)
    ensures (var job, r := Job(env, root, BlockCode(b, 0)), ExecBlock(env, root, b);
             Run(job, Running(0, [], [], ""), n)
             == if r.ok then Running(|job.code|, [], [], r.out) else Failed(r.out))
  {
    var job, m := Job(env, root, BlockCode(b, 0)), Running(0, [], [], "");
    BlockRuns(job, m, b, |job.code|);
    n := ReachesRun(job, m, Ended(m, |job.code|, ExecBlock(env, root, b)));
    var out := ExecBlock(env, root, b).out;
    assert "" + out == out;
  }
}
