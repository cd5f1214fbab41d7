/** Running the code of a template outputs, or fails, exactly as the direct interpretation of its tree. */
module InjaSimulation {
  import opened InjaSyntax
  import opened InjaSemantics
  import opened InjaCode
  import opened InjaMachine

  // ----- runs of the machine -----

  ghost predicate StepsTo(job: Job, m: Machine, m': Machine) {
    !Halted(job, m) && m' == Step(job, m)
  }

  ghost predicate IsTrace(job: Job, trace: seq<Machine>) {
    && trace != []
    && (forall i, j {:trigger StepsTo(job, trace[i], trace[j])} ::
          0 <= i && j == i + 1 && j < |trace| ==> StepsTo(job, trace[i], trace[j]))
  }

  ghost predicate Reaches(job: Job, m: Machine, m': Machine) {
    exists trace :: IsTrace(job, trace) && trace[0] == m && trace[|trace| - 1] == m'
  }

  lemma {:induction false} ReachesSelf(job: Job, m: Machine)
    ensures Reaches(job, m, m)
  {
    assert IsTrace(job, [m]);
  }

  lemma {:induction false} ReachesStep(job: Job, m: Machine)
    requires m.Running? && m.pc < |job.code|
    ensures Reaches(job, m, Step(job, m))
  {
    assert IsTrace(job, [m, Step(job, m)]);
  }

  lemma {:induction false} ReachesTrans(job: Job, m0: Machine, m1: Machine, m2: Machine)
    requires Reaches(job, m0, m1) && Reaches(job, m1, m2)
    ensures Reaches(job, m0, m2)
  {
    var t0 :| IsTrace(job, t0) && t0[0] == m0 && t0[|t0| - 1] == m1;
    var t1 :| IsTrace(job, t1) && t1[0] == m1 && t1[|t1| - 1] == m2;
    TracesJoin(job, t0, t1);
    var trace := t0 + t1[1..];
    assert trace[|trace| - 1] == m2;
  }

  lemma {:induction false} TracesJoin(job: Job, t0: seq<Machine>, t1: seq<Machine>)
    requires IsTrace(job, t0) && IsTrace(job, t1) && t0[|t0| - 1] == t1[0]
    ensures IsTrace(job, t0 + t1[1..])
  {
    var trace, n := t0 + t1[1..], |t0| - 1;
    forall i, j | 0 <= i && j == i + 1 && j < |trace|
      ensures StepsTo(job, trace[i], trace[j])
    {
      if i >= n {
        assert StepsTo(job, t1[i - n], t1[j - n]);
      } else {
        assert StepsTo(job, t0[i], t0[j]);
      }
    }
  }

  lemma {:induction false} ReachesRun(job: Job, m: Machine, m': Machine) returns (n: nat)
    requires Reaches(job, m, m')
    ensures Run(job, m, n) == m'
  {
    var trace :| IsTrace(job, trace) && trace[0] == m && trace[|trace| - 1] == m';
    TraceRun(job, trace);
    n := |trace| - 1;
  }

  lemma {:induction false} TraceRun(job: Job, trace: seq<Machine>)
    requires IsTrace(job, trace)
    ensures Run(job, trace[0], |trace| - 1) == trace[|trace| - 1]
    decreases |trace|
  {
    if |trace| > 1 {
      var tail := trace[1..];
      assert StepsTo(job, trace[0], trace[1]);
      assert IsTrace(job, tail) by {
        forall i, j | 0 <= i && j == i + 1 && j < |tail|
          ensures StepsTo(job, tail[i], tail[j])
        {
          assert StepsTo(job, trace[i + 1], trace[j + 1]);
        }
      }
      TraceRun(job, tail);
    }
  }

  // ----- code in place -----

  ghost predicate Holds(job: Job, pc: nat, part: seq<Bytecode>, i: nat)
    requires i < |part|
  {
    pc + i < |job.code| && job.code[pc + i] == part[i]
  }

  ghost predicate CodeAt(job: Job, pc: nat, part: seq<Bytecode>) {
    forall i {:trigger Holds(job, pc, part, i)} :: 0 <= i < |part| ==> Holds(job, pc, part, i)
  }

  lemma {:induction false} AtSplit(job: Job, pc: nat, a: seq<Bytecode>, b: seq<Bytecode>)
    requires CodeAt(job, pc, a + b)
    ensures CodeAt(job, pc, a) && CodeAt(job, pc + |a|, b)
  {
    forall i | 0 <= i < |a|
      ensures Holds(job, pc, a, i)
    {
      assert Holds(job, pc, a + b, i);
    }
    var at := pc + |a|;
    forall i | 0 <= i < |b|
      ensures Holds(job, at, b, i)
    {
      assert Holds(job, pc, a + b, |a| + i);
    }
  }

  lemma {:induction false} AtOne(job: Job, pc: nat, bc: Bytecode)
    requires CodeAt(job, pc, [bc])
    ensures pc < |job.code| && job.code[pc] == bc
  {
    assert Holds(job, pc, [bc], 0);
  }

  // ----- expressions -----

  ghost function Data(job: Job, m: Machine): (data: Json)
    requires m.Running?
  {
    Current(job.root, m.loops)
  }

  /** The machine at `pc` with a value pushed, or failed. */
  ghost function Valued(m: Machine, pc: nat, stack: seq<Json>, r: Option<Json>): (m': Machine)
    requires m.Running?
  {
    if r.None? then Failed(m.out) else m.(pc := pc, stack := stack + [r.value])
  }

  lemma {:induction false} ExprRuns(job: Job, m: Machine, e: Expr)
    requires m.Running? && CodeAt(job, m.pc, ExprCode(e))
    ensures Reaches(job, m, Valued(m, m.pc + |ExprCode(e)|, m.stack, Eval(job.env, Data(job, m), e)))
    decreases e, 1
  {
    match e
    case Literal(_) => LeafRuns(job, m, e);
    case Lookup(_) => LeafRuns(job, m, e);
    case Apply(op, args) => ApplyRuns(job, m, e);
    case Call(name, args) => CallRuns(job, m, e);
  }

  lemma {:induction false} LeafRuns(job: Job, m: Machine, e: Expr)
    requires m.Running? && IsLeaf(e) && CodeAt(job, m.pc, [PushOf(e)])
    ensures Reaches(job, m, Valued(m, m.pc + 1, m.stack, Eval(job.env, Data(job, m), e)))
  {
    AtOne(job, m.pc, PushOf(e));
    ReachesStep(job, m);
    assert m.stack[..|m.stack| - 0] == m.stack;
  }

  /** The values of all arguments but the last. */
  ghost function EvalFront(env: Env, data: Json, es: Exprs): (r: Option<seq<Json>>)
    ensures r.Some? ==> |r.value| == Count(es) - 1
  {
    match es
    case Only(_) => Some([])
    case More(e, rest) =>
      match Eval(env, data, e)
      case None => None
      case Some(v) =>
        match EvalFront(env, data, rest)
        case None => None
        case Some(vs) => Some([v] + vs)
  }

  ghost function Joined(front: Option<seq<Json>>, last: Option<Json>): (r: Option<seq<Json>>)
  {
    if front.None? || last.None? then None else Some(front.value + [last.value])
  }

  lemma {:induction false} EvalAllSplit(env: Env, data: Json, es: Exprs)
    ensures EvalAll(env, data, es) == Joined(EvalFront(env, data, es), Eval(env, data, LastOf(es)))
  {
    if es.Only? {
      var last := Eval(env, data, es.expr);
      assert last.Some? ==> [] + [last.value] == [last.value];
    } else {
      EvalAllSplit(env, data, es.rest);
      var front, last := EvalFront(env, data, es.rest), Eval(env, data, LastOf(es.rest));
      if Eval(env, data, es.expr).Some? && front.Some? && last.Some? {
        assert [Eval(env, data, es.expr).value] + (front.value + [last.value])
            == [Eval(env, data, es.expr).value] + front.value + [last.value];
      }
    }
  }

  ghost function Fronted(m: Machine, pc: nat, r: Option<seq<Json>>): (m': Machine)
    requires m.Running?
  {
    if r.None? then Failed(m.out) else m.(pc := pc, stack := m.stack + r.value)
  }

  lemma {:induction false} FrontRuns(job: Job, m: Machine, es: Exprs)
    requires m.Running? && CodeAt(job, m.pc, FrontCode(es))
    ensures Reaches(job, m, Fronted(m, m.pc + |FrontCode(es)|, EvalFront(job.env, Data(job, m), es)))
    decreases es, 0
  {
    match es
    case Only(_) =>
      ReachesSelf(job, m);
      assert m.stack + [] == m.stack;
    case More(e, rest) =>
      AtSplit(job, m.pc, ExprCode(e), FrontCode(rest));
      ExprRuns(job, m, e);
      var r := Eval(job.env, Data(job, m), e);
      if r.Some? {
        var m1 := Valued(m, m.pc + |ExprCode(e)|, m.stack, r);
        assert m1.pc == m.pc + |ExprCode(e)|;
        FrontRuns(job, m1, rest);
        var vs := EvalFront(job.env, Data(job, m), rest);
        assert m1.pc + |FrontCode(rest)| == m.pc + |FrontCode(es)|;
        FrontedAgain(m, m1, m.pc + |FrontCode(es)|, r.value, vs);
        ReachesTrans(job, m, m1, Fronted(m1, m.pc + |FrontCode(es)|, vs));
      }
  }

  lemma {:induction false} FrontedAgain(m: Machine, m1: Machine, pc: nat, v: Json, vs: Option<seq<Json>>)
    requires m.Running? && m1.Running? && m1 == Valued(m, m1.pc, m.stack, Some(v))
    ensures Fronted(m1, pc, vs) == Fronted(m, pc, if vs.None? then None else Some([v] + vs.value))
  {
    if vs.Some? {
      assert m.stack + [v] + vs.value == m.stack + ([v] + vs.value);
    }
  }

  /** What an operator or callback instruction computes. */
  ghost function Applied(job: Job, bc: Bytecode, vs: seq<Json>): (r: Option<Json>)
    requires bc.op.Operator? || bc.op.Callback?
  {
    if bc.op.Operator? then Operate(job.env, bc.op.op, vs) else job.env.callback(bc.str, vs)
  }

  /** All arguments on the stack. */
  lemma {:induction false} PoppedRuns(job: Job, m: Machine, below: seq<Json>, vs: seq<Json>, bc: Bytecode)
    requires m.Running? && CodeAt(job, m.pc, [bc]) && m.stack == below + vs
    requires (bc.op.Operator? || bc.op.Callback?) && bc.flag.ValuePop? && bc.args == |vs|
    ensures Reaches(job, m, Valued(m, m.pc + 1, below, Applied(job, bc, vs)))
  {
    AtOne(job, m.pc, bc);
    assert m.stack[|m.stack| - |vs|..] == vs && m.stack[..|m.stack| - |vs|] == below;
    ReachesStep(job, m);
  }

  /** The last argument in the instruction. */
  lemma {:induction false} MergedRuns(job: Job, m: Machine, below: seq<Json>, vs: seq<Json>, bc: Bytecode)
    requires m.Running? && CodeAt(job, m.pc, [bc]) && m.stack == below + vs
    requires (bc.op.Operator? || bc.op.Callback?) && !bc.flag.ValuePop? && bc.args == |vs| + 1
    ensures (var r := Joined(Some(vs), Immediate(job.env, Data(job, m), bc));
             Reaches(job, m, Valued(m, m.pc + 1, below, if r.None? then None else Applied(job, bc, r.value))))
  {
    AtOne(job, m.pc, bc);
    assert m.stack[|m.stack| - |vs|..] == vs && m.stack[..|m.stack| - |vs|] == below;
    ReachesStep(job, m);
  }

  lemma {:induction false} OperatedRuns(job: Job, m: Machine, below: seq<Json>, vs: seq<Json>, last: Expr, op: OpCode)
    requires m.Running? && m.stack == below + vs && op.Operator?
    requires CodeAt(job, m.pc, Operated(last, op, |vs| + 1))
    ensures (var r := Joined(Some(vs), Eval(job.env, Data(job, m), last));
             Reaches(job, m, Valued(m, m.pc + |Operated(last, op, |vs| + 1)|, below,
                                    if r.None? then None else Operate(job.env, op.op, r.value))))
    decreases last, 3
  {
    if IsLeaf(last) {
      MergedRuns(job, m, below, vs, PushOf(last).(op := op, args := |vs| + 1));
    } else {
      AfterLast(job, m, below, vs, last, Plain(op, |vs| + 1));
    }
  }

  lemma {:induction false} CalledRuns(job: Job, m: Machine, below: seq<Json>, vs: seq<Json>, last: Expr, name: string)
    requires m.Running? && m.stack == below + vs
    requires CodeAt(job, m.pc, Called(last, name, |vs| + 1))
    ensures (var r := Joined(Some(vs), Eval(job.env, Data(job, m), last));
             Reaches(job, m, Valued(m, m.pc + |Called(last, name, |vs| + 1)|, below,
                                    if r.None? then None else job.env.callback(name, r.value))))
    decreases last, 3
  {
    if last.Literal? {
      MergedRuns(job, m, below, vs, PushOf(last).(op := Callback, args := |vs| + 1, str := name));
    } else {
      AfterLast(job, m, below, vs, last, Plain(Callback, |vs| + 1).(str := name));
    }
  }

  /** The last argument goes over the stack. */
  lemma {:induction false} AfterLast(job: Job, m: Machine, below: seq<Json>, vs: seq<Json>, last: Expr, bc: Bytecode)
    requires m.Running? && m.stack == below + vs && CodeAt(job, m.pc, ExprCode(last) + [bc])
    requires (bc.op.Operator? || bc.op.Callback?) && bc.flag.ValuePop? && bc.args == |vs| + 1
    ensures (var r := Joined(Some(vs), Eval(job.env, Data(job, m), last));
             Reaches(job, m, Valued(m, m.pc + |ExprCode(last)| + 1, below,
                                    if r.None? then None else Applied(job, bc, r.value))))
    decreases last, 2
  {
    AtSplit(job, m.pc, ExprCode(last), [bc]);
    ExprRuns(job, m, last);
    var v := Eval(job.env, Data(job, m), last);
    if v.Some? {
      var m1 := Valued(m, m.pc + |ExprCode(last)|, m.stack, v);
      assert m1.stack == below + (vs + [v.value]);
      PoppedRuns(job, m1, below, vs + [v.value], bc);
      ReachesTrans(job, m, m1, Valued(m1, m1.pc + 1, below, Applied(job, bc, vs + [v.value])));
    }
  }

  /** The instruction of an operator, once all arguments but the last are on the stack. */
  lemma {:induction false} AfterFront(job: Job, m: Machine, e: Expr, last: Expr, vs: seq<Json>)
    requires m.Running? && e.Apply? && last == LastOf(e.args) && EvalFront(job.env, Data(job, m), e.args) == Some(vs)
    requires CodeAt(job, m.pc + |FrontCode(e.args)|, Operated(last, Operator(e.op), Count(e.args)))
    ensures Reaches(job, Fronted(m, m.pc + |FrontCode(e.args)|, Some(vs)),
                    Valued(m, m.pc + |ExprCode(e)|, m.stack, Eval(job.env, Data(job, m), e)))
    decreases last, 4
  {
    EvalAllSplit(job.env, Data(job, m), e.args);
    OperatedRuns(job, Fronted(m, m.pc + |FrontCode(e.args)|, Some(vs)), m.stack, vs, last, Operator(e.op));
  }

  lemma {:induction false} ApplyRuns(job: Job, m: Machine, e: Expr)
    requires m.Running? && e.Apply? && CodeAt(job, m.pc, ExprCode(e))
    ensures Reaches(job, m, Valued(m, m.pc + |ExprCode(e)|, m.stack, Eval(job.env, Data(job, m), e)))
    decreases e, 0
  {
    var front := FrontCode(e.args);
    AtSplit(job, m.pc, front, Operated(LastOf(e.args), Operator(e.op), Count(e.args)));
    FrontRuns(job, m, e.args);
    var vs := EvalFront(job.env, Data(job, m), e.args);
    if vs.Some? {
      AfterFront(job, m, e, LastOf(e.args), vs.value);
      ReachesTrans(job, m, Fronted(m, m.pc + |front|, vs),
                   Valued(m, m.pc + |ExprCode(e)|, m.stack, Eval(job.env, Data(job, m), e)));
    } else {
      EvalAllSplit(job.env, Data(job, m), e.args);
    }
  }

  /** The same for a callback. */
  lemma {:induction false} AfterFrontCalled(job: Job, m: Machine, e: Expr, last: Expr, vs: seq<Json>)
    requires m.Running? && e.Call? && last == LastOf(e.args) && EvalFront(job.env, Data(job, m), e.args) == Some(vs)
    requires CodeAt(job, m.pc + |FrontCode(e.args)|, Called(last, e.name, Count(e.args)))
    ensures Reaches(job, Fronted(m, m.pc + |FrontCode(e.args)|, Some(vs)),
                    Valued(m, m.pc + |ExprCode(e)|, m.stack, Eval(job.env, Data(job, m), e)))
    decreases last, 4
  {
    EvalAllSplit(job.env, Data(job, m), e.args);
    CalledRuns(job, Fronted(m, m.pc + |FrontCode(e.args)|, Some(vs)), m.stack, vs, last, e.name);
  }

  lemma {:induction false} CallRuns(job: Job, m: Machine, e: Expr)
    requires m.Running? && e.Call? && CodeAt(job, m.pc, ExprCode(e))
    ensures Reaches(job, m, Valued(m, m.pc + |ExprCode(e)|, m.stack, Eval(job.env, Data(job, m), e)))
    decreases e, 0
  {
    var front := FrontCode(e.args);
    AtSplit(job, m.pc, front, Called(LastOf(e.args), e.name, Count(e.args)));
    FrontRuns(job, m, e.args);
    var vs := EvalFront(job.env, Data(job, m), e.args);
    if vs.Some? {
      AfterFrontCalled(job, m, e, LastOf(e.args), vs.value);
      ReachesTrans(job, m, Fronted(m, m.pc + |front|, vs),
                   Valued(m, m.pc + |ExprCode(e)|, m.stack, Eval(job.env, Data(job, m), e)));
    } else {
      EvalAllSplit(job.env, Data(job, m), e.args);
    }
  }

  /** An expression and one more instruction after it. */
  lemma {:induction false} ExprThen(job: Job, m: Machine, e: Expr, bc: Bytecode) returns (m1: Machine)
    requires m.Running? && CodeAt(job, m.pc, ExprCode(e) + [bc])
    ensures m1 == Valued(m, m.pc + |ExprCode(e)|, m.stack, Eval(job.env, Data(job, m), e)) && Reaches(job, m, m1)
    ensures CodeAt(job, m.pc + |ExprCode(e)|, [bc])
  {
    AtSplit(job, m.pc, ExprCode(e), [bc]);
    ExprRuns(job, m, e);
    m1 := Valued(m, m.pc + |ExprCode(e)|, m.stack, Eval(job.env, Data(job, m), e));
  }
}
