/** The renderer itself: one loop over the bytecode that updates the value stack, the loop stack and the
    pointer to the current data. */
module InjaRenderer {
  import opened InjaSyntax
  import opened InjaSemantics
  import opened InjaCode
  import opened InjaParser
  import opened InjaLayout
  import opened InjaMachine
  import opened InjaCorrectness

  class Renderer {
    var stack: seq<Json>
    var loopStack: seq<Level>
    /** Which data the template sees: the caller's, or that of the loop level with this index. */
    var current: Option<nat>
    var os: string

    constructor ()
      ensures stack == [] && loopStack == [] && os == ""
    {
      stack, loopStack, current, os := [], [], None, "";
    }

    ghost function M(i: nat): (m: Machine)
      reads this
    {
      Running(i, stack, loopStack, os)
    }

    /** The data pointer follows the innermost loop. */
    ghost predicate Pointed()
      reads this
    {
      current == if loopStack == [] then None else Some(|loopStack| - 1)
    }

    function Deref(root: Json): (data: Json)
      requires Pointed()
      reads this
      ensures data == Current(root, loopStack)
    {
      if current.None? then root else loopStack[current.value].data
    }

    /** Collects the arguments of an instruction, those on the stack first. */
    method GetArgs(env: Env, root: Json, bc: Bytecode) returns (vs: Option<seq<Json>>)
      requires Pointed() && 0 <= Popped(bc) <= |stack|
      ensures vs == Args(env, Current(root, loopStack), bc, stack)
    {
      var popped: seq<Json> := [];
      var i := |stack| - Popped(bc);
      while i < |stack|
        invariant |stack| - Popped(bc) <= i <= |stack|
        invariant popped == stack[|stack| - Popped(bc)..i]
      {
        popped := popped + [stack[i]];
        i := i + 1;
      }
      assert stack[|stack| - Popped(bc)..i] == stack[|stack| - Popped(bc)..];
      if bc.flag.ValuePop? {
        return Some(popped);
      }
      var imm := Immediate(env, Deref(root), bc);
      vs := if imm.None? then None else Some(popped + [imm.value]);
    }

    method PopArgs(bc: Bytecode)
      requires 0 <= Popped(bc) <= |stack|
      modifies this`stack
      ensures stack == old(stack)[..|old(stack)| - Popped(bc)]
    {
      var i := 0;
      while i < Popped(bc)
        invariant 0 <= i <= Popped(bc)
        invariant stack == old(stack)[..|old(stack)| - i]
      {
        stack := stack[..|stack| - 1];
        i := i + 1;
      }
    }

    /** Writes the loop variables of the current iteration into the innermost level, in place. */
    method UpdateLoopData() returns (ok: bool)
      requires loopStack != [] && !Finished(loopStack[|loopStack| - 1])
      modifies this`loopStack
      ensures (var level := Update(old(loopStack)[|old(loopStack)| - 1]);
               if level.None? then !ok && loopStack == old(loopStack)
               else ok && loopStack == old(loopStack)[|old(loopStack)| - 1 := level.value])
    {
      var last := |loopStack| - 1;
      var level := loopStack[last];
      var data: Option<Json>;
      if level.ArrayLevel? {
        data := BindItem(level.data, level.name, level.items, level.index);
      } else {
        data := BindEntry(level.data, level.key, level.name, level.entries[level.pos]);
      }
      ok := data.Some?;
      if ok {
        loopStack := loopStack[last := level.(data := data.value)];
      }
    }

    /** What a step did: the machine went on at `i'`, or an exception left the output as it is. */
    ghost predicate Did(m': Machine, ok: bool, i': nat)
      reads this
    {
      if m'.Failed? then !ok && os == m'.out else ok && m' == M(i') && Pointed()
    }

    method PrintValue(env: Env, root: Json, bc: Bytecode, i: nat) returns (ok: bool)
      requires Pointed() && !StepPrint(env, root, M(i), bc).Stuck?
      modifies this`stack, this`os
      ensures Did(StepPrint(env, root, old(M(i)), bc), ok, i + 1)
    {
      var vs := GetArgs(env, root, bc);
      ok := vs.Some?;
      if ok {
        os := os + Shown(env, vs.value[0]);
        PopArgs(bc);
      }
    }

    method Push(env: Env, root: Json, bc: Bytecode, i: nat) returns (ok: bool)
      requires Pointed() && !bc.flag.ValuePop?
      modifies this`stack
      ensures Did(StepPush(env, root, old(M(i)), bc), ok, i + 1)
    {
      var v := Immediate(env, Deref(root), bc);
      ok := v.Some?;
      if ok {
        assert stack[..|stack| - 0] == stack;
        stack := stack + [v.value];
      }
    }

    method Apply(env: Env, root: Json, bc: Bytecode, i: nat) returns (ok: bool)
      requires Pointed() && (bc.op.Operator? || bc.op.Callback?)
      requires !StepApply(env, root, M(i), bc).Stuck?
      modifies this`stack
      ensures Did(StepApply(env, root, old(M(i)), bc), ok, i + 1)
    {
      var vs := GetArgs(env, root, bc);
      if vs.None? {
        return false;
      }
      var result := if bc.op.Operator? then Operate(env, bc.op.op, vs.value) else env.callback(bc.str, vs.value);
      ok := result.Some?;
      if ok {
        PopArgs(bc);
        stack := stack + [result.value];
      }
    }

    method ConditionalJump(bc: Bytecode, i: nat) returns (ok: bool, i': nat)
      requires Pointed() && stack != []
      modifies this`stack
      ensures Did(StepCondition(old(M(i)), bc), ok, i')
    {
      var b := Truthy(stack[|stack| - 1]);
      ok, i' := b.Some?, i + 1;
      if ok {
        if !b.value {
          i' := bc.args;
        }
        stack := stack[..|stack| - 1];
      }
    }

    method StartLoop(root: Json, bc: Bytecode, i: nat) returns (ok: bool, i': nat)
      requires Pointed() && stack != []
      modifies this`stack, this`loopStack, this`current
      ensures Did(StepStart(root, old(M(i)), bc), ok, i')
    {
      var v, data := stack[|stack| - 1], Deref(root);
      stack := stack[..|stack| - 1];
      if IsEmpty(v) {
        return true, bc.args + 1;
      }
      i' := i + 1;
      var scope := WithParent(data);
      var level := if scope.None? then None else NewLevel(scope.value, bc, v);
      if level.None? {
        return false, i';
      }
      ok := Enter(level.value);
    }

    method Enter(level: Level) returns (ok: bool)
      requires !Finished(level)
      modifies this`loopStack, this`current
      ensures ok == Update(level).Some?
      ensures ok ==> Pointed() && loopStack == old(loopStack) + [Update(level).value]
    {
      loopStack := loopStack + [level];
      current := Some(|loopStack| - 1);
      ok := UpdateLoopData();
    }

    method EndLoop(bc: Bytecode, i: nat) returns (ok: bool, i': nat)
      requires Pointed()
      modifies this`loopStack, this`current
      ensures Did(StepEnd(old(M(i)), bc), ok, i')
    {
      i' := i + 1;
      if loopStack == [] {
        return false, i';
      }
      var last := |loopStack| - 1;
      var level := Moved(loopStack[last]);
      if Finished(level) {
        loopStack := loopStack[..last];
        current := if loopStack != [] then Some(|loopStack| - 1) else None;
        return true, i';
      }
      loopStack := loopStack[last := level];
      ok := UpdateLoopData();
      i' := bc.args;
    }

    /** Executes one instruction. */
    method Execute(job: Job, i: nat) returns (ok: bool, i': nat)
      requires Pointed() && i < |job.code| && !Step(job, M(i)).Stuck?
      modifies this
      ensures Did(Step(job, old(M(i))), ok, i')
    {
      var bc := job.code[i];
      ok, i' := true, i + 1;
      match bc.op
      case PrintText => os := os + bc.str;
      case PrintValue => ok := PrintValue(job.env, job.root, bc, i);
      case Push => ok := Push(job.env, job.root, bc, i);
      case Operator(_) => ok := Apply(job.env, job.root, bc, i);
      case Callback => ok := Apply(job.env, job.root, bc, i);
      case Jump => i' := bc.args;
      case ConditionalJump => ok, i' := ConditionalJump(bc, i);
      case StartLoop => ok, i' := StartLoop(job.root, bc, i);
      case EndLoop => ok, i' := EndLoop(bc, i);
    }

    /** Renders code that stops within `n` instructions without undefined behaviour. */
    method RenderTo(job: Job, ghost n: nat) returns (ok: bool)
      requires stack == [] && loopStack == []
      requires (var end := Run(job, M(0), n); Halted(job, end) && !end.Stuck?)
      modifies this
      ensures (var end := Run(job, old(M(0)), n);
               if end.Failed? then !ok && os == end.out
               else ok && stack == end.stack && loopStack == end.loops && os == end.out && Pointed())
    {
      current := None;
      ghost var end := Run(job, M(0), n);
      var i: nat := 0;
      ghost var left: nat := n;
      while i < |job.code|
        invariant Pointed()
        invariant Run(job, M(i), left) == end
        decreases left
      {
        ok, i := Execute(job, i);
        if !ok {
          return;
        }
        left := left - 1;
      }
      ok := true;
    }
  }

  /** Parsing and rendering a template gives exactly the interpretation of its tree. */
  method RenderTemplate(env: Env, root: Json, b: Block) returns (r: Rendering)
    requires BlockSize(b) < ARGS_LIMIT
    ensures r == ExecBlock(env, root, b)
  {
    var code := ParseTemplate(b);
    ghost var n := TemplateRenders(env, root, b);
    var renderer := new Renderer();
    var ok := renderer.RenderTo(Job(env, root, code), n);
    r := Rendering(ok, renderer.os);
  }
}
