/** The stack machine that renders bytecode, one instruction at a time. */
module InjaMachine {
  import opened InjaSyntax
  import opened InjaSemantics
  import opened InjaCode

  /** A running loop, with the data its body sees. */
  datatype Level =
    | ArrayLevel(name: string, data: Json, items: seq<Json>, index: nat)
    | MapLevel(key: string, name: string, data: Json, entries: seq<(string, Json)>, pos: nat)

  /** Failed stands for an exception; Stuck for undefined behaviour such as popping an empty stack. */
  datatype Machine =
    | Running(pc: nat, stack: seq<Json>, loops: seq<Level>, out: string)
    | Failed(out: string)
    | Stuck

  /** What rendering is given. */
  datatype Job = Job(env: Env, root: Json, code: seq<Bytecode>)

  function Current(root: Json, loops: seq<Level>): (data: Json)
  {
    if loops == [] then root else loops[|loops| - 1].data
  }

  /** The argument an instruction carries itself. */
  function Immediate(env: Env, data: Json, bc: Bytecode): (v: Option<Json>)
    requires !bc.flag.ValuePop?
  {
    if bc.flag.ValueImmediate? then Some(bc.value) else Resolve(env, data, bc.str)
  }

  /** How many arguments come from the stack. */
  function Popped(bc: Bytecode): (n: int)
  {
    if bc.flag.ValuePop? then bc.args else bc.args - 1
  }

  /** All arguments in order: those on the stack, then the instruction's own. */
  function Args(env: Env, data: Json, bc: Bytecode, stack: seq<Json>): (vs: Option<seq<Json>>)
    requires 0 <= Popped(bc) <= |stack|
    ensures vs.Some? ==> |vs.value| == bc.args
  {
    var popped := stack[|stack| - Popped(bc)..];
    if bc.flag.ValuePop? then Some(popped)
    else
      match Immediate(env, data, bc)
      case None => None
      case Some(v) => Some(popped + [v])
  }

  function Advance(m: Machine, n: int, pushed: Option<Json>): (m': Machine)
    requires m.Running? && 0 <= n <= |m.stack|
  {
    match pushed
    case None => Failed(m.out)
    case Some(v) => m.(pc := m.pc + 1, stack := m.stack[..|m.stack| - n] + [v])
  }

  function StepPush(env: Env, root: Json, m: Machine, bc: Bytecode): (m': Machine)
    requires m.Running?
  {
    if bc.flag.ValuePop? then Stuck
    else Advance(m, 0, Immediate(env, Current(root, m.loops), bc))
  }

  function StepPrint(env: Env, root: Json, m: Machine, bc: Bytecode): (m': Machine)
    requires m.Running?
  {
    if !(0 <= Popped(bc) <= |m.stack|) || bc.args == 0 then Stuck
    else
      match Args(env, Current(root, m.loops), bc, m.stack)
      case None => Failed(m.out)
      case Some(vs) =>
        m.(pc := m.pc + 1, stack := m.stack[..|m.stack| - Popped(bc)], out := m.out + Shown(env, vs[0]))
  }

  /** An operator or a callback replaces its arguments by its result. */
  function StepApply(env: Env, root: Json, m: Machine, bc: Bytecode): (m': Machine)
    requires m.Running? && (bc.op.Operator? || bc.op.Callback?)
  {
    if !(0 <= Popped(bc) <= |m.stack|) then Stuck
    else
      match Args(env, Current(root, m.loops), bc, m.stack)
      case None => Failed(m.out)
      case Some(vs) =>
        Advance(m, Popped(bc), if bc.op.Operator? then Operate(env, bc.op.op, vs) else env.callback(bc.str, vs))
  }

  function StepCondition(m: Machine, bc: Bytecode): (m': Machine)
    requires m.Running?
  {
    if m.stack == [] then Stuck
    else
      var last := |m.stack| - 1;
      match Truthy(m.stack[last])
      case None => Failed(m.out)
      case Some(b) => m.(pc := if b then m.pc + 1 else bc.args, stack := m.stack[..last])
  }

  /** Writes the loop variables of the current iteration over the level's data. */
  function Update(level: Level): (r: Option<Level>)
    requires level.ArrayLevel? ==> level.index < |level.items|
    requires level.MapLevel? ==> level.pos < |level.entries|
  {
    match (if level.ArrayLevel? then BindItem(level.data, level.name, level.items, level.index)
           else BindEntry(level.data, level.key, level.name, level.entries[level.pos]))
    case None => None
    case Some(data) => Some(level.(data := data))
  }

  /** A new loop over `v`, before its first update. */
  function NewLevel(scope: Json, bc: Bytecode, v: Json): (r: Option<Level>)
    requires !IsEmpty(v)
    ensures r.Some? && r.value.ArrayLevel? ==> r.value.index < |r.value.items|
    ensures r.Some? && r.value.MapLevel? ==> r.value.pos < |r.value.entries|
  {
    if bc.value.Str? then
      if v.Object? then Some(MapLevel(bc.value.s, bc.str, scope, SortedEntries(v.fields), 0)) else None
    else if v.Array? then Some(ArrayLevel(bc.str, scope, v.items, 0))
    else None
  }

  function StepStart(root: Json, m: Machine, bc: Bytecode): (m': Machine)
    requires m.Running?
  {
    if m.stack == [] then Stuck
    else
      var v, rest := m.stack[|m.stack| - 1], m.stack[..|m.stack| - 1];
      if IsEmpty(v) then m.(pc := bc.args + 1, stack := rest)
      else Entered(m.(stack := rest), Opened(WithParent(Current(root, m.loops)), bc, v))
  }

  function Opened(scope: Option<Json>, bc: Bytecode, v: Json): (r: Option<Level>)
    requires !IsEmpty(v)
  {
    if scope.None? then None
    else
      match NewLevel(scope.value, bc, v)
      case None => None
      case Some(level) => Update(level)
  }

  function Entered(m: Machine, level: Option<Level>): (m': Machine)
    requires m.Running?
  {
    match level
    case None => Failed(m.out)
    case Some(level) => m.(pc := m.pc + 1, loops := m.loops + [level])
  }

  function Moved(level: Level): (level': Level)
  {
    if level.ArrayLevel? then level.(index := level.index + 1) else level.(pos := level.pos + 1)
  }

  predicate Finished(level: Level) {
    if level.ArrayLevel? then level.index >= |level.items| else level.pos >= |level.entries|
  }

  function StepEnd(m: Machine, bc: Bytecode): (m': Machine)
    requires m.Running?
  {
    if m.loops == [] then Failed(m.out)
    else
      var outer, level := m.loops[..|m.loops| - 1], Moved(m.loops[|m.loops| - 1]);
      if Finished(level) then m.(pc := m.pc + 1, loops := outer)
      else
        match Update(level)
        case None => Failed(m.out)
        case Some(level) => m.(pc := bc.args, loops := outer + [level])
  }

  function Step(job: Job, m: Machine): (m': Machine)
    requires m.Running? && m.pc < |job.code|
  {
    var bc := job.code[m.pc];
    match bc.op
    case PrintText => m.(pc := m.pc + 1, out := m.out + bc.str)
    case PrintValue => StepPrint(job.env, job.root, m, bc)
    case Push => StepPush(job.env, job.root, m, bc)
    case Operator(_) => StepApply(job.env, job.root, m, bc)
    case Callback => StepApply(job.env, job.root, m, bc)
    case Jump => m.(pc := bc.args)
    case ConditionalJump => StepCondition(m, bc)
    case StartLoop => StepStart(job.root, m, bc)
    case EndLoop => StepEnd(m, bc)
  }

  predicate Halted(job: Job, m: Machine) {
    m.Running? ==> m.pc >= |job.code|
  }

  /** The state after `n` instructions, or where the machine stopped before. */
  function Run(job: Job, m: Machine, n: nat): (m': Machine)
    decreases n
  {
    if n == 0 || Halted(job, m) then m else Run(job, Step(job, m), n - 1)
  }
}
