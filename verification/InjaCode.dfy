/** Bytecode, and the code of a template laid out with final addresses. */
module InjaCode {
  import opened InjaSyntax

  datatype OpCode =
    | PrintText | PrintValue | Push
    | Operator(op: Builtin)
    | Callback | Jump | ConditionalJump | StartLoop | EndLoop

  /** Where an instruction finds its last argument. */
  datatype Flag = ValuePop | ValueImmediate | ValueLookup

  datatype Bytecode = Bytecode(op: OpCode, args: nat, flag: Flag, value: Json, str: string)

  function Plain(op: OpCode, args: nat): (bc: Bytecode)
  {
    Bytecode(op, args, ValuePop, Null, "")
  }

  function PushOf(e: Expr): (bc: Bytecode)
    requires e.Literal? || e.Lookup?
  {
    if e.Literal? then Bytecode(Push, 0, ValueImmediate, e.value, "")
    else Bytecode(Push, 0, ValueLookup, Null, e.name)
  }

  predicate IsLeaf(e: Expr) {
    e.Literal? || e.Lookup?
  }

  function Count(es: Exprs): (n: nat)
    ensures n >= 1
  {
    if es.Only? then 1 else 1 + Count(es.rest)
  }

  function LastOf(es: Exprs): (e: Expr)
    ensures e < es
  {
    if es.Only? then es.expr else LastOf(es.rest)
  }

  /** An expression leaves its value on the stack.  An operator takes its last argument from its own
      instruction when that argument is a literal or a variable; a callback only when it is a literal. */
  function ExprCode(e: Expr): (code: seq<Bytecode>)
    ensures |code| >= 1
    decreases e, 0
  {
    match e
    case Literal(_) => [PushOf(e)]
    case Lookup(_) => [PushOf(e)]
    case Apply(op, args) => FrontCode(args) + Operated(LastOf(args), Operator(op), Count(args))
    case Call(name, args) => FrontCode(args) + Called(LastOf(args), name, Count(args))
  }

  /** Code for all arguments but the last. */
  function FrontCode(es: Exprs): (code: seq<Bytecode>)
    ensures |code| >= Count(es) - 1
    decreases es, 0
  {
    if es.Only? then [] else ExprCode(es.expr) + FrontCode(es.rest)
  }

  function Operated(last: Expr, op: OpCode, n: nat): (code: seq<Bytecode>)
    ensures |code| >= 1
    decreases last, 1
  {
    if IsLeaf(last) then [PushOf(last).(op := op, args := n)] else ExprCode(last) + [Plain(op, n)]
  }

  function Called(last: Expr, name: string, n: nat): (code: seq<Bytecode>)
    ensures |code| >= 1
    decreases last, 1
  {
    if last.Literal? then [PushOf(last).(op := Callback, args := n, str := name)]
    else ExprCode(last) + [Plain(Callback, n).(str := name)]
  }

  /** Only the code of a literal or a variable ends in a push. */
  lemma {:induction false} LastInstruction(e: Expr)
    ensures (var code := ExprCode(e); code[|code| - 1].op == Push <==> IsLeaf(e))
  {
  }

  // ----- statements -----

  function StmtSize(s: Stmt): (n: nat)
  {
    match s
    case Text(_) => 1
    case Print(expr) => |Operated(expr, PrintValue, 1)|
    case If(cond, body, chain) => |ExprCode(cond)| + 1 + BlockSize(body) + ChainSize(chain)
    case For(_, _, over, body) => |ExprCode(over)| + 1 + BlockSize(body) + 1
  }

  function ChainSize(c: Chain): (n: nat)
  {
    match c
    case EndIf => 0
    case Else(body) => 1 + BlockSize(body)
    case ElseIf(cond, body, chain) => 1 + |ExprCode(cond)| + 1 + BlockSize(body) + ChainSize(chain)
  }

  function BlockSize(b: Block): (n: nat)
  {
    match b
    case End => 0
    case Then(head, tail) => StmtSize(head) + BlockSize(tail)
  }

  /** Where a false condition continues when what follows its body starts at `at`: after the jump that
      leaves the body, or right there if there is none. */
  function ElseTarget(c: Chain, at: nat): (n: nat)
  {
    if c.EndIf? then at else at + 1
  }

  function LoopStart(key: string, value: string, endAt: nat): (bc: Bytecode)
  {
    Bytecode(StartLoop, endAt, ValuePop, if key == "" then Null else Str(key), value)
  }

  function StmtCode(s: Stmt, base: nat): (code: seq<Bytecode>)
    ensures |code| == StmtSize(s)
  {
    match s
    case Text(text) => [Bytecode(PrintText, 0, ValuePop, Null, text)]
    case Print(expr) => Operated(expr, PrintValue, 1)
    case If(cond, body, chain) =>
      var test := ExprCode(cond);
      var at := base + |test| + 1 + BlockSize(body);
      test + [Plain(ConditionalJump, ElseTarget(chain, at))] + BlockCode(body, base + |test| + 1)
        + ChainCode(chain, at, at + ChainSize(chain))
    case For(key, value, over, body) =>
      var range := ExprCode(over);
      var start := base + |range|;
      range + [LoopStart(key, value, start + 1 + BlockSize(body))] + BlockCode(body, start + 1)
        + [Plain(EndLoop, start + 1)]
  }

  /** The rest of an if, whose end is `end`. */
  function ChainCode(c: Chain, base: nat, end: nat): (code: seq<Bytecode>)
    ensures |code| == ChainSize(c)
  {
    match c
    case EndIf => []
    case Else(body) => [Plain(Jump, end)] + BlockCode(body, base + 1)
    case ElseIf(cond, body, chain) =>
      var test := ExprCode(cond);
      var at := base + 1 + |test| + 1 + BlockSize(body);
      [Plain(Jump, end)] + test + [Plain(ConditionalJump, ElseTarget(chain, at))]
        + BlockCode(body, base + 1 + |test| + 1) + ChainCode(chain, at, end)
  }

  function BlockCode(b: Block, base: nat): (code: seq<Bytecode>)
    ensures |code| == BlockSize(b)
  {
    match b
    case End => []
    case Then(head, tail) => StmtCode(head, base) + BlockCode(tail, base + StmtSize(head))
  }

  lemma {:induction false} IfShape(s: Stmt, base: nat, at1: nat, at: nat)
    requires s.If? && at1 == base + |ExprCode(s.cond)| + 1 && at == at1 + BlockSize(s.body)
    ensures StmtCode(s, base)
         == ExprCode(s.cond) + [Plain(ConditionalJump, ElseTarget(s.chain, at))] + BlockCode(s.body, at1)
            + ChainCode(s.chain, at, at + ChainSize(s.chain))
  {
  }

  lemma {:induction false} ElseIfShape(c: Chain, base: nat, at1: nat, at: nat, end: nat)
    requires c.ElseIf? && at1 == base + 1 + |ExprCode(c.cond)| + 1 && at == at1 + BlockSize(c.body)
    requires end == at + ChainSize(c.chain)
    ensures ChainCode(c, base, end)
         == [Plain(Jump, end)] + ExprCode(c.cond) + [Plain(ConditionalJump, ElseTarget(c.chain, at))]
            + BlockCode(c.body, at1) + ChainCode(c.chain, at, end)
  {
  }
}
