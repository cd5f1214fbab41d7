/** Every jump and loop instruction of compiled code leads to the start of a statement, the start of an
    else-if condition, or the end of a block, inside the code. */
module InjaTargets {
  import opened InjaSyntax
  import opened InjaCode

  ghost function StmtPoints(s: Stmt, base: nat): (ps: set<nat>)
  {
    match s
    case Text(_) => {}
    case Print(_) => {}
    case If(cond, body, chain) =>
      var start := base + |ExprCode(cond)| + 1;
      BlockPoints(body, start) + ChainPoints(chain, start + BlockSize(body))
    case For(_, _, over, body) => BlockPoints(body, base + |ExprCode(over)| + 1)
  }

  ghost function ChainPoints(c: Chain, base: nat): (ps: set<nat>)
  {
    match c
    case EndIf => {}
    case Else(body) => BlockPoints(body, base + 1)
    case ElseIf(cond, body, chain) =>
      var start := base + 1 + |ExprCode(cond)| + 1;
      {base + 1} + BlockPoints(body, start) + ChainPoints(chain, start + BlockSize(body))
  }

  /** Where the statements of a block start, and where it ends. */
  ghost function BlockPoints(b: Block, base: nat): (ps: set<nat>)
    ensures base in ps && base + BlockSize(b) in ps
  {
    match b
    case End => {base}
    case Then(head, tail) => {base} + StmtPoints(head, base) + BlockPoints(tail, base + StmtSize(head))
  }

  /** All points lie between the first and the last instruction, or right after that. */
  ghost predicate Between(ps: set<nat>, low: nat, high: nat) {
    forall p :: p in ps ==> low <= p <= high
  }

  lemma {:induction false} StmtPointsInside(s: Stmt, base: nat)
    ensures Between(StmtPoints(s, base), base, base + StmtSize(s))
    decreases s, 1
  {
    match s
    case Text(_) =>
    case Print(_) =>
    case If(cond, body, chain) => IfPointsInside(s, base);
    case For(_, _, over, body) => BlockPointsInside(body, base + |ExprCode(over)| + 1);
  }

  lemma {:induction false} IfPointsInside(s: Stmt, base: nat)
    requires s.If?
    ensures Between(StmtPoints(s, base), base, base + StmtSize(s))
    decreases s, 0
  {
    var start := base + |ExprCode(s.cond)| + 1;
    BlockPointsInside(s.body, start);
    ChainPointsInside(s.chain, start + BlockSize(s.body));
  }

  lemma {:induction false} ChainPointsInside(c: Chain, base: nat)
    ensures Between(ChainPoints(c, base), base, base + ChainSize(c))
    decreases c, 1
  {
    match c
    case EndIf =>
    case Else(body) => BlockPointsInside(body, base + 1);
    case ElseIf(cond, body, chain) =>
      var start := base + 1 + |ExprCode(cond)| + 1;
      BlockPointsInside(body, start);
      ChainPointsInside(chain, start + BlockSize(body));
  }

  lemma {:induction false} BlockPointsInside(b: Block, base: nat)
    ensures Between(BlockPoints(b, base), base, base + BlockSize(b))
    decreases b, 1
  {
    match b
    case End =>
    case Then(head, tail) =>
      StmtPointsInside(head, base);
      BlockPointsInside(tail, base + StmtSize(head));
  }

  /** Where an instruction can continue, other than right after itself. */
  ghost predicate LeadsTo(bc: Bytecode, ps: set<nat>) {
    match bc.op
    case Jump => bc.args in ps
    case ConditionalJump => bc.args in ps
    case StartLoop => bc.args + 1 in ps
    case EndLoop => bc.args in ps
    case _ => true
  }

  ghost predicate AllLead(code: seq<Bytecode>, ps: set<nat>) {
    forall i :: 0 <= i < |code| ==> LeadsTo(code[i], ps)
  }

  lemma {:induction false} AllLeadConcat(a: seq<Bytecode>, b: seq<Bytecode>, ps: set<nat>)
    requires AllLead(a, ps) && AllLead(b, ps)
    ensures AllLead(a + b, ps)
  {
  }

  lemma {:induction false} AllLeadMore(code: seq<Bytecode>, ps: set<nat>, qs: set<nat>)
    requires AllLead(code, ps) && ps <= qs
    ensures AllLead(code, qs)
  {
  }

  lemma {:induction false} ExprLeads(e: Expr)
    ensures AllLead(ExprCode(e), {})
    decreases e, 0
  {
    match e
    case Literal(_) =>
    case Lookup(_) =>
    case Apply(op, args) =>
      FrontLeads(args);
      OperatedLeads(LastOf(args), Operator(op), Count(args));
    case Call(name, args) =>
      FrontLeads(args);
      if !LastOf(args).Literal? {
        ExprLeads(LastOf(args));
      }
  }

  lemma {:induction false} FrontLeads(es: Exprs)
    ensures AllLead(FrontCode(es), {})
    decreases es, 0
  {
    if es.More? {
      ExprLeads(es.expr);
      FrontLeads(es.rest);
    }
  }

  lemma {:induction false} OperatedLeads(last: Expr, op: OpCode, n: nat)
    requires op.Operator? || op.PrintValue?
    ensures AllLead(Operated(last, op, n), {})
    decreases last, 1
  {
    if !IsLeaf(last) {
      ExprLeads(last);
    }
  }

  lemma {:induction false} AllLeadFour(a: seq<Bytecode>, b: seq<Bytecode>, c: seq<Bytecode>, d: seq<Bytecode>,
                                       ps: set<nat>)
    requires AllLead(a, {}) && AllLead(b, ps) && AllLead(c, ps) && AllLead(d, ps)
    ensures AllLead(a + b + c + d, ps)
  {
    AllLeadMore(a, {}, ps);
    AllLeadConcat(a, b, ps);
    AllLeadConcat(a + b, c, ps);
    AllLeadConcat(a + b + c, d, ps);
  }

  lemma {:induction false} StmtLeads(s: Stmt, base: nat, ps: set<nat>)
    requires StmtPoints(s, base) <= ps && base + StmtSize(s) in ps
    ensures AllLead(StmtCode(s, base), ps)
    decreases s, 1
  {
    match s
    case Text(_) =>
    case Print(expr) =>
      OperatedLeads(expr, PrintValue, 1);
      AllLeadMore(Operated(expr, PrintValue, 1), {}, ps);
    case If(_, _, _) => IfLeads(s, base, ps);
    case For(_, _, _, _) => ForLeads(s, base, ps);
  }

  lemma {:induction false} IfPoints(s: Stmt, base: nat, ps: set<nat>)
    requires s.If? && StmtPoints(s, base) <= ps && base + StmtSize(s) in ps
    ensures (var start := base + |ExprCode(s.cond)| + 1;
             var at := start + BlockSize(s.body);
             BlockPoints(s.body, start) <= ps && ChainPoints(s.chain, at) <= ps && at + ChainSize(s.chain) in ps)
  {
  }

  lemma {:induction false} IfLeads(s: Stmt, base: nat, ps: set<nat>)
    requires s.If? && StmtPoints(s, base) <= ps && base + StmtSize(s) in ps
    ensures AllLead(StmtCode(s, base), ps)
    decreases s, 0
  {
    var start := base + |ExprCode(s.cond)| + 1;
    var at := start + BlockSize(s.body);
    IfPoints(s, base, ps);
    BlockLeads(s.body, start, ps);
    ChainLeads(s.chain, at, at + ChainSize(s.chain), ps);
    IfJoined(s, base, start, at, ps);
  }

  lemma {:induction false} IfJoined(s: Stmt, base: nat, start: nat, at: nat, ps: set<nat>)
    requires s.If? && start == base + |ExprCode(s.cond)| + 1 && at == start + BlockSize(s.body)
    requires ChainPoints(s.chain, at) <= ps && at + ChainSize(s.chain) in ps && AllLead(BlockCode(s.body, start), ps)
    requires AllLead(ChainCode(s.chain, at, at + ChainSize(s.chain)), ps)
    ensures AllLead(StmtCode(s, base), ps)
  {
    var end := at + ChainSize(s.chain);
    ExprLeads(s.cond);
    ElseTargetLeads(s.chain, at, end, ps);
    IfShape(s, base, start, at);
    AllLeadFour(ExprCode(s.cond), [Plain(ConditionalJump, ElseTarget(s.chain, at))], BlockCode(s.body, start),
                ChainCode(s.chain, at, end), ps);
  }

  lemma {:induction false} ForLeads(s: Stmt, base: nat, ps: set<nat>)
    requires s.For? && StmtPoints(s, base) <= ps && base + StmtSize(s) in ps
    ensures AllLead(StmtCode(s, base), ps)
    decreases s, 0
  {
    var start := base + |ExprCode(s.over)| + 1;
    var endAt := start + BlockSize(s.body);
    assert endAt + 1 == base + StmtSize(s);
    ExprLeads(s.over);
    BlockLeads(s.body, start, ps);
    AllLeadFour(ExprCode(s.over), [LoopStart(s.key, s.value, endAt)], BlockCode(s.body, start),
                [Plain(EndLoop, start)], ps);
  }

  lemma {:induction false} ElseTargetLeads(c: Chain, at: nat, end: nat, ps: set<nat>)
    requires ChainPoints(c, at) <= ps && end in ps && end == at + ChainSize(c)
    ensures ElseTarget(c, at) in ps
  {
  }

  lemma {:induction false} ChainLeads(c: Chain, base: nat, end: nat, ps: set<nat>)
    requires ChainPoints(c, base) <= ps && end in ps && end == base + ChainSize(c)
    ensures AllLead(ChainCode(c, base, end), ps)
    decreases c, 1
  {
    match c
    case EndIf =>
    case Else(body) => BlockLeads(body, base + 1, ps);
    case ElseIf(_, _, _) => ElseIfLeads(c, base, end, ps);
  }

  lemma {:induction false} ElseIfLeads(c: Chain, base: nat, end: nat, ps: set<nat>)
    requires c.ElseIf? && ChainPoints(c, base) <= ps && end in ps && end == base + ChainSize(c)
    ensures AllLead(ChainCode(c, base, end), ps)
    decreases c, 0
  {
    var start := base + 1 + |ExprCode(c.cond)| + 1;
    var at := start + BlockSize(c.body);
    ExprLeads(c.cond);
    BlockLeads(c.body, start, ps);
    ChainLeads(c.chain, at, end, ps);
    ElseTargetLeads(c.chain, at, end, ps);
    ElseIfShape(c, base, start, at, end);
    AllLeadFive([Plain(Jump, end)], ExprCode(c.cond), [Plain(ConditionalJump, ElseTarget(c.chain, at))],
                BlockCode(c.body, start), ChainCode(c.chain, at, end), ps);
  }

  lemma {:induction false} AllLeadFive(a: seq<Bytecode>, b: seq<Bytecode>, c: seq<Bytecode>, d: seq<Bytecode>,
                                       e: seq<Bytecode>, ps: set<nat>)
    requires AllLead(a, ps) && AllLead(b, {}) && AllLead(c, ps) && AllLead(d, ps) && AllLead(e, ps)
    ensures AllLead(a + b + c + d + e, ps)
  {
    AllLeadMore(b, {}, ps);
    AllLeadConcat(a, b, ps);
    AllLeadConcat(a + b, c, ps);
    AllLeadConcat(a + b + c, d, ps);
    AllLeadConcat(a + b + c + d, e, ps);
  }

  lemma {:induction false} BlockLeads(b: Block, base: nat, ps: set<nat>)
    requires BlockPoints(b, base) <= ps
    ensures AllLead(BlockCode(b, base), ps)
    decreases b, 0
  {
    match b
    case End =>
    case Then(head, tail) =>
      StmtLeads(head, base, ps);
      BlockLeads(tail, base + StmtSize(head), ps);
  }

  lemma {:induction false} TargetsInside(b: Block)
    ensures AllLead(BlockCode(b, 0), BlockPoints(b, 0)) && Between(BlockPoints(b, 0), 0, |BlockCode(b, 0)|)
  {
    BlockLeads(b, 0, BlockPoints(b, 0));
    BlockPointsInside(b, 0);
  }
}
