/** What a template means: a direct recursive interpretation of its tree. */
module InjaSemantics {
  import opened InjaSyntax

  /** Output written, and whether rendering got to the end. */
  datatype Rendering = Rendering(ok: bool, out: string)

  /** A variable: a value in the data, or else a callback without arguments. */
  function Resolve(env: Env, data: Json, name: string): (r: Option<Json>)
  {
    match env.at(data, name)
    case Some(v) => Some(v)
    case None => env.callback(name, [])
  }

  /** The value of an operator applied to its arguments in source order. */
  function Operate(env: Env, op: Builtin, args: seq<Json>): (r: Option<Json>)
  {
    match op
    case Not =>
      if |args| != 1 then None
      else if Truthy(args[0]).None? then None
      else Some(Bool(!Truthy(args[0]).value))
    case And =>
      if |args| != 2 || Truthy(args[0]).None? then None
      else if !Truthy(args[0]).value then Some(Bool(false))
      else if Truthy(args[1]).None? then None
      else Some(Bool(Truthy(args[1]).value))
    case Or =>
      if |args| != 2 || Truthy(args[0]).None? then None
      else if Truthy(args[0]).value then Some(Bool(true))
      else if Truthy(args[1]).None? then None
      else Some(Bool(Truthy(args[1]).value))
    case _ => env.builtin(op, args)
  }

  function Eval(env: Env, data: Json, e: Expr): (r: Option<Json>)
  {
    match e
    case Literal(value) => Some(value)
    case Lookup(name) => Resolve(env, data, name)
    case Apply(op, args) =>
      (match EvalAll(env, data, args)
       case None => None
       case Some(vs) => Operate(env, op, vs))
    case Call(name, args) =>
      (match EvalAll(env, data, args)
       case None => None
       case Some(vs) => env.callback(name, vs))
  }

  function EvalAll(env: Env, data: Json, es: Exprs): (r: Option<seq<Json>>)
  {
    match Eval(env, data, es.expr)
    case None => None
    case Some(v) =>
      match es
      case Only(_) => Some([v])
      case More(_, rest) =>
        match EvalAll(env, data, rest)
        case None => None
        case Some(vs) => Some([v] + vs)
  }

  function Shown(env: Env, v: Json): (s: string)
  {
    if v.Str? then v.s else env.dump(v)
  }

  // ----- loops -----

  /** In a nested loop the enclosing loop's variable becomes `loop.parent`. */
  function WithParent(data: Json): (r: Option<Json>)
  {
    if data.Object? && "loop" in data.fields then
      match SetField(data.fields["loop"], "parent", data.fields["loop"])
      case None => None
      case Some(loop) => SetField(data, "loop", loop)
    else Some(data)
  }

  /** The `loop` object of the iteration `index` of `count`. */
  function LoopInfo(loop: Json, index: nat, count: nat): (r: Option<Json>)
  {
    if !loop.Null? && !loop.Object? then None
    else
      var fields := if loop.Null? then map[] else loop.fields;
      Some(Object(fields["index" := Integer(index)]["index1" := Integer(index + 1)]
                        ["is_first" := Bool(index == 0)]["is_last" := Bool(index == count - 1)]))
  }

  /** The data an array iteration sees. */
  function BindItem(data: Json, name: string, items: seq<Json>, index: nat): (r: Option<Json>)
    requires index < |items|
  {
    match SetField(data, name, items[index])
    case None => None
    case Some(data1) =>
      match LoopInfo(FieldOrNull(data1, "loop"), index, |items|)
      case None => None
      case Some(loop) => SetField(data1, "loop", loop)
  }

  /** The data an object iteration sees. */
  function BindEntry(data: Json, key: string, name: string, entry: (string, Json)): (r: Option<Json>)
  {
    match SetField(data, key, Str(entry.0))
    case None => None
    case Some(data1) => SetField(data1, name, entry.1)
  }

  // ----- statements -----

  function Fail(): (r: Rendering) { Rendering(false, "") }

  function Sequence(first: Rendering, second: Rendering): (r: Rendering)
  {
    if first.ok then Rendering(second.ok, first.out + second.out) else first
  }

  function ExecStmt(env: Env, data: Json, s: Stmt): (r: Rendering)
    decreases s, 0
  {
    match s
    case Text(text) => Rendering(true, text)
    case Print(expr) =>
      (match Eval(env, data, expr)
       case None => Fail()
       case Some(v) => Rendering(true, Shown(env, v)))
    case If(cond, body, chain) =>
      (match Condition(env, data, cond)
       case None => Fail()
       case Some(true) => ExecBlock(env, data, body)
       case Some(false) => ExecChain(env, data, chain))
    case For(key, value, over, body) =>
      match Eval(env, data, over)
      case None => Fail()
      case Some(v) =>
        if IsEmpty(v) then Rendering(true, "")
        else
          match WithParent(data)
          case None => Fail()
          case Some(scope) =>
            if key == "" && v.Array? then ExecItems(env, scope, value, v.items, 0, body)
            else if key != "" && v.Object? then ExecEntries(env, scope, key, value, SortedEntries(v.fields), 0, body)
            else Fail()
  }

  function Condition(env: Env, data: Json, cond: Expr): (r: Option<bool>)
  {
    match Eval(env, data, cond)
    case None => None
    case Some(v) => Truthy(v)
  }

  function ExecChain(env: Env, data: Json, c: Chain): (r: Rendering)
    decreases c, 0
  {
    match c
    case EndIf => Rendering(true, "")
    case Else(body) => ExecBlock(env, data, body)
    case ElseIf(cond, body, chain) =>
      match Condition(env, data, cond)
      case None => Fail()
      case Some(true) => ExecBlock(env, data, body)
      case Some(false) => ExecChain(env, data, chain)
  }

  function ExecBlock(env: Env, data: Json, b: Block): (r: Rendering)
    decreases b, 0
  {
    match b
    case End => Rendering(true, "")
    case Then(head, tail) => Sequence(ExecStmt(env, data, head), ExecBlock(env, data, tail))
  }

  /** Runs the body once per item from `index` on, each time in a fresh scope. */
  function ExecItems(env: Env, scope: Json, name: string, items: seq<Json>, index: nat, body: Block): (r: Rendering)
    requires index <= |items|
    decreases body, 1 + |items| - index
  {
    if index == |items| then Rendering(true, "")
    else
      match BindItem(scope, name, items, index)
      case None => Fail()
      case Some(data) =>
        Sequence(ExecBlock(env, data, body), ExecItems(env, scope, name, items, index + 1, body))
  }

  function ExecEntries(env: Env, scope: Json, key: string, name: string, entries: seq<(string, Json)>, pos: nat,
                       body: Block): (r: Rendering)
    requires pos <= |entries|
    decreases body, 1 + |entries| - pos
  {
    if pos == |entries| then Rendering(true, "")
    else
      match BindEntry(scope, key, name, entries[pos])
      case None => Fail()
      case Some(data) =>
        Sequence(ExecBlock(env, data, body), ExecEntries(env, scope, key, name, entries, pos + 1, body))
  }
}
