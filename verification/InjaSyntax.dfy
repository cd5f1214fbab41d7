/** Templates as trees, the tokens the parser reads, and the values they work on. */
module InjaSyntax {

  datatype Option<+T> = None | Some(value: T)

  datatype Json =
    | Null
    | Bool(b: bool)
    | Integer(i: int)
    | Float(x: real)
    | Str(s: string)
    | Array(items: seq<Json>)
    | Object(fields: map<string, Json>)

  datatype Builtin =
    | Not | And | Or
    | In | Equal | Greater | GreaterEqual | Less | LessEqual | Different
    | At | DivisibleBy | Even | First | Float_ | Int_ | Last | Length | Lower | Max | Min | Odd
    | Range | Round | Sort | Upper | ExistsInObject
    | IsBoolean | IsNumber | IsInteger | IsFloat | IsObject | IsArray | IsString

  /** Function calls take at least one argument, so argument lists are non-empty. */
  datatype Exprs = Only(expr: Expr) | More(expr: Expr, rest: Exprs)

  datatype Expr =
    | Literal(value: Json)
    | Lookup(name: string)
    | Apply(op: Builtin, args: Exprs)
    | Call(name: string, args: Exprs)

  datatype Stmt =
    | Text(text: string)
    | Print(expr: Expr)
    | If(cond: Expr, body: Block, chain: Chain)
    | For(key: string, value: string, over: Expr, body: Block)

  /** What follows the body of an if: nothing, one final else, or an else-if and its own chain. */
  datatype Chain = EndIf | Else(body: Block) | ElseIf(cond: Expr, body: Block, chain: Chain)

  datatype Block = End | Then(head: Stmt, tail: Block)

  /** The statements of a template in the order the parser meets them. */
  datatype Token =
    | TText(text: string)
    | TPrint(expr: Expr)
    | TIf(cond: Expr)
    | TElseIf(cond: Expr)
    | TElse
    | TEndIf
    | TFor(key: string, value: string, over: Expr)
    | TEndFor

  function StmtTokens(s: Stmt): (ts: seq<Token>)
  {
    match s
    case Text(text) => [TText(text)]
    case Print(expr) => [TPrint(expr)]
    case If(cond, body, chain) => [TIf(cond)] + BlockTokens(body) + ChainTokens(chain)
    case For(key, value, over, body) => [TFor(key, value, over)] + BlockTokens(body) + [TEndFor]
  }

  function ChainTokens(c: Chain): (ts: seq<Token>)
  {
    match c
    case EndIf => [TEndIf]
    case Else(body) => [TElse] + BlockTokens(body) + [TEndIf]
    case ElseIf(cond, body, chain) => [TElseIf(cond)] + BlockTokens(body) + ChainTokens(chain)
  }

  function BlockTokens(b: Block): (ts: seq<Token>)
  {
    match b
    case End => []
    case Then(head, tail) => StmtTokens(head) + BlockTokens(tail)
  }

  // ----- values -----

  /** json::empty: true of null and of containers without elements, never of a string. */
  predicate IsEmpty(j: Json) {
    match j
    case Null => true
    case Array(items) => items == []
    case Object(fields) => fields == map[]
    case _ => false
  }

  /** Truthiness; a container with elements has none and makes the renderer fail. */
  function Truthy(j: Json): (t: Option<bool>)
  {
    if IsEmpty(j) then Some(false)
    else
      match j
      case Integer(i) => Some(i != 0)
      case Float(x) => Some(x != 0.0)
      case Str(_) => Some(true)
      case Bool(b) => Some(b)
      case _ => None
  }

  /** json::operator[] with assignment: null becomes an object, any other non-object fails. */
  function SetField(j: Json, name: string, v: Json): (r: Option<Json>)
  {
    match j
    case Null => Some(Object(map[name := v]))
    case Object(fields) => Some(Object(fields[name := v]))
    case _ => None
  }

  /** json::operator[] read for writing: a missing field is null. */
  function FieldOrNull(j: Json, name: string): (r: Json)
  {
    if j.Object? && name in j.fields then j.fields[name] else Null
  }

  /** Lexicographic order on strings. */
  predicate StrLeq(a: string, b: string) {
    a == [] || (b != [] && (a[0] < b[0] || (a[0] == b[0] && StrLeq(a[1..], b[1..]))))
  }

  lemma {:induction false} StrLeqTotal(a: string, b: string)
    ensures StrLeq(a, b) || StrLeq(b, a)
    ensures StrLeq(a, b) && StrLeq(b, a) ==> a == b
  {
    if a != [] && b != [] && a[0] == b[0] {
      StrLeqTotal(a[1..], b[1..]);
      assert a == [a[0]] + a[1..] && b == [b[0]] + b[1..];
    }
  }

  lemma {:induction false} StrLeqTransitive(a: string, b: string, c: string)
    requires StrLeq(a, b) && StrLeq(b, c)
    ensures StrLeq(a, c)
  {
    if a != [] && a[0] == b[0] == c[0] {
      StrLeqTransitive(a[1..], b[1..], c[1..]);
    }
  }

  lemma {:induction false} LeastExists(s: set<string>) returns (k: string)
    requires s != {}
    ensures k in s && forall x :: x in s ==> StrLeq(k, x)
    decreases s
  {
    k :| k in s;
    StrLeqTotal(k, k);
    if s != {k} {
      var k' := LeastExists(s - {k});
      StrLeqTotal(k, k');
      var best := if StrLeq(k, k') then k else k';
      forall x | x in s
        ensures StrLeq(best, x)
      {
        if x != k && best == k {
          StrLeqTransitive(k, k', x);
        }
      }
      k := best;
    }
  }

  lemma LeastKeyExists(s: set<string>)
    requires s != {}
    ensures exists k :: k in s && forall x :: x in s ==> StrLeq(k, x)
  {
    var k := LeastExists(s);
  }

  function LeastKey(s: set<string>): (k: string)
    requires s != {}
    ensures k in s && forall x :: x in s ==> StrLeq(k, x)
  {
    LeastKeyExists(s);
    assert forall a, b :: a in s && b in s && StrLeq(a, b) && StrLeq(b, a) ==> a == b by {
      forall a, b | a in s && b in s && StrLeq(a, b) && StrLeq(b, a)
        ensures a == b
      {
        StrLeqTotal(a, b);
      }
    }
    var k :| k in s && forall x :: x in s ==> StrLeq(k, x);
    k
  }

  /** The entries of an object, sorted by key. */
  function SortedEntries(m: map<string, Json>): (es: seq<(string, Json)>)
    ensures |es| == |m|
    ensures forall i :: 0 <= i < |es| ==> es[i].0 in m && es[i].1 == m[es[i].0]
    decreases |m|
  {
    if m == map[] then []
    else
      var k := LeastKey(m.Keys);
      assert m == (m - {k})[k := m[k]];
      [(k, m[k])] + SortedEntries(m - {k})
  }

  /** Keys come in increasing order, each once. */
  lemma {:induction false} EntriesSorted(m: map<string, Json>)
    ensures forall i, j :: 0 <= i < j < |SortedEntries(m)| ==>
                             StrLeq(SortedEntries(m)[i].0, SortedEntries(m)[j].0) &&
                             SortedEntries(m)[i].0 != SortedEntries(m)[j].0
    decreases |m|
  {
    if m != map[] {
      var k := LeastKey(m.Keys);
      assert m == (m - {k})[k := m[k]];
      EntriesSorted(m - {k});
      var rest := SortedEntries(m - {k});
      assert SortedEntries(m) == [(k, m[k])] + rest;
    }
  }

  /** Everything outside the template: the other builtins, the callbacks, path lookup and printing. */
  datatype Env = Env(
    builtin: (Builtin, seq<Json>) -> Option<Json>,
    callback: (string, seq<Json>) -> Option<Json>,
    at: (Json, string) -> Option<Json>,
    dump: Json -> string)
}
