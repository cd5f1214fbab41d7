/** What conditions, operators, loops and output amount to, read off the values themselves. */
module InjaLaws {
  import opened InjaSyntax
  import opened InjaSemantics
  import opened InjaCode
  import opened InjaMachine

  // ----- conditions -----

  /** Numbers other than zero, all strings, even empty ones, and true. */
  ghost predicate IsTrue(v: Json) {
    || (v.Integer? && (v.i < 0 || v.i > 0)) || (v.Float? && (v.x < 0.0 || v.x > 0.0)) || v.Str? || v == Bool(true)
  }

  ghost predicate IsFalse(v: Json) {
    v in {Null, Bool(false), Integer(0), Float(0.0), Array([]), Object(map[])}
  }

  /** A container with elements. */
  ghost predicate IsNeither(v: Json) {
    (v.Array? && |v.items| > 0) || (v.Object? && v.fields.Keys != {})
  }

  lemma {:induction false} Senses(v: Json)
    ensures IsTrue(v) || IsFalse(v) || IsNeither(v)
    ensures !(IsTrue(v) && IsFalse(v)) && !(IsTrue(v) && IsNeither(v)) && !(IsFalse(v) && IsNeither(v))
    ensures IsTrue(v) <==> Truthy(v) == Some(true)
    ensures IsFalse(v) <==> Truthy(v) == Some(false)
  {
    assert v.Object? && v.fields.Keys == {} ==> v.fields == map[];
  }

  /** The branch that an if takes; a condition that is neither true nor false is an error, as is one without a
      value. */
  lemma {:induction false} IfTakes(env: Env, data: Json, cond: Expr, body: Block, chain: Chain)
    ensures (var r := ExecStmt(env, data, If(cond, body, chain));
             match Eval(env, data, cond)
             case None => r == Rendering(false, "")
             case Some(v) =>
               && (IsTrue(v) ==> r == ExecBlock(env, data, body))
               && (IsFalse(v) ==> r == ExecChain(env, data, chain))
               && (IsNeither(v) ==> r == Rendering(false, "")))
  {
    var v := Eval(env, data, cond);
    if v.Some? {
      Senses(v.value);
    }
  }

  /** The same for the conditions of a chain; without an else, nothing is written. */
  lemma {:induction false} ChainTakes(env: Env, data: Json, cond: Expr, body: Block, chain: Chain)
    ensures (var r := ExecChain(env, data, ElseIf(cond, body, chain));
             match Eval(env, data, cond)
             case None => r == Rendering(false, "")
             case Some(v) =>
               && (IsTrue(v) ==> r == ExecBlock(env, data, body))
               && (IsFalse(v) ==> r == ExecChain(env, data, chain))
               && (IsNeither(v) ==> r == Rendering(false, "")))
    ensures ExecChain(env, data, Else(body)) == ExecBlock(env, data, body)
    ensures ExecChain(env, data, EndIf) == Rendering(true, "")
  {
    var v := Eval(env, data, cond);
    if v.Some? {
      Senses(v.value);
    }
  }

  /** The instruction goes on for a true value and jumps for a false one. */
  lemma {:induction false} JumpTakes(m: Machine, bc: Bytecode, below: seq<Json>, v: Json)
    requires m.Running? && m.stack == below + [v]
    ensures IsTrue(v) ==> StepCondition(m, bc) == m.(pc := m.pc + 1, stack := below)
    ensures IsFalse(v) ==> StepCondition(m, bc) == m.(pc := bc.args, stack := below)
    ensures IsNeither(v) ==> StepCondition(m, bc) == Failed(m.out)
  {
    Senses(v);
    assert m.stack[..|m.stack| - 1] == below;
  }

  lemma {:induction false} NotOf(env: Env, v: Json)
    ensures IsTrue(v) ==> Operate(env, Not, [v]) == Some(Bool(false))
    ensures IsFalse(v) ==> Operate(env, Not, [v]) == Some(Bool(true))
    ensures IsNeither(v) ==> Operate(env, Not, [v]) == None
  {
    Senses(v);
  }

  /** The second operand matters only if the first is true. */
  lemma {:induction false} AndOf(env: Env, a: Json, b: Json)
    ensures IsFalse(a) || (IsTrue(a) && IsFalse(b)) ==> Operate(env, And, [a, b]) == Some(Bool(false))
    ensures IsTrue(a) && IsTrue(b) ==> Operate(env, And, [a, b]) == Some(Bool(true))
    ensures IsNeither(a) || (IsTrue(a) && IsNeither(b)) ==> Operate(env, And, [a, b]) == None
  {
    Senses(a);
    Senses(b);
  }

  /** The second operand matters only if the first is false. */
  lemma {:induction false} OrOf(env: Env, a: Json, b: Json)
    ensures IsTrue(a) || (IsFalse(a) && IsTrue(b)) ==> Operate(env, Or, [a, b]) == Some(Bool(true))
    ensures IsFalse(a) && IsFalse(b) ==> Operate(env, Or, [a, b]) == Some(Bool(false))
    ensures IsNeither(a) || (IsFalse(a) && IsNeither(b)) ==> Operate(env, Or, [a, b]) == None
  {
    Senses(a);
    Senses(b);
  }

  // ----- values and output -----

  function Literals(vs: seq<Json>): (es: Exprs)
    requires vs != []
  {
    if |vs| == 1 then Only(Literal(vs[0])) else More(Literal(vs[0]), Literals(vs[1..]))
  }

  /** Functions and operators get the values of their arguments from left to right. */
  lemma {:induction false} ArgumentsInOrder(env: Env, data: Json, vs: seq<Json>)
    requires vs != []
    ensures EvalAll(env, data, Literals(vs)) == Some(vs)
    ensures forall name :: Eval(env, data, Call(name, Literals(vs))) == env.callback(name, vs)
    ensures forall op :: op !in {Not, And, Or} ==> Eval(env, data, Apply(op, Literals(vs))) == env.builtin(op, vs)
    decreases |vs|
  {
    if |vs| == 1 {
      assert vs == [vs[0]];
    } else {
      ArgumentsInOrder(env, data, vs[1..]);
      assert vs == [vs[0]] + vs[1..];
    }
  }

  /** A variable is looked up in the data first; only what is not there is a callback. */
  lemma {:induction false} VariableIs(env: Env, data: Json, name: string)
    ensures env.at(data, name).Some? ==> Eval(env, data, Lookup(name)) == env.at(data, name)
    ensures env.at(data, name).None? ==> Eval(env, data, Lookup(name)) == env.callback(name, [])
  {
  }

  /** Strings are printed as they are, other values as the dump says. */
  lemma {:induction false} PrintWrites(env: Env, data: Json, e: Expr)
    ensures (var r := ExecStmt(env, data, Print(e));
             match Eval(env, data, e)
             case None => r == Rendering(false, "")
             case Some(v) => r == Rendering(true, if v.Str? then v.s else env.dump(v)))
  {
  }

  function Texts(ts: seq<string>): (b: Block) {
    if ts == [] then End else Then(Text(ts[0]), Texts(ts[1..]))
  }

  function Joined(ts: seq<string>): (s: string) {
    if ts == [] then "" else ts[0] + Joined(ts[1..])
  }

  /** Text is written in the order it stands. */
  lemma {:induction false} TextsWrite(env: Env, data: Json, ts: seq<string>)
    ensures ExecBlock(env, data, Texts(ts)) == Rendering(true, Joined(ts))
    decreases |ts|
  {
    if ts != [] {
      TextsWrite(env, data, ts[1..]);
    }
  }

  /** What comes after a failure is not written, what came before is. */
  lemma {:induction false} FailureStops(env: Env, data: Json, text: string, e: Expr, tail: Block)
    requires Eval(env, data, e).None?
    ensures ExecBlock(env, data, Then(Text(text), Then(Print(e), tail))) == Rendering(false, text)
  {
    assert ExecBlock(env, data, Then(Print(e), tail)) == Rendering(false, "");
    assert text + "" == text;
  }

  // ----- what a loop's body sees -----

  ghost function FieldsOf(data: Json): (fields: map<string, Json>) {
    if data.Object? then data.fields else map[]
  }

  /** Null counts as an object without fields. */
  ghost predicate IsRecord(data: Json) {
    data.Null? || data.Object?
  }

  /** The fields of `d` are those of `data` except for some. */
  ghost predicate SameBut(data: Json, d: Json, names: set<string>) {
    && d.Object?
    && (forall k :: k in FieldsOf(data) && k !in names ==> k in d.fields && d.fields[k] == data.fields[k])
    && (forall k :: k in d.fields && k !in names ==> k in FieldsOf(data))
  }

  /** The variables of iteration `i` of `n`, on top of what the object held before. */
  ghost predicate LoopVariables(loop: Json, before: Json, i: nat, n: nat) {
    && SameBut(before, loop, {"index", "index1", "is_first", "is_last"})
    && {"index", "index1", "is_first", "is_last"} <= loop.fields.Keys
    && loop.fields["index"] == Integer(i) && loop.fields["index1"] == Integer(i + 1)
    && loop.fields["is_first"] == Bool(i == 0) && loop.fields["is_last"] == Bool(i + 1 == n)
  }

  lemma {:induction false} InfoHolds(before: Json, i: nat, n: nat)
    ensures LoopInfo(before, i, n).Some? <==> IsRecord(before)
    ensures LoopInfo(before, i, n).Some? ==> LoopVariables(LoopInfo(before, i, n).value, before, i, n)
  {
  }

  /** A nested loop finds the enclosing loop's variables under loop.parent; nothing else changes. */
  lemma {:induction false} ParentData(data: Json)
    ensures (var r := WithParent(data);
             if "loop" !in FieldsOf(data) then r == Some(data)
             else
               var outer := data.fields["loop"];
               && (r.Some? <==> IsRecord(outer))
               && (r.Some? ==>
                     && SameBut(data, r.value, {"loop"}) && "loop" in r.value.fields
                     && SameBut(outer, r.value.fields["loop"], {"parent"})
                     && "parent" in r.value.fields["loop"].fields
                     && r.value.fields["loop"].fields["parent"] == outer))
  {
  }

  /** In iteration `i` over an array the body sees the item under its name and the loop variables, and otherwise
      the data around the loop.  It fails exactly where there is no place for them. */
  lemma {:induction false} ItemData(scope: Json, name: string, items: seq<Json>, i: nat)
    requires i < |items|
    ensures (var r := BindItem(scope, name, items, i);
             var before := if name == "loop" then items[i]
                           else if "loop" in FieldsOf(scope) then scope.fields["loop"] else Null;
             && (r.Some? <==> IsRecord(scope) && IsRecord(before))
             && (r.Some? ==>
                   && SameBut(scope, r.value, {name, "loop"}) && {name, "loop"} <= r.value.fields.Keys
                   && (name != "loop" ==> r.value.fields[name] == items[i])
                   && LoopVariables(r.value.fields["loop"], before, i, |items|)))
  {
    if IsRecord(scope) {
      var before := if name == "loop" then items[i]
                    else if "loop" in FieldsOf(scope) then scope.fields["loop"] else Null;
      InfoHolds(before, i, |items|);
    }
  }

  /** In an iteration over an object it sees key and value; a value of the same name as the key hides it. */
  lemma {:induction false} EntryData(scope: Json, key: string, name: string, entry: (string, Json))
    ensures (var r := BindEntry(scope, key, name, entry);
             && (r.Some? <==> IsRecord(scope))
             && (r.Some? ==>
                   && SameBut(scope, r.value, {key, name}) && {key, name} <= r.value.fields.Keys
                   && r.value.fields[name] == entry.1 && (key != name ==> r.value.fields[key] == Str(entry.0))))
  {
  }

  // ----- loops -----

  /** The body rendered once for each of `datas`, in order, up to the first failure or missing data. */
  function InTurn(env: Env, datas: seq<Option<Json>>, body: Block): (r: Rendering) {
    if datas == [] then Rendering(true, "")
    else if datas[0].None? then Rendering(false, "")
    else
      var first, rest := ExecBlock(env, datas[0].value, body), InTurn(env, datas[1..], body);
      if first.ok then Rendering(rest.ok, first.out + rest.out) else first
  }

  lemma {:induction false} ItemsInTurn(env: Env, scope: Json, name: string, items: seq<Json>, i: nat, body: Block,
                                       datas: seq<Option<Json>>)
    requires |datas| == |items| && i <= |items|
    requires forall k :: 0 <= k < |items| ==> BindItem(scope, name, items, k) == datas[k]
    ensures ExecItems(env, scope, name, items, i, body) == InTurn(env, datas[i..], body)
    decreases |items| - i
  {
    if i < |items| {
      ItemsInTurn(env, scope, name, items, i + 1, body, datas);
      assert datas[i..][0] == datas[i] && datas[i..][1..] == datas[i + 1..];
    }
  }

  lemma {:induction false} EntriesInTurn(env: Env, scope: Json, key: string, name: string, es: seq<(string, Json)>,
                                         i: nat, body: Block, datas: seq<Option<Json>>)
    requires |datas| == |es| && i <= |es|
    requires forall k :: 0 <= k < |es| ==> BindEntry(scope, key, name, es[k]) == datas[k]
    ensures ExecEntries(env, scope, key, name, es, i, body) == InTurn(env, datas[i..], body)
    decreases |es| - i
  {
    if i < |es| {
      EntriesInTurn(env, scope, key, name, es, i + 1, body, datas);
      assert datas[i..][0] == datas[i] && datas[i..][1..] == datas[i + 1..];
    }
  }

  ghost function ItemAt(data: Json, name: string, items: seq<Json>, k: nat): (r: Option<Json>)
    requires k < |items|
  {
    var scope := WithParent(data);
    if scope.None? then None else BindItem(scope.value, name, items, k)
  }

  ghost function EntryAt(data: Json, key: string, name: string, e: (string, Json)): (r: Option<Json>) {
    var scope := WithParent(data);
    if scope.None? then None else BindEntry(scope.value, key, name, e)
  }

  /** A loop over an array renders its body for each item in order. */
  lemma {:induction false} ArrayLoop(env: Env, data: Json, name: string, over: Expr, items: seq<Json>, body: Block,
                                     datas: seq<Option<Json>>)
    requires Eval(env, data, over) == Some(Array(items)) && |datas| == |items|
    requires forall k :: 0 <= k < |items| ==> ItemAt(data, name, items, k) == datas[k]
    ensures ExecStmt(env, data, For("", name, over, body)) == InTurn(env, datas, body)
  {
    var scope := WithParent(data);
    if scope.Some? {
      ItemsInTurn(env, scope.value, name, items, 0, body, datas);
      assert datas[0..] == datas;
    } else if items != [] {
      assert ItemAt(data, name, items, 0) == datas[0];
    }
  }

  /** A loop over an object renders its body for each entry, in the order of the keys. */
  lemma {:induction false} ObjectLoop(env: Env, data: Json, key: string, name: string, over: Expr,
                                      fields: map<string, Json>, body: Block, es: seq<(string, Json)>,
                                      datas: seq<Option<Json>>)
    requires Eval(env, data, over) == Some(Object(fields)) && key != "" && es == SortedEntries(fields)
    requires |datas| == |es| && forall k :: 0 <= k < |es| ==> EntryAt(data, key, name, es[k]) == datas[k]
    ensures ExecStmt(env, data, For(key, name, over, body)) == InTurn(env, datas, body)
  {
    var scope := WithParent(data);
    ObjectCase(env, data, key, name, over, fields, body);
    if scope.Some? {
      EntriesInTurn(env, scope.value, key, name, es, 0, body, datas);
      assert datas[0..] == datas;
    } else if es != [] {
      assert EntryAt(data, key, name, es[0]) == datas[0];
    }
  }

  lemma {:induction false} ObjectCase(env: Env, data: Json, key: string, name: string, over: Expr,
                                      fields: map<string, Json>, body: Block)
    requires Eval(env, data, over) == Some(Object(fields)) && key != ""
    ensures (var r, scope := ExecStmt(env, data, For(key, name, over, body)), WithParent(data);
             if |fields| == 0 then r == Rendering(true, "")
             else if scope.None? then r == Rendering(false, "")
             else r == ExecEntries(env, scope.value, key, name, SortedEntries(fields), 0, body))
  {
    assert IsEmpty(Object(fields)) <==> |fields| == 0;
  }

  /** Looping over nothing writes nothing; looping over anything but the right kind of container fails. */
  lemma {:induction false} OtherLoops(env: Env, data: Json, key: string, name: string, over: Expr, v: Json, body: Block)
    requires Eval(env, data, over) == Some(v)
    ensures (var r := ExecStmt(env, data, For(key, name, over, body));
             && (v in {Null, Array([]), Object(map[])} ==> r == Rendering(true, ""))
             && (v !in {Null, Array([]), Object(map[])} && !(if key == "" then v.Array? else v.Object?) ==>
                   r == Rendering(false, "")))
  {
  }

  // ----- the order of keys -----

  /** Every entry of the object comes, each once, in increasing order of the keys. */
  lemma {:induction false} EntriesAll(m: map<string, Json>, k: string)
    ensures k in m <==>
            exists i :: 0 <= i < |SortedEntries(m)| && SortedEntries(m)[i] == (k, if k in m then m[k] else Null)
    ensures forall i, j :: 0 <= i < j < |SortedEntries(m)| ==>
              StrLeq(SortedEntries(m)[i].0, SortedEntries(m)[j].0) && SortedEntries(m)[i].0 != SortedEntries(m)[j].0
    decreases |m|
  {
    EntriesSorted(m);
    if m != map[] {
      var least := LeastKey(m.Keys);
      var rest, es := m - {least}, SortedEntries(m);
      assert m == rest[least := m[least]];
      EntriesAll(rest, k);
      assert es == [(least, m[least])] + SortedEntries(rest);
      assert es[0] == (least, m[least]);
      if k in rest {
        var i :| 0 <= i < |SortedEntries(rest)| && SortedEntries(rest)[i] == (k, rest[k]);
        assert es[i + 1] == (k, m[k]);
      }
    }
  }

  /** At the first difference the smaller character decides; a prefix comes first. */
  lemma {:induction false} KeyOrder(a: string, b: string)
    ensures StrLeq(a, b) <==>
            a <= b || exists i :: 0 <= i < |a| && i < |b| && a[..i] == b[..i] && a[i] < b[i]
  {
    if a != [] && b != [] && a[0] == b[0] {
      KeyOrder(a[1..], b[1..]);
      if i :| 0 <= i < |a[1..]| && i < |b[1..]| && a[1..][..i] == b[1..][..i] && a[1..][i] < b[1..][i] {
        assert a[..i + 1] == [a[0]] + a[1..][..i] && b[..i + 1] == [b[0]] + b[1..][..i];
        assert a[i + 1] < b[i + 1];
      }
      if i :| 0 <= i < |a| && i < |b| && a[..i] == b[..i] && a[i] < b[i] {
        assert a[1..][..i - 1] == a[..i][1..] && b[1..][..i - 1] == b[..i][1..];
        assert a[1..][i - 1] < b[1..][i - 1];
      }
      assert a <= b <==> a[1..] <= b[1..] by {
        assert a == [a[0]] + a[1..] && b == [b[0]] + b[1..];
      }
    } else if a != [] && b != [] && a[0] < b[0] {
      assert a[..0] == b[..0];
    }
  }
}
