/**
 * The cell formatter of src/helper/format-cell.js: `formatCell(table, values)`
 * returns a function of (datum, index) that looks up a value for the cell's
 * column and the table's inset mode in a nested `values` object, and calls it
 * when it is a function. The table is read on every call.
 */
module FormatCell {
  import opened Options
  import opened Numbers
  import Table

  /** A JavaScript value as the formatter meets it in `values`. */
  datatype Value =
    | Undefined
    | Null
    | Bool(b: bool)
    | Number(num: Num)
    | Str(s: string)
    | Function(id: nat, props: map<string, Value>)   // its own properties: name, length, prototype, ...
    | Object(props: map<string, Value>)
  {
    /** JavaScript truthiness: undefined, null, false, 0, NaN and '' are falsy. */
    predicate Truthy(): (t: bool)
      ensures Undefined? || Null? ==> !t
      ensures Bool? ==> (t <==> b)
      ensures Number? ==> (t <==> !num.NaN? && num != Finite(0))
      ensures Str? ==> (t <==> |s| > 0)
      ensures Function? || Object? ==> t
    {
      match this
      case Undefined => false
      case Null => false
      case Bool(b) => b
      case Number(x) => x != Finite(0) && x != NaN
      case Str(s) => s != ""
      case Function(_, _) => true
      case Object(_) => true
    }

    predicate Nullish() {
      Undefined? || Null?
    }
  }

  /** What the formatter returns for a cell: a plain value, or the result of calling a function value. */
  datatype Output<D> =
    | Plain(value: Value)
    | Applied(fn: Value, datum: D, index: int, name: Option<string>)

  /** The formatter's outcome: reading a property of a null or undefined `values` throws a TypeError. */
  datatype Outcome<D> = Ok(out: Output<D>) | TypeError

  /** `v[key]` for a value that is neither null nor undefined: the own properties of an object or a function. */
  function Get(v: Value, key: string): (r: Value)
    requires !v.Nullish()
    ensures !v.Object? && !v.Function? ==> r == Undefined
    ensures v.Object? || v.Function? ==> r == if key in v.props then v.props[key] else Undefined
  {
    if (v.Object? || v.Function?) && key in v.props then v.props[key] else Undefined
  }

  /** The name of the set for the table's mode: 'in' when inset, 'out' otherwise. */
  function SetName(inset: bool): (mode: string)
    ensures mode == "in" <==> inset
    ensures mode == "out" <==> !inset
  {
    if inset then "in" else "out"
  }

  /** `names[index]`: the header at the cell's index, undefined past the last one. */
  function NameAt(names: seq<string>, index: int): (name: Option<string>)
    ensures name.Some? <==> 0 <= index < |names|
    ensures name.Some? ==> name.value == names[index]
  {
    if 0 <= index < |names| then Some(names[index]) else None
  }

  /** The property key JavaScript uses for `values[name]`: an undefined name reads the key 'undefined'. */
  function PropertyKey(name: Option<string>): (k: string)
    ensures name.Some? ==> k == name.value
    ensures name.None? ==> k == "undefined"
  {
    match name
    case Some(n) => n
    case None => "undefined"
  }

  /** `values[name] && values[name][set] || values[name] || values[set] || values`, the set named by `mode`. */
  function Resolve(values: Value, key: string, mode: string): (r: Value)
    requires !values.Nullish()
    ensures r == values || r.Truthy()
    ensures Get(values, key).Truthy() ==> r.Truthy()
    ensures Get(values, key).Truthy() ==> r == Get(values, key) || r == Get(Get(values, key), mode)
    ensures Get(values, key).Truthy() && Get(Get(values, key), mode).Truthy() ==> r == Get(Get(values, key), mode)
    ensures !Get(values, key).Truthy() && Get(values, mode).Truthy() ==> r == Get(values, mode)
    ensures r == values ==> !Get(values, key).Truthy() && !Get(values, mode).Truthy()
    ensures r == values || r == Get(values, key) || r == Get(values, mode) ||
      (Get(values, key).Truthy() && r == Get(Get(values, key), mode))
  {
    var byName := Get(values, key);
    var both := if byName.Truthy() then Get(byName, mode) else byName;
    if both.Truthy() then both
    else if byName.Truthy() then byName
    else if Get(values, mode).Truthy() then Get(values, mode)
    else values
  }

  /** The first truthy candidate, or the fallback when none is. */
  function FirstTruthy(candidates: seq<Value>, fallback: Value): (r: Value)
    ensures r == fallback || (r in candidates && r.Truthy())
  {
    if |candidates| == 0 then fallback
    else if candidates[0].Truthy() then candidates[0]
    else FirstTruthy(candidates[1..], fallback)
  }

  /** `v[key]` for any value, reading undefined where the source never reads. */
  function Lookup(v: Value, key: string): Value {
    if v.Nullish() then Undefined else Get(v, key)
  }

  /**
   * The lookup order: values[name][set], then values[name], then values[set],
   * the first of them that is truthy, and values itself when none is.
   */
  lemma {:induction false} ResolveIsFirstTruthy(values: Value, key: string, mode: string)
    requires !values.Nullish()
    ensures Resolve(values, key, mode) ==
      FirstTruthy([Lookup(Get(values, key), mode), Get(values, key), Get(values, mode)], values)
  {
    var byName := Get(values, key);
    var cs := [Lookup(byName, mode), byName, Get(values, mode)];
    assert cs[1..] == [byName, Get(values, mode)];
    assert cs[1..][1..] == [Get(values, mode)];
    assert cs[1..][1..][1..] == [];
    var last := FirstTruthy(cs[1..][1..], values);
    assert last == if Get(values, mode).Truthy() then Get(values, mode) else values;
    var second := FirstTruthy(cs[1..], values);
    assert second == if byName.Truthy() then byName else last;
    if !byName.Truthy() {
      assert !Lookup(byName, mode).Truthy();
      assert FirstTruthy(cs, values) == second;
    } else {
      assert Lookup(byName, mode) == Get(byName, mode);
    }
  }

  /**
   * One call of the formatter, given what it reads from the table: the header
   * names and the inset flag. Reading a property of a null or undefined
   * `values` throws; otherwise the resolved value is called with (datum,
   * index, name) when it is a function and returned as it is when not.
   */
  function Cell<D>(names: seq<string>, inset: bool, values: Value, datum: D, index: int): (r: Outcome<D>)
    ensures r.TypeError? <==> values.Nullish()
    ensures r.Ok? ==> var v := Resolve(values, PropertyKey(NameAt(names, index)), SetName(inset));
      (v.Function? ==> r.out == Applied(v, datum, index, NameAt(names, index))) &&
      (!v.Function? ==> r.out == Plain(v))
  {
    var mode := SetName(inset);
    var name := NameAt(names, index);
    if values.Nullish() then TypeError
    else
      var v := Resolve(values, PropertyKey(name), mode);
      Ok(if v.Function? then Applied(v, datum, index, name) else Plain(v))
  }

  /**
   * `formatCell(table, values)(datum, index)`: the header names and the inset
   * flag are read from the table at the time of each call, not when the
   * formatter is made.
   */
  function Format<D>(table: Table.Table<D>, values: Value, datum: D, index: int): (r: Outcome<D>)
    reads table
    ensures r == Cell(table.headerNames, table.inset, values, datum, index)
  {
    var names := table.headerNames;
    var inset := table.inset;
    Cell(names, inset, values, datum, index)
  }

  /**
   * A function given as `values` is read like an object: under a header that
   * names one of its own properties (here `name`), the cell shows that
   * property instead of calling the function.
   */
  lemma FunctionOwnProperty<D>(id: nat, fname: string, datum: D)
    requires fname != ""
    ensures Cell(["name"], false, Function(id, map["name" := Str(fname)]), datum, 0) == Ok(Plain(Str(fname)))
  {
    var f := Function(id, map["name" := Str(fname)]);
    assert Get(f, "name") == Str(fname);
    assert Get(Str(fname), "out") == Undefined;
  }
}
