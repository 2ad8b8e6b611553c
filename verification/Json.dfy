/** Parsed JSON values, as far as the body check looks into them. */
module Json {
  import opened Common

  /** A number is an unsigned 64-bit integer or something the check cannot use as an id. */
  datatype Number = Unsigned(n: nat) | OtherNumber

  /** Object fields are listed in the map's iteration order. */
  datatype Value =
    | Null
    | Bool(b: bool)
    | Num(num: Number)
    | Str(s: string)
    | Arr(items: seq<Value>)
    | Obj(fields: seq<Field>)

  datatype Field = Field(key: string, value: Value)

  /** Total number of nodes in a list of values. */
  function Nodes(vs: seq<Value>): (n: nat)
    ensures n >= |vs|
    decreases vs
  {
    if vs == [] then 0
    else
      var last := vs[|vs| - 1];
      NodesIn(last) + Nodes(vs[..|vs| - 1])
  }

  function NodesIn(v: Value): (n: nat)
    ensures n >= 1
    decreases v
  {
    match v
    case Arr(items) => 1 + Nodes(items)
    case Obj(fields) => 1 + FieldNodes(fields)
    case _ => 1
  }

  function FieldNodes(fields: seq<Field>): nat
    decreases fields
  {
    if fields == [] then 0
    else
      var last := fields[|fields| - 1];
      NodesIn(last.value) + FieldNodes(fields[..|fields| - 1])
  }

  lemma {:induction false} NodesAppend(xs: seq<Value>, ys: seq<Value>)
    ensures Nodes(xs + ys) == Nodes(xs) + Nodes(ys)
    decreases |ys|
  {
    if ys == [] {
      assert xs + ys == xs;
    } else {
      NodesAppend(xs, ys[..|ys| - 1]);
      assert (xs + ys)[..|xs + ys| - 1] == xs + ys[..|ys| - 1];
    }
  }
}
