/** The part of a yaml-cpp document tree the engine reads and writes.
    Scalars are kept typed rather than as text; an emitted map is modelled by
    the node it produces. */
module Yaml {
  import opened Common

  datatype Scalar = FloatS(f: real) | IntS(i: int) | StrS(s: string) | BoolS(b: bool)

  datatype Node =
    | Undefined
    | ScalarNode(scalar: Scalar)
    | Sequence(items: seq<Node>)
    | Mapping(entries: map<string, Node>)

  /** `node[key]`: the value under `key`, or an undefined node. */
  function Get(node: Node, key: string): Node
  {
    if node.Mapping? && key in node.entries then node.entries[key] else Undefined
  }

  /** `if (node[key])`: the key is present. */
  predicate Has(node: Node, key: string)
  {
    Get(node, key) != Undefined
  }

  /** `as<float>()`: integers widen; anything else throws
      `YAML::BadConversion`. */
  function AsFloat(node: Node): Result<real>
  {
    match node
    case ScalarNode(FloatS(f)) => Ok(f)
    case ScalarNode(IntS(i)) => Ok(i as real)
    case _ => Fatal("YAML::BadConversion")
  }

  function AsInt(node: Node): Result<int>
  {
    match node
    case ScalarNode(IntS(i)) => Ok(i)
    case _ => Fatal("YAML::BadConversion")
  }

  function AsString(node: Node): Result<string>
  {
    match node
    case ScalarNode(StrS(s)) => Ok(s)
    case _ => Fatal("YAML::BadConversion")
  }

  function AsBool(node: Node): Result<bool>
  {
    match node
    case ScalarNode(BoolS(b)) => Ok(b)
    case _ => Fatal("YAML::BadConversion")
  }

  function FloatNode(f: real): Node { ScalarNode(FloatS(f)) }
  function IntNode(i: int): Node { ScalarNode(IntS(i)) }
  function StrNode(s: string): Node { ScalarNode(StrS(s)) }
  function BoolNode(b: bool): Node { ScalarNode(BoolS(b)) }

  /** `as<std::vector<YAML::Node>>()`: the items of a sequence; anything
      else throws. */
  function AsSequence(node: Node): (r: Result<seq<Node>>)
    ensures r.Ok? <==> node.Sequence?
    ensures r.Ok? ==> r.value == node.items
  {
    if node.Sequence? then Ok(node.items) else Fatal("YAML::BadConversion")
  }

  /** The values `f` reads from `items`, in order, or the first failure:
      what a loop that converts each node and pushes the value back ends
      with. */
  function DecodeEach<T>(items: seq<Node>, f: Node -> Result<T>): (r: Result<seq<T>>)
    ensures r.Ok? <==> forall i | 0 <= i < |items| :: f(items[i]).Ok?
    ensures r.Ok? ==> |r.value| == |items| && forall i | 0 <= i < |items| :: f(items[i]) == Ok(r.value[i])
  {
    if items == [] then Ok([])
    else
      var x :- f(items[0]);
      var rest :- DecodeEach(items[1..], f);
      assert forall i | 1 <= i < |items| :: items[i] == items[1..][i - 1];
      Ok([x] + rest)
  }

  /** Converting one more node extends a successful conversion by its
      value. */
  lemma {:induction false} DecodeEachSnoc<T>(items: seq<Node>, i: nat, f: Node -> Result<T>)
    requires i < |items| && DecodeEach(items[..i], f).Ok? && f(items[i]).Ok?
    ensures DecodeEach(items[..i + 1], f) == Ok(DecodeEach(items[..i], f).value + [f(items[i]).value])
    decreases i
  {
    var x := f(items[i]).value;
    if i == 0 {
      assert items[..1][1..] == [] && items[..1][0] == items[0];
      assert DecodeEach(items[..1][1..], f) == Ok([]);
      assert DecodeEach(items[..1], f) == Ok([x] + []);
      assert items[..0] == [];
      assert DecodeEach(items[..0], f) == Ok([]);
      assert [x] + [] == [x];
      assert items[..i + 1] == items[..1] && items[..i] == items[..0];
      assert DecodeEach(items[..i], f).value + [f(items[i]).value] == [x];
      assert DecodeEach(items[..i + 1], f) == Ok([x]);
    } else {
      var tail := items[1..];
      assert items[..i + 1][1..] == tail[..i];
      assert items[..i][1..] == tail[..i - 1];
      assert tail[i - 1] == items[i];
      DecodeEachSnoc(tail, i - 1, f);
      var head := f(items[0]).value;
      var a := DecodeEach(tail[..i - 1], f).value;
      assert DecodeEach(items[..i], f).value == [head] + a;
      assert DecodeEach(items[..i + 1], f) == Ok([head] + (a + [x]));
      assert [head] + (a + [x]) == ([head] + a) + [x];
    }
  }

  /** A node that throws, after nodes that convert, makes the conversion
      throw its error. */
  lemma {:induction false} DecodeEachFails<T>(items: seq<Node>, i: nat, f: Node -> Result<T>)
    requires i < |items| && DecodeEach(items[..i], f).Ok? && f(items[i]).Fatal?
    ensures DecodeEach(items, f) == Fatal(f(items[i]).message)
    decreases i
  {
    if i > 0 {
      assert items[..i][1..] == items[1..][..i - 1];
      assert items[1..][i - 1] == items[i];
      DecodeEachFails(items[1..], i - 1, f);
    }
  }

  /** The loop that converts each node of `items` and pushes its value
      back, stopping at the first node that throws. */
  method DecodeLoop<T>(items: seq<Node>, f: Node -> Result<T>) returns (r: Result<seq<T>>)
    ensures r == DecodeEach(items, f)
  {
    var values: seq<T> := [];
    var i := 0;
    while i < |items|
      invariant 0 <= i <= |items|
      invariant DecodeEach(items[..i], f) == Ok(values)
    {
      var x := f(items[i]);
      if x.Fatal? {
        DecodeEachFails(items, i, f);
        return Fatal(x.message);
      }
      DecodeEachSnoc(items, i, f);
      values := values + [x.value];
      i := i + 1;
    }
    assert items[..i] == items;
    r := Ok(values);
  }

  /** Nodes that each convert to the matching element of `xs` convert to
      `xs` as a whole: the round trip of a written list. */
  lemma {:induction false} DecodeEachInverse<T>(items: seq<Node>, xs: seq<T>, f: Node -> Result<T>)
    requires |items| == |xs| && forall i | 0 <= i < |xs| :: f(items[i]) == Ok(xs[i])
    ensures DecodeEach(items, f) == Ok(xs)
  {
    if xs != [] {
      DecodeEachInverse(items[1..], xs[1..], f);
      assert xs == [xs[0]] + xs[1..];
    }
  }
}
