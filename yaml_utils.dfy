/** YAMLUtils: the yaml-cpp `convert<>` specialisations for glm vectors,
    quaternions and matrices. `encode` builds a flow sequence; `decode`
    answers whether the node had the expected shape and, if it had, the
    value it holds, so that a rejected node leaves the caller's variable as
    it was. */
module YamlUtils {
  import opened Common
  import opened Glm
  import opened Yaml

  /** `node.IsSequence() && node.size() == n`. */
  predicate IsSequenceOf(node: Node, n: nat)
  {
    node.Sequence? && |node.items| == n
  }

  /** The decode outcome for a variable that held `rhs`: `(false, rhs)` when
      the node has the wrong shape, `(true, v)` on success, and a thrown
      `BadConversion` when an element is not a number. */
  function DecodeVec2(node: Node, rhs: Vec2): (r: Result<(bool, Vec2)>)
    ensures !IsSequenceOf(node, 2) ==> r == Ok((false, rhs))
    ensures r.Ok? && r.value.0 ==> (IsSequenceOf(node, 2) &&
      Ok(r.value.1.x) == AsFloat(node.items[0]) && Ok(r.value.1.y) == AsFloat(node.items[1]))
  {
    if !IsSequenceOf(node, 2) then Ok((false, rhs))
    else
      var x :- AsFloat(node.items[0]);
      var y :- AsFloat(node.items[1]);
      Ok((true, Vec2(x, y)))
  }

  function EncodeVec2(v: Vec2): (node: Node)
    ensures IsSequenceOf(node, 2)
    ensures forall rhs :: DecodeVec2(node, rhs) == Ok((true, v))
  {
    Sequence([FloatNode(v.x), FloatNode(v.y)])
  }

  function DecodeVec3(node: Node, rhs: Vec3): (r: Result<(bool, Vec3)>)
    ensures !IsSequenceOf(node, 3) ==> r == Ok((false, rhs))
    ensures r.Ok? && r.value.0 ==> (IsSequenceOf(node, 3) &&
      Ok(r.value.1.x) == AsFloat(node.items[0]) && Ok(r.value.1.y) == AsFloat(node.items[1]) &&
      Ok(r.value.1.z) == AsFloat(node.items[2]))
  {
    if !IsSequenceOf(node, 3) then Ok((false, rhs))
    else
      var x :- AsFloat(node.items[0]);
      var y :- AsFloat(node.items[1]);
      var z :- AsFloat(node.items[2]);
      Ok((true, Vec3(x, y, z)))
  }

  function EncodeVec3(v: Vec3): (node: Node)
    ensures IsSequenceOf(node, 3)
    ensures forall rhs :: DecodeVec3(node, rhs) == Ok((true, v))
  {
    Sequence([FloatNode(v.x), FloatNode(v.y), FloatNode(v.z)])
  }

  function DecodeVec4(node: Node, rhs: Vec4): (r: Result<(bool, Vec4)>)
    ensures !IsSequenceOf(node, 4) ==> r == Ok((false, rhs))
    ensures r.Ok? && r.value.0 ==> (IsSequenceOf(node, 4) &&
      Ok(r.value.1.x) == AsFloat(node.items[0]) && Ok(r.value.1.y) == AsFloat(node.items[1]) &&
      Ok(r.value.1.z) == AsFloat(node.items[2]) && Ok(r.value.1.w) == AsFloat(node.items[3]))
  {
    if !IsSequenceOf(node, 4) then Ok((false, rhs))
    else
      var x :- AsFloat(node.items[0]);
      var y :- AsFloat(node.items[1]);
      var z :- AsFloat(node.items[2]);
      var w :- AsFloat(node.items[3]);
      Ok((true, Vec4(x, y, z, w)))
  }

  function EncodeVec4(v: Vec4): (node: Node)
    ensures IsSequenceOf(node, 4)
    ensures forall rhs :: DecodeVec4(node, rhs) == Ok((true, v))
  {
    Sequence([FloatNode(v.x), FloatNode(v.y), FloatNode(v.z), FloatNode(v.w)])
  }

  /** Quaternions are read in (w, x, y, z) order. */
  function DecodeQuat(node: Node, rhs: Quat): (r: Result<(bool, Quat)>)
    ensures !IsSequenceOf(node, 4) ==> r == Ok((false, rhs))
    ensures r.Ok? && r.value.0 ==> (IsSequenceOf(node, 4) &&
      Ok(r.value.1.w) == AsFloat(node.items[0]) && Ok(r.value.1.x) == AsFloat(node.items[1]) &&
      Ok(r.value.1.y) == AsFloat(node.items[2]) && Ok(r.value.1.z) == AsFloat(node.items[3]))
  {
    if !IsSequenceOf(node, 4) then Ok((false, rhs))
    else
      var w :- AsFloat(node.items[0]);
      var x :- AsFloat(node.items[1]);
      var y :- AsFloat(node.items[2]);
      var z :- AsFloat(node.items[3]);
      Ok((true, Quat(w, x, y, z)))
  }

  /** Quaternions are written in (w, x, y, z) order too, so they round-trip. */
  function EncodeQuat(q: Quat): (node: Node)
    ensures IsSequenceOf(node, 4)
    ensures forall rhs :: DecodeQuat(node, rhs) == Ok((true, q))
  {
    Sequence([FloatNode(q.w), FloatNode(q.x), FloatNode(q.y), FloatNode(q.z)])
  }

  /** `node.as<T>()`: a rejected node throws `YAML::TypedBadConversion`. */
  function AsVec3(node: Node): (r: Result<Vec3>)
    ensures r.Ok? ==> DecodeVec3(node, r.value) == Ok((true, r.value))
    ensures !IsSequenceOf(node, 3) ==> r.Fatal?
  {
    var d :- DecodeVec3(node, Vec3(0.0, 0.0, 0.0));
    if d.0 then Ok(d.1) else Fatal("YAML::TypedBadConversion")
  }

  function AsVec4(node: Node): (r: Result<Vec4>)
    ensures r.Ok? ==> DecodeVec4(node, r.value) == Ok((true, r.value))
    ensures !IsSequenceOf(node, 4) ==> r.Fatal?
  {
    var d :- DecodeVec4(node, Vec4(0.0, 0.0, 0.0, 0.0));
    if d.0 then Ok(d.1) else Fatal("YAML::TypedBadConversion")
  }

  lemma AsVec3Encode(v: Vec3)
    ensures AsVec3(EncodeVec3(v)) == Ok(v)
  {
    assert DecodeVec3(EncodeVec3(v), Vec3(0.0, 0.0, 0.0)) == Ok((true, v));
  }

  lemma AsVec4Encode(v: Vec4)
    ensures AsVec4(EncodeVec4(v)) == Ok(v)
  {
    assert DecodeVec4(EncodeVec4(v), Vec4(0.0, 0.0, 0.0, 0.0)) == Ok((true, v));
  }

  // ---- glm::mat4 ----

  /** Component `k` of a vector, in glm's x, y, z, w order. */
  function Component(v: Vec4, k: nat): real
    requires k < 4
  {
    if k == 0 then v.x else if k == 1 then v.y else if k == 2 then v.z else v.w
  }

  function WithComponent(v: Vec4, k: nat, f: real): (r: Vec4)
    requires k < 4
    ensures Component(r, k) == f
    ensures forall j :: 0 <= j < 4 && j != k ==> Component(r, j) == Component(v, j)
  {
    if k == 0 then v.(x := f) else if k == 1 then v.(y := f) else if k == 2 then v.(z := f) else v.(w := f)
  }

  /** `m[c]`: column `c`. */
  function Column(m: Mat4, c: nat): Vec4
    requires c < 4
  {
    if c == 0 then m.c0 else if c == 1 then m.c1 else if c == 2 then m.c2 else m.c3
  }

  /** `m[c][k] = f`. */
  function SetEntry(m: Mat4, c: nat, k: nat, f: real): (r: Mat4)
    requires c < 4 && k < 4
    ensures Component(Column(r, c), k) == f
    ensures forall c', k' :: 0 <= c' < 4 && 0 <= k' < 4 && (c', k') != (c, k) ==>
      Component(Column(r, c'), k') == Component(Column(m, c'), k')
  {
    var col := WithComponent(Column(m, c), k, f);
    if c == 0 then m.(c0 := col) else if c == 1 then m.(c1 := col) else if c == 2 then m.(c2 := col) else m.(c3 := col)
  }

  /** The order `convert<glm::mat4>::encode` writes a column in: w, x, y, z. */
  function WrittenComponent(slot: nat): nat
    requires slot < 4
  {
    if slot == 0 then 3 else slot - 1
  }

  /** convert<glm::mat4>::encode: for each column, push w, x, y, z. */
  method EncodeMat4(m: Mat4) returns (node: Node)
    ensures IsSequenceOf(node, 16)
    ensures forall c, slot :: 0 <= c < 4 && 0 <= slot < 4 ==>
      node.items[4 * c + slot] == FloatNode(Component(Column(m, c), WrittenComponent(slot)))
    ensures forall i :: 0 <= i < 16 ==> AsFloat(node.items[i]).Ok?
  {
    var items: seq<Node> := [];
    var i := 0;
    while i < 4
      invariant 0 <= i <= 4
      invariant |items| == 4 * i
      invariant forall c, slot :: 0 <= c < i && 0 <= slot < 4 ==>
        items[4 * c + slot] == FloatNode(Component(Column(m, c), WrittenComponent(slot)))
      invariant forall j :: 0 <= j < |items| ==> AsFloat(items[j]).Ok?
    {
      var col := Column(m, i);
      items := items + [FloatNode(col.w), FloatNode(col.x), FloatNode(col.y), FloatNode(col.z)];
      i := i + 1;
    }
    node := Sequence(items);
  }

  /** convert<glm::mat4>::decode: exactly sixteen elements, read with a
      running counter into `rhs[r][c]`, so element 4r+c becomes component c
      (x, y, z, w) of column r. */
  method DecodeMat4(node: Node, rhs: Mat4) returns (r: Result<(bool, Mat4)>)
    ensures !IsSequenceOf(node, 16) ==> r == Ok((false, rhs))
    ensures r.Ok? && r.value.0 ==> (IsSequenceOf(node, 16) &&
      forall c, k :: 0 <= c < 4 && 0 <= k < 4 ==>
        AsFloat(node.items[4 * c + k]) == Ok(Component(Column(r.value.1, c), k)))
    ensures IsSequenceOf(node, 16) && (forall i :: 0 <= i < 16 ==> AsFloat(node.items[i]).Ok?) ==>
      r.Ok? && r.value.0
  {
    if !IsSequenceOf(node, 16) {
      return Ok((false, rhs));
    }
    var m := rhs;
    var count := 0;
    var row := 0;
    while row < 4
      invariant 0 <= row <= 4 && count == 4 * row
      invariant forall c, k :: 0 <= c < row && 0 <= k < 4 ==>
        AsFloat(node.items[4 * c + k]) == Ok(Component(Column(m, c), k))
      invariant forall i :: 0 <= i < count ==> AsFloat(node.items[i]).Ok?
    {
      var col := 0;
      while col < 4
        invariant 0 <= col <= 4 && count == 4 * row + col
        invariant forall c, k :: 0 <= c < row && 0 <= k < 4 ==>
          AsFloat(node.items[4 * c + k]) == Ok(Component(Column(m, c), k))
        invariant forall k :: 0 <= k < col ==>
          AsFloat(node.items[4 * row + k]) == Ok(Component(Column(m, row), k))
        invariant forall i :: 0 <= i < count ==> AsFloat(node.items[i]).Ok?
      {
        var f := AsFloat(node.items[count]);
        if f.Fatal? {
          return Fatal(f.message);
        }
        m := SetEntry(m, row, col, f.value);
        count := count + 1;
        col := col + 1;
      }
      row := row + 1;
    }
    r := Ok((true, m));
  }

  /** The matrix `decode(encode(m))` gives back: every column moved one
      component along, (x, y, z, w) becoming (w, x, y, z). */
  function RotatedColumns(m: Mat4): Mat4
  {
    Mat4(Vec4(m.c0.w, m.c0.x, m.c0.y, m.c0.z), Vec4(m.c1.w, m.c1.x, m.c1.y, m.c1.z),
         Vec4(m.c2.w, m.c2.x, m.c2.y, m.c2.z), Vec4(m.c3.w, m.c3.x, m.c3.y, m.c3.z))
  }

  /** As written, encoding then decoding a matrix rotates each column
      instead of restoring it. */
  method Mat4RoundTripAsWritten(m: Mat4) returns (back: Result<(bool, Mat4)>)
    ensures back == Ok((true, RotatedColumns(m)))
  {
    var node := EncodeMat4(m);
    back := DecodeMat4(node, m);
    var d := back.value.1;
    forall c, k | 0 <= c < 4 && 0 <= k < 4
      ensures Component(Column(d, c), k) == Component(Column(RotatedColumns(m), c), k)
    {
      assert node.items[4 * c + k] == FloatNode(Component(Column(m, c), WrittenComponent(k)));
      assert AsFloat(node.items[4 * c + k]) == Ok(Component(Column(d, c), k));
      assert Component(Column(RotatedColumns(m), c), k) == Component(Column(m, c), WrittenComponent(k));
    }
    SameEntries(d, RotatedColumns(m));
  }

  /** Two matrices with the same sixteen entries are equal. */
  lemma SameEntries(a: Mat4, b: Mat4)
    requires forall c, k :: 0 <= c < 4 && 0 <= k < 4 ==> Component(Column(a, c), k) == Component(Column(b, c), k)
    ensures a == b
  {
    assert forall c :: 0 <= c < 4 ==> Column(a, c) == Column(b, c) by {
      forall c | 0 <= c < 4
        ensures Column(a, c) == Column(b, c)
      {
        var u, v := Column(a, c), Column(b, c);
        assert Component(u, 0) == Component(v, 0) && Component(u, 1) == Component(v, 1);
        assert Component(u, 2) == Component(v, 2) && Component(u, 3) == Component(v, 3);
      }
    }
    assert Column(a, 0) == Column(b, 0) && Column(a, 1) == Column(b, 1);
    assert Column(a, 2) == Column(b, 2) && Column(a, 3) == Column(b, 3);
  }

  function Identity(): Mat4
  {
    Mat4(Vec4(1.0, 0.0, 0.0, 0.0), Vec4(0.0, 1.0, 0.0, 0.0), Vec4(0.0, 0.0, 1.0, 0.0), Vec4(0.0, 0.0, 0.0, 1.0))
  }

  /** The identity matrix does not survive the round trip: its first column
      (1, 0, 0, 0) comes back as (0, 1, 0, 0). */
  method IdentityDoesNotRoundTrip() returns (back: Result<(bool, Mat4)>)
    ensures back.Ok? && back.value.1 != Identity()
    ensures back.Ok? && back.value.1.c0 == Vec4(0.0, 1.0, 0.0, 0.0)
  {
    back := Mat4RoundTripAsWritten(Identity());
  }

  /** convert<glm::mat4>::encode writing each column in x, y, z, w order,
      the order `decode` reads it in. */
  method EncodeMat4Corrected(m: Mat4) returns (node: Node)
    ensures IsSequenceOf(node, 16)
    ensures forall c, k :: 0 <= c < 4 && 0 <= k < 4 ==>
      node.items[4 * c + k] == FloatNode(Component(Column(m, c), k))
    ensures forall i :: 0 <= i < 16 ==> AsFloat(node.items[i]).Ok?
  {
    var items: seq<Node> := [];
    var i := 0;
    while i < 4
      invariant 0 <= i <= 4
      invariant |items| == 4 * i
      invariant forall c, k :: 0 <= c < i && 0 <= k < 4 ==>
        items[4 * c + k] == FloatNode(Component(Column(m, c), k))
      invariant forall j :: 0 <= j < |items| ==> AsFloat(items[j]).Ok?
    {
      var col := Column(m, i);
      items := items + [FloatNode(col.x), FloatNode(col.y), FloatNode(col.z), FloatNode(col.w)];
      i := i + 1;
    }
    node := Sequence(items);
  }

  /** With the corrected encoder, every matrix round-trips. */
  method Mat4RoundTripCorrected(m: Mat4, rhs: Mat4) returns (back: Result<(bool, Mat4)>)
    ensures back == Ok((true, m))
  {
    var node := EncodeMat4Corrected(m);
    back := DecodeMat4(node, rhs);
    SameEntries(back.value.1, m);
  }
}
