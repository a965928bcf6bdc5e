/** CollisionComponent.cpp: the collider list is written as a sequence of
    maps, one per collider in vector order, and read back in node order
    into a new vector that replaces the component's list. */
module CollisionComponents {
  import opened Common
  import opened Glm
  import opened Components
  import opened Yaml
  import opened YamlUtils
  import opened SceneGraph

  const COLLISION_COMPONENT: string := "CollisionComponent"
  const K_TYPE: string := "type"
  const K_OFFSET: string := "offset"
  const K_HALF_EXTENTS: string := "halfExtents"
  const K_AXIS: string := "axis"
  const K_HEIGHT: string := "height"
  const K_RADIUS: string := "radius"
  const K_ASSET_GUID: string := "assetGUID"

  /** The shape index of a newly added component. Its declaration is not
      part of this model; -1 is the value the physics system reads as "no
      shape yet". */
  const NEW_SHAPE_INDEX: int := -1

  /** The map one collider is written as: type and axis as integers, the
      vectors as sequences, all seven fields. */
  function ColliderNode(c: Collider): (n: Node)
    ensures n.Mapping? && n.entries.Keys == {K_TYPE, K_OFFSET, K_HALF_EXTENTS, K_AXIS, K_HEIGHT, K_RADIUS, K_ASSET_GUID}
  {
    Mapping(map[K_TYPE := IntNode(c.colliderType), K_OFFSET := EncodeVec3(c.offset),
                K_HALF_EXTENTS := EncodeVec3(c.halfExtents), K_AXIS := IntNode(c.axis),
                K_HEIGHT := FloatNode(c.height), K_RADIUS := FloatNode(c.radius),
                K_ASSET_GUID := StrNode(c.assetGUID)])
  }

  /** The collider `deserialize` builds from one map. The two vectors are
      declared without a value and only written by a successful decode, so
      a vector of the wrong shape leaves `unset`, whatever the
      uninitialised variable held. */
  function DecodeCollider(n: Node, unset: Vec3): Result<Collider>
  {
    var colliderType :- AsInt(Get(n, K_TYPE));
    var offset :- DecodeVec3(Get(n, K_OFFSET), unset);
    var halfExtents :- DecodeVec3(Get(n, K_HALF_EXTENTS), unset);
    var axis :- AsInt(Get(n, K_AXIS));
    var height :- AsFloat(Get(n, K_HEIGHT));
    var radius :- AsFloat(Get(n, K_RADIUS));
    var assetGUID :- AsString(Get(n, K_ASSET_GUID));
    Ok(Collider(colliderType, offset.1, halfExtents.1, axis, height, radius, assetGUID))
  }

  /** `DecodeCollider` for a given `unset`, as a conversion of one node. */
  function ColliderReader(unset: Vec3): Node -> Result<Collider>
  {
    n => DecodeCollider(n, unset)
  }

  /** The colliders the nodes `items` decode to, in order; the first
      failure is the outcome. */
  function DecodeAll(items: seq<Node>, unset: Vec3): Result<seq<Collider>>
  {
    DecodeEach(items, ColliderReader(unset))
  }

  /** The nodes of a collider list, in order. */
  function EncodeAll(cs: seq<Collider>): (items: seq<Node>)
    ensures |items| == |cs|
  {
    seq(|cs|, i requires 0 <= i < |cs| => ColliderNode(cs[i]))
  }

  /** A collider read back from its own map is the same collider. */
  lemma ColliderRoundTrip(c: Collider, unset: Vec3)
    ensures DecodeCollider(ColliderNode(c), unset) == Ok(c)
  {
    var n := ColliderNode(c);
    assert Get(n, K_TYPE) == IntNode(c.colliderType);
    assert Get(n, K_OFFSET) == EncodeVec3(c.offset);
    assert Get(n, K_HALF_EXTENTS) == EncodeVec3(c.halfExtents);
    assert Get(n, K_AXIS) == IntNode(c.axis);
    assert Get(n, K_HEIGHT) == FloatNode(c.height);
    assert Get(n, K_RADIUS) == FloatNode(c.radius);
    assert Get(n, K_ASSET_GUID) == StrNode(c.assetGUID);
  }

  /** Reading back a written list gives a list of the same length, order and
      field values. */
  lemma RoundTrip(cs: seq<Collider>, unset: Vec3)
    ensures DecodeAll(EncodeAll(cs), unset) == Ok(cs)
  {
    var items := EncodeAll(cs);
    forall i | 0 <= i < |cs|
      ensures ColliderReader(unset)(items[i]) == Ok(cs[i])
    {
      ColliderRoundTrip(cs[i], unset);
    }
    DecodeEachInverse(items, cs, ColliderReader(unset));
  }

  /** `serialize`: for an entity with a CollisionComponent, one map per
      collider is pushed onto a sequence, in vector order. */
  method Serialize(c: map<Kind, Component>) returns (out: map<string, Node>)
    ensures COLLISION_COMPONENT in out <==> CollisionKind in c && c[CollisionKind].CollisionC?
    ensures COLLISION_COMPONENT in out ==> out[COLLISION_COMPONENT] == Sequence(EncodeAll(c[CollisionKind].colliders))
  {
    out := map[];
    if CollisionKind in c && c[CollisionKind].CollisionC? {
      var colliders := c[CollisionKind].colliders;
      var items: seq<Node> := [];
      var i := 0;
      while i < |colliders|
        invariant 0 <= i <= |colliders|
        invariant items == EncodeAll(colliders[..i])
      {
        items := items + [ColliderNode(colliders[i])];
        i := i + 1;
      }
      assert colliders[..i] == colliders;
      out := map[COLLISION_COMPONENT := Sequence(items)];
    }
  }

  /** `deserialize(node, entity)`: with a "CollisionComponent" key, each
      node of the sequence is decoded in turn and appended, and the entity
      gets a CollisionComponent whose list is replaced by the new one; a
      field that does not convert throws before the component is added. A
      value that is not a sequence iterates as empty. */
  method Deserialize(scene: Scene, e: nat, node: Node, unset: Vec3) returns (r: Result<()>)
    requires scene.Valid() && e in scene.components
    modifies scene`components
    ensures scene.Valid()
    ensures var n := Get(node, COLLISION_COMPONENT);
      var items := if n.Sequence? then n.items else [];
      && (r.Fatal? <==> Has(node, COLLISION_COMPONENT) && DecodeAll(items, unset).Fatal?)
      && (r.Ok? && Has(node, COLLISION_COMPONENT) ==>
            scene.components == old(scene.components)[e := old(scene.components[e])[CollisionKind := CollisionC(DecodeAll(items, unset).value, NEW_SHAPE_INDEX)]])
    ensures r.Fatal? || !Has(node, COLLISION_COMPONENT) ==> scene.components == old(scene.components)
  {
    if !Has(node, COLLISION_COMPONENT) {
      return Ok(());
    }
    var n := Get(node, COLLISION_COMPONENT);
    var items := if n.Sequence? then n.items else [];
    var colliders :- DecodeLoop(items, ColliderReader(unset));
    scene.AddComponent(scene.EntityOf(e), CollisionC(colliders, NEW_SHAPE_INDEX));
    r := Ok(());
  }
}
