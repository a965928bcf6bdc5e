/** PhysicsComponentSystem.cpp: the system owns the Bullet rigid bodies and
    compound collider shapes in two vectors, and entities refer to them by
    position (`rigidBodyIndex`, `colliderShapeIndex`, -1 for none). Erasing
    an element shifts the positions after it, so the entities' indices are
    shifted to match.

    Bodies and shapes are pointers to Bullet objects and are modelled by
    their addresses; the dynamics world is modelled by the set of bodies it
    holds. The scene the system works on (`Project::getScene()`) is a
    parameter. */
module Physics {
  import opened Common
  import opened Glm
  import opened Components
  import opened SceneGraph

  type BodyPtr = nat
  type ShapePtr = nat

  /** A rigid body's world transform, and the entity transform it is copied
      to or from. */
  datatype Pose = Pose(origin: Vec3, rotation: Quat)

  // ----- The entities' indices -----

  /** The components that refer into the system's vectors. */
  predicate HasIndex(c: Component)
  {
    c.RigidBodyC? || c.CollisionC?
  }

  function IndexOf(c: Component): int
    requires HasIndex(c)
  {
    if c.RigidBodyC? then c.body.rigidBodyIndex else c.colliderShapeIndex
  }

  function WithIndex(c: Component, i: int): (r: Component)
    requires HasIndex(c)
    ensures HasIndex(r) && IndexOf(r) == i && KindOf(r) == KindOf(c)
  {
    if c.RigidBodyC? then c.(body := c.body.(rigidBodyIndex := i)) else c.(colliderShapeIndex := i)
  }

  /** What happens to every entity's index: after erasing position
      `index`, or when the world is cleared. */
  datatype Reindex = ErasedAt(index: nat) | Reset

  function Apply(op: Reindex, x: int): int
  {
    match op
    case Reset => -1
    case ErasedAt(index) => if x > index then x - 1 else if x == index then -1 else x
  }

  /** The components of one entity after `op` on the pool of kind `k`. */
  function ReindexEntity(cs: map<Kind, Component>, k: Kind, op: Reindex): map<Kind, Component>
  {
    if k in cs && HasIndex(cs[k]) then cs[k := WithIndex(cs[k], Apply(op, IndexOf(cs[k])))] else cs
  }

  /** Every entity after `op` on the pool of kind `k`. */
  function ReindexAll(m: map<nat, map<Kind, Component>>, k: Kind, op: Reindex): map<nat, map<Kind, Component>>
  {
    map e | e in m :: ReindexEntity(m[e], k, op)
  }

  /** Every index held in the pool of kind `k` is -1 or a position of a
      vector of length `n`. */
  ghost predicate IndicesIn(m: map<nat, map<Kind, Component>>, k: Kind, n: nat)
  {
    forall e | e in m && k in m[e] && HasIndex(m[e][k]) :: -1 <= IndexOf(m[e][k]) < n
  }

  function ElementsOf<T>(s: seq<T>): set<T>
  {
    set x | x in s
  }

  /** The element an index refers to, if any. */
  function Referent<T>(s: seq<T>, x: int): Option<T>
  {
    if 0 <= x < |s| then Some(s[x]) else None
  }

  /** Erasing position `index` and shifting an index with it keeps it
      referring to the same element, except that the erased element's
      index becomes -1. */
  lemma ShiftKeepsReferent<T>(s: seq<T>, index: nat, x: int)
    requires index < |s| && -1 <= x < |s|
    ensures -1 <= Apply(ErasedAt(index), x) < |s| - 1
    ensures x == index ==> Apply(ErasedAt(index), x) == -1
    ensures x != index ==> Referent(Erase(s, index), Apply(ErasedAt(index), x)) == Referent(s, x)
  {
  }

  /** After erasing position `index` of a vector of length `n`, every
      index of the pool is again -1 or a valid position. */
  lemma ErasedKeepsIndicesIn(m: map<nat, map<Kind, Component>>, k: Kind, index: nat, n: nat)
    requires IndicesIn(m, k, n) && index < n
    ensures IndicesIn(ReindexAll(m, k, ErasedAt(index)), k, n - 1)
  {
  }

  /** An entity that referred to a body or shape other than the erased one
      refers to the same one afterwards; one that referred to the erased
      one refers to none. */
  lemma ErasedKeepsReferents<T>(m: map<nat, map<Kind, Component>>, k: Kind, s: seq<T>, index: nat, e: nat)
    requires IndicesIn(m, k, |s|) && index < |s|
    requires e in m && k in m[e] && HasIndex(m[e][k])
    ensures var after := ReindexAll(m, k, ErasedAt(index))[e][k];
      && HasIndex(after)
      && (IndexOf(m[e][k]) == index ==> IndexOf(after) == -1)
      && (IndexOf(m[e][k]) != index ==> Referent(Erase(s, index), IndexOf(after)) == Referent(s, IndexOf(m[e][k])))
  {
    ShiftKeepsReferent(s, index, IndexOf(m[e][k]));
  }

  /** After `clearWorld` no entity refers to anything. */
  lemma ResetLeavesNoIndex(m: map<nat, map<Kind, Component>>, k: Kind)
    ensures IndicesIn(ReindexAll(m, k, Reset), k, 0)
  {
  }

  /** One entity of that loop. */
  method ReindexOne(scene: Scene, e: nat, k: Kind, op: Reindex)
    requires scene.Valid() && e in scene.components
    modifies scene`components
    ensures scene.Valid()
    ensures scene.components == old(scene.components)[e := ReindexEntity(old(scene.components)[e], k, op)]
  {
    var cs := scene.components[e];
    if k in cs && HasIndex(cs[k]) {
      assert KindOf(cs[k]) == k;
      scene.AddComponent(scene.EntityOf(e), WithIndex(cs[k], Apply(op, IndexOf(cs[k]))));
    } else {
      assert scene.components == scene.components[e := cs];
    }
  }

  /** The loop over `getEntitiesWithComponents<T>()` that rewrites each
      entity's index. */
  method ReindexPool(scene: Scene, k: Kind, op: Reindex)
    requires scene.Valid()
    modifies scene`components
    ensures scene.Valid()
    ensures scene.components == ReindexAll(old(scene.components), k, op)
  {
    ghost var m := scene.components;
    var todo := scene.components.Keys;
    while todo != {}
      invariant scene.Valid()
      invariant todo <= scene.components.Keys == m.Keys
      invariant forall e | e in m && e !in todo :: scene.components[e] == ReindexEntity(m[e], k, op)
      invariant forall e | e in todo :: scene.components[e] == m[e]
      decreases |todo|
    {
      var e :| e in todo;
      ReindexOne(scene, e, k, op);
      todo := todo - {e};
    }
  }

  // ----- `update` -----

  /** The inputs of one `update`: the bodies vector, the index each
      entity's init attempt (`RigidBodyComponent::updateRigidBody`) leaves
      it with, every body's world transform after `stepSimulation`, and
      `Project::isPlaying()`. */
  datatype Tick = Tick(bodies: seq<BodyPtr>, attempt: map<nat, int>, stepped: map<BodyPtr, Pose>, playing: bool)

  /** What `update` does to one entity: its new components, whether it was
      logged as uninitialised, the body it added to the world and the world
      transform it wrote. */
  datatype EntityUpdate = EntityUpdate(
    components: map<Kind, Component>,
    warned: bool,
    added: Option<BodyPtr>,
    written: Option<(BodyPtr, Pose)>)

  /** A rigid-body entity has a transform, and its index and the index of
      its init attempt are -1 or positions in `bodies`, whose world
      transforms are known. */
  predicate Ready(cs: map<Kind, Component>, e: nat, t: Tick)
  {
    && (forall b | b in t.bodies :: b in t.stepped)
    && (RigidBodyKind in cs && cs[RigidBodyKind].RigidBodyC? ==>
          && TransformKind in cs && cs[TransformKind].TransformC?
          && -1 <= cs[RigidBodyKind].body.rigidBodyIndex < |t.bodies|
          && (e in t.attempt ==> -1 <= t.attempt[e] < |t.bodies|))
  }

  /** The index after the one init attempt made for an index of -1. */
  function InitIndex(rb: RigidBody, e: nat, t: Tick): int
  {
    if rb.rigidBodyIndex != -1 then rb.rigidBodyIndex
    else if e in t.attempt then t.attempt[e]
    else -1
  }

  /** One entity of `update`: an entity without a rigid body is not
      visited. An index still -1 after the attempt is logged and the entity
      skipped. Otherwise a body waiting to be added joins the world and
      the flag is cleared, and while playing the entity's translation and
      rotation are copied from the body, else the body's from the entity. */
  function UpdateEntity(cs: map<Kind, Component>, e: nat, t: Tick): (u: EntityUpdate)
    requires Ready(cs, e, t)
    ensures !(RigidBodyKind in cs && cs[RigidBodyKind].RigidBodyC?) ==> u == EntityUpdate(cs, false, None, None)
    // every visited entity is logged, or holds a valid index with nothing
    // left waiting to join the world
    ensures RigidBodyKind in cs && cs[RigidBodyKind].RigidBodyC? ==>
      && u.components.Keys == cs.Keys
      && u.components[RigidBodyKind].RigidBodyC?
      && var rb := u.components[RigidBodyKind].body;
      && (u.warned <==> rb.rigidBodyIndex == -1)
      && (u.warned ==> u.components == cs && u.added == None && u.written == None)
      && (!u.warned ==> 0 <= rb.rigidBodyIndex < |t.bodies| && !rb.shouldBeAddedToWorld)
      && (u.added.Some? <==> !u.warned && cs[RigidBodyKind].body.shouldBeAddedToWorld)
      && (u.added.Some? ==> u.added.value == t.bodies[rb.rigidBodyIndex])
    // the transform goes from body to entity while playing, from entity to
    // body otherwise; scale is never touched
    ensures RigidBodyKind in cs && cs[RigidBodyKind].RigidBodyC? && !u.warned ==>
      var body := t.bodies[u.components[RigidBodyKind].body.rigidBodyIndex];
      var tf := u.components[TransformKind];
      && tf.TransformC? && tf.scale == cs[TransformKind].scale
      && (t.playing ==> Pose(tf.translation, tf.rotation) == t.stepped[body] && u.written == None)
      && (!t.playing ==> tf == cs[TransformKind] && u.written == Some((body, Pose(tf.translation, tf.rotation))))
  {
    if !(RigidBodyKind in cs && cs[RigidBodyKind].RigidBodyC?) then EntityUpdate(cs, false, None, None)
    else
      var rb := cs[RigidBodyKind].body;
      var idx := InitIndex(rb, e, t);
      if idx == -1 then EntityUpdate(cs, true, None, None)
      else
        var body := t.bodies[idx];
        var tf := cs[TransformKind];
        var rb' := rb.(rigidBodyIndex := idx, shouldBeAddedToWorld := false);
        var tf' := if t.playing then tf.(translation := t.stepped[body].origin, rotation := t.stepped[body].rotation) else tf;
        EntityUpdate(cs[RigidBodyKind := RigidBodyC(rb')][TransformKind := tf'],
                     false,
                     if rb.shouldBeAddedToWorld then Some(body) else None,
                     if t.playing then None else Some((body, Pose(tf.translation, tf.rotation))))
  }

  ghost predicate AllReady(m: map<nat, map<Kind, Component>>, t: Tick)
  {
    forall e | e in m :: Ready(m[e], e, t)
  }

  /** The entities of `done` that were logged as uninitialised. */
  ghost function WarnedIn(m: map<nat, map<Kind, Component>>, done: set<nat>, t: Tick): set<nat>
    requires AllReady(m, t)
  {
    set e | e in done && e in m && UpdateEntity(m[e], e, t).warned
  }

  /** The bodies the entities of `done` added to the world. */
  ghost function AddedIn(m: map<nat, map<Kind, Component>>, done: set<nat>, t: Tick): set<BodyPtr>
    requires AllReady(m, t)
  {
    set e | e in done && e in m && UpdateEntity(m[e], e, t).added.Some? :: UpdateEntity(m[e], e, t).added.value
  }

  /** Some entity of `done` wrote transform `p` to body `b`. */
  ghost predicate WrittenIn(m: map<nat, map<Kind, Component>>, done: set<nat>, t: Tick, b: BodyPtr, p: Pose)
    requires AllReady(m, t)
  {
    exists e | e in done && e in m :: UpdateEntity(m[e], e, t).written == Some((b, p))
  }

  /** The world transforms after the entities of `done`: a body keeps its
      stepped transform unless some entity wrote one, and then it holds the
      transform one of them wrote. */
  ghost predicate PosesAfter(m: map<nat, map<Kind, Component>>, done: set<nat>, t: Tick, poses: map<BodyPtr, Pose>)
    requires AllReady(m, t)
  {
    && poses.Keys == t.stepped.Keys
    && (forall b | b in poses :: poses[b] == t.stepped[b] || WrittenIn(m, done, t, b, poses[b]))
    && (forall e | e in done && e in m && UpdateEntity(m[e], e, t).written.Some? ::
          var w := UpdateEntity(m[e], e, t).written.value;
          w.0 in poses && WrittenIn(m, done, t, w.0, poses[w.0]))
  }

  lemma WarnedStep(m: map<nat, map<Kind, Component>>, done: set<nat>, e: nat, t: Tick)
    requires AllReady(m, t) && e in m
    ensures WarnedIn(m, done + {e}, t) == WarnedIn(m, done, t) + if UpdateEntity(m[e], e, t).warned then {e} else {}
  {
  }

  lemma AddedStep(m: map<nat, map<Kind, Component>>, done: set<nat>, e: nat, t: Tick)
    requires AllReady(m, t) && e in m
    ensures var u := UpdateEntity(m[e], e, t);
      AddedIn(m, done + {e}, t) == AddedIn(m, done, t) + if u.added.Some? then {u.added.value} else {}
  {
  }

  /** Visiting one more entity keeps `PosesAfter`, with that entity's write
      applied last. */
  lemma PosesStep(m: map<nat, map<Kind, Component>>, done: set<nat>, e: nat, t: Tick, poses: map<BodyPtr, Pose>)
    requires AllReady(m, t) && e in m && e !in done && PosesAfter(m, done, t, poses)
    requires t.playing ==> poses == t.stepped
    ensures var w := UpdateEntity(m[e], e, t).written;
      var poses' := if w.Some? then poses[w.value.0 := w.value.1] else poses;
      PosesAfter(m, done + {e}, t, poses') && (t.playing ==> poses' == t.stepped)
  {
    var w := UpdateEntity(m[e], e, t).written;
    var poses' := if w.Some? then poses[w.value.0 := w.value.1] else poses;
    forall b | b in poses'
      ensures poses'[b] == t.stepped[b] || WrittenIn(m, done + {e}, t, b, poses'[b])
    {
      if w.Some? && b == w.value.0 {
        assert UpdateEntity(m[e], e, t).written == Some((b, poses'[b]));
      } else if poses'[b] != t.stepped[b] {
        var e' :| e' in done && e' in m && UpdateEntity(m[e'], e', t).written == Some((b, poses[b]));
        assert e' in done + {e};
      }
    }
    forall e' | e' in done + {e} && e' in m && UpdateEntity(m[e'], e', t).written.Some?
      ensures var w' := UpdateEntity(m[e'], e', t).written.value;
        w'.0 in poses' && WrittenIn(m, done + {e}, t, w'.0, poses'[w'.0])
    {
      var w' := UpdateEntity(m[e'], e', t).written.value;
      if w.Some? && w'.0 == w.value.0 {
        assert UpdateEntity(m[e], e, t).written == Some((w'.0, poses'[w'.0]));
      } else {
        assert e' in done;
        var e'' :| e'' in done && e'' in m && UpdateEntity(m[e''], e'', t).written == Some((w'.0, poses[w'.0]));
        assert e'' in done + {e};
      }
    }
  }

  /** Writes an entity's RigidBodyComponent and TransformComponent. */
  method SetBodyAndTransform(scene: Scene, e: nat, rb: Component, tf: Component)
    requires scene.Valid() && e in scene.components && rb.RigidBodyC? && tf.TransformC?
    modifies scene`components
    ensures scene.Valid()
    ensures scene.components == old(scene.components)[e := old(scene.components)[e][RigidBodyKind := rb][TransformKind := tf]]
  {
    scene.AddComponent(scene.EntityOf(e), rb);
    scene.AddComponent(scene.EntityOf(e), tf);
  }

  /** One entity of the loop in `update`. */
  method UpdateOne(scene: Scene, e: nat, t: Tick) returns (u: EntityUpdate)
    requires scene.Valid() && e in scene.components && Ready(scene.components[e], e, t)
    modifies scene`components
    ensures scene.Valid()
    ensures u == UpdateEntity(old(scene.components[e]), e, t)
    ensures scene.components == old(scene.components)[e := u.components]
  {
    var cs := scene.components[e];
    if !(RigidBodyKind in cs && cs[RigidBodyKind].RigidBodyC?) {
      assert scene.components == scene.components[e := cs];
      return EntityUpdate(cs, false, None, None);
    }
    var rb := cs[RigidBodyKind].body;
    var idx := rb.rigidBodyIndex;
    if idx == -1 {
      idx := if e in t.attempt then t.attempt[e] else -1;
    }
    if idx == -1 {
      assert scene.components == scene.components[e := cs];
      return EntityUpdate(cs, true, None, None);
    }
    var body := t.bodies[idx];
    var added: Option<BodyPtr> := None;
    if rb.shouldBeAddedToWorld {
      added := Some(body);
    }
    var rb' := RigidBodyC(rb.(rigidBodyIndex := idx, shouldBeAddedToWorld := false));
    var tf := cs[TransformKind];
    var written: Option<(BodyPtr, Pose)> := None;
    var tf' := tf;
    if t.playing {
      tf' := tf.(translation := t.stepped[body].origin, rotation := t.stepped[body].rotation);
    } else {
      written := Some((body, Pose(tf.translation, tf.rotation)));
    }
    SetBodyAndTransform(scene, e, rb', tf');
    u := EntityUpdate(scene.components[e], false, added, written);
  }

  /** The registry after the entities of `done` are visited. */
  function Partial(m: map<nat, map<Kind, Component>>, done: set<nat>, t: Tick): map<nat, map<Kind, Component>>
    requires AllReady(m, t)
  {
    map e | e in m :: if e in done then UpdateEntity(m[e], e, t).components else m[e]
  }

  /** What the loop of `update` has recorded after visiting the entities of
    `done`. */
  ghost predicate Visited(m: map<nat, map<Kind, Component>>, done: set<nat>, t: Tick,
                          warned: set<nat>, added: set<BodyPtr>, poses: map<BodyPtr, Pose>)
    requires AllReady(m, t)
  {
    && warned == WarnedIn(m, done, t)
    && added == AddedIn(m, done, t)
    && PosesAfter(m, done, t, poses)
    && (t.playing ==> poses == t.stepped)
  }

  /** The state of the loop of `update`: the registry `c` and the
      records after visiting the entities of `done`. */
  ghost predicate Progress(c: map<nat, map<Kind, Component>>, m: map<nat, map<Kind, Component>>, done: set<nat>, t: Tick,
                           warned: set<nat>, added: set<BodyPtr>, poses: map<BodyPtr, Pose>)
  {
    && AllReady(m, t) && done <= m.Keys
    && c == Partial(m, done, t)
    && Visited(m, done, t, warned, added, poses)
  }

  /** Visiting one more entity extends `Visited` by that entity. */
  lemma VisitStep(m: map<nat, map<Kind, Component>>, done: set<nat>, t: Tick,
                  warned: set<nat>, added: set<BodyPtr>, poses: map<BodyPtr, Pose>, e: nat)
    requires AllReady(m, t) && Visited(m, done, t, warned, added, poses) && e in m && e !in done
    ensures var u := UpdateEntity(m[e], e, t);
      && Partial(m, done + {e}, t) == Partial(m, done, t)[e := u.components]
      && Visited(m, done + {e}, t,
              if u.warned then warned + {e} else warned,
              if u.added.Some? then added + {u.added.value} else added,
              if u.written.Some? then poses[u.written.value.0 := u.written.value.1] else poses)
  {
    WarnedStep(m, done, e, t);
    AddedStep(m, done, e, t);
    PosesStep(m, done, e, t, poses);
    PartialStep(m, done, e, t);
  }

  lemma PartialStep(m: map<nat, map<Kind, Component>>, done: set<nat>, e: nat, t: Tick)
    requires AllReady(m, t) && e in m
    ensures Partial(m, done + {e}, t) == Partial(m, done, t)[e := UpdateEntity(m[e], e, t).components]
  {
  }

  /** Before the loop nothing is visited. */
  lemma VisitedNone(m: map<nat, map<Kind, Component>>, t: Tick)
    requires AllReady(m, t)
    ensures Progress(m, m, {}, t, {}, {}, t.stepped)
  {
    assert WarnedIn(m, {}, t) == {};
    assert AddedIn(m, {}, t) == {};
  }

  /** After visiting every entity the registry is the pointwise update. */
  lemma VisitedAll(c: map<nat, map<Kind, Component>>, m: map<nat, map<Kind, Component>>, done: set<nat>, t: Tick,
                   warned: set<nat>, added: set<BodyPtr>, poses: map<BodyPtr, Pose>)
    requires Progress(c, m, done, t, warned, added, poses) && done == m.Keys
    ensures c == map e | e in m :: UpdateEntity(m[e], e, t).components
    ensures warned == WarnedIn(m, m.Keys, t) && added == AddedIn(m, m.Keys, t)
    ensures PosesAfter(m, m.Keys, t, poses) && (t.playing ==> poses == t.stepped)
  {
  }

  /** One iteration of that loop: the entity is updated and its outcome
      recorded. */
  method VisitOne(scene: Scene, e: nat, t: Tick, ghost m: map<nat, map<Kind, Component>>, ghost done: set<nat>,
                  warned: set<nat>, added: set<BodyPtr>, poses: map<BodyPtr, Pose>)
    returns (warned': set<nat>, added': set<BodyPtr>, poses': map<BodyPtr, Pose>)
    requires scene.Valid() && e in m && e !in done
    requires Progress(scene.components, m, done, t, warned, added, poses)
    modifies scene`components
    ensures scene.Valid()
    ensures Progress(scene.components, m, done + {e}, t, warned', added', poses')
  {
    VisitStep(m, done, t, warned, added, poses, e);
    var u := UpdateOne(scene, e, t);
    warned' := if u.warned then warned + {e} else warned;
    added' := if u.added.Some? then added + {u.added.value} else added;
    poses' := if u.written.Some? then poses[u.written.value.0 := u.written.value.1] else poses;
  }

  /** The loop of `update` over the rigid-body entities. */
  method VisitAll(scene: Scene, t: Tick) returns (warned: set<nat>, added: set<BodyPtr>, poses: map<BodyPtr, Pose>)
    requires scene.Valid() && AllReady(scene.components, t)
    modifies scene`components
    ensures scene.Valid()
    ensures var m := old(scene.components);
      && scene.components == (map e | e in m :: UpdateEntity(m[e], e, t).components)
      && warned == WarnedIn(m, m.Keys, t)
      && added == AddedIn(m, m.Keys, t)
      && PosesAfter(m, m.Keys, t, poses)
      && (t.playing ==> poses == t.stepped)
  {
    ghost var m := scene.components;
    var todo := scene.components.Keys;
    ghost var done: set<nat> := {};
    warned, added, poses := {}, {}, t.stepped;
    VisitedNone(m, t);
    while todo != {}
      invariant scene.Valid()
      invariant todo == m.Keys - done
      invariant Progress(scene.components, m, done, t, warned, added, poses)
      decreases todo
    {
      var e :| e in todo;
      warned, added, poses := VisitOne(scene, e, t, m, done, warned, added, poses);
      todo := todo - {e};
      done := done + {e};
    }
    VisitedAll(scene.components, m, done, t, warned, added, poses);
  }

  class PhysicsSystem {
    /** Whether `dynamicsWorld` is set; the constructor always sets it. */
    var hasWorld: bool
    /** The bodies added to the dynamics world. */
    var world: set<BodyPtr>
    var rigidBodies: seq<BodyPtr>
    var colliderShapes: seq<ShapePtr>

    /** The constructor creates an empty dynamics world and no bodies or
        shapes. */
    constructor ()
      ensures hasWorld && world == {} && rigidBodies == [] && colliderShapes == []
    {
      hasWorld := true;
      world := {};
      rigidBodies := [];
      colliderShapes := [];
    }

    /** `addColliderShape`: the shape is appended and its position, the old
        size, returned. */
    method AddColliderShape(shape: ShapePtr) returns (index: int)
      modifies this`colliderShapes
      ensures colliderShapes == old(colliderShapes) + [shape]
      ensures index == |old(colliderShapes)| && colliderShapes[index] == shape
    {
      colliderShapes := colliderShapes + [shape];
      index := |colliderShapes| - 1;
    }

    /** `addRigidBody`: the body is appended and its position, the old
        size, returned. The body is not added to the world here. */
    method AddRigidBody(body: BodyPtr) returns (index: int)
      modifies this`rigidBodies
      ensures rigidBodies == old(rigidBodies) + [body]
      ensures index == |old(rigidBodies)| && rigidBodies[index] == body
    {
      rigidBodies := rigidBodies + [body];
      index := |rigidBodies| - 1;
    }

    /** `removeRigidBody(index)`: an index outside the vector makes
        `rigidBodies.at(index)` throw `std::out_of_range` before anything
        changes; otherwise the body leaves the world and the vector, and
        every entity's `rigidBodyIndex` is shifted to match. */
    method RemoveRigidBody(scene: Scene, index: int) returns (r: Result<()>)
      requires hasWorld
      requires scene.Valid()
      modifies this`world, this`rigidBodies, scene`components
      ensures scene.Valid()
      ensures r.Fatal? <==> !(0 <= index < |old(rigidBodies)|)
      ensures r.Fatal? ==>
        world == old(world) && rigidBodies == old(rigidBodies) && scene.components == old(scene.components)
      ensures r.Ok? ==>
        && world == old(world) - {old(rigidBodies[index])}
        && rigidBodies == Erase(old(rigidBodies), index)
        && scene.components == ReindexAll(old(scene.components), RigidBodyKind, ErasedAt(index))
    {
      if index < 0 || |rigidBodies| <= index {
        return Fatal("std::out_of_range");
      }
      world := world - {rigidBodies[index]};
      rigidBodies := Erase(rigidBodies, index);
      ReindexPool(scene, RigidBodyKind, ErasedAt(index));
      r := Ok(());
    }

    /** `deleteCollisionShape(index)`: an index outside the vector makes
        `colliderShapes.at(index)` throw `std::out_of_range` before anything
        changes; otherwise the shape leaves the vector, and every entity's
        `colliderShapeIndex` is shifted to match. */
    method DeleteCollisionShape(scene: Scene, index: int) returns (r: Result<()>)
      requires scene.Valid()
      modifies this`colliderShapes, scene`components
      ensures scene.Valid()
      ensures r.Fatal? <==> !(0 <= index < |old(colliderShapes)|)
      ensures r.Fatal? ==> colliderShapes == old(colliderShapes) && scene.components == old(scene.components)
      ensures r.Ok? ==>
        && colliderShapes == Erase(old(colliderShapes), index)
        && scene.components == ReindexAll(old(scene.components), CollisionKind, ErasedAt(index))
    {
      if index < 0 || |colliderShapes| <= index {
        return Fatal("std::out_of_range");
      }
      colliderShapes := Erase(colliderShapes, index);
      ReindexPool(scene, CollisionKind, ErasedAt(index));
      r := Ok(());
    }

    /** The first loop of `clearWorld`: bodies leave the world and the
        vector from the last to the first. */
    method RemoveAllBodies()
      modifies this`world, this`rigidBodies
      ensures world == old(world) - ElementsOf(old(rigidBodies)) && rigidBodies == []
    {
      var i := |rigidBodies| - 1;
      while i >= 0
        invariant -1 <= i < |old(rigidBodies)|
        invariant rigidBodies == old(rigidBodies)[..i + 1]
        invariant world == old(world) - ElementsOf(old(rigidBodies)[i + 1..])
      {
        world := world - {rigidBodies[i]};
        rigidBodies := rigidBodies[..i];
        i := i - 1;
      }
      assert old(rigidBodies)[0..] == old(rigidBodies);
    }

    /** The second loop of `clearWorld`: shapes leave the vector from the
        last to the first. */
    method DeleteAllShapes()
      modifies this`colliderShapes
      ensures colliderShapes == []
    {
      var j := |colliderShapes| - 1;
      while j >= 0
        invariant -1 <= j < |old(colliderShapes)|
        invariant colliderShapes == old(colliderShapes)[..j + 1]
      {
        colliderShapes := colliderShapes[..j];
        j := j - 1;
      }
    }

    /** `clearWorld`: with a world, every body leaves it, from the last to
        the first, both vectors are emptied and every index becomes -1;
        without one nothing happens. */
    method ClearWorld(scene: Scene)
      requires scene.Valid()
      modifies this`world, this`rigidBodies, this`colliderShapes, scene`components
      ensures scene.Valid()
      ensures !old(hasWorld) ==>
        && world == old(world) && rigidBodies == old(rigidBodies)
        && colliderShapes == old(colliderShapes) && scene.components == old(scene.components)
      ensures old(hasWorld) ==>
        && world == old(world) - ElementsOf(old(rigidBodies))
        && rigidBodies == [] && colliderShapes == []
        && scene.components == ReindexAll(ReindexAll(old(scene.components), RigidBodyKind, Reset), CollisionKind, Reset)
    {
      if !hasWorld {
        return;
      }
      RemoveAllBodies();
      DeleteAllShapes();
      ReindexPool(scene, RigidBodyKind, Reset);
      ReindexPool(scene, CollisionKind, Reset);
      colliderShapes := [];
      rigidBodies := [];
    }

    /** `removeRigidBodyFromWorld`: without a world it is fatal; a null
        body, or one not in the world, is left alone; otherwise the body
        leaves the world. */
    method RemoveRigidBodyFromWorld(rb: Option<BodyPtr>) returns (r: Result<()>)
      modifies this`world
      ensures r.Fatal? <==> !hasWorld
      ensures world == if hasWorld && rb.Some? then old(world) - {rb.value} else old(world)
    {
      if !hasWorld {
        return Fatal("Dynamics world not initialized");
      }
      if rb.Some? && rb.value in world {
        world := world - {rb.value};
      }
      r := Ok(());
    }

    /** `update(dt)`: the world is stepped (the stepped transforms are
        given), then every rigid-body entity is visited once. */
    method Update(scene: Scene, attempt: map<nat, int>, stepped: map<BodyPtr, Pose>, playing: bool)
      returns (warned: set<nat>, poses: map<BodyPtr, Pose>)
      requires hasWorld && scene.Valid()
      requires AllReady(scene.components, Tick(rigidBodies, attempt, stepped, playing))
      modifies this`world, scene`components
      ensures scene.Valid()
      ensures var t := Tick(rigidBodies, attempt, stepped, playing);
        var m := old(scene.components);
        && scene.components == (map e | e in m :: UpdateEntity(m[e], e, t).components)
        && warned == WarnedIn(m, m.Keys, t)
        && world == old(world) + AddedIn(m, m.Keys, t)
        && PosesAfter(m, m.Keys, t, poses)
        && (playing ==> poses == stepped)
    {
      var added;
      warned, added, poses := VisitAll(scene, Tick(rigidBodies, attempt, stepped, playing));
      world := world + added;
    }
  }
}
