/** Entity: a value pairing an entt handle with the scene it lives in
    (Entity.h, Entity.cpp). The operations that touch components are methods
    of `SceneGraph.Scene`; this module holds the pure operators. */
module Entities {
  import opened Components

  /** The `Scene*` an entity carries: null, or the address of a scene. */
  datatype ScenePtr = NullScene | SceneAt(address: nat)

  datatype Entity = Entity(handle: EntityHandle, scene: ScenePtr)

  /** `Entity()`: the null handle in no scene. */
  function NullEntity(): Entity
  {
    Entity(NullHandle, NullScene)
  }

  /** `explicit operator bool`: the handle is not `entt::null`. */
  predicate Truthy(e: Entity)
  {
    e.handle != NullHandle
  }

  /** `operator==`: same handle and same scene pointer. */
  predicate Equals(a: Entity, b: Entity)
  {
    a.handle == b.handle && a.scene == b.scene
  }

  /** `operator!=`: the negation of `operator==`. */
  predicate NotEquals(a: Entity, b: Entity)
  {
    !Equals(a, b)
  }

  /** `isValid`: neither the scene pointer nor the handle is null. */
  predicate IsValid(e: Entity)
  {
    !(e.scene == NullScene || e.handle == NullHandle)
  }

  /** A default-constructed entity is false and not valid. */
  lemma NullEntityIsFalse()
    ensures !Truthy(NullEntity()) && !IsValid(NullEntity())
    ensures forall e :: !Truthy(e) ==> Equals(e, NullEntity()) || e.scene != NullScene
  {
  }

  /** A valid entity converts to true, but the converse fails: a handle in
      no scene is true and not valid. */
  lemma ValidIsStricterThanTruthy(e: Entity)
    ensures IsValid(e) ==> Truthy(e)
    ensures Truthy(Entity(Handle(0), NullScene)) && !IsValid(Entity(Handle(0), NullScene))
  {
  }

  /** `==` is equality of the two fields, `!=` its negation; the scene
      pointer matters even between true entities. */
  lemma EqualityIsFieldwise(a: Entity, b: Entity)
    ensures Equals(a, b) <==> a == b
    ensures NotEquals(a, b) <==> a != b
    ensures a.handle == b.handle && Truthy(a) && a.scene != b.scene ==> NotEquals(a, b)
  {
  }
}
