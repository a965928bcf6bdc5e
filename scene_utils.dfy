/** SceneUtils.cpp: `removeMeshReference`, which strips the MeshComponent
    (and with it any MaterialComponent) from the entities that use a mesh
    file, over one entity or a whole subtree. */
module SceneUtils {
  import opened Common
  import opened Components
  import opened Entities
  import opened SiblingLists
  import opened Subtrees
  import opened SceneGraph

  /** The components `m` refer to the mesh file `meshGuid`: a FROM_FILE
      MeshComponent with that guid. */
  predicate Referenced(m: map<Kind, Component>, meshGuid: string)
  {
    MeshKind in m && m[MeshKind].MeshC? && m[MeshKind].mesh.meshType == FROM_FILE && m[MeshKind].mesh.guid == meshGuid
  }

  /** One entity's components once the reference is removed. */
  function StripMesh(m: map<Kind, Component>, meshGuid: string): map<Kind, Component>
  {
    if Referenced(m, meshGuid) then m - {MeshKind, MaterialKind} else m
  }

  /** The pools once the entities `s` are stripped. */
  function StripAll(c: map<nat, map<Kind, Component>>, s: seq<nat>, meshGuid: string): map<nat, map<Kind, Component>>
  {
    map x | x in c :: if x in s then StripMesh(c[x], meshGuid) else c[x]
  }

  /** An entity loses its mesh exactly when the mesh is the file's; then it
      loses its material too, and nothing else changes. An entity with a
      primitive mesh or another file's mesh keeps everything. */
  lemma StripMeshSpec(m: map<Kind, Component>, meshGuid: string)
    ensures (MeshKind in m && MeshKind !in StripMesh(m, meshGuid)) <==> Referenced(m, meshGuid)
    ensures Referenced(m, meshGuid) ==> MaterialKind !in StripMesh(m, meshGuid)
    ensures forall k | k != MeshKind && k != MaterialKind :: (k in StripMesh(m, meshGuid) <==> k in m)
    ensures forall k | k in StripMesh(m, meshGuid) :: k in m && StripMesh(m, meshGuid)[k] == m[k]
    ensures !Referenced(m, meshGuid) ==> StripMesh(m, meshGuid) == m
    ensures !Referenced(StripMesh(m, meshGuid), meshGuid)
  {
  }

  /** Stripping keeps every entity, changes only the entities of `s`, and
      a second pass changes nothing. */
  lemma StripAllSpec(c: map<nat, map<Kind, Component>>, s: seq<nat>, meshGuid: string)
    ensures StripAll(c, s, meshGuid).Keys == c.Keys
    ensures forall x | x in c && x !in s :: StripAll(c, s, meshGuid)[x] == c[x]
    ensures StripAll(StripAll(c, s, meshGuid), s, meshGuid) == StripAll(c, s, meshGuid)
  {
    var c' := StripAll(c, s, meshGuid);
    forall x | x in c'
      ensures StripAll(c', s, meshGuid)[x] == c'[x]
    {
      StripMeshSpec(c[x], meshGuid);
    }
  }

  /** Stripping one entity changes only its own components. */
  lemma StripOne(c: map<nat, map<Kind, Component>>, e: nat, meshGuid: string)
    requires e in c
    ensures StripAll(c, [e], meshGuid) == c[e := StripMesh(c[e], meshGuid)]
  {
  }

  /** Stripping `a` and then `b` strips `a + b`. */
  lemma StripAllAppend(c: map<nat, map<Kind, Component>>, a: seq<nat>, b: seq<nat>, meshGuid: string)
    ensures StripAll(StripAll(c, a, meshGuid), b, meshGuid) == StripAll(c, a + b, meshGuid)
  {
    forall x | x in c
      ensures StripAll(StripAll(c, a, meshGuid), b, meshGuid)[x] == StripAll(c, a + b, meshGuid)[x]
    {
      StripMeshSpec(c[x], meshGuid);
    }
  }

  /** One turn of the loop: stripping the next child's subtree extends the
      stripped part by that subtree. */
  lemma StripStep(c: map<nat, map<Kind, Component>>, k: Children, rank: map<nat, nat>, e: nat, j: nat, meshGuid: string)
    requires Ranked(k, rank) && e in k && e in rank && j < |k[e]|
    ensures StripAll(StripAll(c, [e] + PreOrderAll(k, rank, e, k[e][..j]), meshGuid), PreOrder(k, rank, k[e][j]), meshGuid)
         == StripAll(c, [e] + PreOrderAll(k, rank, e, k[e][..j + 1]), meshGuid)
  {
    var a := [e] + PreOrderAll(k, rank, e, k[e][..j]);
    var b := PreOrder(k, rank, k[e][j]);
    PreOrderAllSnoc(k, rank, e, k[e], j);
    assert [e] + PreOrderAll(k, rank, e, k[e][..j + 1]) == a + b;
    StripAllAppend(c, a, b, meshGuid);
  }

  /** The first part of `removeMeshReference`: the entity itself. */
  method StripEntity(scene: Scene, e: nat, meshGuid: string)
    requires scene.Valid() && e in scene.components
    modifies scene`components
    ensures scene.Valid()
    ensures scene.components == old(scene.components)[e := StripMesh(old(scene.components[e]), meshGuid)]
  {
    var entity := scene.EntityOf(e);
    ghost var m := scene.components[e];
    if Referenced(scene.components[e], meshGuid) {
      var _ := scene.RemoveComponent(entity, MeshKind);
      if scene.HasComponent(entity, MaterialKind) {
        var _ := scene.RemoveComponent(entity, MaterialKind);
        assert m - {MeshKind} - {MaterialKind} == m - {MeshKind, MaterialKind};
      } else {
        assert m - {MeshKind} == m - {MeshKind, MaterialKind};
      }
    }
  }

  /** `removeMeshReference(entity, meshGUID, recursively)`: the entity, and
      with `recursively` every entity of its subtree, loses a MeshComponent
      that uses the file `meshGuid` together with its MaterialComponent.
      Each next sibling is read before the recursion into the child. */
  method RemoveMeshReference(scene: Scene, e: nat, meshGuid: string, recursively: bool, ghost rank: map<nat, nat>)
    requires scene.Valid() && Ranked(scene.kids, rank) && scene.kids.Keys <= rank.Keys
    requires e in scene.components && (recursively ==> e in scene.hierarchy)
    modifies scene`components
    decreases if e in rank then rank[e] else 0
    ensures scene.Valid()
    ensures scene.components == StripAll(old(scene.components), if recursively then PreOrder(scene.kids, rank, e) else [e], meshGuid)
  {
    ghost var c0 := scene.components;
    StripEntity(scene, e, meshGuid);
    StripOne(c0, e, meshGuid);
    if recursively {
      ghost var s := scene.kids[e];
      ghost var j := 0;
      ListsChain(scene.hierarchy, scene.kids, e, NullHandle);
      var child := scene.hierarchy[e].first;
      while child.Handle?
        invariant scene.Valid()
        invariant j <= |s| && child == HeadOf(s[j..])
        invariant forall c | c in s :: c in scene.kids && c in rank && rank[c] < rank[e]
        invariant scene.components == StripAll(c0, [e] + PreOrderAll(scene.kids, rank, e, s[..j]), meshGuid)
        decreases |s| - j
      {
        assert child.id == s[j] && s[j] in scene.hierarchy;
        var nextChild := scene.hierarchy[child.id].next;
        assert nextChild == HeadOf(s[j + 1..]);
        RemoveMeshReference(scene, child.id, meshGuid, recursively, rank);
        StripStep(c0, scene.kids, rank, e, j, meshGuid);
        child := nextChild;
        j := j + 1;
      }
      assert |s[j..]| == 0;
      assert s[..j] == s;
    }
  }
}
