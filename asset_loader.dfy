/** The Assimp-based asset loader (OpenGLAssetLoader.cpp): it walks an
    imported scene's node tree, gives every bone name a dense id in the
    order the bones are first met, writes each bone weight into the first
    free slot of its vertex, records the node and mesh entities it creates,
    and finally equips the root entity for a static or a rigged model.
    The imported scene is a value here; reading the file is not modelled. */
module AssetLoaders {
  import opened Common
  import opened Glm
  import opened Components
  import opened MeshData
  import opened MeshComponents
  import opened MaterialComponents
  import opened Assimp

  // ---------------------------------------------------------------------------
  // Bone slots of one vertex (setVertexBoneData)
  // ---------------------------------------------------------------------------

  /** The first slot at or after `from` whose id is negative, or `|ids|`. */
  function FirstFree(ids: seq<int>, from: nat): (r: nat)
    requires from <= |ids|
    ensures from <= r <= |ids|
    ensures r < |ids| ==> ids[r] < 0
    ensures forall j :: from <= j < r ==> ids[j] >= 0
    decreases |ids| - from
  {
    if from == |ids| then from
    else if ids[from] < 0 then from
    else FirstFree(ids, from + 1)
  }

  lemma FirstFreeAt(ids: seq<int>, k: nat)
    requires k < |ids| && ids[k] < 0
    requires forall j :: 0 <= j < k ==> ids[j] >= 0
    ensures FirstFree(ids, 0) == k
  {
    var r := FirstFree(ids, 0);
    assert r <= k;
  }

  /** A vertex after `setVertexBoneData(vertex, boneID, weight)`. */
  function Attach(b: BoneSlots, boneID: int, weight: real): (r: BoneSlots)
    requires b.Valid()
    ensures r.Valid()
  {
    var i := FirstFree(b.ids, 0);
    if i < MAX_BONE_INFLUENCE then BoneSlots(b.ids[i := boneID], b.weights[i := weight]) else b
  }

  /** The slot loop: the first slot with a negative id takes the weight and
      the id, and the loop stops there. */
  method SetVertexBoneData(vertex: BoneSlots, boneID: int, weight: real) returns (r: BoneSlots)
    requires vertex.Valid()
    ensures r == Attach(vertex, boneID, weight)
  {
    r := vertex;
    var i := 0;
    while i < MAX_BONE_INFLUENCE
      invariant 0 <= i <= MAX_BONE_INFLUENCE
      invariant FirstFree(vertex.ids, 0) == FirstFree(vertex.ids, i)
    {
      if vertex.ids[i] < 0 {
        r := BoneSlots(vertex.ids[i := boneID], vertex.weights[i := weight]);
        return;
      }
      i := i + 1;
    }
  }

  /** Attaching a sequence of (bone id, weight) pairs one after the other. */
  function AttachAll(b: BoneSlots, ps: seq<(int, real)>): (r: BoneSlots)
    requires b.Valid()
    ensures r.Valid()
  {
    if ps == [] then b
    else
      var last := ps[|ps| - 1];
      Attach(AttachAll(b, ps[..|ps| - 1]), last.0, last.1)
  }

  /** The first `k` slots are taken and the others are free. */
  predicate FilledUpTo(b: BoneSlots, k: nat)
  {
    |b.ids| == MAX_BONE_INFLUENCE && |b.weights| == MAX_BONE_INFLUENCE && k <= MAX_BONE_INFLUENCE &&
    (forall j :: 0 <= j < k ==> b.ids[j] >= 0) &&
    (forall j :: k <= j < MAX_BONE_INFLUENCE ==> b.ids[j] == -1 && b.weights[j] == 0.0)
  }

  /** Starting from a cleared vertex, successive attachments with
      non-negative bone ids fill the slots in order; once all
      MAX_BONE_INFLUENCE slots are taken, further ones are dropped. */
  lemma {:induction false} AttachAllFillsInOrder(b: BoneSlots, ps: seq<(int, real)>)
    requires AllFree(b)
    requires forall i :: 0 <= i < |ps| ==> ps[i].0 >= 0
    ensures FilledUpTo(AttachAll(b, ps), Min(|ps|, MAX_BONE_INFLUENCE))
    ensures forall j :: 0 <= j < Min(|ps|, MAX_BONE_INFLUENCE) ==>
      AttachAll(b, ps).ids[j] == ps[j].0 && AttachAll(b, ps).weights[j] == ps[j].1
  {
    if ps != [] {
      var prefix := ps[..|ps| - 1];
      AttachAllFillsInOrder(b, prefix);
      var prev := AttachAll(b, prefix);
      var k := Min(|prefix|, MAX_BONE_INFLUENCE);
      if k < MAX_BONE_INFLUENCE {
        FirstFreeAt(prev.ids, k);
      } else {
        assert FirstFree(prev.ids, 0) == MAX_BONE_INFLUENCE;
      }
    }
  }

  // ---------------------------------------------------------------------------
  // Vertex initialisation
  // ---------------------------------------------------------------------------

  /** A vertex with every slot free. */
  function FreeSlots(): (b: BoneSlots)
    ensures AllFree(b) && b.Valid()
  {
    BoneSlots(seq(MAX_BONE_INFLUENCE, _ => -1), seq(MAX_BONE_INFLUENCE, _ => 0.0))
  }

  /** `n` vertices, none with a bone yet. */
  function Cleared(n: nat): (vs: seq<BoneSlots>)
    ensures |vs| == n && forall i :: 0 <= i < n ==> AllFree(vs[i])
  {
    seq(n, _ => FreeSlots())
  }

  /** The vertex loop of processMesh, with each vertex's slot loop. */
  method InitVertices(n: nat) returns (vs: seq<BoneSlots>)
    ensures vs == Cleared(n)
  {
    vs := [];
    while |vs| < n
      invariant |vs| <= n
      invariant forall i :: 0 <= i < |vs| ==> vs[i] == FreeSlots()
    {
      var b := ClearBoneSlots();
      assert b.ids == FreeSlots().ids && b.weights == FreeSlots().weights;
      vs := vs + [b];
    }
    assert forall i :: 0 <= i < n ==> vs[i] == Cleared(n)[i];
  }

  // ---------------------------------------------------------------------------
  // Bone-id allocation (extractBoneWeightForVertices)
  // ---------------------------------------------------------------------------

  /** The loader's bone map with its counter `boneCount`. */
  datatype Bones = Bones(infoMap: map<string, BoneInfo>, count: int)

  /** The counter equals the map's size and the ids are distinct numbers
      below it, so they are exactly 0..count-1. */
  predicate Dense(bs: Bones)
  {
    bs.count == |bs.infoMap| &&
    (forall k :: k in bs.infoMap ==> 0 <= bs.infoMap[k].id < bs.count) &&
    (forall k1, k2 :: k1 in bs.infoMap && k2 in bs.infoMap && k1 != k2 ==>
      bs.infoMap[k1].id != bs.infoMap[k2].id)
  }

  /** One bone of a mesh: an unseen name takes the counter as its id and
      the counter advances; a seen name keeps its entry. */
  function Register(bs: Bones, name: string, offset: Mat4): (r: Bones)
    ensures r.infoMap.Keys == bs.infoMap.Keys + {name}
    ensures forall k :: k in bs.infoMap ==> r.infoMap[k] == bs.infoMap[k]
    ensures name !in bs.infoMap ==> r.infoMap[name].id == bs.count && r.count == bs.count + 1
    ensures name in bs.infoMap ==> r.count == bs.count
  {
    if name in bs.infoMap then bs
    else Bones(bs.infoMap[name := BoneInfo(bs.count, offset)], bs.count + 1)
  }

  /** The bones of `bones`, registered in order. */
  function Allocate(bs: Bones, bones: seq<AiBone>): (r: Bones)
  {
    if bones == [] then bs
    else
      var last := bones[|bones| - 1];
      Register(Allocate(bs, bones[..|bones| - 1]), last.name, last.offset)
  }

  lemma RegisterKeepsDense(bs: Bones, name: string, offset: Mat4)
    requires Dense(bs)
    ensures Dense(Register(bs, name, offset))
  {
    if name !in bs.infoMap {
      var r := Register(bs, name, offset);
      forall k1, k2 | k1 in r.infoMap && k2 in r.infoMap && k1 != k2
        ensures r.infoMap[k1].id != r.infoMap[k2].id
      {
        if k1 != name && k2 != name {
          assert r.infoMap[k1] == bs.infoMap[k1] && r.infoMap[k2] == bs.infoMap[k2];
        }
      }
    }
  }

  /** Allocation keeps the ids dense, keeps every existing entry, and
      registers every bone name met. */
  lemma {:induction false} AllocateKeepsDense(bs: Bones, bones: seq<AiBone>)
    requires Dense(bs)
    ensures Dense(Allocate(bs, bones))
    ensures forall k :: k in bs.infoMap ==> k in Allocate(bs, bones).infoMap && Allocate(bs, bones).infoMap[k] == bs.infoMap[k]
    ensures forall i :: 0 <= i < |bones| ==> bones[i].name in Allocate(bs, bones).infoMap
  {
    if bones != [] {
      var prefix := bones[..|bones| - 1];
      AllocateKeepsDense(bs, prefix);
      RegisterKeepsDense(Allocate(bs, prefix), bones[|bones| - 1].name, bones[|bones| - 1].offset);
      forall i | 0 <= i < |bones|
        ensures bones[i].name in Allocate(bs, bones).infoMap
      {
        if i < |bones| - 1 {
          assert bones[i] == prefix[i];
        }
      }
    }
  }

  /** An entry, once made, is never changed by later bones. */
  lemma {:induction false} AllocateKeepsEntries(bs: Bones, bones: seq<AiBone>, j: nat)
    requires j <= |bones|
    ensures forall k :: k in Allocate(bs, bones[..j]).infoMap ==>
      k in Allocate(bs, bones).infoMap && Allocate(bs, bones).infoMap[k] == Allocate(bs, bones[..j]).infoMap[k]
    ensures Allocate(bs, bones[..j]).count <= Allocate(bs, bones).count
    decreases |bones| - j
  {
    if j < |bones| {
      var prefix := bones[..|bones| - 1];
      assert bones[..j] == prefix[..j];
      AllocateKeepsEntries(bs, prefix, j);
      assert prefix[..|prefix|] == prefix;
    } else {
      assert bones[..j] == bones;
    }
  }

  /** Allocating one more bone is registering it. */
  lemma AllocateStep(bs: Bones, bones: seq<AiBone>, k: nat)
    requires k < |bones|
    ensures Allocate(bs, bones[..k + 1]) == Register(Allocate(bs, bones[..k]), bones[k].name, bones[k].offset)
  {
    assert bones[..k + 1][..k] == bones[..k];
  }

  /** Ids are given in first-seen order: a name first met at position i gets
      a smaller id than a different name first met at a later position j. */
  lemma FirstSeenOrder(bs: Bones, bones: seq<AiBone>, i: nat, j: nat)
    requires i < j < |bones|
    requires bones[i].name !in Allocate(bs, bones[..i]).infoMap
    requires bones[j].name !in Allocate(bs, bones[..j]).infoMap
    ensures bones[i].name in Allocate(bs, bones).infoMap && bones[j].name in Allocate(bs, bones).infoMap
    ensures Allocate(bs, bones).infoMap[bones[i].name].id < Allocate(bs, bones).infoMap[bones[j].name].id
  {
    NewNameId(bs, bones, i);
    NewNameId(bs, bones, j);
    CountGrows(bs, bones, i + 1, j);
  }

  /** A name first met at position k gets the counter as it was before k. */
  lemma NewNameId(bs: Bones, bones: seq<AiBone>, k: nat)
    requires k < |bones| && bones[k].name !in Allocate(bs, bones[..k]).infoMap
    ensures bones[k].name in Allocate(bs, bones).infoMap
    ensures Allocate(bs, bones).infoMap[bones[k].name].id == Allocate(bs, bones[..k]).count
    ensures Allocate(bs, bones[..k + 1]).count == Allocate(bs, bones[..k]).count + 1
  {
    AllocateStep(bs, bones, k);
    AllocateKeepsEntry(bs, bones, k + 1, bones[k].name);
  }

  /** The counter never goes down. */
  lemma CountGrows(bs: Bones, bones: seq<AiBone>, p: nat, q: nat)
    requires p <= q <= |bones|
    ensures Allocate(bs, bones[..p]).count <= Allocate(bs, bones[..q]).count
  {
    assert bones[..q][..p] == bones[..p];
    AllocateKeepsEntries(bs, bones[..q], p);
  }

  lemma AllocateKeepsEntry(bs: Bones, bones: seq<AiBone>, j: nat, name: string)
    requires j <= |bones| && name in Allocate(bs, bones[..j]).infoMap
    ensures name in Allocate(bs, bones).infoMap
    ensures Allocate(bs, bones).infoMap[name] == Allocate(bs, bones[..j]).infoMap[name]
  {
    AllocateKeepsEntries(bs, bones, j);
  }

  // ---------------------------------------------------------------------------
  // Weight application
  // ---------------------------------------------------------------------------

  ghost predicate AllShaped(vs: seq<BoneSlots>)
  {
    forall i :: 0 <= i < |vs| ==> vs[i].Valid()
  }

  /** Every weight names an existing vertex of an `n`-vertex mesh. */
  predicate WeightsIn(ws: seq<VertexWeight>, n: int)
  {
    forall i :: 0 <= i < |ws| ==> ws[i].vertexId < n
  }

  predicate BonesIn(bones: seq<AiBone>, n: int)
  {
    forall i :: 0 <= i < |bones| ==> WeightsIn(bones[i].weights, n)
  }

  /** The weights of one bone, attached to their vertices in order. */
  function Spread(vs: seq<BoneSlots>, boneID: int, ws: seq<VertexWeight>): (r: seq<BoneSlots>)
    requires AllShaped(vs) && WeightsIn(ws, |vs|)
    ensures |r| == |vs| && AllShaped(r)
  {
    if ws == [] then vs
    else
      var prev := Spread(vs, boneID, ws[..|ws| - 1]);
      var w := ws[|ws| - 1];
      prev[w.vertexId := Attach(prev[w.vertexId], boneID, w.weight)]
  }

  /** The vertices after the weights of `bones`, each bone with the id the
      allocation gives its name. */
  function Weighted(bs: Bones, vs: seq<BoneSlots>, bones: seq<AiBone>): (r: seq<BoneSlots>)
    requires AllShaped(vs) && BonesIn(bones, |vs|)
    ensures |r| == |vs| && AllShaped(r)
  {
    if bones == [] then vs
    else
      var last := bones[|bones| - 1];
      Spread(Weighted(bs, vs, bones[..|bones| - 1]), Allocate(bs, bones).infoMap[last.name].id, last.weights)
  }

  /** The guard of the weight loop as written: `vertexId <= vertices.size()`. */
  predicate PassesGuardAsWritten(ws: seq<VertexWeight>, n: int)
  {
    forall i :: 0 <= i < |ws| ==> ws[i].vertexId <= n
  }

  /** The guard lets through a weight on the vertex one past the end: with
      one vertex, a weight on vertex 1 passes it but indexes outside the
      vector. */
  lemma GuardAdmitsPastTheEnd()
    ensures PassesGuardAsWritten([VertexWeight(1, 1.0)], 1)
    ensures !WeightsIn([VertexWeight(1, 1.0)], 1)
  {
    assert [VertexWeight(1, 1.0)][0].vertexId == 1;
  }

  // ---------------------------------------------------------------------------
  // Materials
  // ---------------------------------------------------------------------------

  /** The texture loop keeps the last diffuse texture. */
  function LastTexture(ts: seq<TextureRef>): Option<TextureRef>
  {
    if ts == [] then None else Some(ts[|ts| - 1])
  }

  /** The material a created mesh entity ends with: an embedded texture's
      material when mesh objects are created, an external texture's material
      always, otherwise `MaterialComponent("", false)`; in every case the
      mesh's diffuse colour. */
  function MeshMaterial(mesh: AiMesh, createMeshObjects: bool): (m: MaterialComponent)
    ensures m.diffuseColor == mesh.diffuseColor && m.diffuseTexture == None
    ensures m.isEmbedded <==> LastTexture(mesh.textures) == Some(EmbeddedTexture(m.guid)) && createMeshObjects
    ensures LastTexture(mesh.textures).None? ==> m.guid == ""
    ensures m.guid != "" ==> LastTexture(mesh.textures).Some? && m.guid == LastTexture(mesh.textures).value.textureGuid
  {
    var base :=
      match LastTexture(mesh.textures)
      case None => NewMaterial("", false)
      case Some(EmbeddedTexture(g)) => if createMeshObjects then NewMaterial(g, true) else NewMaterial("", false)
      case Some(ExternalTexture(g)) => NewMaterial(g, false);
    base.(diffuseColor := mesh.diffuseColor)
  }

  // ---------------------------------------------------------------------------
  // Traversal (processNode / processMesh)
  // ---------------------------------------------------------------------------

  /** The arguments that stay fixed during one traversal. */
  datatype Options = Options(guid: string, createEntities: bool, createMeshObjects: bool)

  /** A mesh entity the traversal created: its tag (the mesh's name, or
      "Entity" for an unnamed mesh), the mesh file it belongs to, the value
      of `meshID` its sub-mesh file id is made from, and its material. */
  datatype MeshEntity = MeshEntity(tag: string, meshGuid: string, meshID: int, material: MaterialComponent)

  /** The loader's members, plus the mesh entities created so far. */
  datatype LoaderState = LoaderState(meshID: int, bones: Bones, nodeEntities: seq<string>, meshEntities: seq<MeshEntity>)

  /** Every node's mesh indices name meshes of the scene, and every weight
      of those meshes names one of its vertices. */
  predicate NodeOk(s: AiScene, node: AiNode)
  {
    (forall i :: 0 <= i < |node.meshes| ==>
      0 <= node.meshes[i] < |s.meshes| &&
      BonesIn(s.meshes[node.meshes[i]].bones, s.meshes[node.meshes[i]].numVertices)) &&
    (forall c :: c in node.children ==> NodeOk(s, c))
  }

  /** A node entity's tag: the root entity passed in keeps its own tag, a
      created one is named after its node, or "Entity" when the node has
      no name. */
  function TagOf(node: AiNode, rootTag: Option<string>): string
  {
    if rootTag.Some? then rootTag.value else EntityTag(node.name)
  }

  /** processMesh's effect on the loader. */
  function MeshStep(o: Options, st: LoaderState, mesh: AiMesh): (r: LoaderState)
    ensures r.meshID == st.meshID + 1 && r.nodeEntities == st.nodeEntities
  {
    LoaderState(st.meshID + 1, Allocate(st.bones, mesh.bones), st.nodeEntities,
      st.meshEntities +
        (if o.createEntities
         then [MeshEntity(EntityTag(mesh.name), o.guid, st.meshID + 1, MeshMaterial(mesh, o.createMeshObjects))]
         else []))
  }

  /** The first `n` meshes of a node, processed in order. */
  function MeshesStep(s: AiScene, o: Options, st: LoaderState, node: AiNode, n: nat): (r: LoaderState)
    requires n <= |node.meshes|
    requires forall i :: 0 <= i < |node.meshes| ==> 0 <= node.meshes[i] < |s.meshes|
  {
    if n == 0 then st else MeshStep(o, MeshesStep(s, o, st, node, n - 1), s.meshes[node.meshes[n - 1]])
  }

  /** processNode's effect on the loader: the node's entity, its meshes,
      then its children, depth first. */
  function NodeStep(s: AiScene, o: Options, st: LoaderState, node: AiNode, rootTag: Option<string>): (r: LoaderState)
    requires NodeOk(s, node)
    decreases node, 1
  {
    var withEntity := if o.createEntities then st.(nodeEntities := st.nodeEntities + [TagOf(node, rootTag)]) else st;
    ChildrenStep(s, o, MeshesStep(s, o, withEntity, node, |node.meshes|), node, |node.children|)
  }

  /** The first `n` children of a node, processed in order. */
  function ChildrenStep(s: AiScene, o: Options, st: LoaderState, node: AiNode, n: nat): (r: LoaderState)
    requires n <= |node.children|
    requires NodeOk(s, node)
    decreases node, 0, n
  {
    if n == 0 then st
    else
      assert node.children[n - 1] in node.children;
      NodeStep(s, o, ChildrenStep(s, o, st, node, n - 1), node.children[n - 1], None)
  }

  /** The tags of a subtree's nodes in the order the traversal meets them. */
  function NodeTags(node: AiNode, rootTag: Option<string>): seq<string>
    decreases node, 1
  {
    [TagOf(node, rootTag)] + ChildTags(node, |node.children|)
  }

  function ChildTags(node: AiNode, n: nat): seq<string>
    requires n <= |node.children|
    decreases node, 0, n
  {
    if n == 0 then [] else ChildTags(node, n - 1) + NodeTags(node.children[n - 1], None)
  }

  /** Every created node entity has a tag: an unnamed node is tagged
      "Entity", a named one by its name. Only a root entity passed in with
      an empty tag contributes an empty one. */
  lemma {:induction false} NodeTagsNamed(node: AiNode, rootTag: Option<string>)
    requires rootTag != Some("")
    ensures forall i :: 0 <= i < |NodeTags(node, rootTag)| ==> NodeTags(node, rootTag)[i] != ""
    ensures rootTag.None? && node.name != "" ==> NodeTags(node, rootTag)[0] == node.name
    decreases node, 1
  {
    ChildTagsNamed(node, |node.children|);
  }

  lemma {:induction false} ChildTagsNamed(node: AiNode, n: nat)
    requires n <= |node.children|
    ensures forall i :: 0 <= i < |ChildTags(node, n)| ==> ChildTags(node, n)[i] != ""
    decreases node, 0, n
  {
    if n > 0 {
      ChildTagsNamed(node, n - 1);
      NodeTagsNamed(node.children[n - 1], None);
    }
  }

  lemma {:induction false} MeshesStepKeeps(s: AiScene, o: Options, st: LoaderState, node: AiNode, n: nat)
    requires n <= |node.meshes|
    requires forall i :: 0 <= i < |node.meshes| ==> 0 <= node.meshes[i] < |s.meshes|
    ensures MeshesStep(s, o, st, node, n).nodeEntities == st.nodeEntities
    ensures !o.createEntities ==> MeshesStep(s, o, st, node, n).meshEntities == st.meshEntities
    ensures Dense(st.bones) ==> Dense(MeshesStep(s, o, st, node, n).bones)
  {
    if n > 0 {
      MeshesStepKeeps(s, o, st, node, n - 1);
      var prev := MeshesStep(s, o, st, node, n - 1);
      if Dense(st.bones) {
        AllocateKeepsDense(prev.bones, s.meshes[node.meshes[n - 1]].bones);
      }
    }
  }

  /** The traversal keeps the bone ids dense, creates the node entities in
      depth-first order (the root first), and creates no entity at all when
      `createEntities` is false. */
  lemma {:induction false} NodeStepFacts(s: AiScene, o: Options, st: LoaderState, node: AiNode, rootTag: Option<string>)
    requires NodeOk(s, node)
    ensures Dense(st.bones) ==> Dense(NodeStep(s, o, st, node, rootTag).bones)
    ensures NodeStep(s, o, st, node, rootTag).nodeEntities ==
      st.nodeEntities + (if o.createEntities then NodeTags(node, rootTag) else [])
    ensures !o.createEntities ==> NodeStep(s, o, st, node, rootTag).meshEntities == st.meshEntities
    decreases node, 1
  {
    var withEntity := if o.createEntities then st.(nodeEntities := st.nodeEntities + [TagOf(node, rootTag)]) else st;
    MeshesStepKeeps(s, o, withEntity, node, |node.meshes|);
    var afterMeshes := MeshesStep(s, o, withEntity, node, |node.meshes|);
    ChildrenStepFacts(s, o, afterMeshes, node, |node.children|);
    assert NodeStep(s, o, st, node, rootTag) == ChildrenStep(s, o, afterMeshes, node, |node.children|);
    if o.createEntities {
      assert (st.nodeEntities + [TagOf(node, rootTag)]) + ChildTags(node, |node.children|) == st.nodeEntities + NodeTags(node, rootTag);
    }
  }

  lemma {:induction false} ChildrenStepFacts(s: AiScene, o: Options, st: LoaderState, node: AiNode, n: nat)
    requires n <= |node.children|
    requires NodeOk(s, node)
    ensures Dense(st.bones) ==> Dense(ChildrenStep(s, o, st, node, n).bones)
    ensures ChildrenStep(s, o, st, node, n).nodeEntities ==
      st.nodeEntities + (if o.createEntities then ChildTags(node, n) else [])
    ensures !o.createEntities ==> ChildrenStep(s, o, st, node, n).meshEntities == st.meshEntities
    decreases node, 0, n
  {
    if n > 0 {
      var child := node.children[n - 1];
      assert child in node.children;
      var prev := ChildrenStep(s, o, st, node, n - 1);
      ChildrenStepFacts(s, o, st, node, n - 1);
      NodeStepFacts(s, o, prev, child, None);
      assert ChildrenStep(s, o, st, node, n) == NodeStep(s, o, prev, child, None);
      if o.createEntities {
        assert ChildTags(node, n) == ChildTags(node, n - 1) + NodeTags(child, None);
        assert (st.nodeEntities + ChildTags(node, n - 1)) + NodeTags(child, None) == st.nodeEntities + ChildTags(node, n);
      }
    }
  }

  /** The bone map and the mesh counter a traversal ends with do not depend
      on whether entities or mesh objects are created, nor on the root
      entity, nor on the entities already recorded. */
  lemma {:induction false} BonesIgnoreEntities(s: AiScene, o1: Options, o2: Options, st1: LoaderState, st2: LoaderState,
                                               node: AiNode, rt1: Option<string>, rt2: Option<string>)
    requires NodeOk(s, node)
    requires st1.bones == st2.bones && st1.meshID == st2.meshID
    ensures NodeStep(s, o1, st1, node, rt1).bones == NodeStep(s, o2, st2, node, rt2).bones
    ensures NodeStep(s, o1, st1, node, rt1).meshID == NodeStep(s, o2, st2, node, rt2).meshID
    decreases node, 1
  {
    var w1 := if o1.createEntities then st1.(nodeEntities := st1.nodeEntities + [TagOf(node, rt1)]) else st1;
    var w2 := if o2.createEntities then st2.(nodeEntities := st2.nodeEntities + [TagOf(node, rt2)]) else st2;
    MeshesIgnoreEntities(s, o1, o2, w1, w2, node, |node.meshes|);
    ChildrenIgnoreEntities(s, o1, o2, MeshesStep(s, o1, w1, node, |node.meshes|),
                           MeshesStep(s, o2, w2, node, |node.meshes|), node, |node.children|);
  }

  lemma {:induction false} MeshesIgnoreEntities(s: AiScene, o1: Options, o2: Options, st1: LoaderState, st2: LoaderState,
                                                node: AiNode, n: nat)
    requires n <= |node.meshes|
    requires forall i :: 0 <= i < |node.meshes| ==> 0 <= node.meshes[i] < |s.meshes|
    requires st1.bones == st2.bones && st1.meshID == st2.meshID
    ensures MeshesStep(s, o1, st1, node, n).bones == MeshesStep(s, o2, st2, node, n).bones
    ensures MeshesStep(s, o1, st1, node, n).meshID == MeshesStep(s, o2, st2, node, n).meshID
  {
    if n > 0 {
      MeshesIgnoreEntities(s, o1, o2, st1, st2, node, n - 1);
    }
  }

  lemma {:induction false} ChildrenIgnoreEntities(s: AiScene, o1: Options, o2: Options, st1: LoaderState, st2: LoaderState,
                                                  node: AiNode, n: nat)
    requires n <= |node.children|
    requires NodeOk(s, node)
    requires st1.bones == st2.bones && st1.meshID == st2.meshID
    ensures ChildrenStep(s, o1, st1, node, n).bones == ChildrenStep(s, o2, st2, node, n).bones
    ensures ChildrenStep(s, o1, st1, node, n).meshID == ChildrenStep(s, o2, st2, node, n).meshID
    decreases node, 0, n
  {
    if n > 0 {
      ChildrenIgnoreEntities(s, o1, o2, st1, st2, node, n - 1);
      assert node.children[n - 1] in node.children;
      BonesIgnoreEntities(s, o1, o2, ChildrenStep(s, o1, st1, node, n - 1), ChildrenStep(s, o2, st2, node, n - 1),
                          node.children[n - 1], None, None);
    }
  }

  // ---------------------------------------------------------------------------
  // loadMesh / loadBones results
  // ---------------------------------------------------------------------------

  /** The state both entry points reset to before the traversal. */
  function Reset(): LoaderState
  {
    LoaderState(0, Bones(map[], 0), [], [])
  }

  /** A node entity with the bone id it was given, if its tag names a bone. */
  datatype NodeEntity = NodeEntity(tag: string, boneID: Option<int>)

  /** What loadMesh leaves behind: the bone map it returns, the components
      added to the root entity, the node entities and the mesh entities. */
  datatype LoadedMesh = LoadedMesh(boneInfoMap: map<string, BoneInfo>, rootComponents: seq<Component>,
                                   nodeEntities: seq<NodeEntity>, meshEntities: seq<MeshEntity>)

  /** The root of a model without bones is a mesh parent; the root of a
      rigged model is a mesh parent with the bone map, plus an animator. */
  function RootComponents(guid: string, boneMap: map<string, BoneInfo>): (r: seq<Component>)
    ensures |boneMap| == 0 ==> r == [MeshC(MeshParent(guid))]
    ensures |boneMap| > 0 ==> r == [MeshC(RiggedMeshParent(guid, boneMap)), AnimatorC("")]
  {
    if |boneMap| == 0 then [MeshC(MeshParent(guid))]
    else [MeshC(RiggedMeshParent(guid, boneMap)), AnimatorC("")]
  }

  /** The bone id a node entity gets: its tag's entry, if any. */
  function TagBone(boneMap: map<string, BoneInfo>, tag: string): Option<int>
  {
    if tag in boneMap then Some(boneMap[tag].id) else None
  }

  /** The loop that adds bone components to the node entities. */
  method NodeBones(tags: seq<string>, boneMap: map<string, BoneInfo>) returns (r: seq<NodeEntity>)
    ensures |r| == |tags|
    ensures forall i :: 0 <= i < |tags| ==> r[i].tag == tags[i]
    ensures forall i :: 0 <= i < |tags| ==> (r[i].boneID.Some? <==> tags[i] in boneMap)
    ensures forall i :: 0 <= i < |tags| && tags[i] in boneMap ==> r[i].boneID == Some(boneMap[tags[i]].id)
  {
    r := [];
    var i := 0;
    while i < |tags|
      invariant 0 <= i <= |tags| && |r| == i
      invariant forall j :: 0 <= j < i ==> r[j] == NodeEntity(tags[j], TagBone(boneMap, tags[j]))
    {
      r := r + [NodeEntity(tags[i], TagBone(boneMap, tags[i]))];
      i := i + 1;
    }
  }

  /** loadMesh's result, from the traversal of the root with mesh objects. */
  function LoadMeshResult(s: AiScene, guid: string, createEntities: bool, rootTag: Option<string>): LoadedMesh
    requires NodeOk(s, s.root)
  {
    var st := NodeStep(s, Options(guid, createEntities, true), Reset(), s.root, rootTag);
    LoadedMesh(st.bones.infoMap,
               if createEntities then RootComponents(guid, st.bones.infoMap) else [],
               seq(|st.nodeEntities|, i requires 0 <= i < |st.nodeEntities| =>
                 NodeEntity(st.nodeEntities[i], TagBone(st.bones.infoMap, st.nodeEntities[i]))),
               st.meshEntities)
  }

  /** loadBones's result: the traversal without entities or mesh objects. */
  function LoadBonesResult(s: AiScene, guid: string): map<string, BoneInfo>
    requires NodeOk(s, s.root)
  {
    NodeStep(s, Options(guid, false, false), Reset(), s.root, None).bones.infoMap
  }

  /** loadBones returns the same map as loadMesh on the same file; its ids
      are 0..n-1 for a map of n bones; the root of a rigged model carries
      that map with a matching bone count and an animator; and the node
      entities are the nodes in depth-first order, each with a bone id
      exactly when its tag names a bone. */
  lemma LoadMeshFacts(s: AiScene, guid: string, createEntities: bool, rootTag: Option<string>)
    requires NodeOk(s, s.root)
    ensures LoadBonesResult(s, guid) == LoadMeshResult(s, guid, createEntities, rootTag).boneInfoMap
    ensures var m := LoadBonesResult(s, guid);
      forall k :: k in m ==> 0 <= m[k].id < |m|
    ensures var r := LoadMeshResult(s, guid, createEntities, rootTag);
      createEntities && |r.boneInfoMap| > 0 ==>
        r.rootComponents[0].mesh.boneCount == |r.boneInfoMap| && r.rootComponents[1] == AnimatorC("")
    ensures var r := LoadMeshResult(s, guid, createEntities, rootTag);
      |r.nodeEntities| == (if createEntities then |NodeTags(s.root, rootTag)| else 0) &&
      (forall i :: 0 <= i < |r.nodeEntities| ==> r.nodeEntities[i].tag == NodeTags(s.root, rootTag)[i])
  {
    BonesIgnoreEntities(s, Options(guid, false, false), Options(guid, createEntities, true), Reset(), Reset(),
                        s.root, None, rootTag);
    NodeStepFacts(s, Options(guid, false, false), Reset(), s.root, None);
    NodeStepFacts(s, Options(guid, createEntities, true), Reset(), s.root, rootTag);
  }

  // ---------------------------------------------------------------------------
  // The loader
  // ---------------------------------------------------------------------------

  class AssetLoader {
    var meshID: int
    var boneCount: int
    var boneInfoMap: map<string, BoneInfo>
    var nodeEntities: seq<string>
    /** The mesh entities created by the current load. */
    var meshEntities: seq<MeshEntity>

    constructor ()
      ensures State() == Reset()
    {
      meshID := 0;
      boneCount := 0;
      boneInfoMap := map[];
      nodeEntities := [];
      meshEntities := [];
    }

    function State(): LoaderState
      reads this
    {
      LoaderState(meshID, Bones(boneInfoMap, boneCount), nodeEntities, meshEntities)
    }

    /** extractBoneWeightForVertices: each bone gets its id, then each of its
        weights goes into its vertex's first free slot. The weights must name
        existing vertices; see `GuardAdmitsPastTheEnd` for the guard as
        written. */
    method ExtractBoneWeights(vertices: seq<BoneSlots>, bones: seq<AiBone>) returns (r: seq<BoneSlots>)
      requires AllShaped(vertices) && BonesIn(bones, |vertices|)
      modifies this`boneInfoMap, this`boneCount
      ensures Bones(boneInfoMap, boneCount) == Allocate(old(Bones(boneInfoMap, boneCount)), bones)
      ensures r == Weighted(old(Bones(boneInfoMap, boneCount)), vertices, bones)
    {
      ghost var start := Bones(boneInfoMap, boneCount);
      r := vertices;
      var b := 0;
      while b < |bones|
        invariant 0 <= b <= |bones|
        invariant Bones(boneInfoMap, boneCount) == Allocate(start, bones[..b])
        invariant r == Weighted(start, vertices, bones[..b])
      {
        assert bones[..b + 1][..b] == bones[..b];
        var bone := bones[b];
        var boneID := -1;
        if bone.name !in boneInfoMap {
          boneInfoMap := boneInfoMap[bone.name := BoneInfo(boneCount, bone.offset)];
          boneID := boneCount;
          boneCount := boneCount + 1;
        } else {
          boneID := boneInfoMap[bone.name].id;
        }
        assert BonesIn(bones[..b + 1], |vertices|);
        ghost var before := r;
        ghost var registered := Bones(boneInfoMap, boneCount);
        assert registered == Allocate(start, bones[..b + 1]);
        var w := 0;
        while w < |bone.weights|
          invariant 0 <= w <= |bone.weights|
          invariant Bones(boneInfoMap, boneCount) == registered
          invariant r == Spread(before, boneID, bone.weights[..w])
        {
          assert bone.weights[..w + 1][..w] == bone.weights[..w];
          var vertexId := bone.weights[w].vertexId;
          var slots := SetVertexBoneData(r[vertexId], boneID, bone.weights[w].weight);
          r := r[vertexId := slots];
          w := w + 1;
        }
        assert bone.weights[..w] == bone.weights;
        b := b + 1;
      }
      assert bones[..b] == bones;
    }

    /** processMesh: the mesh counter, the vertices, the bone weights and,
        with `createEntities`, the mesh entity and its material. */
    method ProcessMesh(o: Options, mesh: AiMesh) returns (vertices: seq<BoneSlots>)
      requires BonesIn(mesh.bones, mesh.numVertices)
      modifies this
      ensures State() == MeshStep(o, old(State()), mesh)
      ensures vertices == Weighted(old(State()).bones, Cleared(mesh.numVertices), mesh.bones)
    {
      meshID := meshID + 1;
      vertices := InitVertices(mesh.numVertices);
      var texture: Option<TextureRef> := None;
      var i := 0;
      while i < |mesh.textures|
        invariant 0 <= i <= |mesh.textures|
        invariant texture == LastTexture(mesh.textures[..i])
      {
        texture := Some(mesh.textures[i]);
        i := i + 1;
      }
      assert mesh.textures[..i] == mesh.textures;
      vertices := ExtractBoneWeights(vertices, mesh.bones);
      if o.createEntities {
        var material := match texture
          case None => NewMaterial("", false)
          case Some(EmbeddedTexture(g)) => if o.createMeshObjects then NewMaterial(g, true) else NewMaterial("", false)
          case Some(ExternalTexture(g)) => NewMaterial(g, false);
        material := material.(diffuseColor := mesh.diffuseColor);
        meshEntities := meshEntities + [MeshEntity(EntityTag(mesh.name), o.guid, meshID, material)];
      }
    }

    /** processNode: the node's entity, its meshes in order, then its
        children in order. */
    method ProcessNode(s: AiScene, o: Options, node: AiNode, rootTag: Option<string>)
      requires NodeOk(s, node)
      modifies this
      ensures State() == NodeStep(s, o, old(State()), node, rootTag)
      decreases node
    {
      if o.createEntities {
        nodeEntities := nodeEntities + [TagOf(node, rootTag)];
      }
      ghost var withEntity := State();
      var i := 0;
      while i < |node.meshes|
        invariant 0 <= i <= |node.meshes|
        invariant State() == MeshesStep(s, o, withEntity, node, i)
      {
        var vertices := ProcessMesh(o, s.meshes[node.meshes[i]]);
        i := i + 1;
      }
      ghost var afterMeshes := State();
      i := 0;
      while i < |node.children|
        invariant 0 <= i <= |node.children|
        invariant State() == ChildrenStep(s, o, afterMeshes, node, i)
      {
        assert node.children[i] in node.children;
        ProcessNode(s, o, node.children[i], None);
        i := i + 1;
      }
    }

    /** loadMesh on an imported scene: reset, traverse with mesh objects,
        give bone components to node entities, clear the map and the node
        list, and equip the root entity when entities are created. */
    method LoadMesh(s: AiScene, guid: string, createEntities: bool, rootTag: Option<string>) returns (r: LoadedMesh)
      requires NodeOk(s, s.root)
      modifies this
      ensures r == LoadMeshResult(s, guid, createEntities, rootTag)
      ensures boneInfoMap == map[] && nodeEntities == []
    {
      meshID := 0;
      boneCount := 0;
      boneInfoMap := map[];
      nodeEntities := [];
      meshEntities := [];
      ProcessNode(s, Options(guid, createEntities, true), s.root, rootTag);
      var boneMap := boneInfoMap;
      var nodes: seq<NodeEntity> := [];
      if createEntities {
        nodes := NodeBones(nodeEntities, boneInfoMap);
      } else {
        NodeStepFacts(s, Options(guid, createEntities, true), Reset(), s.root, rootTag);
      }
      var roots: seq<Component> := [];
      if createEntities {
        roots := RootComponents(guid, boneMap);
      }
      r := LoadedMesh(boneMap, roots, nodes, meshEntities);
      boneInfoMap := map[];
      nodeEntities := [];
    }

    /** loadBones on an imported scene: reset, traverse without entities or
        mesh objects, return the map and clear it. */
    method LoadBones(s: AiScene, guid: string) returns (r: map<string, BoneInfo>)
      requires NodeOk(s, s.root)
      modifies this
      ensures r == LoadBonesResult(s, guid)
      ensures boneInfoMap == map[] && nodeEntities == []
    {
      meshID := 0;
      boneCount := 0;
      boneInfoMap := map[];
      nodeEntities := [];
      meshEntities := [];
      ProcessNode(s, Options(guid, false, false), s.root, None);
      NodeStepFacts(s, Options(guid, false, false), Reset(), s.root, None);
      r := boneInfoMap;
      boneInfoMap := map[];
    }
  }
}
