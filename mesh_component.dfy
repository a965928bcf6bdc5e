/** MeshComponent.cpp: the constructors, mesh loading, the
    (guid, fileId) classification of `deserialize`, `serialize`, and
    `changeMeshType`, which also strips references to the old mesh file from
    the entity's subtree. Components are values in the scene's pools; the
    member functions are functions from the old component to the new one. */
module MeshComponents {
  import opened Common
  import opened Components
  import opened Yaml
  import opened SiblingLists
  import opened Subtrees
  import opened SceneGraph
  import opened SceneUtils

  const MESH_COMPONENT: string := "MeshComponent"
  const K_MESH_TYPE: string := "meshType"
  const K_GUID: string := "guid"
  const K_FILE_ID: string := "fileId"

  /** `MeshComponent(guid, fileID)`: a sub-mesh of a mesh file. */
  function SubMesh(guid: string, fileId: string): (m: MeshComponent)
    ensures m.meshType == FROM_FILE && m.guid == guid && m.fileId == fileId
    ensures m.boneInfoMap == map[] && m.boneCount == 0 && m.needsToLoadBones
  {
    MeshDefaults().(meshType := FROM_FILE, guid := guid, fileId := fileId)
  }

  /** `MeshComponent(guid)`: the entity is the parent of a mesh file's
      meshes. */
  function MeshParent(guid: string): (m: MeshComponent)
    ensures m.meshType == FROM_FILE && m.guid == guid && m.fileId == ""
    ensures m.boneInfoMap == map[] && m.boneCount == 0 && m.needsToLoadBones
  {
    MeshDefaults().(meshType := FROM_FILE, guid := guid)
  }

  /** `MeshComponent(guid, boneMap)`: a mesh parent with its skeleton; the
      bone count is the size of the map. */
  function RiggedMeshParent(guid: string, boneMap: map<string, BoneInfo>): (m: MeshComponent)
    ensures m.meshType == FROM_FILE && m.guid == guid && m.fileId == ""
    ensures m.boneInfoMap == boneMap && m.boneCount == |boneMap|
  {
    MeshDefaults().(meshType := FROM_FILE, guid := guid, boneCount := |boneMap|, boneInfoMap := boneMap)
  }

  /** `MeshComponent(meshType, primitiveMeshData)`: only the type is kept;
      the primitive data is ignored. */
  function Primitive(meshType: int): (m: MeshComponent)
    ensures m.meshType == meshType && m.guid == "" && m.fileId == ""
    ensures m.boneInfoMap == map[] && m.boneCount == 0 && m.needsToLoadBones && m.mesh == NoMesh
  {
    MeshDefaults().(meshType := meshType)
  }

  /** `loadMesh`: a sub-mesh points at the resource manager's entry for
      (guid, fileId); a mesh parent that still needs its bones takes the
      bone map the asset loader returns (`loadedBones`) and stops needing
      them; a primitive gets its cube or sphere; an unknown primitive type
      is fatal. */
  function LoadMesh(m: MeshComponent, loadedBones: map<string, BoneInfo>): (r: Result<MeshComponent>)
    ensures r.Fatal? <==> m.meshType != FROM_FILE && m.meshType != PRIMITIVE_CUBE && m.meshType != PRIMITIVE_SPHERE
    ensures r.Ok? ==> r.value.meshType == m.meshType && r.value.guid == m.guid && r.value.fileId == m.fileId
    ensures r.Ok? && m.meshType == FROM_FILE && m.fileId != "" ==> r.value == m.(mesh := StoredMesh(m.guid, m.fileId))
    ensures r.Ok? && m.meshType == FROM_FILE && m.fileId == "" && m.guid != "" && m.needsToLoadBones ==>
      r.value.boneInfoMap == loadedBones && r.value.boneCount == |loadedBones| && !r.value.needsToLoadBones
    ensures r.Ok? && m.meshType == FROM_FILE && m.fileId == "" && !(m.guid != "" && m.needsToLoadBones) ==> r.value == m
    ensures r.Ok? && m.meshType == PRIMITIVE_CUBE ==> r.value == m.(mesh := CubeMesh)
    ensures r.Ok? && m.meshType == PRIMITIVE_SPHERE ==> r.value == m.(mesh := SphereMesh)
  {
    if m.meshType == FROM_FILE then
      if m.fileId != "" then Ok(m.(mesh := StoredMesh(m.guid, m.fileId)))
      else if m.guid != "" && m.needsToLoadBones then
        Ok(m.(boneCount := |loadedBones|, boneInfoMap := loadedBones, needsToLoadBones := false))
      else Ok(m)
    else if m.meshType == PRIMITIVE_CUBE then Ok(m.(mesh := CubeMesh))
    else if m.meshType == PRIMITIVE_SPHERE then Ok(m.(mesh := SphereMesh))
    else Fatal("Unknown primitive mesh type")
  }

  /** A mesh parent loads its bones at most once: a second `loadMesh`
      changes nothing, whatever the loader would return. */
  lemma BonesLoadOnce(m: MeshComponent, first: map<string, BoneInfo>, second: map<string, BoneInfo>)
    requires m.meshType == FROM_FILE && m.fileId == "" && m.guid != ""
    ensures LoadMesh(m, first).Ok?
    ensures LoadMesh(LoadMesh(m, first).value, second) == LoadMesh(m, first)
    ensures m.needsToLoadBones ==> LoadMesh(m, first).value.boneCount == |LoadMesh(m, first).value.boneInfoMap|
  {
  }

  /** `serialize`: an entity with a MeshComponent writes its type, guid and
      fileId under "MeshComponent"; otherwise nothing. */
  function Serialize(c: map<Kind, Component>): (out: map<string, Node>)
    ensures MESH_COMPONENT in out <==> MeshKind in c && c[MeshKind].MeshC?
  {
    if MeshKind in c && c[MeshKind].MeshC? then
      var m := c[MeshKind].mesh;
      map[MESH_COMPONENT := Mapping(map[K_MESH_TYPE := IntNode(m.meshType), K_GUID := StrNode(m.guid), K_FILE_ID := StrNode(m.fileId)])]
    else map[]
  }

  /** The component `deserialize` builds from the three stored fields: a
      primitive when both ids are empty, a sub-mesh when both are set, a
      mesh parent when only the guid is set; a fileId without a guid is
      fatal. */
  function Classify(meshType: int, guid: string, fileId: string): (r: Result<MeshComponent>)
    ensures r.Fatal? <==> guid == "" && fileId != ""
    ensures r.Ok? ==> r.value.guid == guid && r.value.fileId == fileId
    ensures r.Ok? ==> r.value.meshType == if guid == "" then meshType else FROM_FILE
  {
    if guid == "" && fileId == "" then Ok(Primitive(meshType))
    else if guid != "" && fileId != "" then Ok(SubMesh(guid, fileId))
    else if guid != "" then Ok(MeshParent(guid))
    else Fatal("Invalid mesh scene data")
  }

  /** `deserialize` of an entity node: nothing without a "MeshComponent"
      key (None), otherwise the classified component; a missing or
      mistyped field throws. */
  function Deserialize(node: Node): (r: Result<Option<MeshComponent>>)
    ensures !Has(node, MESH_COMPONENT) ==> r == Ok(None)
    ensures r.Ok? && r.value.Some? ==> Has(node, MESH_COMPONENT)
  {
    if !Has(node, MESH_COMPONENT) then Ok(None)
    else
      var n := Get(node, MESH_COMPONENT);
      var meshType :- AsInt(Get(n, K_MESH_TYPE));
      var guid :- AsString(Get(n, K_GUID));
      var fileId :- AsString(Get(n, K_FILE_ID));
      var m :- Classify(meshType, guid, fileId);
      Ok(Some(m))
  }

  /** The components the constructors and `changeMeshType` can produce: a
      guid only on a FROM_FILE mesh, and never a fileId without a guid. */
  predicate Reachable(m: MeshComponent)
  {
    (m.guid != "" ==> m.meshType == FROM_FILE) && !(m.guid == "" && m.fileId != "")
  }

  /** Every constructor yields a reachable component, except a sub-mesh
      with an empty guid and a non-empty fileId. */
  lemma ConstructorsReachable(guid: string, fileId: string, boneMap: map<string, BoneInfo>, meshType: int)
    ensures guid != "" || fileId == "" ==> Reachable(SubMesh(guid, fileId))
    ensures Reachable(MeshParent(guid)) && Reachable(RiggedMeshParent(guid, boneMap)) && Reachable(Primitive(meshType))
  {
  }

  /** `deserialize(serialize(c))` gives back the type, guid and fileId of
      every reachable component. */
  lemma SerializeRoundTrip(m: MeshComponent)
    requires Reachable(m)
    ensures var r := Deserialize(Mapping(Serialize(map[MeshKind := MeshC(m)])));
      r.Ok? && r.value.Some? && r.value.value.meshType == m.meshType && r.value.value.guid == m.guid && r.value.value.fileId == m.fileId
  {
    var n := Mapping(Serialize(map[MeshKind := MeshC(m)]));
    assert Get(Get(n, MESH_COMPONENT), K_MESH_TYPE) == IntNode(m.meshType);
    assert Get(Get(n, MESH_COMPONENT), K_GUID) == StrNode(m.guid);
    assert Get(Get(n, MESH_COMPONENT), K_FILE_ID) == StrNode(m.fileId);
  }

  /** A stored fileId without a guid cannot be read back. */
  lemma FileIdWithoutGuidIsFatal(meshType: int, fileId: string)
    requires fileId != ""
    ensures Deserialize(Mapping(Serialize(map[MeshKind := MeshC(MeshDefaults().(meshType := meshType, fileId := fileId))]))).Fatal?
  {
    var m := MeshDefaults().(meshType := meshType, fileId := fileId);
    var n := Mapping(Serialize(map[MeshKind := MeshC(m)]));
    assert Get(Get(n, MESH_COMPONENT), K_MESH_TYPE) == IntNode(m.meshType);
    assert Get(Get(n, MESH_COMPONENT), K_GUID) == StrNode(m.guid);
    assert Get(Get(n, MESH_COMPONENT), K_FILE_ID) == StrNode(m.fileId);
  }

  /** The component after `changeMeshType(newMeshType)`: the skeleton is
      reset, the ids cleared, the mesh is a new cube or sphere or none for
      FROM_FILE, and the type is the new one; an unknown type is fatal. The
      bone count is left as it was. */
  function ChangedMesh(m: MeshComponent, newMeshType: int): (r: Result<MeshComponent>)
    ensures r.Fatal? <==> newMeshType != PRIMITIVE_CUBE && newMeshType != PRIMITIVE_SPHERE && newMeshType != FROM_FILE
    ensures r.Ok? ==> && r.value.meshType == newMeshType && r.value.guid == "" && r.value.fileId == ""
                      && r.value.boneInfoMap == map[] && r.value.needsToLoadBones && r.value.boneCount == m.boneCount
    ensures r.Ok? ==> Reachable(r.value)
  {
    var reset := m.(boneInfoMap := map[], needsToLoadBones := true, guid := "", fileId := "", meshType := newMeshType);
    if newMeshType == PRIMITIVE_CUBE then Ok(reset.(mesh := CubeMesh))
    else if newMeshType == PRIMITIVE_SPHERE then Ok(reset.(mesh := SphereMesh))
    else if newMeshType == FROM_FILE then Ok(reset.(mesh := NoMesh))
    else Fatal("Unknown new mesh type")
  }

  /** `changeMeshType(newMeshType, entity)` on the MeshComponent of
      `entity` (the case the editor uses): the component is changed, and
      when it was FROM_FILE every entity of the subtree loses its mesh of
      the old file, with its material. An unknown type is fatal and, in the
      model, changes nothing. */
  method ChangeMeshType(scene: Scene, e: nat, newMeshType: int, ghost rank: map<nat, nat>) returns (r: Result<()>)
    requires scene.Valid() && Ranked(scene.kids, rank) && scene.kids.Keys <= rank.Keys
    requires e in scene.hierarchy && MeshKind in scene.components[e]
    modifies scene`components
    ensures scene.Valid()
    ensures r.Fatal? <==> ChangedMesh(old(scene.components[e][MeshKind].mesh), newMeshType).Fatal?
    ensures r.Fatal? ==> scene.components == old(scene.components)
    ensures r.Ok? ==>
      var before := old(scene.components[e][MeshKind].mesh);
      var changed := old(scene.components)[e := old(scene.components[e])[MeshKind := MeshC(ChangedMesh(before, newMeshType).value)]];
      scene.components == if before.meshType == FROM_FILE then StripAll(changed, PreOrder(scene.kids, rank, e), before.guid) else changed
  {
    var m := scene.components[e][MeshKind].mesh;
    var changed := ChangedMesh(m, newMeshType);
    if changed.Fatal? {
      return Fatal(changed.message);
    }
    scene.AddComponent(scene.EntityOf(e), MeshC(changed.value));
    if m.meshType == FROM_FILE {
      RemoveMeshReference(scene, e, m.guid, true, rank);
    }
    r := Ok(());
  }

  /** Changing a FROM_FILE mesh with an empty guid to FROM_FILE again leaves
      a component that refers to the old (empty) guid, so the strip that
      follows removes the entity's own new MeshComponent and its
      material. */
  lemma RefileStripsOwnMesh(m: MeshComponent, c: map<Kind, Component>)
    requires m.meshType == FROM_FILE && m.guid == ""
    ensures ChangedMesh(m, FROM_FILE).Ok?
    ensures Referenced(c[MeshKind := MeshC(ChangedMesh(m, FROM_FILE).value)], m.guid)
    ensures MeshKind !in StripMesh(c[MeshKind := MeshC(ChangedMesh(m, FROM_FILE).value)], m.guid)
  {
  }
}
