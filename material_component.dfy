/** MaterialComponent.cpp: the constructor, the texture cache lookup of
    `loadTexture`, `getTexture`, and the default-filling `deserialize`
    with its inverse `serialize`. */
module MaterialComponents {
  import opened Common
  import opened Glm
  import opened Components
  import opened Yaml
  import opened YamlUtils
  import opened Resources

  const MATERIAL_COMPONENT: string := "MaterialComponent"
  const K_GUID: string := "guid"
  const K_IS_EMBEDDED: string := "isEmbedded"
  const K_DIFFUSE_COLOR: string := "diffuseColor"

  /** The colour a material starts with and the one `deserialize` falls
      back to: opaque white. */
  function White(): Vec4 { Vec4(1.0, 1.0, 1.0, 1.0) }

  /** `MaterialComponent(guid, isEmbedded)`: no texture yet, white. */
  function NewMaterial(guid: string, isEmbedded: bool): (m: MaterialComponent)
    ensures m.guid == guid && m.isEmbedded == isEmbedded && m.diffuseColor == White() && m.diffuseTexture == None
  {
    MaterialComponent(None, guid, isEmbedded, White())
  }

  /** `loadTexture`: nothing for an empty guid; otherwise a texture is
      created from the guid's file path and cached only when none is cached
      under the guid, and the component then points at the cached entry.
      The cache lookups use the guid with the default empty fileID. */
  method LoadTexture(rm: ResourceManager, m: MaterialComponent) returns (m': MaterialComponent)
    modifies rm`guidMap, rm`textureDataMap
    ensures m.guid == "" ==> m' == m && unchanged(rm)
    ensures m.guid != "" ==>
      && rm.textureDataMap == (if (m.guid, "") in old(rm.textureDataMap) then old(rm.textureDataMap)
                               else old(rm.textureDataMap)[(m.guid, "") := Some(Texture(Lookup(old(rm.guidMap), m.guid, "")))])
      && m' == m.(diffuseTexture := rm.textureDataMap[(m.guid, "")])
      && rm.guidMap == (if (m.guid, "") in old(rm.textureDataMap) then old(rm.guidMap) else Touched(old(rm.guidMap), m.guid, ""))
  {
    m' := m;
    if m.guid != "" {
      if !rm.HasTextureData(m.guid, "") {
        var path := rm.GetFilePathFromGuid(m.guid);
        rm.StoreTextureData(Texture(path), m.guid, "");
      }
      var t := rm.GetTextureData(m.guid, "");
      m' := m.(diffuseTexture := t);
    }
  }

  /** `getTexture`: fatal while no texture is loaded. */
  function GetTexture(m: MaterialComponent): (r: Result<Texture>)
    ensures r.Fatal? <==> m.diffuseTexture == None
    ensures r.Ok? ==> Some(r.value) == m.diffuseTexture
  {
    if m.diffuseTexture == None then Fatal("Texture is null") else Ok(m.diffuseTexture.value)
  }

  /** `serialize`: an entity with a MaterialComponent writes its guid,
      isEmbedded and diffuse colour under "MaterialComponent". */
  function Serialize(c: map<Kind, Component>): (out: map<string, Node>)
    ensures MATERIAL_COMPONENT in out <==> MaterialKind in c && c[MaterialKind].MaterialC?
  {
    if MaterialKind in c && c[MaterialKind].MaterialC? then
      var m := c[MaterialKind].material;
      map[MATERIAL_COMPONENT := Mapping(map[K_GUID := StrNode(m.guid), K_IS_EMBEDDED := BoolNode(m.isEmbedded),
                                            K_DIFFUSE_COLOR := EncodeVec4(m.diffuseColor)])]
    else map[]
  }

  /** `deserialize`: nothing without a "MaterialComponent" key (None);
      otherwise a new material whose absent fields take the defaults "",
      false and white. A colour node of the wrong shape leaves white; a
      field of the wrong type throws. */
  function Deserialize(node: Node): (r: Result<Option<MaterialComponent>>)
    ensures !Has(node, MATERIAL_COMPONENT) ==> r == Ok(None)
    ensures r.Ok? && r.value.Some? ==> Has(node, MATERIAL_COMPONENT) && r.value.value.diffuseTexture == None
    ensures r.Ok? && r.value.Some? ==>
      var n := Get(node, MATERIAL_COMPONENT);
      && (!Has(n, K_GUID) ==> r.value.value.guid == "")
      && (!Has(n, K_IS_EMBEDDED) ==> !r.value.value.isEmbedded)
      && (!Has(n, K_DIFFUSE_COLOR) || !IsSequenceOf(Get(n, K_DIFFUSE_COLOR), 4) ==> r.value.value.diffuseColor == White())
  {
    if !Has(node, MATERIAL_COMPONENT) then Ok(None)
    else
      var n := Get(node, MATERIAL_COMPONENT);
      var guid :- if Has(n, K_GUID) then AsString(Get(n, K_GUID)) else Ok("");
      var isEmbedded :- if Has(n, K_IS_EMBEDDED) then AsBool(Get(n, K_IS_EMBEDDED)) else Ok(false);
      var color :- if Has(n, K_DIFFUSE_COLOR) then DecodeVec4(Get(n, K_DIFFUSE_COLOR), White()) else Ok((false, White()));
      Ok(Some(NewMaterial(guid, isEmbedded).(diffuseColor := color.1)))
  }

  /** `deserialize(serialize(m))` restores the guid, isEmbedded and colour
      (the texture pointer is runtime state and is not written). */
  lemma SerializeRoundTrip(m: MaterialComponent)
    ensures Deserialize(Mapping(Serialize(map[MaterialKind := MaterialC(m)]))) == Ok(Some(m.(diffuseTexture := None)))
  {
    var n := Get(Mapping(Serialize(map[MaterialKind := MaterialC(m)])), MATERIAL_COMPONENT);
    assert Get(n, K_GUID) == StrNode(m.guid);
    assert Get(n, K_IS_EMBEDDED) == BoolNode(m.isEmbedded);
    assert Get(n, K_DIFFUSE_COLOR) == EncodeVec4(m.diffuseColor);
  }

  /** A component node without any of the three keys gives white, not
      embedded, no guid. */
  lemma EmptyMaterialDefaults(n: Node)
    requires n != Undefined && !Has(n, K_GUID) && !Has(n, K_IS_EMBEDDED) && !Has(n, K_DIFFUSE_COLOR)
    ensures Deserialize(Mapping(map[MATERIAL_COMPONENT := n])) == Ok(Some(NewMaterial("", false)))
  {
    assert Get(Mapping(map[MATERIAL_COMPONENT := n]), MATERIAL_COMPONENT) == n;
  }
}
