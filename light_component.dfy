/** LightComponent.cpp: `serialize` writes the seven fields of an entity's
    light; `deserialize` starts from defaults, overwrites each one whose key
    is present, then adds the component. The LightComponent declaration is
    not part of this model: its key strings are taken to be the member
    names. */
module LightComponents {
  import opened Common
  import opened Glm
  import opened Components
  import opened Yaml
  import opened YamlUtils
  import opened SceneGraph

  const LIGHT_COMPONENT: string := "LightComponent"
  const K_TYPE: string := "type"
  const K_CUT_OFF: string := "cutOff"
  const K_OUTER_CUT_OFF: string := "outerCutOff"
  const K_CONSTANT: string := "constant"
  const K_LINEAR: string := "linear"
  const K_QUADRATIC: string := "quadratic"
  const K_COLOR: string := "color"

  /** The value of a float field: the stored number when the key is
      present, else `default`. */
  function FloatField(n: Node, key: string, default: real): Result<real>
  {
    if Has(n, key) then AsFloat(Get(n, key)) else Ok(default)
  }

  /** The light `deserialize` reads from the component node `n`: type
      DIRECTIONAL, cut-offs and attenuation 0 and colour white for absent
      keys; a colour of the wrong shape stays white. */
  function DecodeLight(n: Node): Result<LightComponent>
  {
    var lightType :- if Has(n, K_TYPE) then AsInt(Get(n, K_TYPE)) else Ok(DIRECTIONAL);
    var cutOff :- FloatField(n, K_CUT_OFF, 0.0);
    var outerCutOff :- FloatField(n, K_OUTER_CUT_OFF, 0.0);
    var constant :- FloatField(n, K_CONSTANT, 0.0);
    var linear :- FloatField(n, K_LINEAR, 0.0);
    var quadratic :- FloatField(n, K_QUADRATIC, 0.0);
    var color :- if Has(n, K_COLOR) then DecodeVec3(Get(n, K_COLOR), Vec3(1.0, 1.0, 1.0)) else Ok((false, Vec3(1.0, 1.0, 1.0)));
    Ok(LightComponent(lightType, cutOff, outerCutOff, constant, linear, quadratic, color.1))
  }

  /** The light an empty component node decodes to. */
  function DefaultLight(): LightComponent
  {
    LightComponent(DIRECTIONAL, 0.0, 0.0, 0.0, 0.0, 0.0, Vec3(1.0, 1.0, 1.0))
  }

  /** `serialize`: the seven fields under "LightComponent", the colour as a
      three-element sequence; nothing for an entity without a light. */
  function Serialize(c: map<Kind, Component>): (out: map<string, Node>)
    ensures LIGHT_COMPONENT in out <==> LightKind in c && c[LightKind].LightC?
    ensures LIGHT_COMPONENT in out ==> out[LIGHT_COMPONENT].Mapping? && |out[LIGHT_COMPONENT].entries| == 7
  {
    if LightKind in c && c[LightKind].LightC? then
      var l := c[LightKind].light;
      var entries := map[K_TYPE := IntNode(l.lightType), K_CUT_OFF := FloatNode(l.cutOff),
                         K_OUTER_CUT_OFF := FloatNode(l.outerCutOff), K_CONSTANT := FloatNode(l.constant),
                         K_LINEAR := FloatNode(l.linear), K_QUADRATIC := FloatNode(l.quadratic),
                         K_COLOR := EncodeVec3(l.color)];
      assert entries.Keys == {K_TYPE, K_CUT_OFF, K_OUTER_CUT_OFF, K_CONSTANT, K_LINEAR, K_QUADRATIC, K_COLOR};
      map[LIGHT_COMPONENT := Mapping(entries)]
    else map[]
  }

  /** `deserialize(serialize(l))` gives back `l`, field for field. */
  lemma SerializeRoundTrip(l: LightComponent)
    ensures DecodeLight(Serialize(map[LightKind := LightC(l)])[LIGHT_COMPONENT]) == Ok(l)
  {
    var n := Serialize(map[LightKind := LightC(l)])[LIGHT_COMPONENT];
    assert Get(n, K_TYPE) == IntNode(l.lightType);
    assert Get(n, K_CUT_OFF) == FloatNode(l.cutOff);
    assert Get(n, K_OUTER_CUT_OFF) == FloatNode(l.outerCutOff);
    assert Get(n, K_CONSTANT) == FloatNode(l.constant);
    assert Get(n, K_LINEAR) == FloatNode(l.linear);
    assert Get(n, K_QUADRATIC) == FloatNode(l.quadratic);
    assert Get(n, K_COLOR) == EncodeVec3(l.color);
  }

  /** Absent keys take the defaults, and a present key overrides only its
      own field: a node with none of the other keys reads as the default
      light, with its cut-off when it has one. */
  lemma DecodeDefaults(n: Node, cutOff: real)
    requires !Has(n, K_TYPE) && !Has(n, K_OUTER_CUT_OFF) && !Has(n, K_CONSTANT)
    requires !Has(n, K_LINEAR) && !Has(n, K_QUADRATIC) && !Has(n, K_COLOR)
    ensures !Has(n, K_CUT_OFF) ==> DecodeLight(n) == Ok(DefaultLight())
    ensures Has(n, K_CUT_OFF) && Get(n, K_CUT_OFF) == FloatNode(cutOff) ==>
      DecodeLight(n) == Ok(DefaultLight().(cutOff := cutOff))
  {
  }

  /** `deserialize(node, entity)`: when `node` has a "LightComponent" key,
      the entity's light becomes the decoded one (added or replaced); a
      field of the wrong type throws before anything is added. */
  method Deserialize(scene: Scene, e: nat, node: Node) returns (r: Result<()>)
    requires scene.Valid() && e in scene.components
    modifies scene`components
    ensures scene.Valid()
    ensures r.Fatal? <==> Has(node, LIGHT_COMPONENT) && DecodeLight(Get(node, LIGHT_COMPONENT)).Fatal?
    ensures r.Ok? && Has(node, LIGHT_COMPONENT) ==>
      scene.components == old(scene.components)[e := old(scene.components[e])[LightKind := LightC(DecodeLight(Get(node, LIGHT_COMPONENT)).value)]]
    ensures r.Fatal? || !Has(node, LIGHT_COMPONENT) ==> scene.components == old(scene.components)
  {
    if !Has(node, LIGHT_COMPONENT) {
      return Ok(());
    }
    var n := Get(node, LIGHT_COMPONENT);
    var lightType := DIRECTIONAL;
    if Has(n, K_TYPE) {
      var t :- AsInt(Get(n, K_TYPE));
      lightType := t;
    }
    var cutOff := 0.0;
    if Has(n, K_CUT_OFF) {
      var f :- AsFloat(Get(n, K_CUT_OFF));
      cutOff := f;
    }
    var outerCutOff := 0.0;
    if Has(n, K_OUTER_CUT_OFF) {
      var f :- AsFloat(Get(n, K_OUTER_CUT_OFF));
      outerCutOff := f;
    }
    var constant := 0.0;
    if Has(n, K_CONSTANT) {
      var f :- AsFloat(Get(n, K_CONSTANT));
      constant := f;
    }
    var linear := 0.0;
    if Has(n, K_LINEAR) {
      var f :- AsFloat(Get(n, K_LINEAR));
      linear := f;
    }
    var quadratic := 0.0;
    if Has(n, K_QUADRATIC) {
      var f :- AsFloat(Get(n, K_QUADRATIC));
      quadratic := f;
    }
    var color := Vec3(1.0, 1.0, 1.0);
    if Has(n, K_COLOR) {
      var d :- DecodeVec3(Get(n, K_COLOR), color);
      color := d.1;
    }
    scene.AddComponent(scene.EntityOf(e), LightC(LightComponent(lightType, cutOff, outerCutOff, constant, linear, quadratic, color)));
    r := Ok(());
  }
}
