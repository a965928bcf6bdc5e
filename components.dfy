/** The data the scene's component pools hold (Component.h, plus the fields
    the component sources use that the header does not declare:
    LightComponent, `rigidBodyIndex`, `shouldBeAddedToWorld`,
    `colliderShapeIndex`). Component-level behaviour lives in the module of
    each component's source file; this module only fixes the shapes and the
    default member initialisers. */
module Components {
  import opened Common
  import opened Glm

  /** entt handle of an entity, or `entt::null`. */
  datatype EntityHandle = NullHandle | Handle(id: nat)

  /** HierarchyComponent: the entity's first child, its previous and next
      sibling, and its parent, all `entt::null` in a new component. */
  datatype Hierarchy = Hierarchy(
    first: EntityHandle,
    prev: EntityHandle,
    next: EntityHandle,
    parent: EntityHandle,
    parentID: string)

  function NewHierarchy(): Hierarchy
  {
    Hierarchy(NullHandle, NullHandle, NullHandle, NullHandle, "")
  }

  /** MeshComponent::MeshType; deserialisation casts any stored integer to
      it, so the model keeps the integer. */
  const PRIMITIVE_SPHERE: int := 0
  const PRIMITIVE_CUBE: int := 1
  const FROM_FILE: int := 2

  datatype BoneInfo = BoneInfo(id: int, offset: Mat4)

  /** What the component's `mesh` pointer refers to. */
  datatype MeshRef = NoMesh | CubeMesh | SphereMesh | StoredMesh(guid: string, fileId: string)

  datatype MeshComponent = MeshComponent(
    meshType: int,
    guid: string,
    fileId: string,
    boneInfoMap: map<string, BoneInfo>,
    boneCount: int,
    mesh: MeshRef,
    needsToLoadBones: bool)

  /** The member initialisers every MeshComponent constructor starts from. */
  function MeshDefaults(): MeshComponent
  {
    MeshComponent(PRIMITIVE_CUBE, "", "", map[], 0, NoMesh, true)
  }

  /** A texture object created from a file path. */
  datatype Texture = Texture(path: string)

  datatype MaterialComponent = MaterialComponent(
    diffuseTexture: Option<Texture>,
    guid: string,
    isEmbedded: bool,
    diffuseColor: Vec4)

  /** LightComponent::LightType is stored as its integer value; the enum's
      declaration is not part of this model, so DIRECTIONAL is taken as 0. */
  const DIRECTIONAL: int := 0

  datatype LightComponent = LightComponent(
    lightType: int,
    cutOff: real,
    outerCutOff: real,
    constant: real,
    linear: real,
    quadratic: real,
    color: Vec3)

  /** CollisionComponent::ColliderType and Axis, as stored integers. */
  const BOX: int := 0
  const AXIS_Y: int := 1

  datatype Collider = Collider(
    colliderType: int,
    offset: Vec3,
    halfExtents: Vec3,
    axis: int,
    height: real,
    radius: real,
    assetGUID: string)

  function DefaultCollider(): Collider
  {
    Collider(BOX, Vec3(0.0, 0.0, 0.0), Vec3(1.0, 1.0, 1.0), AXIS_Y, 1.0, 1.0, "")
  }

  /** RigidBodyComponent::RigidBodyType. */
  const DYNAMIC: int := 1

  datatype RigidBody = RigidBody(
    bodyType: int,
    mass: real,
    linearDamping: real,
    angularDamping: real,
    linearFactor: Vec3,
    angularFactor: Vec3,
    friction: real,
    restitution: real,
    rigidBodyIndex: int,
    shouldBeAddedToWorld: bool)

  /** The member initialisers of RigidBodyComponent; the initial values of
      the two runtime fields are not declared in the header and are taken as
      arguments. */
  function DefaultRigidBody(rigidBodyIndex: int, shouldBeAddedToWorld: bool): RigidBody
  {
    RigidBody(DYNAMIC, 1.0, 0.0, 0.0, Vec3(1.0, 1.0, 1.0), Vec3(1.0, 1.0, 1.0), 0.5, 0.5,
              rigidBodyIndex, shouldBeAddedToWorld)
  }

  /** The type of a component: entt keeps one storage pool per type. */
  datatype Kind =
    | RootKind | IdKind | TagKind | TransformKind | MeshKind | MaterialKind
    | LuaScriptKind | AnimatorKind | BoneKind | CameraKind | SceneCameraKind
    | CollisionKind | RigidBodyKind | LightKind

  /** A component value of any kind except HierarchyComponent, whose pool
      the scene keeps separately. */
  datatype Component =
    | RootC(name: string)
    | IdC(id: string)
    | TagC(tag: string)
    | TransformC(translation: Vec3, rotation: Quat, scale: Vec3)
    | MeshC(mesh: MeshComponent)
    | MaterialC(material: MaterialComponent)
    | LuaScriptC(scriptGuid: string)
    | AnimatorC(animatorGuid: string)
    | BoneC(boneID: int)
    | CameraC(fov: real)
    | SceneCameraC(sceneFov: real)
    | CollisionC(colliders: seq<Collider>, colliderShapeIndex: int)
    | RigidBodyC(body: RigidBody)
    | LightC(light: LightComponent)

  function KindOf(c: Component): Kind
  {
    match c
    case RootC(_) => RootKind
    case IdC(_) => IdKind
    case TagC(_) => TagKind
    case TransformC(_, _, _) => TransformKind
    case MeshC(_) => MeshKind
    case MaterialC(_) => MaterialKind
    case LuaScriptC(_) => LuaScriptKind
    case AnimatorC(_) => AnimatorKind
    case BoneC(_) => BoneKind
    case CameraC(_) => CameraKind
    case SceneCameraC(_) => SceneCameraKind
    case CollisionC(_, _) => CollisionKind
    case RigidBodyC(_) => RigidBodyKind
    case LightC(_) => LightKind
  }

  /** The tag `createEntity` gives an entity: its name, or "Entity" when
      the name is empty. */
  function EntityTag(name: string): (tag: string)
    ensures tag != ""
    ensures name != "" ==> tag == name
  {
    if name == "" then "Entity" else name
  }

  /** `RootComponent()`: named "root". */
  function NewRoot(): Component { RootC("root") }

  /** `TransformComponent()`: no translation, the identity rotation
      (w = 1) and unit scale. */
  function NewTransform(): Component
  {
    TransformC(Vec3(0.0, 0.0, 0.0), Quat(1.0, 0.0, 0.0, 0.0), Vec3(1.0, 1.0, 1.0))
  }
}
