# Dream engine core, modelled in Dafny

Dream is a C++ 3D engine and editor. Its runtime keeps a scene as an
`entt` registry of entities, and each entity carries components: an ID, a
transform, a tag, a place in the entity hierarchy, a mesh, a material, a
light, a collider, a rigid body and an animator. Scenes, animator state
machines and component data are saved as YAML documents. This project
models the engine's core in Dafny and proves what that code promises.

- **Scene graph** (`scene.dfy`, `entity.dfy`, `sibling_lists.dfy`,
  `subtrees.dfy`, `scene_utils.dfy`). The registry is a map from entity
  handles to their components. Each entity's children form a doubly linked
  sibling list, threaded through its HierarchyComponent. A ghost map of
  child sequences is kept equal to those links, so that adding and removing
  a child can be specified by sequence operations. The model covers entity
  creation, the unique root, the recursive `removeEntity`, the lookups,
  scene serialization in pre-order, and the order of system calls in
  `update` and `fixedUpdate`.
- **Components** (`components.dfy`, `mesh_component.dfy`,
  `material_component.dfy`, `light_component.dfy`,
  `collision_component.dfy`). These are the component records with their
  defaults, each with its YAML `serialize`/`deserialize`, and the mesh
  component's change of mesh type.
- **Assets** (`asset_loader.dfy`, `mesh_data.dfy`, `assimp.dfy`,
  `resource_manager.dfy`, `sphere_mesh.dfy`, `triangle_list.dfy`). The
  Assimp node walk is modelled by the ordered tags of the entities it
  creates and the components it gives them. Bones are numbered densely, and
  vertex weights fill at most four slots. The resource manager caches mesh
  data and textures by GUID and file id. The generated sphere and
  triangle-list meshes are also modelled.
- **Animation** (`animation.dfy`, `animation_bone.dfy`, `animator.dfy`,
  `animator_graph.dfy`). This covers keyframe lookup, the bones an
  animation adds to a mesh, and the animator's state machine with its
  transition conditions. It also covers the editor's node graph for that
  machine: pin ids, links, and the removal of states and variables with
  the index bookkeeping those removals require.
- **Physics** (`physics.dfy`). The physics component system's update
  loop and rigid-body lifecycle are modelled over a world the model
  represents as sets of bodies.
- **Support** (`yaml.dfy`, `yaml_utils.dfy`, `glm.dfy`, `common.dfy`,
  `string_utils.dfy`, `input.dfy`, `log_collector.dfy`, `application.dfy`,
  `project_view.dfy`). These are the YAML node model and the
  vector/matrix/quaternion converters, C++ integer division, string
  helpers, the input state, the bounded log buffer, the fixed-timestep
  game loop, and the project view's new-file naming.

Floating-point values are modelled as Dafny reals. Where behaviour depends
on the environment, it is a parameter: the clock, the window, file
existence, hashing and uuids. `Logger::fatal` aborts the program, and it is
modelled as a `Fatal` result that leaves the state unchanged.

The component defaults the model uses come from
`dream/include/dream/scene/component/Component.h`:

- `Components.NewHierarchy` is the default at lines 82-88;
- `Components.NewTransform` is the default at lines 107-111;
- `Components.MeshDefaults` is the default at lines 130-141;
- `Components.DefaultCollider` and `Components.DefaultRigidBody` are the
  defaults at lines 392-456.

## Model

| member | source | states |
|---|---|---|
| Entities.NullEntityIsFalse | dream/src/scene/Entity.cpp:23-34 | the default entity (null handle, no scene) converts to false and is not valid |
| Entities.ValidIsStricterThanTruthy | dream/src/scene/Entity.cpp:104-107 | a valid entity converts to true, but a non-null handle in no scene converts to true and is not valid |
| Entities.EqualityIsFieldwise | dream/src/scene/Entity.cpp:36-42 | `==` holds iff handle and scene are equal, `!=` is its negation, and the scene matters even between true entities |
| SceneGraph.Scene.constructor | dream/src/scene/Scene.cpp:27-38 | a new scene has an empty registry, no system calls, and well-formed (empty) sibling lists |
| SceneGraph.Scene.GetComponent | dream/include/dream/scene/Entity.h:39-45 | fatal iff the entity has no component of the kind; otherwise the stored component, which is of that kind |
| SceneGraph.Scene.GetID | dream/src/scene/Entity.cpp:100-102 | fatal without an IDComponent; otherwise the id stored in it |
| SceneGraph.Scene.AddComponent | dream/include/dream/scene/Entity.h:34-38 | emplace-or-replace: afterwards `getComponent` of that kind gives the new component and every other kind reads as before |
| SceneGraph.Scene.RemoveComponent | dream/include/dream/scene/Entity.h:54-60 | fatal (nothing changes) iff the kind is absent; otherwise exactly that kind is removed and every other kind reads as before |
| SceneGraph.Scene.ChildCount | dream/src/scene/component/HierarchyComponent.cpp:30-38 | the length of the chain from `first` along `next` is the number of children in the parent's list |
| SceneGraph.Scene.Unlink | dream/src/scene/component/HierarchyComponent.cpp:45-62 | the link writes of `removeChild`: head case moves `first` to the child's `next` and clears that sibling's `prev`; otherwise `prev.next := next`, `next.prev := prev` |
| SceneGraph.Scene.RemoveChild | dream/src/scene/component/HierarchyComponent.cpp:40-63 | fatal iff the child is null; otherwise the child leaves exactly the parent's list, the lists stay well formed, and the child's own `prev`/`next`/`parent` and every parent link are unchanged |
| SceneGraph.Scene.Link | dream/src/scene/component/HierarchyComponent.cpp:73-101 | the link writes of `addChild`: at the front, at the back after walking to the last sibling, or as the only child, then `parent` and `parentID` |
| SceneGraph.Scene.Adopt | dream/src/scene/component/HierarchyComponent.cpp:73-101 | a detached child joins the new parent's list at the front or back, the lists stay well formed, and only the child's parent link changes |
| SceneGraph.Scene.AddChild | dream/src/scene/component/HierarchyComponent.cpp:65-105 | fatal iff child or parent is null, either lacks a HierarchyComponent, or the parent has no ID; otherwise the children become `Reattached` (the child leaves its old list and joins the new one at the front or back), its parent is the new parent and its `parentID` the parent's ID |
| SceneGraph.Scene.EntityAddChild | dream/src/scene/Entity.cpp:48-50 | `addChild` on this entity's HierarchyComponent with this entity as parent; the same outcome as `AddChild` |
| SceneGraph.Scene.EntityNumChildren | dream/src/scene/Entity.cpp:52-54 | fatal without a HierarchyComponent; otherwise the number of children |
| SceneGraph.Scene.SerializeEntity | dream/src/scene/Entity.cpp:56-79 | the IDs written are those of the subtree in pre-order: the entity, then each child's subtree from `first` along `next` |
| SceneGraph.Scene.StoreFresh | dream/src/scene/Scene.cpp:53-63 | the new handle was not in use; it now holds exactly the given components and the next handle moves past it |
| SceneGraph.Scene.AddHierarchy | dream/src/scene/Scene.cpp:64 | the entity gains an empty HierarchyComponent and no children, and the sibling lists stay well formed |
| SceneGraph.Scene.NewEntity | dream/src/scene/Scene.cpp:52-64 | a fresh handle gets exactly ID, transform, tag and an empty HierarchyComponent; roots and their properties are unchanged |
| SceneGraph.Scene.EntityComponents | dream/src/scene/Scene.cpp:55-62 | the components added are ID, identity transform and tag "Entity", replaced by the name when non-empty |
| Components.EntityTag | dream/src/scene/Scene.cpp:58-61 | a created entity's tag is never empty: its name when it has one, otherwise "Entity" |
| SceneGraph.Scene.GetRootEntity | dream/src/scene/Scene.cpp:107-119 | fatal iff more than one root; the unique root is returned unchanged; with none, a fresh entity "root" is created and marked as the only root |
| SceneGraph.Scene.NewRootEntity | dream/src/scene/Scene.cpp:109-112 | in a scene without root, the new "root" entity is the only root and can adopt children |
| SceneGraph.Scene.SerializeScene | dream/src/scene/Scene.cpp:134-141 | fatal iff more than one root; otherwise "main-scene" with the pre-order IDs of the root's subtree |
| SceneGraph.Scene.Find | dream/src/scene/Scene.cpp:143-192 | the shared lookup loop: the null entity iff no entity matches; otherwise a matching entity of this scene |
| SceneGraph.Scene.GetEntityById | dream/src/scene/Scene.cpp:143-152 | null iff no IDComponent holds `id`; otherwise an entity whose ID is `id` |
| SceneGraph.Scene.GetEntityByTag | dream/src/scene/Scene.cpp:154-163 | null iff no TagComponent holds `tag`; otherwise an entity with that tag |
| SceneGraph.Scene.GetEntityByInternalId | dream/src/scene/Scene.cpp:165-174 | the entity with that handle if it has an IDComponent, else null |
| SceneGraph.Scene.GetSceneCamera | dream/src/scene/Scene.cpp:176-183 | null iff no entity has a SceneCameraComponent; otherwise one that has |
| SceneGraph.Scene.GetMainCamera | dream/src/scene/Scene.cpp:185-192 | null iff no entity has a CameraComponent; otherwise one that has |
| SceneGraph.Scene.Update | dream/src/scene/Scene.cpp:72-81 | the calls made are the four inits (only when the flag was set) then the animator update; the flag ends cleared |
| SceneGraph.InitOnce | dream/src/scene/Scene.cpp:72-81 | over any number of `update` calls each system is initialised exactly once if the flag was set (never otherwise) and the animator is updated once per call |
| SceneGraph.OnlyAnimatorSteps | dream/src/scene/Scene.cpp:80 | `update` steps no system but the animator |
| SceneGraph.InitBeforeUpdate | dream/src/scene/Scene.cpp:73-80 | physics, animator, audio and Lua are initialised, in that order, before the first animator update |
| SceneGraph.Scene.FixedUpdate | dream/src/scene/Scene.cpp:83-105 | physics/audio/Lua step only when playing and initialised; the main camera (playing) or scene camera (editing, via input when the editor renderer is active) is updated if there is one; mouse movement and scroll end at zero |
| SceneGraph.Scene.AddUnderRoot | dream/src/scene/Scene.cpp:66-68 | fatal iff several roots, or one root that cannot adopt; otherwise the new entity's parent is the only root and it is at the front (or back) of the root's children |
| SceneGraph.Scene.AttachToRoot | dream/src/scene/Scene.cpp:67 | `addChild` under a known root: fatal iff the root lacks a HierarchyComponent or an ID; otherwise the entity joins the root's list at the front or back |
| SceneGraph.Scene.CreateEntity | dream/src/scene/Scene.cpp:52-70 | the new entity has exactly ID, transform, tag (name or "Entity") and hierarchy; unless it is the root it is first (or last) among the root's children; fatal exactly when `getRootEntity` or `addChild` is |
| SceneGraph.Scene.RemoveNextChild | dream/src/scene/Scene.cpp:123-127 | one loop turn: the next sibling is read before the child's subtree is removed, and the walk advances by one child |
| SceneGraph.Scene.RemoveChildren | dream/src/scene/Scene.cpp:122-127 | afterwards exactly the subtrees of the former children are gone, parent links of the survivors are unchanged and the lists stay well formed |
| SceneGraph.Scene.RemoveEntity | dream/src/scene/Scene.cpp:121-132 | fatal iff the entity has no hierarchy or is a non-root without parent; otherwise its whole pre-order subtree is dropped and it leaves its parent's list |
| SceneGraph.Scene.DestroyEntity | dream/src/scene/Scene.cpp:128-131 | once the children are gone, the entity leaves its parent's list unless it is a root and is destroyed with its components |
| SceneGraph.Scene.Erase | dream/src/scene/Scene.cpp:131 | `destroy` of an entity on no list and without children removes it from every pool and keeps the lists well formed |
| SceneGraph.Scene.LeaveParent | dream/src/scene/Scene.cpp:128-130 | a non-root leaves its parent's list; a root is on none |
| SceneGraph.IdsOfAppend | dream/src/scene/Entity.cpp:72-78 | the IDs of a concatenation are the concatenation of the IDs |
| SceneGraph.SerializeStep | dream/src/scene/Entity.cpp:74-78 | one loop turn of `serialize` appends exactly the next child's subtree |
| SceneGraph.RootKeepsRanked | dream/src/scene/Scene.cpp:107-112 | `getRootEntity` keeps the hierarchy acyclic and every listed entity identified |
| SceneGraph.FreshEntityKeepsRoots | dream/src/scene/Scene.cpp:53-64 | a new entity without RootComponent changes neither the set of roots nor whether they can adopt, and keeps roots unparented |
| SceneGraph.MarkRootFacts | dream/src/scene/Scene.cpp:110-111 | marking the new unparented entity as root makes it the only root, able to adopt, and keeps roots unparented |
| SiblingLists.DetachUnparented | dream/src/scene/component/HierarchyComponent.cpp:68-71 | an entity with a null parent is on no list |
| SiblingLists.ListedChild | dream/src/scene/component/HierarchyComponent.cpp:68-70 | every entity on a list has a HierarchyComponent naming that parent, and so do its neighbours |
| SiblingLists.RemoveHeadKeepsLists | dream/src/scene/component/HierarchyComponent.cpp:45-52 | removing the head takes exactly it off the list, keeping parent links and the child's own links |
| SiblingLists.RemoveInnerKeepsLists | dream/src/scene/component/HierarchyComponent.cpp:53-62 | removing an inner child splices its neighbours and takes exactly it off the list |
| SiblingLists.UnlinkInnerFrame | dream/src/scene/component/HierarchyComponent.cpp:54-61 | the splice touches only the neighbours' sibling links |
| SiblingLists.UnlinkedKeepsLists | dream/src/scene/component/HierarchyComponent.cpp:40-63 | `removeChild` of any listed child takes exactly it off the list and keeps every parent link |
| SiblingLists.InsertFrontKeepsLists | dream/src/scene/component/HierarchyComponent.cpp:76-82 | front insertion makes the child the head of the new list |
| SiblingLists.InsertBackKeepsLists | dream/src/scene/component/HierarchyComponent.cpp:84-91 | back insertion makes the child the last of the new list |
| SiblingLists.InsertOnlyKeepsLists | dream/src/scene/component/HierarchyComponent.cpp:93-98 | insertion into an empty list makes the child the only child |
| SiblingLists.FrontLinks | dream/src/scene/component/HierarchyComponent.cpp:76-82 | at the head: `first` is the child, its `prev` is null, its `next` is the former head, which points back to it |
| SiblingLists.BackLinks | dream/src/scene/component/HierarchyComponent.cpp:84-91 | at the end: the former last sibling's `next` is the child, whose `prev` points back and whose `next` is null |
| SiblingLists.AttachParents | dream/src/scene/component/HierarchyComponent.cpp:100-101 | `addChild` changes `parent` and `parentID` of the child only |
| SiblingLists.AttachKeepsLists | dream/src/scene/component/HierarchyComponent.cpp:73-101 | a detached child ends at the front or back of the new parent's list and nowhere else |
| SiblingLists.AddFreshKeepsLists | dream/src/scene/Scene.cpp:64 | a new HierarchyComponent is on no list and has no children |
| SiblingLists.DestroyKeepsLists | dream/src/scene/Scene.cpp:131 | destroying a detached, childless entity keeps the lists well formed |
| SiblingLists.ListsClosed | dream/src/scene/component/HierarchyComponent.cpp:33-36 | every entry of a list is an entity with a HierarchyComponent |
| SiblingLists.ListsUniqueParents | dream/src/scene/component/HierarchyComponent.cpp:68-70 | no entity is on two lists: its `parent` names the only one |
| SiblingLists.Reattached | dream/src/scene/component/HierarchyComponent.cpp:65-101 | the children after `addChild`: the child is in the new parent's list, first when `atStart`, last otherwise |
| Subtrees.InPreOrderAll | dream/src/scene/Entity.cpp:74-78 | an entity is in the subtrees of a list iff it is in the subtree of one of them |
| Subtrees.PreOrderDisjoint | dream/src/scene/Scene.cpp:121-127 | two subtrees neither of whose roots lies in the other are disjoint |
| Subtrees.SiblingsDisjoint | dream/src/scene/Scene.cpp:123-127 | the subtrees of two different children are disjoint and hold neither the parent |
| Subtrees.PreOrderDistinct | dream/src/scene/Entity.cpp:56-79 | the pre-order walk visits no entity twice |
| Subtrees.WalkStep | dream/src/scene/Scene.cpp:123-127 | the next child's subtree shares nothing with the parent or the subtrees already removed |
| Subtrees.UnlistKeepsRanked | dream/src/scene/Scene.cpp:128-131 | leaving the parent's list and being destroyed keeps the hierarchy acyclic |
| Subtrees.RemoveWalkStep | dream/src/scene/Scene.cpp:123-127 | removing child j's subtree advances the walk by exactly that subtree |
| Subtrees.RemoveWalkEnd | dream/src/scene/Scene.cpp:121-132 | with every child's subtree gone, leaving the list and destroying the entity removes exactly its pre-order subtree |
| Animations.NodeDataMirrors | dream/src/renderer/Animation.cpp:94-106 | the copied node tree has the source's name, transform and child count at every node, and it is the only tree that does |
| Animations.ReadHierarchyData | dream/src/renderer/Animation.cpp:94-106 | the copy of the node tree, children appended in order, equals the recursive mirror of the source tree |
| Animations.WithChannelsFacts | dream/src/renderer/Animation.cpp:79-87 | adding the channels' missing bones keeps every existing entry, keeps the ids dense, and puts every channel's bone name in the map |
| Animations.MeshWithChannels | dream/src/renderer/Animation.cpp:75-91 | `readMissingBones` changes only the mesh component's bone map and counter |
| Animations.TruncateToInt | dream/src/renderer/Animation.cpp:34 | the float-to-int conversion truncates toward zero |
| Animations.CheckIndex | dream/src/renderer/Animation.cpp:29-31 | fatal iff the file has no animation at `index` (a negative index too, as the comparison is unsigned) |
| Animations.Animation.constructor | dream/src/renderer/Animation.cpp:32-38 | duration, ticks per second (truncated), name and node tree come from the chosen animation; no bones yet |
| Animations.Animation.FindBone | dream/src/renderer/Animation.cpp:42-50 | the first bone with the name, or none iff no bone has it |
| Animations.Animation.ReadMissingBones | dream/src/renderer/Animation.cpp:72-92 | one new bone per channel in channel order, each with its channel's keys and the id its name has in the updated map; a name missing from the mesh's map takes the counter, which advances; the animation's map is the mesh's updated map |
| Animations.LoadAnimation | dream/src/renderer/Animation.cpp:24-40 | fatal (mesh unchanged) iff the index is out of range; otherwise every channel's bone is found by name with the id the updated mesh map gives it |
| AnimationBones.PositionKeys | dream/src/renderer/AnimationBone.cpp:24-33 | the position keys copied in channel order, value and time each |
| AnimationBones.RotationKeys | dream/src/renderer/AnimationBone.cpp:35-43 | the rotation keys copied in channel order |
| AnimationBones.ScaleKeys | dream/src/renderer/AnimationBone.cpp:45-53 | the scaling keys copied in channel order |
| AnimationBones.KeyIndex | dream/src/renderer/AnimationBone.cpp:75-81 | the least index whose next key lies after `t` |
| AnimationBones.SomeKeyAfterIffBeforeLast | dream/src/renderer/AnimationBone.cpp:75-80 | on increasing key times the search returns (does not reach `assert(0)`) iff there are two keys and `t` is before the last |
| AnimationBones.KeyIndexBrackets | dream/src/renderer/AnimationBone.cpp:75-81 | for a time from the first key on, the index found is the unique key interval holding `t` |
| AnimationBones.AnimationBone.constructor | dream/src/renderer/AnimationBone.cpp:22-54 | name, id, identity local transform, and the three key tracks copied in order |
| AnimationBones.AnimationBone.GetPositionIndex | dream/src/renderer/AnimationBone.cpp:75-81 | the search loop returns `KeyIndex` of the position times |
| AnimationBones.AnimationBone.GetRotationIndex | dream/src/renderer/AnimationBone.cpp:83-90 | the search loop returns `KeyIndex` of the rotation times |
| AnimationBones.AnimationBone.GetScaleIndex | dream/src/renderer/AnimationBone.cpp:92-99 | the search loop returns `KeyIndex` of the scaling times |
| AnimationBones.AnimationBone.PositionKeysAt | dream/src/renderer/AnimationBone.cpp:109-116 | a single key is used alone for any time; otherwise the found key and the next one, both in range |
| AnimationBones.AnimationBone.RotationKeysAt | dream/src/renderer/AnimationBone.cpp:121-130 | the same rule for rotations |
| AnimationBones.AnimationBone.ScaleKeysAt | dream/src/renderer/AnimationBone.cpp:137-144 | the same rule for scalings |
| MeshData.ClearBoneSlots | dream/src/project/OpenGLAssetLoader.cpp:163-166 | every slot of the vertex gets id -1 and weight 0 |
| AssetLoaders.FirstFree | dream/src/project/OpenGLAssetLoader.cpp:112-113 | the first slot with a negative id, every earlier one taken, or none |
| AssetLoaders.SetVertexBoneData | dream/src/project/OpenGLAssetLoader.cpp:111-119 | the first free slot takes the id and weight and the loop stops; with no free slot the vertex is unchanged |
| AssetLoaders.AttachAllFillsInOrder | dream/src/project/OpenGLAssetLoader.cpp:111-119 | from a cleared vertex, successive attachments fill slots 0, 1, ... in order and anything past MAX_BONE_INFLUENCE is dropped |
| AssetLoaders.Cleared | dream/src/project/OpenGLAssetLoader.cpp:163-168 | `n` vertices, every slot free |
| AssetLoaders.InitVertices | dream/src/project/OpenGLAssetLoader.cpp:127-169 | the vertex loop yields `n` cleared vertices |
| AssetLoaders.Register | dream/src/project/OpenGLAssetLoader.cpp:271-281 | an unseen bone name takes the counter as id and the counter advances; a seen name keeps its entry; no other entry changes |
| AssetLoaders.RegisterKeepsDense | dream/src/project/OpenGLAssetLoader.cpp:272-278 | registration keeps the ids distinct and below the counter |
| AssetLoaders.AllocateKeepsDense | dream/src/project/OpenGLAssetLoader.cpp:269-281 | all of a mesh's bones are registered, entries are kept, and ids stay dense |
| AssetLoaders.AllocateKeepsEntries | dream/src/project/OpenGLAssetLoader.cpp:269-281 | an entry, once made, is never changed by later bones; the counter never goes down |
| AssetLoaders.AllocateStep | dream/src/project/OpenGLAssetLoader.cpp:269-281 | each loop turn registers exactly the next bone |
| AssetLoaders.FirstSeenOrder | dream/src/project/OpenGLAssetLoader.cpp:272-278 | a name first met earlier gets a smaller id than one first met later |
| AssetLoaders.NewNameId | dream/src/project/OpenGLAssetLoader.cpp:274-278 | a name first met at position k gets the counter as it was before k |
| AssetLoaders.CountGrows | dream/src/project/OpenGLAssetLoader.cpp:278 | the counter is monotone along the bones |
| AssetLoaders.AllocateKeepsEntry | dream/src/project/OpenGLAssetLoader.cpp:279-281 | a name's entry after a prefix of the bones is its final entry |
| AssetLoaders.Spread | dream/src/project/OpenGLAssetLoader.cpp:286-291 | one bone's weights attached to their vertices, vertex count and slot shape kept |
| AssetLoaders.Weighted | dream/src/project/OpenGLAssetLoader.cpp:269-292 | the vertices after every bone's weights, with the ids the allocation gives, count and shape kept |
| AssetLoaders.GuardAdmitsPastTheEnd | dream/src/project/OpenGLAssetLoader.cpp:289 | one vertex and a weight on vertex 1: the guard as written lets it through, though vertex 1 does not exist |
| AssetLoaders.MeshMaterial | dream/src/project/OpenGLAssetLoader.cpp:185-261 | the material is the mesh's diffuse colour with the last diffuse texture's guid (empty without texture); it is embedded iff that texture is embedded and mesh objects are created |
| AssetLoaders.MeshStep | dream/src/project/OpenGLAssetLoader.cpp:121-263 | `processMesh` increments the mesh counter and leaves the node entities alone; with entities, the mesh entity it adds is tagged as `createEntity` tags it (the mesh name, or "Entity") |
| AssetLoaders.MeshesStepKeeps | dream/src/project/OpenGLAssetLoader.cpp:94-100 | the mesh loop keeps the node entities and the dense ids, and without entities creates no mesh entity |
| AssetLoaders.NodeStepFacts | dream/src/project/OpenGLAssetLoader.cpp:82-109 | `processNode` keeps ids dense and appends the subtree's node tags in depth-first order (root first) iff entities are created; a created node is tagged by its name, or "Entity" when it has none |
| AssetLoaders.NodeTagsNamed | dream/src/project/OpenGLAssetLoader.cpp:86-91 | no created node entity has an empty tag, and a named created node is tagged by its own name |
| AssetLoaders.ChildTagsNamed | dream/src/project/OpenGLAssetLoader.cpp:102-108 | the tags of a node's children's subtrees are all non-empty |
| AssetLoaders.ChildrenStepFacts | dream/src/project/OpenGLAssetLoader.cpp:102-107 | the child loop appends the children's subtrees' tags in order |
| AssetLoaders.BonesIgnoreEntities | dream/src/project/OpenGLAssetLoader.cpp:82-109 | the bone map and mesh counter a traversal ends with do not depend on whether entities or mesh objects are created |
| AssetLoaders.MeshesIgnoreEntities | dream/src/project/OpenGLAssetLoader.cpp:94-100 | the same for the mesh loop |
| AssetLoaders.ChildrenIgnoreEntities | dream/src/project/OpenGLAssetLoader.cpp:102-107 | the same for the child loop |
| AssetLoaders.RootComponents | dream/src/project/OpenGLAssetLoader.cpp:69-78 | a model without bones gets a mesh parent; a rigged one gets a mesh parent with the bone map, then an animator |
| AssetLoaders.NodeBones | dream/src/project/OpenGLAssetLoader.cpp:57-66 | each node entity gets a bone component iff its tag names a bone, with that bone's id |
| AssetLoaders.LoadMeshFacts | dream/src/project/OpenGLAssetLoader.cpp:34-80 | `loadBones` returns the same map as `loadMesh`; the ids are 0..n-1; a rigged root carries the map with its bone count and an animator; the node entities are the nodes in depth-first order |
| AssetLoaders.AssetLoader.constructor | dream/src/project/OpenGLAssetLoader.cpp:49-52 | a new loader is in the reset state |
| AssetLoaders.AssetLoader.ExtractBoneWeights | dream/src/project/OpenGLAssetLoader.cpp:265-293 | the map and counter become the allocation of the mesh's bones, and the vertices their `Weighted` image; weights must name existing vertices |
| AssetLoaders.AssetLoader.ProcessMesh | dream/src/project/OpenGLAssetLoader.cpp:121-263 | the loader state advances by `MeshStep` (a mesh entity tagged by its name, or "Entity"); the vertices are `n` cleared vertices with the bone weights attached |
| AssetLoaders.AssetLoader.ProcessNode | dream/src/project/OpenGLAssetLoader.cpp:82-109 | the loader state advances by the node's traversal: its entity (the root passed in, or one tagged by the node name or "Entity"), its meshes, then its children |
| AssetLoaders.AssetLoader.LoadMesh | dream/src/project/OpenGLAssetLoader.cpp:34-80 | the result of `LoadMeshResult` (so every fact of `LoadMeshFacts`); the map and node list end cleared |
| AssetLoaders.AssetLoader.LoadBones | dream/src/project/OpenGLAssetLoader.cpp:295-319 | the result of the traversal without entities or mesh objects; the map ends cleared |
| Animators.Evaluate | dream/src/scene/component/AnimatorComponent.cpp:88-111 | a condition fails exactly when an operand index is neither -1 nor a variable (`at` throws) or the operator is unknown; `==` on two literals compares them |
| Animators.NegatedOperators | dream/src/scene/component/AnimatorComponent.cpp:97-108 | `!=`, `<=` and `>=` are the negations of `==`, `>` and `<` |
| Animators.AllPass | dream/src/scene/component/AnimatorComponent.cpp:86-115 | every condition is evaluated (no short cut); the transition passes iff all hold; the first failing condition's error is the result |
| Animators.AllPassFails | dream/src/scene/component/AnimatorComponent.cpp:87-115 | a failing condition after evaluable ones is the loop's failure |
| Animators.ConditionsPass | dream/src/scene/component/AnimatorComponent.cpp:86-115 | the condition loop computes `AllPass` |
| Animators.SelectFrom | dream/src/scene/component/AnimatorComponent.cpp:84-130 | the first transition, in list order, that leaves the current state with all conditions true; none iff every transition is passed over; an error comes from a leaving transition's condition |
| Animators.SelectLoop | dream/src/scene/component/AnimatorComponent.cpp:84-130 | the transition loop with its `break` computes `SelectFrom` |
| Animators.SelectFindsFirst | dream/src/scene/component/AnimatorComponent.cpp:116-128 | the first taken transition is the one selected |
| Animators.SelectFindsNone | dream/src/scene/component/AnimatorComponent.cpp:84-130 | with every transition passed over, none is selected |
| Animators.Step | dream/src/scene/component/AnimatorComponent.cpp:83-131 | an unsettled machine (no state, or blending) is unchanged; any change is the firing of the first taken transition; errors come only from a leaving transition's condition |
| Animators.StepFires | dream/src/scene/component/AnimatorComponent.cpp:116-125 | once the state has played often enough, the first taken transition fires: next state, blend factor 0 or 1, play count and (without blend) clocks reset |
| Animators.StepBlocked | dream/src/scene/component/AnimatorComponent.cpp:117-118 | a play-once state not yet played blocks the first taken transition, and the machine stays |
| Animators.StepStays | dream/src/scene/component/AnimatorComponent.cpp:84-130 | with no taken transition the machine stays |
| Animators.IndexOfName | dream/src/scene/component/AnimatorComponent.cpp:244-246 | `std::find`: -1 iff the name is absent, otherwise its first position |
| Animators.EncodeAnimatorFile | dream/src/editor/ImGuiEditorAnimatorGraph.cpp:304-355 | the written document has exactly the keys States, Transitions and Variables, one item per state, transition and variable |
| Animators.DecodeCondition | dream/src/scene/component/AnimatorComponent.cpp:184-190 | every absent condition field takes its default: an empty map reads as `-1, 0, "==", -1, 0` |
| Animators.DecodeAnimatorFile | dream/src/scene/component/AnimatorComponent.cpp:169-211 | on success one state per state item, one transition per transition item, and as many values as variable names |
| Animators.StateRoundTrip | dream/src/editor/ImGuiEditorAnimatorGraph.cpp:315-321 | a written state reads back as itself |
| Animators.ConditionRoundTrip | dream/src/editor/ImGuiEditorAnimatorGraph.cpp:331-339 | a written condition reads back as itself |
| Animators.VariableRoundTrip | dream/src/editor/ImGuiEditorAnimatorGraph.cpp:348-353 | a written variable reads back as itself |
| Animators.ConditionsRoundTrip | dream/src/editor/ImGuiEditorAnimatorGraph.cpp:330-340 | a written condition list reads back as itself |
| Animators.TransitionRoundTrip | dream/src/editor/ImGuiEditorAnimatorGraph.cpp:326-343 | a written transition reads back as itself |
| Animators.RoundTrip | dream/src/editor/ImGuiEditorAnimatorGraph.cpp:304-355 | reading what the editor writes gives back the same animator file |
| Animators.ReadAnimatorFile | dream/src/scene/component/AnimatorComponent.cpp:169-211 | the three read loops compute `DecodeAnimatorFile` |
| Animators.IdentityMatrices | dream/src/scene/component/AnimatorComponent.cpp:35-38 | `n` identity matrices |
| Animators.Animator.constructor | dream/src/scene/component/AnimatorComponent.cpp:28-39 | no state, fully blended, clock at zero, no guid, MAX_BONES identity bone matrices |
| Animators.Animator.WithGuid | dream/src/scene/component/AnimatorComponent.cpp:41-52 | the same initial animator, with the given guid |
| Animators.Animator.UpdateStateMachine | dream/src/scene/component/AnimatorComponent.cpp:76-132 | the machine becomes `Step` of the old machine; states, transitions and variables are untouched |
| Animators.Animator.SetVariable | dream/src/scene/component/AnimatorComponent.cpp:243-253 | the first variable with the name gets the value and its index is returned; -1 and nothing changes when there is none |
| Animators.Animator.CurrentStateName | dream/src/scene/component/AnimatorComponent.cpp:364-369 | "" with no current state; otherwise the state's name, fatal out of range (`at`) |
| Animators.Animator.LoadStateMachine | dream/src/scene/component/AnimatorComponent.cpp:155-230 | nothing happens without a guid; otherwise fatal iff the file cannot be read, else states, transitions and variables are the file's and the machine starts at state 0 |
| AnimatorGraphs.IDsLeadBack | dream/src/editor/ImGuiEditorAnimatorGraph.cpp:369-392 | the node and both pin ids of state i lead back to i, including pin -1 of state 0 |
| AnimatorGraphs.NodesAreNotPins | dream/src/editor/ImGuiEditorAnimatorGraph.cpp:373-391 | a node id is rejected as a pin and a pin id as a node |
| AnimatorGraphs.PinBits | dream/src/editor/ImGuiEditorAnimatorGraph.cpp:167-168 | the unsigned 64-bit pin id is below 2^64 and congruent to the signed id modulo 2^64 |
| AnimatorGraphs.PinCount | dream/src/editor/ImGuiEditorAnimatorGraph.cpp:167-168 | the pin's class, computed on the unsigned 64-bit id with wrap-around |
| AnimatorGraphs.NewLink | dream/src/editor/ImGuiEditorAnimatorGraph.cpp:163-188 | a transition only for a "From" pin dragged to a "To" pin, with no conditions and no blend; anything else creates none |
| AnimatorGraphs.PinCounts | dream/src/editor/ImGuiEditorAnimatorGraph.cpp:167-168 | state i's "From" pin (3i+1) is class 0 and its "To" pin (3i-1) class 1, including the wrapped id -1 of state 0 |
| AnimatorGraphs.PinStateInRange | dream/src/editor/ImGuiEditorAnimatorGraph.cpp:373-385 | a pin of one of n states leads back to a state below n |
| AnimatorGraphs.LinkDirection | dream/src/editor/ImGuiEditorAnimatorGraph.cpp:163-188 | dragging state i's "From" pin to state j's "To" pin makes the transition from i to j; the reverse drag and same-kind pairs make none |
| AnimatorGraphs.AnimatorGraph.CreateLink | dream/src/editor/ImGuiEditorAnimatorGraph.cpp:163-188 | the new link's transition, if any, is appended; links between existing states keep the indices consistent |
| AnimatorGraphs.FilterMembers | dream/src/editor/ImGuiEditorAnimatorGraph.cpp:427-432 | the kept elements are exactly the elements not dropped |
| AnimatorGraphs.EraseWhere | dream/src/editor/ImGuiEditorAnimatorGraph.cpp:427-432 | the backward erase loop keeps exactly the undropped elements, in order |
| AnimatorGraphs.EraseWhereStep | dream/src/editor/ImGuiEditorAnimatorGraph.cpp:427-432 | one backward step: erasing index j (when dropped) extends the filtered suffix by one element |
| AnimatorGraphs.ShiftKeepsElement | dream/src/editor/ImGuiEditorAnimatorGraph.cpp:433-444 | after erasing state k, the decremented index of any other state names the same state |
| AnimatorGraphs.WithoutState | dream/src/editor/ImGuiEditorAnimatorGraph.cpp:427-442 | every remaining transition is an old one that did not touch the removed state, with shifted endpoints |
| AnimatorGraphs.WithoutStateKeepsEndpoints | dream/src/editor/ImGuiEditorAnimatorGraph.cpp:427-444 | after removing a state, every transition joins existing states and still joins the same states as before |
| AnimatorGraphs.WithoutStateKeepsVariables | dream/src/editor/ImGuiEditorAnimatorGraph.cpp:427-442 | removing a state keeps every condition's variable indices in range |
| AnimatorGraphs.ShiftEndpointsLoop | dream/src/editor/ImGuiEditorAnimatorGraph.cpp:434-442 | the decrement loop shifts every endpoint above the removed state |
| AnimatorGraphs.WithoutVariable | dream/src/editor/ImGuiEditorAnimatorGraph.cpp:653-669 | a transition keeps its endpoints and blend; every remaining condition is an old one not reading the variable, with shifted indices |
| AnimatorGraphs.WithoutVariableAll | dream/src/editor/ImGuiEditorAnimatorGraph.cpp:655-669 | every transition is rewritten by the per-transition removal and none is dropped |
| AnimatorGraphs.ShiftOperandsKeepsVariables | dream/src/editor/ImGuiEditorAnimatorGraph.cpp:662-669 | the shifted condition reads the same variables (by name) and stays in range |
| AnimatorGraphs.WithoutVariableKeepsIndices | dream/src/editor/ImGuiEditorAnimatorGraph.cpp:650-671 | after removing a variable every condition names existing variables, the same ones as before |
| AnimatorGraphs.ShiftOperandsLoop | dream/src/editor/ImGuiEditorAnimatorGraph.cpp:662-669 | the index loop shifts every operand above the removed variable |
| AnimatorGraphs.RemoveVariableFrom | dream/src/editor/ImGuiEditorAnimatorGraph.cpp:655-669 | one transition after the two loops is `WithoutVariable` |
| AnimatorGraphs.EditorLoaded | dream/src/editor/ImGuiEditorAnimatorGraph.cpp:250-302 | as written: states and variables are the file's, but its transitions are appended to those already open |
| AnimatorGraphs.ReloadDuplicatesTransitions | dream/src/editor/ImGuiEditorAnimatorGraph.cpp:254-256 | loading the same file twice doubles the transitions |
| AnimatorGraphs.EditorLoadedCorrected | dream/src/editor/ImGuiEditorAnimatorGraph.cpp:250-302 | with `transitions.clear()` added: the loaded animator is exactly the file |
| AnimatorGraphs.CorrectedReloadIsIdempotent | dream/src/editor/ImGuiEditorAnimatorGraph.cpp:250-302 | the corrected load does not depend on what was open, and reloading changes nothing |
| AnimatorGraphs.AnimatorGraph.constructor | dream/src/editor/ImGuiEditorAnimatorGraph.cpp:240-248 | an empty, consistent graph without a file |
| AnimatorGraphs.AnimatorGraph.AddState | dream/src/editor/ImGuiEditorAnimatorGraph.cpp:109-124 | the picked animation is appended as a play-once state named after its path; indices stay consistent |
| AnimatorGraphs.AnimatorGraph.AddTransition | dream/src/editor/ImGuiEditorAnimatorGraph.cpp:625-635 | with two states or more, the transition from state 1 to state 0 is appended; otherwise nothing |
| AnimatorGraphs.AnimatorGraph.AddCondition | dream/src/editor/ImGuiEditorAnimatorGraph.cpp:613-621 | transition i gains the default condition `-1, 0, "==", -1, 0` at its end; nothing else changes |
| AnimatorGraphs.AnimatorGraph.RemoveCondition | dream/src/editor/ImGuiEditorAnimatorGraph.cpp:606-609 | only condition j of transition i is erased |
| AnimatorGraphs.AnimatorGraph.AddVariable | dream/src/editor/ImGuiEditorAnimatorGraph.cpp:673-676 | a variable "variable" with value 0 is appended |
| AnimatorGraphs.AnimatorGraph.DeleteLink | dream/src/editor/ImGuiEditorAnimatorGraph.cpp:192-210 | the transition at the deleted link's id is erased, or nothing when no transition has that id |
| AnimatorGraphs.AnimatorGraph.RemoveLink | dream/src/editor/ImGuiEditorAnimatorGraph.cpp:413-417 | the transition at the link id is erased |
| AnimatorGraphs.AnimatorGraph.RemoveNode | dream/src/editor/ImGuiEditorAnimatorGraph.cpp:422-446 | fatal (nothing changes) for a pin id; otherwise the state is erased, the transitions touching it go, the others' endpoints shift, and indices stay consistent |
| AnimatorGraphs.AnimatorGraph.RemoveVariable | dream/src/editor/ImGuiEditorAnimatorGraph.cpp:650-671 | the name and value go, every condition reading the variable goes, the other indices shift, and indices stay consistent |
| AnimatorGraphs.AnimatorGraph.LoadStateMachine | dream/src/editor/ImGuiEditorAnimatorGraph.cpp:250-302 | fatal without a file or an unreadable file; otherwise the graph becomes `EditorLoaded` of what was open and the file |
| AnimatorGraphs.AnimatorGraph.SerializeStateMachine | dream/src/editor/ImGuiEditorAnimatorGraph.cpp:304-355 | fatal without a file; otherwise the document `EncodeAnimatorFile` of the graph |
| Physics.WithIndex | dream/src/scene/system/PhysicsComponentSystem.cpp:191-194 | rewriting an entity's body or shape index keeps the component's kind and sets exactly that index |
| Physics.ShiftKeepsReferent | dream/src/scene/system/PhysicsComponentSystem.cpp:185-196 | after `erase(index)` the shifted index of an entity refers to the same body as before; the erased body's index becomes -1; every index stays in -1 .. size-1 |
| Physics.ErasedKeepsIndicesIn | dream/src/scene/system/PhysicsComponentSystem.cpp:185-196 | if every entity's index was -1 or a valid position before the erase, it still is afterwards in the shorter vector |
| Physics.ErasedKeepsReferents | dream/src/scene/system/PhysicsComponentSystem.cpp:199-213 | for every entity of the pool: the one that referred to the erased element now refers to none, every other one still refers to the same element |
| Physics.ResetLeavesNoIndex | dream/src/scene/system/PhysicsComponentSystem.cpp:67-81 | after `clearWorld` every index is valid for the emptied vectors (all are -1) |
| Physics.ReindexOne | dream/src/scene/system/PhysicsComponentSystem.cpp:190-195 | one entity's index is rewritten by the shift rule; every other entity and component is unchanged |
| Physics.ReindexPool | dream/src/scene/system/PhysicsComponentSystem.cpp:188-196 | the loop over `getEntitiesWithComponents` rewrites every entity of that pool by the rule and nothing else |
| Physics.UpdateEntity | dream/src/scene/system/PhysicsComponentSystem.cpp:106-137 | an entity without a rigid body is not visited; an index still -1 after the init attempt is logged and changes nothing; otherwise the index is valid, the add-to-world flag is cleared and its body added exactly when the flag was set, and while playing the entity's translation and rotation come from the stepped body, else the entity's are written to the body; scale never changes |
| Physics.WarnedStep | dream/src/scene/system/PhysicsComponentSystem.cpp:112-115 | visiting one more entity adds it to the logged set exactly when its index is still -1 |
| Physics.AddedStep | dream/src/scene/system/PhysicsComponentSystem.cpp:118-122 | visiting one more entity adds its body to the world exactly when its flag was set |
| Physics.PosesStep | dream/src/scene/system/PhysicsComponentSystem.cpp:124-136 | visiting one more entity keeps every body's world transform either the stepped one or one an entity wrote; while playing no body is written |
| Physics.SetBodyAndTransform | dream/src/scene/system/PhysicsComponentSystem.cpp:121-135 | writes the entity's RigidBodyComponent and TransformComponent and nothing else |
| Physics.UpdateOne | dream/src/scene/system/PhysicsComponentSystem.cpp:107-136 | one iteration of `update`'s loop does what `UpdateEntity` says to that entity and touches no other |
| Physics.VisitStep | dream/src/scene/system/PhysicsComponentSystem.cpp:106-137 | the loop's records (logged entities, added bodies, written transforms) grow by exactly the visited entity's outcome |
| Physics.PartialStep | dream/src/scene/system/PhysicsComponentSystem.cpp:106-137 | the registry after one more visit is the previous one with that entity updated |
| Physics.VisitedNone | dream/src/scene/system/PhysicsComponentSystem.cpp:105-106 | before the loop nothing is logged or added and the transforms are the stepped ones |
| Physics.VisitedAll | dream/src/scene/system/PhysicsComponentSystem.cpp:106-137 | once every entity is visited, the registry is every entity's `UpdateEntity` result |
| Physics.VisitOne | dream/src/scene/system/PhysicsComponentSystem.cpp:106-137 | one iteration keeps the loop's progress invariant with the entity added to the visited set |
| Physics.VisitAll | dream/src/scene/system/PhysicsComponentSystem.cpp:104-137 | the loop updates every entity by `UpdateEntity`, in any order, logs exactly the uninitialised ones and collects exactly the bodies to add |
| Physics.PhysicsSystem.constructor | dream/src/scene/system/PhysicsComponentSystem.cpp:24-32 | a dynamics world exists, empty, with no bodies or shapes |
| Physics.PhysicsSystem.AddColliderShape | dream/src/scene/system/PhysicsComponentSystem.cpp:162-165 | the shape is appended and the returned index is its position |
| Physics.PhysicsSystem.AddRigidBody | dream/src/scene/system/PhysicsComponentSystem.cpp:171-174 | the body is appended, not added to the world, and the returned index is its position |
| Physics.PhysicsSystem.RemoveRigidBody | dream/src/scene/system/PhysicsComponentSystem.cpp:180-197 | an index outside the vector is fatal (`at` throws `std::out_of_range`) and changes nothing; otherwise the body leaves the world and the vector, and every entity's body index is shifted so that it still refers to the same body (the erased one's becomes -1) |
| Physics.PhysicsSystem.DeleteCollisionShape | dream/src/scene/system/PhysicsComponentSystem.cpp:199-214 | an index outside the vector is fatal and changes nothing; otherwise the shape leaves the vector and every entity's shape index is shifted in the same way |
| Physics.PhysicsSystem.RemoveAllBodies | dream/src/scene/system/PhysicsComponentSystem.cpp:56-61 | the backward loop removes every body from the world and empties the vector |
| Physics.PhysicsSystem.DeleteAllShapes | dream/src/scene/system/PhysicsComponentSystem.cpp:63-66 | the backward loop empties the shape vector |
| Physics.PhysicsSystem.ClearWorld | dream/src/scene/system/PhysicsComponentSystem.cpp:43-83 | with a world: every body leaves it, both vectors are emptied and every entity's body and shape index becomes -1; without one nothing changes |
| Physics.PhysicsSystem.RemoveRigidBodyFromWorld | dream/src/scene/system/PhysicsComponentSystem.cpp:85-97 | fatal exactly without a world; otherwise the body leaves the world if it is in it, and a null body changes nothing |
| Physics.PhysicsSystem.Update | dream/src/scene/system/PhysicsComponentSystem.cpp:99-138 | every rigid-body entity is updated by `UpdateEntity`, the world gains exactly the flagged bodies, uninitialised entities are logged, and body transforms are the stepped ones while playing |
| SceneUtils.StripMeshSpec | dream/src/util/SceneUtils.cpp:24-29 | an entity loses its MeshComponent exactly when it is a FROM_FILE mesh of the given guid, then loses its MaterialComponent too; every other component is kept; stripping twice equals stripping once |
| SceneUtils.StripAllSpec | dream/src/util/SceneUtils.cpp:23-38 | no entity disappears, only the listed entities change, and a second pass changes nothing |
| SceneUtils.StripOne | dream/src/util/SceneUtils.cpp:24-29 | stripping one entity changes only that entity's components |
| SceneUtils.StripAllAppend | dream/src/util/SceneUtils.cpp:30-37 | stripping one list of entities and then another equals stripping their concatenation |
| SceneUtils.StripStep | dream/src/util/SceneUtils.cpp:32-36 | one turn of the child loop extends the stripped part by exactly that child's subtree in pre-order |
| SceneUtils.StripEntity | dream/src/util/SceneUtils.cpp:24-29 | the entity's mesh and material are removed exactly when the mesh references the file; no other entity changes |
| SceneUtils.RemoveMeshReference | dream/src/util/SceneUtils.cpp:23-38 | the entity, and when recursive every entity of its subtree, loses a mesh of the given file and its material; nothing else changes |
| MeshComponents.SubMesh | dream/src/scene/component/MeshComponent.cpp:30-34 | a FROM_FILE mesh with the given guid and fileId, no bones, still needing to load them |
| MeshComponents.MeshParent | dream/src/scene/component/MeshComponent.cpp:37-40 | a FROM_FILE mesh with the given guid and no fileId |
| MeshComponents.RiggedMeshParent | dream/src/scene/component/MeshComponent.cpp:42-47 | a mesh parent carrying the given bone map, whose bone count is the map's size |
| MeshComponents.Primitive | dream/src/scene/component/MeshComponent.cpp:49-52 | only the type is kept: no ids, no bones, no mesh |
| MeshComponents.LoadMesh | dream/src/scene/component/MeshComponent.cpp:54-82 | fatal exactly for an unknown primitive type; a sub-mesh points at the stored mesh for its ids; a mesh parent that needs bones takes the loader's bone map and stops needing them; cube and sphere get their mesh; type and ids never change |
| MeshComponents.BonesLoadOnce | dream/src/scene/component/MeshComponent.cpp:63-70 | a mesh parent loads its bones at most once: a second load changes nothing whatever the loader returns |
| MeshComponents.Serialize | dream/src/scene/component/MeshComponent.cpp:84-94 | the "MeshComponent" key is written exactly when the entity has a MeshComponent |
| MeshComponents.Classify | dream/src/scene/component/MeshComponent.cpp:101-116 | fatal exactly when a fileId is stored without a guid; otherwise the ids are kept, and the type is the stored one only when there is no guid (FROM_FILE otherwise) |
| MeshComponents.Deserialize | dream/src/scene/component/MeshComponent.cpp:96-118 | without the "MeshComponent" key nothing is added; a component is produced only when the key is present |
| MeshComponents.ConstructorsReachable | dream/src/scene/component/MeshComponent.cpp:30-52 | every constructor yields a component with a guid only on FROM_FILE and no fileId without a guid (the sub-mesh constructor when given one) |
| MeshComponents.SerializeRoundTrip | dream/src/scene/component/MeshComponent.cpp:84-118 | reading back what `serialize` writes restores the type, guid and fileId of every such component |
| MeshComponents.FileIdWithoutGuidIsFatal | dream/src/scene/component/MeshComponent.cpp:114-116 | a component with a fileId and no guid is written but cannot be read back |
| MeshComponents.ChangedMesh | dream/src/scene/component/MeshComponent.cpp:120-147 | fatal exactly for an unknown type; otherwise the new type is set, ids and bone map cleared, bones needed again, and the bone count left as it was |
| MeshComponents.ChangeMeshType | dream/src/scene/component/MeshComponent.cpp:120-152 | the entity's component becomes `ChangedMesh`, and when the old type was FROM_FILE every entity of its subtree loses its mesh of the old file with its material |
| MeshComponents.RefileStripsOwnMesh | dream/src/scene/component/MeshComponent.cpp:138-151 | changing a FROM_FILE mesh with an empty guid to FROM_FILE strips the entity's own new MeshComponent, since it now matches the old (empty) guid |
| CollisionComponents.ColliderNode | dream/src/scene/component/CollisionComponent.cpp:30-37 | each collider is written as a map with exactly its seven fields |
| CollisionComponents.EncodeAll | dream/src/scene/component/CollisionComponent.cpp:28-39 | the written sequence has one node per collider |
| CollisionComponents.ColliderRoundTrip | dream/src/scene/component/CollisionComponent.cpp:30-65 | a collider read back from its own map is the same collider, every field included |
| CollisionComponents.RoundTrip | dream/src/scene/component/CollisionComponent.cpp:24-70 | reading back a written collider list gives the same list: same length, same order, same fields |
| CollisionComponents.Serialize | dream/src/scene/component/CollisionComponent.cpp:24-42 | the "CollisionComponent" key is written exactly for an entity with a CollisionComponent, holding one node per collider in vector order |
| CollisionComponents.Deserialize | dream/src/scene/component/CollisionComponent.cpp:44-71 | with the key present, the entity's CollisionComponent is replaced by one holding the decoded colliders in node order and no shape yet; it fails exactly when some collider fails to decode, and then, like without the key, nothing changes |
| LightComponents.Serialize | dream/src/scene/component/LightComponent.cpp:9-23 | the "LightComponent" key is written exactly for an entity with a light, as a map of its seven fields |
| LightComponents.SerializeRoundTrip | dream/src/scene/component/LightComponent.cpp:9-70 | reading back a written light gives the same light, field for field |
| LightComponents.DecodeDefaults | dream/src/scene/component/LightComponent.cpp:27-60 | any node without the light keys reads as a directional light with zero cut-offs and attenuation and a white colour; a cut-off present in such a node overrides only that field |
| LightComponents.Deserialize | dream/src/scene/component/LightComponent.cpp:25-70 | with the key present, the entity's light becomes the decoded one; it fails exactly when a present field has the wrong type, and then nothing changes |
| MaterialComponents.NewMaterial | dream/src/scene/component/MaterialComponent.cpp:28-31 | the guid and embedded flag are the given ones, the colour is opaque white and there is no texture |
| MaterialComponents.LoadTexture | dream/src/scene/component/MaterialComponent.cpp:33-41 | nothing happens for an empty guid; otherwise a texture from the guid's path is cached only when none is cached under that guid, and the component points at the cached entry |
| MaterialComponents.GetTexture | dream/src/scene/component/MaterialComponent.cpp:43-48 | fatal exactly while no texture is loaded; otherwise the loaded texture |
| MaterialComponents.Serialize | dream/src/scene/component/MaterialComponent.cpp:50-60 | the "MaterialComponent" key is written exactly for an entity with a material |
| MaterialComponents.Deserialize | dream/src/scene/component/MaterialComponent.cpp:62-79 | without the key nothing is added; otherwise a material with no texture whose absent guid, flag and colour take "", false and white, and a colour of the wrong shape stays white |
| MaterialComponents.SerializeRoundTrip | dream/src/scene/component/MaterialComponent.cpp:50-79 | reading back a written material restores its guid, flag and colour; the texture pointer is not written |
| MaterialComponents.EmptyMaterialDefaults | dream/src/scene/component/MaterialComponent.cpp:64-77 | any component node without the guid, embedded and colour keys reads back as a white, non-embedded material without a guid |
| Input.InputState.constructor | dream/include/dream/window/Input.h:78-87 | no key is down, the editor offset is zero, the renderer is 1x1, and pointer lock, editor renderer and play window are all off |
| Input.InputState.GetButtonDown | dream/src/window/Input.cpp:23-33 | a key reads as down exactly when the play window is active and the key is stored as down |
| Input.InputState.SetButtonDown | dream/src/window/Input.cpp:35-39 | while the play window is active the key then reads as `state`; otherwise nothing changes; no other key and no other field changes |
| Input.InputState.GetMousePosition | dream/src/window/Input.cpp:41-43 | the position relative to the editor's top-left corner: adding the offset back gives the stored position |
| Input.InputState.SetMousePosition | dream/src/window/Input.cpp:45-49 | the position is stored only while the play window is active |
| Input.InputState.GetMouseMovement | dream/src/window/Input.cpp:51-57 | the stored movement while the play window is active, (0,0) otherwise |
| Input.InputState.SetMouseMovement | dream/src/window/Input.cpp:59-61 | the movement is stored whether or not the play window is active |
| Input.InputState.GetMouseScroll | dream/src/window/Input.cpp:63-69 | the stored scroll while the play window is active, (0,0) otherwise |
| Input.InputState.SetMouseScroll | dream/src/window/Input.cpp:71-73 | the scroll is stored whether or not the play window is active |
| Input.InputState.ResetMouseDynamicState | dream/src/window/Input.cpp:75-78 | movement and scroll are zeroed and read as (0,0) whatever the play window's state |
| Input.InputState.ActivatePointerLock | dream/src/window/Input.cpp:80-86 | the pointer-lock query then answers the value set |
| Input.InputState.SetEditorRendererActive | dream/src/window/Input.cpp:88-94 | the editor-renderer query then answers the value set |
| Input.InputState.SetPlayWindowActive | dream/src/window/Input.cpp:96-102 | the play-window query then answers the value set |
| Input.InputState.SetEditorMousePositionOffset | dream/src/window/Input.cpp:104-106 | the editor offset is the given point |
| Input.InputState.SetRendererDimensions | dream/src/window/Input.cpp:108-111 | the renderer's width and height are the given ones |
| Input.InputState.GetRelativeMousePosition | dream/src/window/Input.cpp:113-125 | (0,0) when a renderer dimension is zero; otherwise the position with the renderer's extent mapped onto [-1, 1]: mapping the result back gives the mouse position |
| LogCollector.RecentIsBoundedSuffix | dream/src/editor/LogCollector.cpp:33-35 | at most `MAX_LOGS` (100) lines are kept, they are the newest ones in arrival order, and nothing is lost while the lines fit |
| LogCollector.NewestIsKept | dream/src/editor/LogCollector.cpp:27-35 | a line just published is always the last one kept |
| LogCollector.Collector.constructor | dream/src/editor/LogCollector.cpp:23-25 | the console starts empty |
| LogCollector.Collector.Publish | dream/src/editor/LogCollector.cpp:27-36 | the line is appended and lines are evicted from the front until at most `MAX_LOGS` remain: the buffer is the newest `MAX_LOGS` lines |
| LogCollector.Collector.DebugLogPublished | dream/src/editor/LogCollector.cpp:27-36 | a debug line is published that way |
| LogCollector.Collector.WarnLogPublished | dream/src/editor/LogCollector.cpp:38-47 | the warn handler evicts at most one line; from a buffer within bounds it keeps the newest `MAX_LOGS` lines like the others |
| LogCollector.Collector.ErrorLogPublished | dream/src/editor/LogCollector.cpp:49-58 | an error line is published like a debug line |
| LogCollector.Collector.InfoLogPublished | dream/src/editor/LogCollector.cpp:60-69 | an info line is published like a debug line |
| LogCollector.Collector.FatalLogPublished | dream/src/editor/LogCollector.cpp:71-80 | a fatal line is published like a debug line |
| LogCollector.Collector.GetLogs | dream/src/editor/LogCollector.cpp:82-84 | the kept lines, in arrival order, with the buffer untouched |
| LogCollector.Collector.ClearLogs | dream/src/editor/LogCollector.cpp:86-88 | the buffer is empty |
| Resources.Touched | dream/src/project/ResourceManager.cpp:23-25 | `operator[]` leaves the key present with its old value or the empty one, and keeps every other entry |
| Resources.ResourceManager.constructor | dream/include/dream/project/ResourceManager.h:35-47 | all tables start empty |
| Resources.ResourceManager.GetFilePathFromGuid | dream/src/project/ResourceManager.cpp:23-25 | the stored path, or "" for an unknown guid, which is then present with the empty path |
| Resources.ResourceManager.SetFilePathFromGuid | dream/src/project/ResourceManager.cpp:27-29 | the guid now maps to the path, replacing any earlier one; other guids keep theirs |
| Resources.ResourceManager.GetTextureData | dream/src/project/ResourceManager.cpp:31-33 | the cached texture, or null for an absent key, which is then present with null |
| Resources.ResourceManager.StoreTextureData | dream/src/project/ResourceManager.cpp:35-38 | the (guid, fileID) key holds the texture, replacing what it held; other keys are unchanged |
| Resources.ResourceManager.GetMeshData | dream/src/project/ResourceManager.cpp:44-46 | as the texture lookup, on the mesh cache |
| Resources.ResourceManager.StoreMeshData | dream/src/project/ResourceManager.cpp:48-51 | as the texture store, on the mesh cache |
| Resources.StoreThenGetTexture | dream/src/project/ResourceManager.cpp:31-38 | a stored texture comes back under its (guid, fileID) key, and a lookup under another fileID of the same guid does not see it |
| ProjectView.Word | dream/src/editor/ImGuiEditorProjectView.cpp:205-214 | the run of characters the buffer collects before the next separator: a prefix of the input, free of the separator, ended by a separator or the end |
| ProjectView.Split | dream/src/editor/ImGuiEditorProjectView.cpp:201-219 | the one-pass scan with a buffer returns exactly the maximal runs of non-separator characters, in order |
| ProjectView.SplitStep | dream/src/editor/ImGuiEditorProjectView.cpp:206-213 | one character of the scan: a separator turns a non-empty buffer into a token, any other character extends the buffer; the tokens still to come are unchanged |
| ProjectView.TokensAfterWord | dream/src/editor/ImGuiEditorProjectView.cpp:207-209 | a non-empty run without separators, followed by a separator or the end, is exactly one token |
| ProjectView.WordOfPrefix | dream/src/editor/ImGuiEditorProjectView.cpp:205-214 | the buffer collects exactly a separator-free run when a separator or the end follows it |
| ProjectView.TokensNonEmpty | dream/src/editor/ImGuiEditorProjectView.cpp:207-216 | no token is empty: consecutive, leading and trailing separators yield nothing |
| ProjectView.TokensWithoutSeparator | dream/src/editor/ImGuiEditorProjectView.cpp:206-213 | no token contains the separator |
| ProjectView.RemoveAppend | dream/src/editor/ImGuiEditorProjectView.cpp:205-214 | removing separators distributes over concatenation |
| ProjectView.RemoveNothing | dream/src/editor/ImGuiEditorProjectView.cpp:211-213 | a string without separators loses nothing |
| ProjectView.TokensConcat | dream/src/editor/ImGuiEditorProjectView.cpp:201-219 | joining the tokens gives the input with every separator removed, in the original order: no character is lost or reordered |
| ProjectView.TokensEmptyIff | dream/src/editor/ImGuiEditorProjectView.cpp:201-219 | the split is empty exactly when the input consists only of separators (or is empty) |
| ProjectView.FreeFileIndex | dream/src/editor/ImGuiEditorProjectView.cpp:80-84 | the naming loop ends and picks the least index whose file does not exist yet |
| ProjectView.PrefixWithin | dream/src/editor/ImGuiEditorProjectView.cpp:81-83 | if indices 0 .. n-1 are all taken there are at least n existing files, which bounds the naming loop |
| ProjectView.BlankAnimator | dream/src/editor/ImGuiEditorProjectView.cpp:111-120 | the document written for a new animator is the encoding of an animator with no states, transitions or variables |
| ProjectView.BlankAnimatorIsEmpty | dream/src/editor/ImGuiEditorProjectView.cpp:111-123 | a new animator file reads back as an empty animator |
| StringUtils.Substr | dream/src/util/StringUtils.cpp:35-37 | `substr(pos, count)` is the part of the string from `pos` with the count clipped to what is left; a negative `int` count takes the whole rest |
| StringUtils.SubstrFrom | dream/src/util/StringUtils.cpp:50 | `substr(pos)` is the rest from `pos`, and throws exactly when `pos` is negative (a huge `size_t`) or past the end |
| StringUtils.Shorten | dream/src/util/StringUtils.cpp:32-41 | a string that fits is returned unchanged; a longer one is cut to `maxLength` characters, the last three an ellipsis when asked for; below a limit of three the ellipsis is appended to the whole string |
| StringUtils.ShortenDefault | dream/src/util/StringUtils.cpp:32-41 | with the default limit of five, a longer string keeps two characters and an ellipsis |
| StringUtils.SplitAndShorten | dream/src/util/StringUtils.cpp:43-59 | a string over the limit keeps a short head and, after an ellipsis, the tail of its second half, and throws exactly for a limit below four; one over the split length is split at its middle with nothing lost; anything else stays on the first line |
| StringUtils.SplitAndShortenTailLength | dream/src/util/StringUtils.cpp:45-51 | with a limit of at least six the head has `maxLength / 2 - 3` characters but the tail grows with the input and can exceed the limit |
| StringUtils.FindFrom | dream/src/util/StringUtils.cpp:25 | `find` returns the least position at or after the start where the substring occurs, or none when it does not occur |
| StringUtils.RelativeToProjectFolder | dream/src/util/StringUtils.cpp:23-30 | the part of the path after the first occurrence of the project folder, or the path itself when the folder does not occur |
| SphereMesh.PointRowLength | dream/src/renderer/OpenGLSphereMesh.cpp:31-42 | one row of the grid has xSegments + 1 points |
| SphereMesh.PointsLength | dream/src/renderer/OpenGLSphereMesh.cpp:30-43 | the grid has (xSegments + 1)(ySegments + 1) points |
| SphereMesh.CellRowLength | dream/src/renderer/OpenGLSphereMesh.cpp:61-69 | one row of cells emits six indices per cell |
| SphereMesh.CellsLength | dream/src/renderer/OpenGLSphereMesh.cpp:60-70 | exactly 6 · xSegments · ySegments indices are emitted |
| SphereMesh.CellRowBounded | dream/src/renderer/OpenGLSphereMesh.cpp:61-69 | the cells of row y only use vertices of rows y and y + 1 |
| SphereMesh.CellsBounded | dream/src/renderer/OpenGLSphereMesh.cpp:60-70 | every index names an existing vertex |
| SphereMesh.Build | dream/src/renderer/OpenGLSphereMesh.cpp:25-73 | one vertex per grid point in row order with every bone slot free, six indices per cell, and every index names a vertex |
| SphereMesh.GridPositions | dream/src/renderer/OpenGLSphereMesh.cpp:30-43 | the first loop nest produces the grid points row by row |
| SphereMesh.VerticesAt | dream/src/renderer/OpenGLSphereMesh.cpp:45-58 | one vertex per position, in order, with weights 0 and bone ids -1 in every slot |
| SphereMesh.CellIndices | dream/src/renderer/OpenGLSphereMesh.cpp:60-70 | the third loop nest produces the two triangles of each cell, row by row |
| TriangleList.RowQuadsLength | dream/src/renderer/OpenGLTriangleList.cpp:89-110 | one row of cells fills six entries per cell |
| TriangleList.RowsLength | dream/src/renderer/OpenGLTriangleList.cpp:88-111 | the rows fill six entries per cell of the grid |
| TriangleList.GridIndicesLength | dream/src/renderer/OpenGLTriangleList.cpp:28-32 | `render` draws exactly as many elements as `initIndices` fills |
| TriangleList.RowQuadsBounded | dream/src/renderer/OpenGLTriangleList.cpp:89-110 | a row of cells only uses vertices of that row and the next |
| TriangleList.RowsBounded | dream/src/renderer/OpenGLTriangleList.cpp:88-111 | every index of the first m rows names a vertex of the first m + 1 rows |
| TriangleList.GridIndicesBounded | dream/src/renderer/OpenGLTriangleList.cpp:85-114 | every index refers to a vertex of the grid |
| TriangleList.RowQuadsAt | dream/src/renderer/OpenGLTriangleList.cpp:89-110 | cell x of a row occupies entries 6x .. 6x + 5 of that row |
| TriangleList.RowsAt | dream/src/renderer/OpenGLTriangleList.cpp:88-111 | cell (x, z) sits at entries 6(z(width - 1) + x) .. + 5 |
| TriangleList.CellLayout | dream/src/renderer/OpenGLTriangleList.cpp:90-109 | cell (x, z) occupies entries 6(z(width - 1) + x) .. + 5, holding bottom-left, top-left, top-right, bottom-left, top-right, bottom-right |
| TriangleList.GridRowLength | dream/src/renderer/OpenGLTriangleList.cpp:75-79 | one row has `width` vertices |
| TriangleList.GridRowsLength | dream/src/renderer/OpenGLTriangleList.cpp:74-80 | the grid has width · depth vertices |
| TriangleList.GridRowAt | dream/src/renderer/OpenGLTriangleList.cpp:75-79 | vertex x of row z is grid point (x, z) |
| TriangleList.GridRowsAt | dream/src/renderer/OpenGLTriangleList.cpp:71-83 | vertex z · width + x of the buffer is grid point (x, z): the buffer is filled in z-major order |
| TriangleList.InitVertices | dream/src/renderer/OpenGLTriangleList.cpp:71-83 | the running index fills the whole pre-sized buffer, one vertex per grid point in z-major order; both assertions hold |
| TriangleList.InitIndices | dream/src/renderer/OpenGLTriangleList.cpp:85-114 | the running index fills the whole pre-sized buffer with the cells' triangles; every in-loop assertion and the final one hold |
| TriangleList.InitRow | dream/src/renderer/OpenGLTriangleList.cpp:89-110 | the inner loop appends the six entries of each cell of row z and leaves earlier entries untouched |
| TriangleList.PopulateBuffers | dream/src/renderer/OpenGLTriangleList.cpp:55-69 | both buffers are sized and filled; the index buffer holds exactly the elements `render` draws |
| Application.App.constructor | dream/src/Application.cpp:31-40 | no call into the scene and no editor update has been made yet; `lag` holds whatever it happened to hold |
| Application.App.FixedUpdate | dream/src/Application.cpp:86-88 | the scene takes one fixed step of 1/60 s |
| Application.App.Update | dream/src/Application.cpp:49-80 | the elapsed time is added to `lag`; one 1/60 s fixed step runs per whole 16 ms in it, the rest stays in `lag` (below 16 ms for a non-negative total); then the scene is updated once with the elapsed whole milliseconds times 0.001; the viewport comes from the window in fullscreen and from the editor otherwise, and the editor updates only outside fullscreen |
| Application.StepsCount | dream/src/Application.cpp:59-62 | taking whole time steps out of a non-negative total until less than one is left takes exactly total / 16 ms of them |
| Yaml.AsSequence | dream/src/scene/component/AnimatorComponent.cpp:170 | iterating a node as a list succeeds exactly on a sequence and yields its items |
| Yaml.DecodeEach | dream/src/scene/component/CollisionComponent.cpp:47-67 | converting a list succeeds exactly when every node converts, and yields one value per node, in order |
| Yaml.DecodeEachSnoc | dream/src/scene/component/CollisionComponent.cpp:47-67 | converting one more node extends the result by that node's value |
| Yaml.DecodeEachFails | dream/src/scene/component/CollisionComponent.cpp:47-67 | a node that throws, after nodes that convert, makes the whole conversion throw its error |
| Yaml.DecodeLoop | dream/src/scene/component/CollisionComponent.cpp:47-67 | the push-back loop that stops at the first throw computes `DecodeEach` |
| Yaml.DecodeEachInverse | dream/src/scene/component/CollisionComponent.cpp:28-67 | nodes that each convert back to their element convert back to the whole list: the round trip of a written list |
| YamlUtils.DecodeVec2 | dream/src/util/YAMLUtils.cpp:30-37 | a node that is not a two-element sequence is rejected and the variable keeps its value; otherwise the elements are read in order, a non-number throwing |
| YamlUtils.EncodeVec2 | dream/src/util/YAMLUtils.cpp:22-28 | the written sequence has two elements and decodes back to the vector |
| YamlUtils.DecodeVec3 | dream/src/util/YAMLUtils.cpp:48-56 | as for two elements, with three |
| YamlUtils.EncodeVec3 | dream/src/util/YAMLUtils.cpp:39-46 | the written sequence has three elements and decodes back to the vector |
| YamlUtils.DecodeVec4 | dream/src/util/YAMLUtils.cpp:68-77 | as for two elements, with four, in x, y, z, w order |
| YamlUtils.EncodeVec4 | dream/src/util/YAMLUtils.cpp:58-66 | the written sequence has four elements and decodes back to the vector |
| YamlUtils.DecodeQuat | dream/src/util/YAMLUtils.cpp:89-98 | a quaternion is read from four elements in w, x, y, z order |
| YamlUtils.EncodeQuat | dream/src/util/YAMLUtils.cpp:79-87 | a quaternion is written in w, x, y, z order, so it decodes back to itself |
| YamlUtils.AsVec3 | dream/src/util/YAMLUtils.cpp:48-56 | `as<glm::vec3>()` throws on a node `decode` rejects and otherwise yields the decoded vector |
| YamlUtils.AsVec4 | dream/src/util/YAMLUtils.cpp:68-77 | `as<glm::vec4>()` throws on a node `decode` rejects and otherwise yields the decoded vector |
| YamlUtils.AsVec3Encode | dream/src/util/YAMLUtils.cpp:39-56 | `as<glm::vec3>()` of an encoded vector is the vector |
| YamlUtils.AsVec4Encode | dream/src/util/YAMLUtils.cpp:58-77 | `as<glm::vec4>()` of an encoded vector is the vector |
| YamlUtils.WithComponent | dream/src/util/YAMLUtils.cpp:121 | writing one component of a column changes that component only |
| YamlUtils.SetEntry | dream/src/util/YAMLUtils.cpp:121 | `rhs[r][c] = f` changes exactly one of the sixteen entries |
| YamlUtils.EncodeMat4 | dream/src/util/YAMLUtils.cpp:100-112 | sixteen numbers, column by column, each column in w, x, y, z order |
| YamlUtils.DecodeMat4 | dream/src/util/YAMLUtils.cpp:114-127 | anything but a sixteen-element sequence is rejected with the variable unchanged; otherwise element 4r + c becomes component c (x, y, z, w) of column r, and sixteen numbers always decode |
| YamlUtils.Mat4RoundTripAsWritten | dream/src/util/YAMLUtils.cpp:100-127 | decoding an encoded matrix rotates every column, (x, y, z, w) coming back as (w, x, y, z) |
| YamlUtils.SameEntries | dream/src/util/YAMLUtils.cpp:119-124 | two matrices with the same sixteen entries are equal |
| YamlUtils.IdentityDoesNotRoundTrip | dream/src/util/YAMLUtils.cpp:100-127 | the identity matrix does not survive the round trip: its first column comes back as (0, 1, 0, 0) |
| YamlUtils.EncodeMat4Corrected | dream/src/util/YAMLUtils.cpp:100-112 | sixteen numbers, column by column, each column in the x, y, z, w order `decode` reads |
| YamlUtils.Mat4RoundTripCorrected | dream/src/util/YAMLUtils.cpp:100-127 | with the corrected encoder every matrix decodes back to itself, whatever the variable held |

## Left out

- Reading files through Assimp, and Assimp's import errors, are not modelled. The loader starts from an already parsed scene tree (`assimp.dfy`). The matrix and vector conversions of `AssimpGLMHelpers` are taken as given.
- `newFileID` and `getGUIDForFile` hash file contents. The ids they return are parameters.
- Upload of GL buffers, textures and vertex attribute layouts is left out. Meshes are modelled as their vertex and index data.
- Animations.Animation.ReadMissingBones: a bone added for a missing name gets its offset from a parameter. The source leaves that `glm::mat4` default-constructed.
- Keyframe interpolation (`getScaleFactor` and `update`, AnimationBone.cpp:56-61 and 101-107), the trigonometry of the sphere mesh and terrain heights, and float rounding are not modelled. Reals stand in for floats, and interpolated values are parameters.
- `numberOfAnimationsForFile` reads a file. Its count is a parameter.
- `Entity::deserialize`, and the `serialize`/`deserialize` pair of HierarchyComponent, are not part of this model. Scene serialization is modelled only down to the ordered entity IDs.
- A `Logger::fatal` outcome is modelled as a `Fatal` result with no state change. The process exit, and any change the source made before reaching the fatal call, are not modelled.
- `entt` recycles destroyed handles; the model hands out fresh, increasing handles.
- New entity uuids come from a parameter.
- SceneGraph.Scene.RemoveEntity requires a ghost rank that proves the hierarchy acyclic. The source does not check this; a cyclic hierarchy would make it recurse forever.
- SceneGraph.Scene.RemoveChild requires a non-null child to be on the parent's list. The source walks the list unchecked for any other child.
- The animator's `animationObjects` and `boneEntities`, `updateAnimation`, `blendTwoAnimations`, `calculateBlendedBoneTransform` and all editor UI drawing are left out. They are per-frame float math or ImGui calls.
- `serializeStateMachine` reloads the animator entities and writes the file. The model returns the document it would write.
- `checkRaycast` and `debugDrawWorld` in the physics system call into Bullet. They are not modelled.
- AnimatorGraphs.PinCount and AnimatorGraphs.NewLink take pin ids within the 32-bit `int` range the editor stores them in.
- `Application`'s wall clock, window and renderer are parameters.
- In the project view, which files exist is the parameter `taken`.
- The ResourceManager header does not declare the mesh data map that `ResourceManager.cpp` uses. The model follows the `.cpp`.
- The YAML keys of LightComponent are taken to be its member names. Its header is not part of this model.
- `NEW_SHAPE_INDEX` is taken to be -1.
- AssetLoaders.AssetLoader.LoadMesh: the entities a load creates are modelled by their tags, in creation order, and by the components the root entity gets; they are not created in a `Scene`. The `addChild` calls that make each mesh entity and each child node's entity a child of its node's entity (OpenGLAssetLoader.cpp:96-107) are not modelled, so the entity hierarchy a load builds is not stated.
- AssetLoaders.AssetLoader.ProcessNode: its `dreamNode.addChild(child)` for every mesh and every child node (OpenGLAssetLoader.cpp:96-107) is not modelled; only the order in which the entities are created is.
- AssetLoaders.AssetLoader.ProcessMesh: the mesh entity's MeshComponent and MaterialComponent are recorded in its `MeshEntity` value, not added to a scene entity.
- AssetLoaders.RootComponents: the root entity's MeshComponent and AnimatorComponent are returned as a value, not added through `addComponent`.
- SceneGraph.Scene.RemoveEntity: besides the rank, it requires that no entity with a RootComponent has a parent (`RootsUnparented`). The source does not guarantee this, since `addChild` accepts a root entity as child; removing such a parented root skips `removeChild` and leaves a dangling link in its parent's list, which the model excludes.
- SceneGraph.Scene.RemoveChildren: requires `RootsUnparented`, so the parented-root case above is excluded.
- SceneGraph.Scene.RemoveNextChild: requires `RootsUnparented` (through `Walking`), so the parented-root case is excluded.
- SceneGraph.Scene.DestroyEntity: requires `RootsUnparented`, so the parented-root case is excluded.
- SceneGraph.Scene.Erase: requires `RootsUnparented`, so the parented-root case is excluded.
- SceneGraph.Scene.LeaveParent: requires `RootsUnparented`, so the parented-root case is excluded.
- SceneGraph.Scene.SerializeEntity: requires every entity in the hierarchy to have an IDComponent (`Identified`) and the entity to have a HierarchyComponent. Where one is missing, the source's `getComponent` calls `Logger::fatal` (Entity.h:41-42); that fatal path is not modelled.
- SceneGraph.Scene.SerializeScene: requires `Identified` and that every root has a HierarchyComponent and an ID (`RootsAdoptable`), so the `Logger::fatal` of `getComponent` on an entity missing either is not modelled.
- SceneGraph.Scene.Find: returns some entity that matches, not necessarily the first in the order of the `entt` view, because pool order is not modelled.
- SceneGraph.Scene.GetEntityById: returns some entity with the id, not necessarily the first in view order; pool order is not modelled.
- SceneGraph.Scene.GetEntityByTag: returns some entity with the tag, not necessarily the first in view order; pool order is not modelled.
- SceneGraph.Scene.GetSceneCamera: returns some entity with a SceneCameraComponent, not necessarily the first in view order; pool order is not modelled.
- SceneGraph.Scene.GetMainCamera: returns some entity with a CameraComponent, not necessarily the first in view order; pool order is not modelled.
- Physics.PhysicsSystem.Update: the index each entity's `RigidBodyComponent::updateRigidBody` leaves it with (PhysicsComponentSystem.cpp:110) is the parameter `Tick.attempt`, otherwise unconstrained; what `updateRigidBody` does, including its fatal paths, is not modelled. It also requires `AllReady` (see Physics.UpdateEntity) and a dynamics world, which the source dereferences unchecked.
- Physics.UpdateEntity: requires (`Ready`) every rigid-body entity to have a TransformComponent and its indices to be -1 or inside the bodies vector, so the `Logger::fatal` of `getComponent` (PhysicsComponentSystem.cpp:125) and the `std::out_of_range` of `rigidBodies.at` (:117) are not modelled.
- Physics.PhysicsSystem.RemoveRigidBody: requires a dynamics world; without one the source dereferences a null pointer.
- Yaml.AsString: scalars are typed, so only a string scalar converts. yaml-cpp's `as<std::string>()` accepts every scalar, so a hand-edited file with `guid: 123` loads in the source and is fatal in the model. Files the engine itself writes are unaffected.
- Yaml.AsBool: only a boolean scalar converts. yaml-cpp's `as<bool>()` also accepts words such as `yes`, `no`, `on` and `off`.
- MeshComponents.ChangeMeshType: requires a ghost rank proving the hierarchy acyclic, as `RemoveMeshReference` walks the subtree; the source does not check this.

## Findings

| source | as written | input that shows it | evidently intended | confidence | as-written member | corrected member |
|---|---|---|---|---|---|---|
| dream/src/util/YAMLUtils.cpp:100-127 | `encode` writes each mat4 column as w, x, y, z, while `decode` reads the four values as x, y, z, w | the identity matrix: its first column (1, 0, 0, 0) decodes as (0, 1, 0, 0) | write each column in x, y, z, w order so that every matrix round-trips | not executed | YamlUtils.Mat4RoundTripAsWritten, YamlUtils.IdentityDoesNotRoundTrip | YamlUtils.EncodeMat4Corrected, YamlUtils.Mat4RoundTripCorrected |
| dream/src/editor/ImGuiEditorAnimatorGraph.cpp:254-256 | `loadStateMachine` clears the states and variables but appends the file's transitions to the ones already held | loading a file with one transition twice leaves two copies of it | clear the transitions too, so that loading is idempotent | not executed | AnimatorGraphs.EditorLoaded, AnimatorGraphs.ReloadDuplicatesTransitions | AnimatorGraphs.EditorLoadedCorrected, AnimatorGraphs.CorrectedReloadIsIdempotent |
| dream/src/project/OpenGLAssetLoader.cpp:289 | the assertion guarding the bone-weight write admits `vertexId <= vertices.size()` | one vertex with a weight on vertex 1: the guard passes, and the write is past the end | admit only `vertexId < vertices.size()` | not executed | AssetLoaders.GuardAdmitsPastTheEnd | AssetLoaders.AssetLoader.ExtractBoneWeights |
