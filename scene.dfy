/** The scene: an entt registry of component pools, with the operations of
    Entity.h (the generic component store), HierarchyComponent.cpp (the
    intrusive sibling lists), Entity.cpp (delegation and pre-order
    serialisation) and Scene.cpp.

    The registry keeps the HierarchyComponent pool as its own field,
    `hierarchy`, and every other pool in `components`, keyed by entity and
    then by component kind. Links between entities are stored as handles.
    The ghost field `kids` is the list of children of every entity that has
    a HierarchyComponent; `SiblingLists.Lists` ties the `first`/`prev`/
    `next`/`parent` links to it. */
module SceneGraph {
  import opened Common
  import opened Components
  import opened Entities
  import opened Glm
  import opened Input
  import opened SiblingLists
  import opened Subtrees

  /** The systems a scene drives, and the calls it makes on them. */
  datatype System = PhysicsSystem | AnimatorSystem | AudioSystem | LuaScriptSystem

  datatype SystemCall =
    | InitCall(system: System)
    | UpdateCall(system: System)
    | UpdateCameraVectors(camera: nat)
    | ProcessSceneCameraInput(sceneCamera: nat)
    | UpdateSceneCameraVectors(sceneCamera: nat)

  /** The components `createEntity` gives an entity besides its
      HierarchyComponent: the ID, the identity transform, and the name as
      tag, or "Entity" when the name is empty. */
  function NewEntityComponents(name: string, uuid: string): map<Kind, Component>
  {
    map[IdKind := IdC(uuid), TransformKind := NewTransform(), TagKind := TagC(EntityTag(name))]
  }

  /** What `Scene::serialize` writes: the scene's name and the IDs of the
      entity maps under "Entities", in order. */
  datatype SceneDocument = SceneDocument(scene: string, entities: seq<string>)

  class Scene {
    /** The scene's own address, which the entities it hands out carry. */
    const address: nat
    /** The handle `entityRegistry.create()` returns next; entt never hands
        out a handle that is still in use. */
    var nextHandle: nat
    /** Every live entity's components except its HierarchyComponent. */
    var components: map<nat, map<Kind, Component>>
    /** The HierarchyComponent pool. */
    var hierarchy: Links
    var shouldInitComponentSystems: bool
    /** The calls `update` and `fixedUpdate` made on the systems, in order. */
    var systemCalls: seq<SystemCall>
    /** The children of each entity with a HierarchyComponent, first to
        last. */
    ghost var kids: Children

    /** The registry is well formed: live entities are below `nextHandle`,
        the hierarchy pool holds only live entities, and every pool holds
        components of its own kind. */
    ghost predicate Store()
      reads this
    {
      && (forall e | e in components :: e < nextHandle)
      && hierarchy.Keys <= components.Keys
      && (forall e, k | e in components && k in components[e] :: KindOf(components[e][k]) == k)
    }

    ghost predicate Valid()
      reads this
    {
      Store() && Lists(hierarchy, kids, NullHandle)
    }

    /** A scene at `address` with an empty registry. The constructor never
        sets `shouldInitComponentSystems`, so its value is taken as given. */
    constructor (address: nat, initFlag: bool)
      ensures Valid()
      ensures this.address == address && components == map[] && hierarchy == map[] && nextHandle == 0
      ensures shouldInitComponentSystems == initFlag && systemCalls == []
    {
      this.address := address;
      nextHandle := 0;
      components := map[];
      hierarchy := map[];
      shouldInitComponentSystems := initFlag;
      systemCalls := [];
      kids := map[];
    }

    /** The entity this scene hands out for handle `h`. */
    function EntityOf(h: nat): Entity
    {
      Entity(Handle(h), SceneAt(address))
    }

    // ----- Entity.h: the component store -----

    /** `hasComponent<T>`: the pool of kind `k` holds a component for the
        entity. */
    predicate HasComponent(e: Entity, k: Kind)
      reads this
    {
      e.handle.Handle? && e.handle.id in components && k in components[e.handle.id]
    }

    /** `hasComponent<HierarchyComponent>`. */
    predicate HasHierarchy(e: Entity)
      reads this
    {
      e.handle.Handle? && e.handle.id in hierarchy
    }

    /** `getComponent<T>`: fatal when the entity has no component of that
        kind. */
    function GetComponent(e: Entity, k: Kind): (r: Result<Component>)
      reads this
      requires Store()
      ensures r.Ok? <==> HasComponent(e, k)
      ensures r.Ok? ==> KindOf(r.value) == k && r.value == components[e.handle.id][k]
    {
      if HasComponent(e, k) then Ok(components[e.handle.id][k])
      else Fatal("Entity does not have component")
    }

    /** `Entity::getID`: the id of the entity's IDComponent, fatal without
        one. */
    function GetID(e: Entity): (r: Result<string>)
      reads this
      requires Store()
      ensures r.Ok? <==> HasComponent(e, IdKind)
      ensures r.Ok? ==> components[e.handle.id][IdKind] == IdC(r.value)
    {
      if HasComponent(e, IdKind) then
        Ok(components[e.handle.id][IdKind].id)
      else Fatal("Entity does not have component")
    }

    /** `addComponent<T>`: `emplace_or_replace`, so an existing component of
        the same kind is replaced and the other kinds are untouched. */
    method AddComponent(e: Entity, c: Component)
      requires Valid()
      requires e.handle.Handle? && e.handle.id in components
      modifies this`components
      ensures Valid()
      ensures components == old(components)[e.handle.id := old(components[e.handle.id])[KindOf(c) := c]]
      ensures GetComponent(e, KindOf(c)) == Ok(c)
      ensures forall k | k != KindOf(c) :: GetComponent(e, k) == old(GetComponent(e, k))
    {
      var id := e.handle.id;
      ghost var c0 := components;
      PutKeepsKinds(c0, id, c0[id][KindOf(c) := c], c0[id := c0[id][KindOf(c) := c]]);
      components := components[id := components[id][KindOf(c) := c]];
      assert Store();
      forall k | k != KindOf(c)
        ensures GetComponent(e, k) == old(GetComponent(e, k))
      {
        assert HasComponent(e, k) == (k in c0[id]);
      }
    }

    /** `removeComponent<T>`: fatal when the entity has no component of that
        kind; otherwise only that kind is removed. */
    method RemoveComponent(e: Entity, k: Kind) returns (r: Result<()>)
      requires Valid()
      modifies this`components
      ensures Valid()
      ensures r.Ok? <==> old(HasComponent(e, k))
      ensures r.Fatal? ==> components == old(components)
      ensures r.Ok? ==> components == old(components)[e.handle.id := old(components[e.handle.id]) - {k}]
      ensures !HasComponent(e, k)
      ensures forall k' | k' != k :: GetComponent(e, k') == old(GetComponent(e, k'))
    {
      if !HasComponent(e, k) {
        return Fatal("Entity does not have component (for removal)");
      }
      var id := e.handle.id;
      components := components[id := components[id] - {k}];
      r := Ok(());
    }

    // ----- HierarchyComponent.cpp: the sibling lists -----

    /** `numChildren` of `p`'s HierarchyComponent: the length of the chain
        from `first` along `next`, which is the number of `p`'s children. */
    method ChildCount(p: nat) returns (count: int)
      requires Valid() && p in hierarchy
      ensures count == |kids[p]|
    {
      count := 0;
      var c := hierarchy[p].first;
      ghost var s := kids[p];
      while c.Handle?
        invariant 0 <= count <= |s| && c == HeadOf(s[count..])
        decreases |s| - count
      {
        assert Linked(hierarchy, p, s, count, NullHandle);
        c := hierarchy[c.id].next;
        count := count + 1;
      }
    }

    /** The field writes of `removeChild` of `c` from `p`'s list. In the
        head case `first` moves to the child's `next` and that sibling's
        `prev` is cleared; otherwise the neighbours are spliced together. */
    method Unlink(p: nat, c: nat)
      requires Neighboured(hierarchy, p, c)
      modifies this`hierarchy
      ensures hierarchy == Unlinked(old(hierarchy), p, c)
    {
      if hierarchy[p].first == Handle(c) {
        if hierarchy[c].next.Handle? {
          var n := hierarchy[c].next.id;
          hierarchy := hierarchy[n := hierarchy[n].(prev := NullHandle)];
        }
        hierarchy := hierarchy[p := hierarchy[p].(first := hierarchy[c].next)];
      } else {
        var prevEntity := hierarchy[c].prev;
        var nextEntity := hierarchy[c].next;
        if prevEntity.Handle? {
          hierarchy := hierarchy[prevEntity.id := hierarchy[prevEntity.id].(next := nextEntity)];
        }
        if nextEntity.Handle? {
          hierarchy := hierarchy[nextEntity.id := hierarchy[nextEntity.id].(prev := prevEntity)];
        }
      }
    }

    /** `removeChild` on the HierarchyComponent of `p`, for a child on `p`'s
        list: a null child is fatal; otherwise the child leaves the list,
        and its own links, and every parent link, are left as they were. */
    method RemoveChild(p: nat, child: EntityHandle) returns (r: Result<()>)
      requires Valid() && p in hierarchy
      requires child.Handle? ==> child.id in kids[p]
      modifies this`hierarchy, this`kids
      ensures child.NullHandle? <==> r.Fatal?
      ensures r.Fatal? ==> hierarchy == old(hierarchy) && kids == old(kids)
      ensures r.Ok? ==> old(Neighboured(hierarchy, p, child.id))
      ensures r.Ok? ==> hierarchy == Unlinked(old(hierarchy), p, child.id)
      ensures r.Ok? ==> kids == old(kids)[p := Without(old(kids[p]), child.id)]
      ensures SameParents(old(hierarchy), hierarchy)
      ensures r.Ok? ==> child.id in hierarchy
      ensures r.Ok? ==> hierarchy[child.id].prev == old(hierarchy[child.id].prev)
      ensures r.Ok? ==> hierarchy[child.id].next == old(hierarchy[child.id].next)
      ensures r.Ok? ==> Store() && Lists(hierarchy, kids, child)
    {
      if child.NullHandle? {
        return Fatal("Cannot remove null child");
      }
      var c := child.id;
      NeighboursPresent(hierarchy, kids, p, c);
      UnlinkedKeepsLists(hierarchy, kids, p, c);
      Unlink(p, c);
      kids := kids[p := Without(kids[p], c)];
      r := Ok(());
    }

    /** What `addChild` needs to get through without a fatal error: a
        parent, a child with a HierarchyComponent, and a parent with a
        HierarchyComponent and an ID. */
    predicate CanAdopt(child: EntityHandle, newParent: EntityHandle)
      reads this
    {
      && newParent.Handle? && child.Handle?
      && child.id in hierarchy && newParent.id in hierarchy
      && HasComponent(EntityOf(newParent.id), IdKind)
    }

    /** The field writes of `addChild` once the child `c` is off every
        list: at the front of `np`'s list, at the back after walking to the
        last sibling, or as the only child; then the child's `parent` and
        `parentID`. */
    method Link(c: nat, np: nat, atStart: bool, pid: string, ghost s: seq<nat>)
      requires np in hierarchy && c in hierarchy && Chain(hierarchy, np, s)
      modifies this`hierarchy
      ensures s != [] ==> s[0] in old(hierarchy) && Last(s) in old(hierarchy)
      ensures hierarchy == Reparent(Attach(old(hierarchy), np, c, atStart, s), c, np, pid)
    {
      var first := hierarchy[np].first;
      if first.Handle? {
        if atStart {
          var f := first.id;
          hierarchy := hierarchy[f := hierarchy[f].(prev := Handle(c))];
          hierarchy := hierarchy[c := hierarchy[c].(next := Handle(f))];
          hierarchy := hierarchy[c := hierarchy[c].(prev := NullHandle)];
          hierarchy := hierarchy[np := hierarchy[np].(first := Handle(c))];
        } else {
          var endChild := first.id;
          ghost var j := 0;
          while hierarchy[endChild].next.Handle?
            invariant 0 <= j < |s| && endChild == s[j]
            decreases |s| - j
          {
            endChild := hierarchy[endChild].next.id;
            j := j + 1;
          }
          hierarchy := hierarchy[endChild := hierarchy[endChild].(next := Handle(c))];
          hierarchy := hierarchy[c := hierarchy[c].(next := NullHandle)];
          hierarchy := hierarchy[c := hierarchy[c].(prev := Handle(endChild))];
        }
      } else {
        hierarchy := hierarchy[c := hierarchy[c].(prev := NullHandle)];
        hierarchy := hierarchy[c := hierarchy[c].(next := NullHandle)];
        hierarchy := hierarchy[np := hierarchy[np].(first := Handle(c))];
      }
      hierarchy := hierarchy[c := hierarchy[c].(parent := Handle(np))];
      hierarchy := hierarchy[c := hierarchy[c].(parentID := pid)];
    }

    /** The second half of `addChild`, once the child is off every list:
        it joins `np`'s list at the front or the back and takes `np` as
        parent. */
    method Adopt(c: nat, np: nat, atStart: bool, pid: string)
      requires Store() && Lists(hierarchy, kids, Handle(c)) && c in hierarchy && np in hierarchy
      modifies this`hierarchy, this`kids
      ensures kids == old(kids)[np := if atStart then [c] + old(kids[np]) else old(kids[np]) + [c]]
      ensures hierarchy.Keys == old(hierarchy).Keys
      ensures hierarchy[c].parent == Handle(np) && hierarchy[c].parentID == pid
      ensures forall x | x in hierarchy && x != c ::
        hierarchy[x].parent == old(hierarchy[x].parent) && hierarchy[x].parentID == old(hierarchy[x].parentID)
      ensures Valid()
    {
      ListsChain(hierarchy, kids, np, Handle(c));
      AttachKeepsLists(hierarchy, kids, np, c, atStart, pid);
      AttachParents(hierarchy, np, c, atStart, kids[np], pid);
      Link(c, np, atStart, pid, kids[np]);
      kids := kids[np := if atStart then [c] + kids[np] else kids[np] + [c]];
    }

    /** `addChild` on a HierarchyComponent: the child leaves its old
        parent's list, joins `newParent`'s at the front or the back, and
        takes `newParent` and its ID as parent. A null parent or child, or a
        missing HierarchyComponent or ID, is fatal. */
    method AddChild(child: EntityHandle, newParent: EntityHandle, atStart: bool) returns (r: Result<()>)
      requires Valid()
      modifies this`hierarchy, this`kids
      ensures r.Ok? <==> old(CanAdopt(child, newParent))
      ensures r.Fatal? ==> hierarchy == old(hierarchy) && kids == old(kids)
      ensures hierarchy.Keys == old(hierarchy).Keys
      ensures r.Ok? ==> kids == Reattached(old(kids), old(hierarchy), child.id, newParent.id, atStart)
      ensures r.Ok? ==> hierarchy[child.id].parent == newParent
      ensures r.Ok? ==> old(GetID(EntityOf(newParent.id))) == Ok(hierarchy[child.id].parentID)
      ensures forall x | x in hierarchy && Handle(x) != child ::
        hierarchy[x].parent == old(hierarchy[x].parent) && hierarchy[x].parentID == old(hierarchy[x].parentID)
      ensures Valid()
    {
      if !CanAdopt(child, newParent) {
        return Fatal("Cannot add child to non-existing parent");
      }
      var c := child.id;
      var np := newParent.id;
      var pid := GetID(EntityOf(np)).value;
      var oldParent := hierarchy[c].parent;
      if oldParent.Handle? {
        assert Listed(hierarchy, kids, c);
        var _ := RemoveChild(oldParent.id, child);
      } else {
        DetachUnparented(hierarchy, kids, c);
      }
      Adopt(c, np, atStart, pid);
      r := Ok(());
    }

    // ----- Entity.cpp: delegation to the HierarchyComponent -----

    /** `Entity::addChild`: `addChild` on this entity's HierarchyComponent,
        with this entity as the new parent; fatal without one. */
    method EntityAddChild(parent: Entity, child: Entity, atStart: bool) returns (r: Result<()>)
      requires Valid()
      modifies this`hierarchy, this`kids
      ensures r.Ok? <==> old(CanAdopt(child.handle, parent.handle))
      ensures r.Fatal? ==> hierarchy == old(hierarchy) && kids == old(kids)
      ensures hierarchy.Keys == old(hierarchy).Keys
      ensures r.Ok? ==> kids == Reattached(old(kids), old(hierarchy), child.handle.id, parent.handle.id, atStart)
      ensures r.Ok? ==> hierarchy[child.handle.id].parent == parent.handle
      ensures forall x | x in hierarchy && Handle(x) != child.handle ::
        hierarchy[x].parent == old(hierarchy[x].parent) && hierarchy[x].parentID == old(hierarchy[x].parentID)
      ensures Valid()
    {
      if !HasHierarchy(parent) {
        return Fatal("Entity does not have component");
      }
      r := AddChild(child.handle, parent.handle, atStart);
    }

    /** `Entity::numChildren`: `numChildren` of this entity's
        HierarchyComponent, fatal without one. */
    method EntityNumChildren(e: Entity) returns (r: Result<int>)
      requires Valid()
      ensures r.Ok? <==> HasHierarchy(e)
      ensures r.Ok? ==> r.value == |kids[e.handle.id]|
    {
      if !HasHierarchy(e) {
        return Fatal("Entity does not have component");
      }
      var n := ChildCount(e.handle.id);
      r := Ok(n);
    }

    /** Every entity with a HierarchyComponent has an ID, which
        `serialize` reads for each entity it writes. */
    ghost predicate Identified()
      reads this
    {
      IdentifiedIn(components, hierarchy)
    }

    /** `Entity::serialize` of the entity `id`: one map per entity of its
        subtree, the entity first and then each child's subtree from
        `first` along `next`. The result lists the ID each map is keyed
        by, in emission order. */
    method SerializeEntity(id: nat, ghost rank: map<nat, nat>) returns (out: seq<string>)
      requires Valid() && Identified() && Ranked(kids, rank) && kids.Keys <= rank.Keys && id in hierarchy
      decreases rank[id], 1
      ensures out == IdsOf(components, PreOrder(kids, rank, id))
    {
      out := [components[id][IdKind].id];
      assert out == IdsOf(components, [id]);
      ghost var s := kids[id];
      ghost var j := 0;
      ListsChain(hierarchy, kids, id, NullHandle);
      var child := hierarchy[id].first;
      while child.Handle?
        invariant j <= |s| && child == HeadOf(s[j..])
        invariant forall c | c in s :: c in kids && c in rank && rank[c] < rank[id]
        invariant out == IdsOf(components, [id] + PreOrderAll(kids, rank, id, s[..j]))
        decreases |s| - j
      {
        assert child.id == s[j] && s[j] in hierarchy;
        var sub := SerializeEntity(child.id, rank);
        SerializeStep(components, kids, rank, id, j, out, sub);
        out := out + sub;
        child := hierarchy[child.id].next;
        j := j + 1;
      }
      assert |s[j..]| == 0;
      assert s[..j] == s;
    }

    // ----- Scene.cpp -----

    /** The entities in the RootComponent pool. */
    function Roots(): set<nat>
      reads this
    {
      RootSet(components)
    }

    /** No entity with a RootComponent has a parent. `createEntity` keeps
        this; `removeEntity` relies on it. */
    ghost predicate RootsUnparented()
      reads this
    {
      UnparentedRoots(components, hierarchy)
    }

    /** The start of `createEntity`: `entityRegistry.create()` hands out an
        unused handle, which receives an ID (`uuid`), the identity
        transform, the tag and an empty HierarchyComponent. */
    method NewEntity(name: string, uuid: string) returns (e: Entity)
      requires Valid()
      modifies this`components, this`hierarchy, this`kids, this`nextHandle
      ensures e == EntityOf(old(nextHandle)) && old(nextHandle) !in old(components)
      ensures nextHandle == old(nextHandle) + 1
      ensures components == old(components)[old(nextHandle) := NewEntityComponents(name, uuid)]
      ensures hierarchy == old(hierarchy)[old(nextHandle) := NewHierarchy()]
      ensures kids == old(kids)[old(nextHandle) := []]
      ensures Roots() == old(Roots()) && RootsAdoptable() == old(RootsAdoptable())
      ensures old(RootsUnparented()) ==> RootsUnparented()
      ensures Valid()
    {
      var h := nextHandle;
      var added := EntityComponents(name, uuid);
      FreshEntityKeepsRoots(components, hierarchy, h, added);
      StoreFresh(h, added);
      AddHierarchy(h);
      e := EntityOf(h);
    }

    /** The `addComponent` calls of `createEntity`: the ID, the identity
        transform, the tag "Entity", then the name as tag when it is not
        empty. */
    static method EntityComponents(name: string, uuid: string) returns (added: map<Kind, Component>)
      ensures added == NewEntityComponents(name, uuid)
      ensures RootKind !in added && forall k | k in added :: KindOf(added[k]) == k
    {
      added := map[];
      added := added[IdKind := IdC(uuid)];
      added := added[TransformKind := NewTransform()];
      added := added[TagKind := TagC("Entity")];
      if name != "" {
        added := added[TagKind := TagC(name)];
      }
    }

    /** `entityRegistry.create()` followed by the component pools taking the
        new entity's components. */
    method StoreFresh(h: nat, added: map<Kind, Component>)
      requires Store() && h == nextHandle
      requires forall k | k in added :: KindOf(added[k]) == k
      modifies this`components, this`nextHandle
      ensures h !in old(components)
      ensures components == old(components)[h := added] && nextHandle == h + 1
      ensures Store()
    {
      components := components[h := added];
      nextHandle := h + 1;
    }

    /** `addComponent<HierarchyComponent>` on an entity without one: an
        entity on no list, with no children. */
    method AddHierarchy(h: nat)
      requires Store() && Lists(hierarchy, kids, NullHandle) && h in components && h !in hierarchy
      modifies this`hierarchy, this`kids
      ensures hierarchy == old(hierarchy)[h := NewHierarchy()] && kids == old(kids)[h := []]
      ensures Valid()
    {
      AddFreshKeepsLists(hierarchy, kids, h);
      hierarchy := hierarchy[h := NewHierarchy()];
      kids := kids[h := []];
    }

    /** `getRootEntity`: the only entity with a RootComponent; when there is
        none, a new entity "root" (ID `rootUuid`) is created and marked as
        root; more than one is fatal. */
    method GetRootEntity(rootUuid: string) returns (r: Result<Entity>)
      requires Valid()
      modifies this`components, this`hierarchy, this`kids, this`nextHandle
      ensures r.Fatal? <==> |old(Roots())| > 1
      ensures |old(Roots())| != 0 ==> components == old(components) && hierarchy == old(hierarchy) && kids == old(kids) && nextHandle == old(nextHandle)
      ensures |old(Roots())| == 1 ==> r.Ok? && r.value.handle.Handle? && old(Roots()) == {r.value.handle.id}
      ensures |old(Roots())| == 0 ==> r.Ok? && r.value == EntityOf(old(nextHandle)) && Roots() == {old(nextHandle)} && RootsAdoptable()
      ensures |old(Roots())| == 0 ==>
        && components == old(components)[old(nextHandle) := NewEntityComponents("root", rootUuid)[RootKind := NewRoot()]]
        && hierarchy == old(hierarchy)[old(nextHandle) := NewHierarchy()]
        && kids == old(kids)[old(nextHandle) := []]
      ensures r.Ok? ==> r.value.handle.Handle? && RootKind in components[r.value.handle.id]
      ensures old(RootsUnparented()) ==> RootsUnparented()
      ensures Valid()
    {
      var roots := Roots();
      if roots == {} {
        var e := NewRootEntity(rootUuid);
        return Ok(e);
      } else if |roots| == 1 {
        var x :| x in roots;
        SingletonIs(roots, x);
        return Ok(EntityOf(x));
      } else {
        return Fatal("More than one root entity");
      }
    }

    /** The branch of `getRootEntity` for a scene without a root: a new
        entity "root" that receives a RootComponent. */
    method NewRootEntity(rootUuid: string) returns (e: Entity)
      requires Valid() && Roots() == {}
      modifies this`components, this`hierarchy, this`kids, this`nextHandle
      ensures e == EntityOf(old(nextHandle)) && Roots() == {old(nextHandle)}
      ensures components == old(components)[old(nextHandle) := NewEntityComponents("root", rootUuid)[RootKind := NewRoot()]]
      ensures hierarchy == old(hierarchy)[old(nextHandle) := NewHierarchy()] && kids == old(kids)[old(nextHandle) := []]
      ensures RootKind in components[e.handle.id] && RootsAdoptable()
      ensures old(RootsUnparented()) ==> RootsUnparented()
      ensures Valid()
    {
      ghost var c0 := components;
      e := NewEntity("root", rootUuid);
      ghost var c1, x := components, e.handle.id;
      MarkRootFacts(c1, hierarchy, x);
      assert c1[x := c1[x][RootKind := NewRoot()]] == c0[x := NewEntityComponents("root", rootUuid)[RootKind := NewRoot()]];
      AddComponent(e, NewRoot());
    }

    /** `Scene::serialize`: the scene is written as "main-scene" with the
        serialisation of the root entity (created first when there is none)
        as its entity list. */
    method SerializeScene(rootUuid: string, ghost rank: map<nat, nat>) returns (r: Result<SceneDocument>)
      requires Valid() && Identified() && RootsAdoptable() && Ranked(kids, rank) && kids.Keys <= rank.Keys
      modifies this`components, this`hierarchy, this`kids, this`nextHandle
      ensures r.Fatal? <==> |old(Roots())| > 1
      ensures r.Ok? ==> exists root, rank' | root in Roots() && root in kids && Ranked(kids, rank') && kids.Keys <= rank'.Keys ::
        r.value == SceneDocument("main-scene", IdsOf(components, PreOrder(kids, rank', root)))
      ensures Valid()
    {
      ghost var n, k0, c0, h0 := nextHandle, kids, components, hierarchy;
      var root :- GetRootEntity(rootUuid);
      ghost var rank' := RootKeepsRanked(c0, h0, k0, rank, n, components, hierarchy, kids, rootUuid);
      var entities := SerializeEntity(root.handle.id, rank');
      r := Ok(SceneDocument("main-scene", entities));
    }

    /** The loop shared by the lookups of Scene.cpp: the entities of the
        pool that `q` searches are visited one by one (in the pool's order,
        which the model leaves open) and the first match is returned, or the
        null entity when none matches. */
    method Find(q: Query) returns (r: Entity)
      ensures r == NullEntity() <==> forall x | x in components :: !Matches(components, x, q)
      ensures r != NullEntity() ==> r.scene == SceneAt(address) && r.handle.Handle? && Matches(components, r.handle.id, q)
    {
      var pool := set x | x in components && PoolOf(q) in components[x];
      while pool != {}
        invariant pool <= components.Keys
        invariant forall x | x in components && x !in pool :: !Matches(components, x, q)
        decreases |pool|
      {
        var x :| x in pool;
        if Matches(components, x, q) {
          return EntityOf(x);
        }
        pool := pool - {x};
      }
      r := NullEntity();
    }

    /** `getEntityByID`: an entity whose IDComponent holds `id`, or the null
        entity. */
    method GetEntityById(id: string) returns (r: Entity)
      requires Store()
      ensures r == NullEntity() <==> forall x | x in components && IdKind in components[x] :: components[x][IdKind].id != id
      ensures r != NullEntity() ==> r.handle.Handle? && r.handle.id in components && IdKind in components[r.handle.id] && components[r.handle.id][IdKind].id == id
    {
      r := Find(ById(id));
    }

    /** `getEntityByTag`: an entity whose TagComponent holds `tag`, or the
        null entity. */
    method GetEntityByTag(tag: string) returns (r: Entity)
      requires Store()
      ensures r == NullEntity() <==> forall x | x in components && TagKind in components[x] :: components[x][TagKind].tag != tag
      ensures r != NullEntity() ==> r.handle.Handle? && r.handle.id in components && TagKind in components[r.handle.id] && components[r.handle.id][TagKind].tag == tag
    {
      r := Find(ByTag(tag));
    }

    /** `getEntityByInternalID`: the entity with an IDComponent whose handle
        is `internalID`, or the null entity. */
    method GetEntityByInternalId(internalId: int) returns (r: Entity)
      ensures r == NullEntity() <==> !(internalId >= 0 && internalId in components && IdKind in components[internalId])
      ensures r != NullEntity() ==> r == EntityOf(internalId)
    {
      r := Find(ByInternalId(internalId));
    }

    /** `getSceneCamera`: some entity with a SceneCameraComponent, or the
        null entity when there is none. */
    method GetSceneCamera() returns (r: Entity)
      ensures r == NullEntity() <==> forall x | x in components :: SceneCameraKind !in components[x]
      ensures r != NullEntity() ==> r.handle.Handle? && r.handle.id in components && SceneCameraKind in components[r.handle.id]
    {
      r := Find(WithKind(SceneCameraKind));
    }

    /** `getMainCamera`: some entity with a CameraComponent, or the null
        entity when there is none. */
    method GetMainCamera() returns (r: Entity)
      ensures r == NullEntity() <==> forall x | x in components :: CameraKind !in components[x]
      ensures r != NullEntity() ==> r.handle.Handle? && r.handle.id in components && CameraKind in components[r.handle.id]
    {
      r := Find(WithKind(CameraKind));
    }

    /** `update`: the first call after the flag is set initialises the
        physics, animator, audio and Lua systems in that order and clears the
        flag; every call then updates the animator. */
    method Update()
      modifies this`shouldInitComponentSystems, this`systemCalls
      ensures systemCalls == old(systemCalls) + Updates(old(shouldInitComponentSystems), 1)
      ensures !shouldInitComponentSystems
    {
      if shouldInitComponentSystems {
        systemCalls := systemCalls + [InitCall(PhysicsSystem), InitCall(AnimatorSystem), InitCall(AudioSystem), InitCall(LuaScriptSystem)];
        shouldInitComponentSystems := false;
      }
      systemCalls := systemCalls + [UpdateCall(AnimatorSystem)];
    }

    /** `fixedUpdate` while the project is `playing` or not: the physics,
        audio and Lua systems step only when playing and initialised; then
        the main camera (playing) or the scene camera (editing), if there is
        one, is updated, through its input handler when the editor's
        renderer is active; last the mouse movement and scroll are reset. */
    method FixedUpdate(playing: bool, input: InputState)
      modifies this`systemCalls, input`mouseMovement, input`mouseScroll
      ensures exists camera | camera == NullEntity() <==> NoCamera(components, playing) ::
        && (camera != NullEntity() ==> camera.handle.Handle? && IsCamera(components, camera.handle.id, playing))
        && systemCalls == old(systemCalls) + SystemSteps(playing, shouldInitComponentSystems)
                          + CameraCall(camera, playing, input.editorRendererActive)
      ensures input.mouseMovement == Vec2(0.0, 0.0) && input.mouseScroll == Vec2(0.0, 0.0)
    {
      systemCalls := systemCalls + SystemSteps(playing, shouldInitComponentSystems);
      var camera;
      if playing {
        camera := GetMainCamera();
      } else {
        camera := GetSceneCamera();
      }
      systemCalls := systemCalls + CameraCall(camera, playing, input.IsEditorRendererActive());
      input.ResetMouseDynamicState();
    }

    /** Every entity with a RootComponent has a HierarchyComponent and an
        ID, so that entities can be added under it. */
    predicate RootsAdoptable()
      reads this
    {
      AdoptableRoots(components, hierarchy)
    }

    /** The last step of `createEntity`: `getRootEntity().addChild(entity,
        addChildStart)` for the new entity `n`, which has no parent and is
        not a root. */
    method AddUnderRoot(n: nat, addChildStart: bool, rootUuid: string) returns (r: Result<()>)
      requires Valid() && n in hierarchy && hierarchy[n].parent == NullHandle && RootKind !in components[n]
      modifies this`components, this`hierarchy, this`kids, this`nextHandle
      ensures r.Fatal? <==> |old(Roots())| > 1 || (|old(Roots())| == 1 && !old(RootsAdoptable()))
      ensures r.Ok? ==> n in hierarchy && hierarchy[n].parent.Handle? && hierarchy[n].parent.id in kids
      ensures r.Ok? ==> n in components && components[n] == old(components[n]) && Roots() == {hierarchy[n].parent.id}
      ensures r.Ok? ==>
        var root := hierarchy[n].parent.id;
        var before := if root in old(kids) then old(kids)[root] else [];
        kids[root] == if addChildStart then [n] + before else before + [n]
      ensures r.Ok? ==> old(RootsUnparented()) ==> RootsUnparented()
      ensures r.Ok? ==> Valid()
    {
      ghost var k0, adoptable0 := kids, RootsAdoptable();
      var root :- GetRootEntity(rootUuid);
      assert |old(Roots())| == 1 ==> RootsAdoptable() == adoptable0;
      assert Roots() == {root.handle.id};
      r := AttachToRoot(root.handle.id, n, addChildStart);
    }

    /** `getRootEntity().addChild(entity, addChildStart)` once the root `x`
        is known: fatal when the root lacks a HierarchyComponent or an ID;
        otherwise `n` joins the root's list at the front or the back. */
    method AttachToRoot(x: nat, n: nat, addChildStart: bool) returns (r: Result<()>)
      requires Valid() && Roots() == {x} && n in hierarchy && hierarchy[n].parent == NullHandle && RootKind !in components[n]
      modifies this`hierarchy, this`kids
      ensures r.Fatal? <==> !old(RootsAdoptable())
      ensures r.Fatal? ==> hierarchy == old(hierarchy) && kids == old(kids)
      ensures r.Ok? ==> x in old(kids) && x in kids && n in hierarchy && hierarchy[n].parent == Handle(x)
      ensures r.Ok? ==> kids[x] == if addChildStart then [n] + old(kids[x]) else old(kids[x]) + [n]
      ensures r.Ok? ==> old(RootsUnparented()) ==> RootsUnparented()
      ensures Valid()
    {
      assert x in RootSet(components);
      assert RootsAdoptable() <==> CanAdopt(Handle(n), Handle(x)) by {
        if CanAdopt(Handle(n), Handle(x)) {
          forall y | y in components && RootKind in components[y]
            ensures y in hierarchy && IdKind in components[y]
          {
            assert y in RootSet(components);
          }
        }
      }
      ghost var h0 := hierarchy;
      r := EntityAddChild(EntityOf(x), EntityOf(n), addChildStart);
      if r.Ok? {
        assert h0[n].parent == NullHandle;
        assert x != n;
        assert UnparentedRoots(components, h0) ==> UnparentedRoots(components, hierarchy) by {
          if UnparentedRoots(components, h0) {
            forall y | y in hierarchy && y in components && RootKind in components[y]
              ensures hierarchy[y].parent == NullHandle
            {
              assert y in RootSet(components);
            }
          }
        }
      }
    }

    /** `createEntity`: a new entity with exactly an ID, a transform, a tag
        and a HierarchyComponent; unless it is to be the root, it is then
        added under the root entity (created on demand), at the front of
        the root's children when `addChildStart` holds and at the back
        otherwise. */
    method CreateEntity(name: string, rootEntity: bool, addChildStart: bool, uuid: string, rootUuid: string)
      returns (r: Result<Entity>)
      requires Valid()
      modifies this`components, this`hierarchy, this`kids, this`nextHandle
      ensures r.Fatal? <==> !rootEntity && (|old(Roots())| > 1 || (|old(Roots())| == 1 && !old(RootsAdoptable())))
      ensures r.Ok? ==> r.value == EntityOf(old(nextHandle)) && old(nextHandle) !in old(components)
      ensures r.Ok? ==> old(nextHandle) in components && old(nextHandle) in hierarchy
      ensures r.Ok? ==> components[old(nextHandle)] == NewEntityComponents(name, uuid)
      ensures r.Ok? && rootEntity ==> components == old(components)[old(nextHandle) := NewEntityComponents(name, uuid)]
      ensures r.Ok? && rootEntity ==> kids == old(kids)[old(nextHandle) := []] && hierarchy == old(hierarchy)[old(nextHandle) := NewHierarchy()]
      ensures r.Ok? && !rootEntity ==>
        && hierarchy[old(nextHandle)].parent.Handle? && hierarchy[old(nextHandle)].parent.id in kids
        && Roots() == {hierarchy[old(nextHandle)].parent.id}
      ensures r.Ok? && !rootEntity ==>
        var root := hierarchy[old(nextHandle)].parent.id;
        var before := if root in old(kids) then old(kids)[root] else [];
        kids[root] == if addChildStart then [old(nextHandle)] + before else before + [old(nextHandle)]
      ensures r.Ok? ==> old(RootsUnparented()) ==> RootsUnparented()
      ensures r.Ok? ==> Valid()
    {
      var e := NewEntity(name, uuid);
      if !rootEntity {
        var added :- AddUnderRoot(e.handle.id, addChildStart, rootUuid);
      }
      r := Ok(e);
    }

    // ----- Scene.cpp: removeEntity -----

    /** What `removeEntity` needs to get through without a fatal error: the
        entity has a HierarchyComponent and is either a root or has a
        parent. */
    predicate Removable(e: Entity)
      reads this
    {
      HasHierarchy(e) && (HasComponent(e, RootKind) || hierarchy[e.handle.id].parent.Handle?)
    }

    /** The state of the `removeEntity` loop over the children of `id`,
        from the registry `k0`/`c0`/`h0` it started with, once the subtrees
        of the first `j` children are gone. */
    ghost predicate Walking(id: nat, rank: map<nat, nat>, k0: Children, c0: map<nat, map<Kind, Component>>, h0: Links, j: nat)
      reads this
    {
      && Ranked(k0, rank) && UniqueParents(k0) && id in k0 && id in rank && Distinct(k0[id]) && j <= |k0[id]|
      && WalkAt(k0, c0, rank, id, j, kids, components)
      && (forall x | x in hierarchy :: x in h0 && hierarchy[x].parent == h0[x].parent)
      && Valid() && RootsUnparented() && Ranked(kids, rank) && kids.Keys <= rank.Keys
    }

    /** One turn of the loop of `removeEntity`: the next sibling is read,
        then the subtree of child `j` is removed. */
    method RemoveNextChild(child: nat, id: nat, ghost rank: map<nat, nat>, ghost k0: Children, ghost c0: map<nat, map<Kind, Component>>, ghost h0: Links, ghost j: nat)
      returns (nextChild: EntityHandle)
      requires Walking(id, rank, k0, c0, h0, j) && j < |k0[id]| && child == k0[id][j]
      modifies this`components, this`hierarchy, this`kids
      decreases rank[id], 0
      ensures Walking(id, rank, k0, c0, h0, j + 1)
      ensures nextChild == HeadOf(k0[id][j + 1..])
    {
      ghost var s := k0[id];
      assert kids[id] == s[j..];
      assert Linked(hierarchy, id, kids[id], 0, NullHandle);
      nextChild := hierarchy[child].next;
      WalkFrame(k0, c0, rank, id, j, kids, components);
      RemoveWalkStep(k0, c0, rank, id, j, kids, components);
      var _ := RemoveEntity(EntityOf(child), rank);
    }

    /** The loop of `removeEntity` over `e`'s children: each child's subtree
        is removed in turn, the next sibling being read before the child is
        removed. Afterwards `e` has no children and exactly the subtrees of
        its former children are gone. */
    method RemoveChildren(id: nat, ghost rank: map<nat, nat>)
      requires Valid() && RootsUnparented() && Ranked(kids, rank) && kids.Keys <= rank.Keys && id in hierarchy
      modifies this`components, this`hierarchy, this`kids
      decreases rank[id], 1
      ensures WalkAt(old(kids), old(components), rank, id, |old(kids[id])|, kids, components)
      ensures forall x | x in hierarchy :: x in old(hierarchy) && hierarchy[x].parent == old(hierarchy[x].parent)
      ensures Valid() && RootsUnparented() && Ranked(kids, rank) && kids.Keys <= rank.Keys
    {
      ghost var k0, c0, h0 := kids, components, hierarchy;
      ghost var s := kids[id];
      ListsUniqueParents(hierarchy, kids, NullHandle);
      assert UniqueParents(k0);
      var child := hierarchy[id].first;
      ghost var j := 0;
      while child.Handle?
        invariant Walking(id, rank, k0, c0, h0, j)
        invariant child == HeadOf(s[j..])
        decreases |s| - j
      {
        child := RemoveNextChild(child.id, id, rank, k0, c0, h0, j);
        j := j + 1;
      }
      assert |s[j..]| == 0;
      assert j == |s|;
    }

    /** `removeEntity`: the entity's whole subtree is destroyed, children
        first, and the entity leaves its parent's list unless it is the
        root. An entity without a HierarchyComponent, or a non-root entity
        without a parent, is fatal. */
    method RemoveEntity(e: Entity, ghost rank: map<nat, nat>) returns (r: Result<()>)
      requires Valid() && RootsUnparented() && Ranked(kids, rank) && kids.Keys <= rank.Keys
      modifies this`components, this`hierarchy, this`kids
      decreases if e.handle.Handle? && e.handle.id in rank then rank[e.handle.id] else 0, 2
      ensures r.Ok? <==> old(Removable(e))
      ensures r.Fatal? ==> components == old(components) && hierarchy == old(hierarchy) && kids == old(kids)
      ensures r.Ok? ==> components == Drop(old(components), PreOrder(old(kids), rank, e.handle.id))
      ensures r.Ok? ==> kids == Unlist(Drop(old(kids), PreOrder(old(kids), rank, e.handle.id)), old(hierarchy[e.handle.id].parent), e.handle.id)
      ensures forall x | x in hierarchy :: x in old(hierarchy) && hierarchy[x].parent == old(hierarchy[x].parent)
      ensures Valid() && RootsUnparented() && Ranked(kids, rank) && kids.Keys <= rank.Keys
    {
      if !Removable(e) {
        return Fatal("Entity does not have component");
      }
      var id := e.handle.id;
      ghost var k0, c0, h0 := kids, components, hierarchy;
      ghost var parent := hierarchy[id].parent;
      assert Listed(hierarchy, kids, id);
      RemoveChildren(id, rank);
      DestroyEntity(e, rank, k0, c0, h0);
      r := Ok(());
    }

    /** The end of `removeEntity`, once the children are gone: the entity
        leaves its parent's list unless it is a root, and
        `entityRegistry.destroy` removes it with all its components. */
    method DestroyEntity(e: Entity, ghost rank: map<nat, nat>, ghost k0: Children, ghost c0: map<nat, map<Kind, Component>>, ghost h0: Links)
      requires Valid() && RootsUnparented() && Ranked(kids, rank) && kids.Keys <= rank.Keys
      requires Ranked(k0, rank) && e.handle.Handle? && e.handle.id in k0 && e.handle.id in rank
      requires e.handle.id in h0 && (h0[e.handle.id].parent.Handle? ==> h0[e.handle.id].parent.id in k0 && e.handle.id in k0[h0[e.handle.id].parent.id])
      requires WalkAt(k0, c0, rank, e.handle.id, |k0[e.handle.id]|, kids, components)
      requires forall x | x in hierarchy :: x in h0 && hierarchy[x].parent == h0[x].parent
      requires HasComponent(e, RootKind) || h0[e.handle.id].parent.Handle?
      modifies this`components, this`hierarchy, this`kids
      ensures components == Drop(c0, PreOrder(k0, rank, e.handle.id))
      ensures kids == Unlist(Drop(k0, PreOrder(k0, rank, e.handle.id)), h0[e.handle.id].parent, e.handle.id)
      ensures forall x | x in hierarchy :: x in h0 && hierarchy[x].parent == h0[x].parent
      ensures Valid() && RootsUnparented() && Ranked(kids, rank) && kids.Keys <= rank.Keys
    {
      var id := e.handle.id;
      ghost var kl, cl := kids, components;
      assert Listed(hierarchy, kids, id);
      LeaveParent(id);
      RemoveWalkEnd(k0, c0, rank, id, h0[id].parent, kl, cl);
      Erase(id);
      UnlistKeepsRanked(kl, rank, h0[id].parent, id, hierarchy);
    }

    /** `entityRegistry.destroy`: the entity, now on no list and with no
        children, goes with all its components. */
    method Erase(id: nat)
      requires Store() && RootsUnparented() && id in kids && kids[id] == [] && Lists(hierarchy, kids, Handle(id))
      modifies this`components, this`hierarchy, this`kids
      ensures components == old(components) - {id} && hierarchy == old(hierarchy) - {id} && kids == old(kids) - {id}
      ensures Valid() && RootsUnparented()
    {
      DestroyKeepsLists(hierarchy, kids, id);
      components := components - {id};
      hierarchy := hierarchy - {id};
      kids := kids - {id};
    }

    /** The first step of `destroyEntity`: an entity that is not a root
        leaves its parent's list; a root, which has no parent, is on none. */
    method LeaveParent(id: nat)
      requires Valid() && RootsUnparented() && id in hierarchy && id in kids
      requires hierarchy[id].parent.Handle? ==> hierarchy[id].parent.id in kids && id in kids[hierarchy[id].parent.id]
      requires RootKind in components[id] || hierarchy[id].parent.Handle?
      modifies this`hierarchy, this`kids
      ensures kids == Unlist(old(kids), old(hierarchy[id].parent), id)
      ensures SameParents(old(hierarchy), hierarchy)
      ensures Store() && Lists(hierarchy, kids, Handle(id))
    {
      if RootKind !in components[id] {
        var p := hierarchy[id].parent.id;
        assert Listed(hierarchy, kids, id);
        var _ := RemoveChild(p, Handle(id));
      } else {
        DetachUnparented(hierarchy, kids, id);
      }
    }
  }

  /** The ID of entity `x` in the pools `c` ("" for an entity without
      one, which `Identified` rules out). */
  function IdOf(c: map<nat, map<Kind, Component>>, x: nat): string
  {
    if x in c && IdKind in c[x] && c[x][IdKind].IdC? then c[x][IdKind].id else ""
  }

  /** The IDs of the entities `s`, in order. */
  function IdsOf(c: map<nat, map<Kind, Component>>, s: seq<nat>): (ids: seq<string>)
    ensures |ids| == |s|
  {
    if s == [] then [] else [IdOf(c, s[0])] + IdsOf(c, s[1..])
  }

  lemma {:induction false} IdsOfAppend(c: map<nat, map<Kind, Component>>, a: seq<nat>, b: seq<nat>)
    ensures IdsOf(c, a + b) == IdsOf(c, a) + IdsOf(c, b)
  {
    if a == [] {
      assert a + b == b;
    } else {
      assert (a + b)[1..] == a[1..] + b;
      IdsOfAppend(c, a[1..], b);
    }
  }

  /** One turn of the loop of `serialize`: the output so far grows by the
      next child's subtree. */
  lemma SerializeStep(c: map<nat, map<Kind, Component>>, k: Children, rank: map<nat, nat>, id: nat, j: nat, out: seq<string>, sub: seq<string>)
    requires Ranked(k, rank) && id in k && id in rank && j < |k[id]|
    requires out == IdsOf(c, [id] + PreOrderAll(k, rank, id, k[id][..j]))
    requires sub == IdsOf(c, PreOrder(k, rank, k[id][j]))
    ensures out + sub == IdsOf(c, [id] + PreOrderAll(k, rank, id, k[id][..j + 1]))
  {
    var a := [id] + PreOrderAll(k, rank, id, k[id][..j]);
    var b := PreOrder(k, rank, k[id][j]);
    PreOrderAllSnoc(k, rank, id, k[id], j);
    assert [id] + PreOrderAll(k, rank, id, k[id][..j + 1]) == a + b;
    IdsOfAppend(c, a, b);
  }

  /** Every entity with a HierarchyComponent in `h` has an ID in `c`. */
  ghost predicate IdentifiedIn(c: map<nat, map<Kind, Component>>, h: Links)
  {
    forall x | x in h :: x in c && IdKind in c[x] && c[x][IdKind].IdC?
  }

  /** After `getRootEntity` the store is still identified and ranked:
      either nothing changed, or a fresh root entity `n` with no children
      was added. */
  lemma RootKeepsRanked(c0: map<nat, map<Kind, Component>>, h0: Links, k0: Children, rank: map<nat, nat>, n: nat,
                        c: map<nat, map<Kind, Component>>, h: Links, k: Children, rootUuid: string)
    returns (rank': map<nat, nat>)
    requires IdentifiedIn(c0, h0) && Ranked(k0, rank) && k0.Keys <= rank.Keys
    requires k0.Keys == h0.Keys && n !in k0
    requires (c == c0 && h == h0 && k == k0) ||
      (c == c0[n := NewEntityComponents("root", rootUuid)[RootKind := NewRoot()]] && h == h0[n := NewHierarchy()] && k == k0[n := []])
    ensures Ranked(k, rank') && k.Keys <= rank'.Keys && IdentifiedIn(c, h)
  {
    if c == c0 && h == h0 && k == k0 {
      rank' := rank;
    } else {
      rank' := FreshKeepsRanked(k0, rank, n);
      FreshKeepsIdentified(c0, h0, n, NewEntityComponents("root", rootUuid)[RootKind := NewRoot()]);
    }
  }

  /** Storing a map of components of their own kinds keeps every pool
      holding components of its own kind. */
  lemma PutKeepsKinds(c: map<nat, map<Kind, Component>>, x: nat, m: map<Kind, Component>, c': map<nat, map<Kind, Component>>)
    requires forall e, k | e in c && k in c[e] :: KindOf(c[e][k]) == k
    requires forall k | k in m :: KindOf(m[k]) == k
    requires c' == c[x := m]
    ensures forall e, k | e in c' && k in c'[e] :: KindOf(c'[e][k]) == k
  {
  }

  /** A new entity with an ID keeps every entity identified. */
  lemma FreshKeepsIdentified(c: map<nat, map<Kind, Component>>, h: Links, n: nat, m: map<Kind, Component>)
    requires IdentifiedIn(c, h) && IdKind in m && m[IdKind].IdC?
    ensures IdentifiedIn(c[n := m], h[n := NewHierarchy()])
  {
  }

  /** A new entity with no children, on no list, can be ranked below
      everything. */
  lemma FreshKeepsRanked(k: Children, rank: map<nat, nat>, n: nat) returns (rank': map<nat, nat>)
    requires Ranked(k, rank) && k.Keys <= rank.Keys && n !in k
    ensures Ranked(k[n := []], rank') && k[n := []].Keys <= rank'.Keys
  {
    rank' := rank[n := 0];
    forall p, c | p in k[n := []] && c in k[n := []][p]
      ensures c in k[n := []] && p in rank' && c in rank' && rank'[c] < rank'[p]
    {
      assert p != n && c in k[p] && c != n;
    }
  }

  /** What a lookup of Scene.cpp searches for. */
  datatype Query = ById(id: string) | ByTag(tag: string) | ByInternalId(internalId: int) | WithKind(kind: Kind)

  /** The pool a lookup iterates over. */
  function PoolOf(q: Query): Kind
  {
    match q
    case ById(_) => IdKind
    case ByTag(_) => TagKind
    case ByInternalId(_) => IdKind
    case WithKind(k) => k
  }

  /** Entity `x` is in the pool of `q` and is what `q` looks for. */
  predicate Matches(c: map<nat, map<Kind, Component>>, x: nat, q: Query)
  {
    x in c && PoolOf(q) in c[x] &&
    match q
    case ById(id) => c[x][IdKind].IdC? && c[x][IdKind].id == id
    case ByTag(tag) => c[x][TagKind].TagC? && c[x][TagKind].tag == tag
    case ByInternalId(n) => x == n
    case WithKind(_) => true
  }

  /** The calls of `n` successive `update`s, the first with the flag
      `init`. */
  function Updates(init: bool, n: nat): seq<SystemCall>
  {
    if n == 0 then []
    else UpdateOnce(init) + Updates(false, n - 1)
  }

  /** The calls of one `update` with the flag `init`. */
  function UpdateOnce(init: bool): seq<SystemCall>
  {
    (if init then [InitCall(PhysicsSystem), InitCall(AnimatorSystem), InitCall(AudioSystem), InitCall(LuaScriptSystem)] else [])
    + [UpdateCall(AnimatorSystem)]
  }

  /** However many times `update` runs, each system is initialised once if
      the flag was set and never otherwise, and the animator is updated once
      per call. */
  lemma {:induction false} InitOnce(init: bool, n: nat, s: System)
    ensures multiset(Updates(init, n))[InitCall(s)] == if init && n > 0 then 1 else 0
    ensures multiset(Updates(init, n))[UpdateCall(AnimatorSystem)] == n
  {
    if n > 0 {
      InitOnce(false, n - 1, s);
      assert Updates(init, n) == UpdateOnce(init) + Updates(false, n - 1);
      assert multiset(Updates(init, n)) == multiset(UpdateOnce(init)) + multiset(Updates(false, n - 1));
    }
  }

  /** `update` steps no system but the animator. */
  lemma {:induction false} OnlyAnimatorSteps(init: bool, n: nat)
    ensures forall c | c in Updates(init, n) :: c.UpdateCall? ==> c == UpdateCall(AnimatorSystem)
  {
    if n > 0 {
      OnlyAnimatorSteps(false, n - 1);
      assert Updates(init, n) == UpdateOnce(init) + Updates(false, n - 1);
    }
  }

  /** The systems are initialised, in the order physics, animator, audio,
      Lua, before the animator's first update. */
  lemma InitBeforeUpdate(n: nat)
    requires n > 0
    ensures Updates(true, n)[..5] == [InitCall(PhysicsSystem), InitCall(AnimatorSystem), InitCall(AudioSystem), InitCall(LuaScriptSystem), UpdateCall(AnimatorSystem)]
  {
    assert Updates(true, n) == UpdateOnce(true) + Updates(false, n - 1);
  }

  /** The system updates of `fixedUpdate`. */
  function SystemSteps(playing: bool, init: bool): seq<SystemCall>
  {
    if playing && !init then [UpdateCall(PhysicsSystem), UpdateCall(AudioSystem), UpdateCall(LuaScriptSystem)] else []
  }

  /** The camera `fixedUpdate` looks for: a main camera when playing, the
      scene camera otherwise. */
  predicate IsCamera(c: map<nat, map<Kind, Component>>, x: nat, playing: bool)
  {
    x in c && (if playing then CameraKind else SceneCameraKind) in c[x]
  }

  predicate NoCamera(c: map<nat, map<Kind, Component>>, playing: bool)
  {
    forall x | x in c :: !IsCamera(c, x, playing)
  }

  /** The camera update `fixedUpdate` makes, if it found a camera. */
  function CameraCall(camera: Entity, playing: bool, editorRendererActive: bool): seq<SystemCall>
  {
    if !Truthy(camera) then []
    else if playing then [UpdateCameraVectors(camera.handle.id)]
    else if editorRendererActive then [ProcessSceneCameraInput(camera.handle.id)]
    else [UpdateSceneCameraVectors(camera.handle.id)]
  }

  /** The entities in the RootComponent pool of `c`. */
  function RootSet(c: map<nat, map<Kind, Component>>): set<nat>
  {
    set x | x in c && RootKind in c[x]
  }

  predicate AdoptableRoots(c: map<nat, map<Kind, Component>>, h: Links)
  {
    forall x | x in c && RootKind in c[x] :: x in h && IdKind in c[x]
  }

  ghost predicate UnparentedRoots(c: map<nat, map<Kind, Component>>, h: Links)
  {
    forall x | x in h && x in c && RootKind in c[x] :: h[x].parent == NullHandle
  }

  /** A new entity without a RootComponent changes nothing about the
      roots. */
  lemma FreshEntityKeepsRoots(c: map<nat, map<Kind, Component>>, h: Links, x: nat, m: map<Kind, Component>)
    requires x !in c && RootKind !in m
    ensures RootSet(c[x := m]) == RootSet(c)
    ensures AdoptableRoots(c[x := m], h[x := NewHierarchy()]) == AdoptableRoots(c, h)
    ensures UnparentedRoots(c, h) ==> UnparentedRoots(c[x := m], h[x := NewHierarchy()])
  {
    var c', h' := c[x := m], h[x := NewHierarchy()];
    if AdoptableRoots(c, h) {
      forall y | y in c' && RootKind in c'[y]
        ensures y in h' && IdKind in c'[y]
      {
        assert y != x;
      }
    }
    if AdoptableRoots(c', h') {
      forall y | y in c && RootKind in c[y]
        ensures y in h && IdKind in c[y]
      {
        assert c'[y] == c[y];
      }
    }
  }

  /** Marking the unparented entity `x` as root in a scene without one
      makes it the only root, and roots stay unparented. */
  lemma MarkRootFacts(c: map<nat, map<Kind, Component>>, h: Links, x: nat)
    requires x in c && x in h && h[x].parent == NullHandle && RootSet(c) == {} && IdKind in c[x]
    ensures RootSet(c[x := c[x][RootKind := NewRoot()]]) == {x}
    ensures AdoptableRoots(c[x := c[x][RootKind := NewRoot()]], h)
    ensures UnparentedRoots(c, h) ==> UnparentedRoots(c[x := c[x][RootKind := NewRoot()]], h)
  {
    var c' := c[x := c[x][RootKind := NewRoot()]];
    forall y | y in RootSet(c')
      ensures y == x
    {
      assert y != x ==> y in RootSet(c);
    }
    forall y | y in c' && RootKind in c'[y]
      ensures y in h && IdKind in c'[y]
    {
      assert y in RootSet(c');
    }
  }

  /** A set with one element is the set of that element. */
  lemma SingletonIs(s: set<nat>, x: nat)
    requires |s| == 1 && x in s
    ensures s == {x}
  {
    assert |s - {x}| == 0;
  }
}
