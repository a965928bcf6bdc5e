/** One animation of a model (Animation.cpp): its timing, a copy of the
    animation file's node tree, one AnimationBone per channel, and the bone
    ids it takes from (and adds to) the model's mesh component. */
module Animations {
  import opened Common
  import opened Glm
  import opened Components
  import opened Assimp
  import opened AssetLoaders
  import opened AnimationBones

  // ---------------------------------------------------------------------------
  // The node tree copy (readHierarchyData)
  // ---------------------------------------------------------------------------

  /** AssimpNodeData.h. */
  datatype AssimpNodeData = AssimpNodeData(name: string, transformation: Mat4, childrenCount: int,
                                           children: seq<AssimpNodeData>)

  /** The copy of a node and, in order, of its children. */
  function NodeData(src: AiNode): AssimpNodeData
    decreases src
  {
    AssimpNodeData(src.name, src.transformation, |src.children|,
                   seq(|src.children|, i requires 0 <= i < |src.children| => NodeData(src.children[i])))
  }

  /** `dest` copies `src` node by node: the same name and transformation, a
      child count equal to the number of children, and the children's copies
      in the source order. */
  predicate Mirrors(dest: AssimpNodeData, src: AiNode)
    decreases src
  {
    dest.name == src.name && dest.transformation == src.transformation &&
    dest.childrenCount == |src.children| && |dest.children| == |src.children| &&
    forall i :: 0 <= i < |src.children| ==> Mirrors(dest.children[i], src.children[i])
  }

  /** The copy mirrors its source, and it is the only tree that does. */
  lemma {:induction false} NodeDataMirrors(dest: AssimpNodeData, src: AiNode)
    ensures Mirrors(NodeData(src), src)
    ensures Mirrors(dest, src) ==> dest == NodeData(src)
    decreases src
  {
    forall i | 0 <= i < |src.children|
      ensures Mirrors(NodeData(src).children[i], src.children[i])
    {
      NodeDataMirrors(NodeData(src).children[i], src.children[i]);
    }
    if Mirrors(dest, src) {
      forall i | 0 <= i < |src.children|
        ensures dest.children[i] == NodeData(src).children[i]
      {
        NodeDataMirrors(dest.children[i], src.children[i]);
      }
    }
  }

  /** readHierarchyData: name, transformation and child count, then each
      child copied recursively and appended. */
  method ReadHierarchyData(src: AiNode) returns (dest: AssimpNodeData)
    ensures dest == NodeData(src)
    decreases src
  {
    var children: seq<AssimpNodeData> := [];
    var i := 0;
    while i < |src.children|
      invariant 0 <= i <= |src.children| && |children| == i
      invariant forall j :: 0 <= j < i ==> children[j] == NodeData(src.children[j])
    {
      var child := ReadHierarchyData(src.children[i]);
      children := children + [child];
      i := i + 1;
    }
    dest := AssimpNodeData(src.name, src.transformation, |src.children|, children);
  }

  // ---------------------------------------------------------------------------
  // Missing bones (readMissingBones)
  // ---------------------------------------------------------------------------

  /** The mesh's bone map and counter after the channels: a channel whose
      bone the mesh lacks gets the counter as its id, and the counter
      advances. */
  function WithChannels(bs: Bones, channels: seq<NodeAnim>, offset: Mat4): Bones
  {
    if channels == [] then bs
    else Register(WithChannels(bs, channels[..|channels| - 1], offset), channels[|channels| - 1].nodeName, offset)
  }

  /** Adding the channels' bones keeps existing entries and dense ids, and
      every channel's bone ends up in the map. */
  lemma {:induction false} WithChannelsFacts(bs: Bones, channels: seq<NodeAnim>, offset: Mat4)
    ensures forall k :: k in bs.infoMap ==>
      (k in WithChannels(bs, channels, offset).infoMap && WithChannels(bs, channels, offset).infoMap[k] == bs.infoMap[k])
    ensures forall i :: 0 <= i < |channels| ==> channels[i].nodeName in WithChannels(bs, channels, offset).infoMap
    ensures Dense(bs) ==> Dense(WithChannels(bs, channels, offset))
  {
    if channels != [] {
      var prefix := channels[..|channels| - 1];
      WithChannelsFacts(bs, prefix, offset);
      if Dense(bs) {
        RegisterKeepsDense(WithChannels(bs, prefix, offset), channels[|channels| - 1].nodeName, offset);
      }
      forall i | 0 <= i < |channels|
        ensures channels[i].nodeName in WithChannels(bs, channels, offset).infoMap
      {
        if i < |channels| - 1 {
          assert channels[i] == prefix[i];
        }
      }
    }
  }

  /** The mesh component after readMissingBones: only its map and counter
      change. */
  function MeshWithChannels(mesh: MeshComponent, channels: seq<NodeAnim>, offset: Mat4): (r: MeshComponent)
    ensures r.meshType == mesh.meshType && r.guid == mesh.guid && r.fileId == mesh.fileId
    ensures r.mesh == mesh.mesh && r.needsToLoadBones == mesh.needsToLoadBones
  {
    var bs := WithChannels(Bones(mesh.boneInfoMap, mesh.boneCount), channels, offset);
    mesh.(boneInfoMap := bs.infoMap, boneCount := bs.count)
  }

  /** An AnimationBone made from `channel`, with the id `m` gives its name. */
  predicate Built(b: AnimationBone, channel: NodeAnim, m: map<string, BoneInfo>)
  {
    b.Valid() && b.name == channel.nodeName && channel.nodeName in m && b.id == m[channel.nodeName].id &&
    b.positions == PositionKeys(channel.positionKeys) && b.rotations == RotationKeys(channel.rotationKeys) &&
    b.scales == ScaleKeys(channel.scalingKeys)
  }

  /** Truncation of a floating-point value to an integer, toward zero. */
  function TruncateToInt(x: real): (r: int)
    ensures x >= 0.0 ==> r as real <= x < r as real + 1.0
    ensures x < 0.0 ==> r as real - 1.0 < x <= r as real
  {
    if x >= 0.0 then x.Floor else -((-x).Floor)
  }

  // ---------------------------------------------------------------------------
  // The animation
  // ---------------------------------------------------------------------------

  /** `scene->mNumAnimations <= index` compares as unsigned, so a negative
      index is out of range too. */
  function CheckIndex(scene: AiScene, index: int): (r: Result<()>)
    ensures r.Ok? <==> 0 <= index < |scene.animations|
  {
    if index < 0 || |scene.animations| <= index then Fatal("Animation does not exist") else Ok(())
  }

  class Animation {
    var duration: real
    var ticksPerSecond: int
    var animationName: string
    var bones: seq<AnimationBone>
    var rootNode: AssimpNodeData
    var animationBoneInfoMap: map<string, BoneInfo>

    /** The part of the constructor before readMissingBones. */
    constructor (scene: AiScene, index: int)
      requires CheckIndex(scene, index).Ok?
      ensures duration == scene.animations[index].duration
      ensures ticksPerSecond == TruncateToInt(scene.animations[index].ticksPerSecond)
      ensures animationName == scene.animations[index].name
      ensures rootNode == NodeData(scene.root)
      ensures bones == [] && animationBoneInfoMap == map[]
    {
      var animation := scene.animations[index];
      var root := ReadHierarchyData(scene.root);
      duration := animation.duration;
      ticksPerSecond := TruncateToInt(animation.ticksPerSecond);
      animationName := animation.name;
      rootNode := root;
      bones := [];
      animationBoneInfoMap := map[];
    }

    /** findBone: the first bone with the name, if any. */
    function FindBone(name: string): (r: Option<nat>)
      reads this
      ensures r.Some? ==>
        (r.value < |bones| && bones[r.value].name == name && forall j :: 0 <= j < r.value ==> bones[j].name != name)
      ensures r.None? ==> forall j :: 0 <= j < |bones| ==> bones[j].name != name
    {
      FindBoneFrom(name, 0)
    }

    function FindBoneFrom(name: string, from: nat): (r: Option<nat>)
      reads this
      requires from <= |bones|
      ensures r.Some? ==>
        (from <= r.value < |bones| && bones[r.value].name == name && forall j :: from <= j < r.value ==> bones[j].name != name)
      ensures r.None? ==> forall j :: from <= j < |bones| ==> bones[j].name != name
      decreases |bones| - from
    {
      if from == |bones| then None
      else if bones[from].name == name then Some(from)
      else FindBoneFrom(name, from + 1)
    }

    /** readMissingBones: one bone per channel, appended in channel order,
        each with its channel's keys and the id its name has in the mesh's
        map once the missing names are added; the mesh component's map and
        counter are updated in place and the animation keeps a copy of the
        map. A bone added for a missing name gets the offset `missingOffset`. */
    method ReadMissingBones(animation: AiAnimation, mesh: MeshComponent, missingOffset: Mat4)
      returns (updated: MeshComponent)
      modifies this`bones, this`animationBoneInfoMap
      ensures updated == MeshWithChannels(mesh, animation.channels, missingOffset)
      ensures animationBoneInfoMap == updated.boneInfoMap
      ensures |bones| == |old(bones)| + |animation.channels| && bones[..|old(bones)|] == old(bones)
      ensures forall j :: |old(bones)| <= j < |bones| ==> fresh(bones[j])
      ensures forall i :: 0 <= i < |animation.channels| ==>
        Built(bones[|old(bones)| + i], animation.channels[i], updated.boneInfoMap)
    {
      var channels := animation.channels;
      ghost var start := Bones(mesh.boneInfoMap, mesh.boneCount);
      ghost var before := bones;
      var boneInfoMap := mesh.boneInfoMap;
      var boneCount := mesh.boneCount;
      var i := 0;
      while i < |channels|
        invariant 0 <= i <= |channels|
        invariant Bones(boneInfoMap, boneCount) == WithChannels(start, channels[..i], missingOffset)
        invariant |bones| == |before| + i && bones[..|before|] == before
        invariant forall j :: |before| <= j < |bones| ==> fresh(bones[j])
        invariant forall j :: 0 <= j < i ==> Built(bones[|before| + j], channels[j], boneInfoMap)
      {
        assert channels[..i + 1][..i] == channels[..i];
        var boneName := channels[i].nodeName;
        if boneName !in boneInfoMap {
          boneInfoMap := boneInfoMap[boneName := BoneInfo(boneCount, missingOffset)];
          boneCount := boneCount + 1;
        }
        var bone := new AnimationBone(boneName, boneInfoMap[boneName].id, channels[i]);
        bones := bones + [bone];
        i := i + 1;
      }
      assert channels[..i] == channels;
      updated := mesh.(boneInfoMap := boneInfoMap, boneCount := boneCount);
      animationBoneInfoMap := boneInfoMap;
    }
  }

  /** The constructor: fatal when the file has no animation `index`;
      otherwise the animation's timing and node tree, then its bones, which
      also update the model's mesh component. After it, every channel's
      bone is found by name and carries the id the mesh's map gives it. */
  method LoadAnimation(scene: AiScene, mesh: MeshComponent, index: int, missingOffset: Mat4)
    returns (r: Result<Animation>, updated: MeshComponent)
    ensures r.Fatal? <==> CheckIndex(scene, index).Fatal?
    ensures r.Fatal? ==> updated == mesh
    ensures r.Ok? ==>
      fresh(r.value) &&
      r.value.rootNode == NodeData(scene.root) &&
      r.value.animationName == scene.animations[index].name &&
      updated == MeshWithChannels(mesh, scene.animations[index].channels, missingOffset) &&
      r.value.animationBoneInfoMap == updated.boneInfoMap &&
      |r.value.bones| == |scene.animations[index].channels|
    ensures r.Ok? ==> forall i :: 0 <= i < |scene.animations[index].channels| ==>
      var name := scene.animations[index].channels[i].nodeName;
      r.value.FindBone(name).Some? && name in updated.boneInfoMap &&
      r.value.bones[r.value.FindBone(name).value].id == updated.boneInfoMap[name].id
  {
    var check := CheckIndex(scene, index);
    if check.Fatal? {
      return Fatal(check.message), mesh;
    }
    var a := new Animation(scene, index);
    updated := a.ReadMissingBones(scene.animations[index], mesh, missingOffset);
    r := Ok(a);
    var channels := scene.animations[index].channels;
    forall i | 0 <= i < |channels|
      ensures a.FindBone(channels[i].nodeName).Some?
      ensures a.bones[a.FindBone(channels[i].nodeName).value].id == updated.boneInfoMap[channels[i].nodeName].id
    {
      assert Built(a.bones[0 + i], channels[i], updated.boneInfoMap);
      var k := a.FindBone(channels[i].nodeName).value;
      assert Built(a.bones[0 + k], channels[k], updated.boneInfoMap);
    }
  }
}
