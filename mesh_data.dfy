/** Per-vertex skinning data shared by the mesh builders and the asset
    loader (Mesh.h): each vertex has `MAX_BONE_INFLUENCE` slots of a bone id
    and a weight, and an id of -1 marks a free slot. */
module MeshData {

  const MAX_BONES: nat := 200
  const MAX_BONE_INFLUENCE: nat := 4

  datatype BoneSlots = BoneSlots(ids: seq<int>, weights: seq<real>)
  {
    ghost predicate Valid()
    {
      |ids| == MAX_BONE_INFLUENCE && |weights| == MAX_BONE_INFLUENCE
    }
  }

  /** Every slot is free: id -1, weight 0. */
  predicate AllFree(b: BoneSlots)
  {
    |b.ids| == MAX_BONE_INFLUENCE && |b.weights| == MAX_BONE_INFLUENCE &&
    (forall j :: 0 <= j < MAX_BONE_INFLUENCE ==> b.ids[j] == -1 && b.weights[j] == 0.0)
  }

  /** The loop that resets a vertex's slots before any bone is attached:
      every slot gets weight 0 and id -1. */
  method ClearBoneSlots() returns (b: BoneSlots)
    ensures AllFree(b) && b.Valid()
  {
    var ids: seq<int> := [];
    var weights: seq<real> := [];
    var j := 0;
    while j < MAX_BONE_INFLUENCE
      invariant 0 <= j <= MAX_BONE_INFLUENCE
      invariant |ids| == j && |weights| == j
      invariant forall i :: 0 <= i < j ==> ids[i] == -1 && weights[i] == 0.0
    {
      weights := weights + [0.0];
      ids := ids + [-1];
      j := j + 1;
    }
    b := BoneSlots(ids, weights);
  }
}
