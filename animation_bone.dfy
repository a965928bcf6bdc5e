/** One animated bone (AnimationBone.cpp): the key tracks of one animation
    channel and the search for the pair of keys an animation time falls
    between. The interpolation between the two keys is floating-point
    arithmetic and is not modelled; which keys it blends is. */
module AnimationBones {
  import opened Glm
  import opened Assimp
  import YamlUtils

  /** The key types of AnimationData.h. */
  datatype KeyPosition = KeyPosition(position: Vec3, timeStamp: real)
  datatype KeyRotation = KeyRotation(orientation: Quat, timeStamp: real)
  datatype KeyScale = KeyScale(scale: Vec3, timeStamp: real)

  // ---------------------------------------------------------------------------
  // Key conversion (the constructor's three loops)
  // ---------------------------------------------------------------------------

  /** Assimp's position keys as `KeyPosition`s, in channel order. */
  function PositionKeys(ks: seq<VectorKey>): (r: seq<KeyPosition>)
    ensures |r| == |ks|
    ensures forall i :: 0 <= i < |ks| ==> r[i].position == ks[i].value && r[i].timeStamp == ks[i].time
  {
    seq(|ks|, i requires 0 <= i < |ks| => KeyPosition(ks[i].value, ks[i].time))
  }

  /** Assimp's rotation keys as `KeyRotation`s, in channel order. */
  function RotationKeys(ks: seq<QuatKey>): (r: seq<KeyRotation>)
    ensures |r| == |ks|
    ensures forall i :: 0 <= i < |ks| ==> r[i].orientation == ks[i].value && r[i].timeStamp == ks[i].time
  {
    seq(|ks|, i requires 0 <= i < |ks| => KeyRotation(ks[i].value, ks[i].time))
  }

  /** Assimp's scaling keys as `KeyScale`s, in channel order. */
  function ScaleKeys(ks: seq<VectorKey>): (r: seq<KeyScale>)
    ensures |r| == |ks|
    ensures forall i :: 0 <= i < |ks| ==> r[i].scale == ks[i].value && r[i].timeStamp == ks[i].time
  {
    seq(|ks|, i requires 0 <= i < |ks| => KeyScale(ks[i].value, ks[i].time))
  }

  // ---------------------------------------------------------------------------
  // Key index search (getPositionIndex / getRotationIndex / getScaleIndex)
  // ---------------------------------------------------------------------------

  /** Some key after the first lies after `t`: the search then returns
      instead of reaching `assert(0)`. */
  predicate SomeKeyAfter(times: seq<real>, t: real)
  {
    exists j :: 1 <= j < |times| && t < times[j]
  }

  /** The least `i` from `from` on with `t < times[i + 1]`. */
  function KeyIndexFrom(times: seq<real>, t: real, from: nat): (r: nat)
    requires exists j :: from + 1 <= j < |times| && t < times[j]
    ensures from <= r && r + 1 < |times| && t < times[r + 1]
    ensures forall i :: from < i <= r ==> times[i] <= t
    decreases |times| - from
  {
    if t < times[from + 1] then from else KeyIndexFrom(times, t, from + 1)
  }

  /** The index the search returns: the least `i <= |times| - 2` with
      `t < times[i + 1]`. */
  function KeyIndex(times: seq<real>, t: real): (r: nat)
    requires SomeKeyAfter(times, t)
    ensures r + 1 < |times| && t < times[r + 1]
    ensures forall i :: 0 < i <= r ==> times[i] <= t
  {
    KeyIndexFrom(times, t, 0)
  }

  /** Key times strictly increase, as an animation track's do. */
  predicate Increasing(times: seq<real>)
  {
    forall i, j :: 0 <= i < j < |times| ==> times[i] < times[j]
  }

  /** On an increasing track, the search succeeds exactly when `t` lies
      before the last key. */
  lemma SomeKeyAfterIffBeforeLast(times: seq<real>, t: real)
    requires Increasing(times)
    ensures SomeKeyAfter(times, t) <==> |times| >= 2 && t < times[|times| - 1]
  {
    if SomeKeyAfter(times, t) {
      var j :| 1 <= j < |times| && t < times[j];
      if j < |times| - 1 {
        assert times[j] < times[|times| - 1];
      }
    }
  }

  /** On an increasing track and for a time not before the first key, the
      index found is the one key interval holding `t`, and no other interval
      holds it. */
  lemma KeyIndexBrackets(times: seq<real>, t: real, k: nat)
    requires Increasing(times) && SomeKeyAfter(times, t)
    requires |times| > 0 && times[0] <= t
    ensures times[KeyIndex(times, t)] <= t < times[KeyIndex(times, t) + 1]
    ensures k + 1 < |times| && times[k] <= t < times[k + 1] ==> k == KeyIndex(times, t)
  {
    var r := KeyIndex(times, t);
    assert k < r ==> times[k + 1] <= t;
    assert r + 1 < k < |times| ==> times[r + 1] < times[k];
  }

  function PositionTimes(ks: seq<KeyPosition>): (r: seq<real>)
    ensures |r| == |ks| && forall i :: 0 <= i < |ks| ==> r[i] == ks[i].timeStamp
  {
    seq(|ks|, i requires 0 <= i < |ks| => ks[i].timeStamp)
  }

  function RotationTimes(ks: seq<KeyRotation>): (r: seq<real>)
    ensures |r| == |ks| && forall i :: 0 <= i < |ks| ==> r[i] == ks[i].timeStamp
  {
    seq(|ks|, i requires 0 <= i < |ks| => ks[i].timeStamp)
  }

  function ScaleTimes(ks: seq<KeyScale>): (r: seq<real>)
    ensures |r| == |ks| && forall i :: 0 <= i < |ks| ==> r[i] == ks[i].timeStamp
  {
    seq(|ks|, i requires 0 <= i < |ks| => ks[i].timeStamp)
  }

  // ---------------------------------------------------------------------------
  // The bone
  // ---------------------------------------------------------------------------

  class AnimationBone {
    const name: string
    const id: int
    const positions: seq<KeyPosition>
    const rotations: seq<KeyRotation>
    const scales: seq<KeyScale>
    const numPositions: int
    const numRotations: int
    const numScalings: int
    var localTransform: Mat4

    /** Each count matches its track. */
    predicate Valid()
    {
      numPositions == |positions| && numRotations == |rotations| && numScalings == |scales|
    }

    /** The constructor: name and id as given, the identity as the local
        transform, and the channel's three key tracks copied in order. */
    constructor (name: string, ID: int, channel: NodeAnim)
      ensures Valid()
      ensures this.name == name && id == ID && localTransform == YamlUtils.Identity()
      ensures positions == PositionKeys(channel.positionKeys)
      ensures rotations == RotationKeys(channel.rotationKeys)
      ensures scales == ScaleKeys(channel.scalingKeys)
    {
      var ps: seq<KeyPosition> := [];
      var i := 0;
      while i < |channel.positionKeys|
        invariant 0 <= i <= |channel.positionKeys|
        invariant ps == PositionKeys(channel.positionKeys[..i])
      {
        ps := ps + [KeyPosition(channel.positionKeys[i].value, channel.positionKeys[i].time)];
        i := i + 1;
      }
      assert channel.positionKeys[..i] == channel.positionKeys;
      var rs: seq<KeyRotation> := [];
      i := 0;
      while i < |channel.rotationKeys|
        invariant 0 <= i <= |channel.rotationKeys|
        invariant rs == RotationKeys(channel.rotationKeys[..i])
      {
        rs := rs + [KeyRotation(channel.rotationKeys[i].value, channel.rotationKeys[i].time)];
        i := i + 1;
      }
      assert channel.rotationKeys[..i] == channel.rotationKeys;
      var ss: seq<KeyScale> := [];
      i := 0;
      while i < |channel.scalingKeys|
        invariant 0 <= i <= |channel.scalingKeys|
        invariant ss == ScaleKeys(channel.scalingKeys[..i])
      {
        ss := ss + [KeyScale(channel.scalingKeys[i].value, channel.scalingKeys[i].time)];
        i := i + 1;
      }
      assert channel.scalingKeys[..i] == channel.scalingKeys;
      this.name := name;
      id := ID;
      localTransform := YamlUtils.Identity();
      positions := ps;
      numPositions := |ps|;
      rotations := rs;
      numRotations := |rs|;
      scales := ss;
      numScalings := |ss|;
    }

    /** getPositionIndex: the first key interval whose end lies after `t`. */
    method GetPositionIndex(t: real) returns (r: int)
      requires Valid() && SomeKeyAfter(PositionTimes(positions), t)
      ensures 0 <= r && r == KeyIndex(PositionTimes(positions), t)
    {
      var index := 0;
      while index < numPositions - 1
        invariant 0 <= index <= KeyIndex(PositionTimes(positions), t)
      {
        if t < positions[index + 1].timeStamp {
          return index;
        }
        index := index + 1;
      }
      assert false;
    }

    /** getRotationIndex: the same search on the rotation keys. */
    method GetRotationIndex(t: real) returns (r: int)
      requires Valid() && SomeKeyAfter(RotationTimes(rotations), t)
      ensures 0 <= r && r == KeyIndex(RotationTimes(rotations), t)
    {
      var index := 0;
      while index < numRotations - 1
        invariant 0 <= index <= KeyIndex(RotationTimes(rotations), t)
      {
        if t < rotations[index + 1].timeStamp {
          return index;
        }
        index := index + 1;
      }
      assert false;
    }

    /** getScaleIndex: the same search on the scaling keys. */
    method GetScaleIndex(t: real) returns (r: int)
      requires Valid() && SomeKeyAfter(ScaleTimes(scales), t)
      ensures 0 <= r && r == KeyIndex(ScaleTimes(scales), t)
    {
      var index := 0;
      while index < numScalings - 1
        invariant 0 <= index <= KeyIndex(ScaleTimes(scales), t)
      {
        if t < scales[index + 1].timeStamp {
          return index;
        }
        index := index + 1;
      }
      assert false;
    }

    /** The keys interpolatePosition blends: a single key is used alone
        without a search (so any time is accepted); otherwise the key the
        search finds and the next one. */
    method PositionKeysAt(t: real) returns (p0: int, p1: int)
      requires Valid() && (numPositions == 1 || SomeKeyAfter(PositionTimes(positions), t))
      ensures 0 <= p0 <= p1 < |positions|
      ensures numPositions == 1 ==> p0 == 0 && p1 == 0
      ensures numPositions != 1 ==> p1 == p0 + 1 && p0 == KeyIndex(PositionTimes(positions), t)
    {
      if numPositions == 1 {
        return 0, 0;
      }
      p0 := GetPositionIndex(t);
      p1 := p0 + 1;
    }

    /** The keys interpolateRotation blends, by the same rule. */
    method RotationKeysAt(t: real) returns (p0: int, p1: int)
      requires Valid() && (numRotations == 1 || SomeKeyAfter(RotationTimes(rotations), t))
      ensures 0 <= p0 <= p1 < |rotations|
      ensures numRotations == 1 ==> p0 == 0 && p1 == 0
      ensures numRotations != 1 ==> p1 == p0 + 1 && p0 == KeyIndex(RotationTimes(rotations), t)
    {
      if numRotations == 1 {
        return 0, 0;
      }
      p0 := GetRotationIndex(t);
      p1 := p0 + 1;
    }

    /** The keys interpolateScaling blends, by the same rule. */
    method ScaleKeysAt(t: real) returns (p0: int, p1: int)
      requires Valid() && (numScalings == 1 || SomeKeyAfter(ScaleTimes(scales), t))
      ensures 0 <= p0 <= p1 < |scales|
      ensures numScalings == 1 ==> p0 == 0 && p1 == 0
      ensures numScalings != 1 ==> p1 == p0 + 1 && p0 == KeyIndex(ScaleTimes(scales), t)
    {
      if numScalings == 1 {
        return 0, 0;
      }
      p0 := GetScaleIndex(t);
      p1 := p0 + 1;
    }
  }
}
