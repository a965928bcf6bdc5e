/** The parts of an Assimp import (aiScene and the structures under it) that
    the loader and the animation code read. Matrices and vectors are already
    in glm's layout; Assimp's float data are reals here. */
module Assimp {
  import opened Glm

  /** One `aiVertexWeight`: the vertex index is unsigned in Assimp. */
  datatype VertexWeight = VertexWeight(vertexId: nat, weight: real)

  /** One `aiBone`. */
  datatype AiBone = AiBone(name: string, offset: Mat4, weights: seq<VertexWeight>)

  /** A diffuse texture of a mesh's material, with the guid the loader gives
      it: an embedded texture is named by a file id made from its path, an
      external one by the guid of its file. */
  datatype TextureRef = EmbeddedTexture(textureGuid: string) | ExternalTexture(textureGuid: string)

  /** One `aiMesh` with the material fields the loader reads. */
  datatype AiMesh = AiMesh(name: string, numVertices: nat, bones: seq<AiBone>,
                           textures: seq<TextureRef>, diffuseColor: Vec4)

  /** One `aiNode`: its meshes are indices into the scene's mesh array. */
  datatype AiNode = AiNode(name: string, transformation: Mat4, meshes: seq<int>, children: seq<AiNode>)

  /** `aiVectorKey` and `aiQuatKey`: a key time and its value. */
  datatype VectorKey = VectorKey(time: real, value: Vec3)
  datatype QuatKey = QuatKey(time: real, value: Quat)

  /** One `aiNodeAnim`: the key tracks of the node it animates. */
  datatype NodeAnim = NodeAnim(nodeName: string, positionKeys: seq<VectorKey>,
                               rotationKeys: seq<QuatKey>, scalingKeys: seq<VectorKey>)

  /** One `aiAnimation`. */
  datatype AiAnimation = AiAnimation(name: string, duration: real, ticksPerSecond: real, channels: seq<NodeAnim>)

  datatype AiScene = AiScene(meshes: seq<AiMesh>, root: AiNode, animations: seq<AiAnimation>)
}
