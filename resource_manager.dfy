/** ResourceManager.cpp: the file-path table keyed by GUID and the texture
    and mesh caches keyed by (guid, fileID). Every lookup is std::map's
    `operator[]`, which inserts an empty entry (the empty path, a null
    pointer) for a key it does not find. */
module Resources {
  import opened Common
  import opened Components

  /** A pointer to a loaded mesh object. */
  type MeshPtr = nat

  /** The value `operator[]` yields for key `k`: the stored one, or the
      empty value `none` it inserts. */
  function Lookup<K, V>(m: map<K, V>, k: K, none: V): V
  {
    if k in m then m[k] else none
  }

  /** The map after `operator[]` on key `k`. */
  function Touched<K, V>(m: map<K, V>, k: K, none: V): (m': map<K, V>)
    ensures k in m' && m'[k] == Lookup(m, k, none)
    ensures forall x | x in m :: x in m' && m'[x] == m[x]
    ensures m'.Keys == m.Keys + {k}
  {
    if k in m then m else m[k := none]
  }

  class ResourceManager {
    var guidMap: map<string, string>
    var textureDataMap: map<(string, string), Option<Texture>>
    var meshDataMap: map<(string, string), Option<MeshPtr>>

    constructor ()
      ensures guidMap == map[] && textureDataMap == map[] && meshDataMap == map[]
    {
      guidMap := map[];
      textureDataMap := map[];
      meshDataMap := map[];
    }

    /** `getFilePathFromGUID`: the stored path, or "" for an unknown GUID,
        which is then stored with that empty path. */
    method GetFilePathFromGuid(guid: string) returns (path: string)
      modifies this`guidMap
      ensures path == Lookup(old(guidMap), guid, "")
      ensures guid !in old(guidMap) ==> path == ""
      ensures guidMap == Touched(old(guidMap), guid, "")
    {
      if guid !in guidMap {
        guidMap := guidMap[guid := ""];
      }
      path := guidMap[guid];
    }

    /** `setFilePathFromGUID`: the GUID now maps to `filepath`, replacing any
        earlier path; other GUIDs keep theirs. */
    method SetFilePathFromGuid(guid: string, filepath: string)
      modifies this`guidMap
      ensures Lookup(guidMap, guid, "") == filepath
      ensures forall g | g != guid :: Lookup(guidMap, g, "") == Lookup(old(guidMap), g, "")
      ensures guidMap == old(guidMap)[guid := filepath]
    {
      guidMap := guidMap[guid := filepath];
    }

    /** `hasTextureData`: the (guid, fileID) key is present, possibly with a
        null texture. */
    predicate HasTextureData(guid: string, fileId: string)
      reads this
    {
      (guid, fileId) in textureDataMap
    }

    /** `getTextureData`: the cached texture, or null for a key not present,
        which is then present with a null texture. */
    method GetTextureData(guid: string, fileId: string) returns (t: Option<Texture>)
      modifies this`textureDataMap
      ensures t == Lookup(old(textureDataMap), (guid, fileId), None)
      ensures !old(HasTextureData(guid, fileId)) ==> t == None
      ensures HasTextureData(guid, fileId)
      ensures textureDataMap == Touched(old(textureDataMap), (guid, fileId), None)
    {
      if (guid, fileId) !in textureDataMap {
        textureDataMap := textureDataMap[(guid, fileId) := None];
      }
      t := textureDataMap[(guid, fileId)];
    }

    /** `storeTextureData`: the key now holds `texture`, replacing what it
        held; other keys are unchanged. */
    method StoreTextureData(texture: Texture, guid: string, fileId: string)
      modifies this`textureDataMap
      ensures HasTextureData(guid, fileId) && textureDataMap[(guid, fileId)] == Some(texture)
      ensures forall k | k != (guid, fileId) :: (k in textureDataMap <==> k in old(textureDataMap))
      ensures forall k | k != (guid, fileId) && k in textureDataMap :: textureDataMap[k] == old(textureDataMap)[k]
    {
      textureDataMap := textureDataMap[(guid, fileId) := Some(texture)];
    }

    predicate HasMeshData(guid: string, fileId: string)
      reads this
    {
      (guid, fileId) in meshDataMap
    }

    /** `getMeshData`: as `getTextureData`, on the mesh cache. */
    method GetMeshData(guid: string, fileId: string) returns (mesh: Option<MeshPtr>)
      modifies this`meshDataMap
      ensures mesh == Lookup(old(meshDataMap), (guid, fileId), None)
      ensures !old(HasMeshData(guid, fileId)) ==> mesh == None
      ensures HasMeshData(guid, fileId)
      ensures meshDataMap == Touched(old(meshDataMap), (guid, fileId), None)
    {
      if (guid, fileId) !in meshDataMap {
        meshDataMap := meshDataMap[(guid, fileId) := None];
      }
      mesh := meshDataMap[(guid, fileId)];
    }

    /** `storeMeshData`: as `storeTextureData`, on the mesh cache. */
    method StoreMeshData(mesh: MeshPtr, guid: string, fileId: string)
      modifies this`meshDataMap
      ensures HasMeshData(guid, fileId) && meshDataMap[(guid, fileId)] == Some(mesh)
      ensures forall k | k != (guid, fileId) :: (k in meshDataMap <==> k in old(meshDataMap))
      ensures forall k | k != (guid, fileId) && k in meshDataMap :: meshDataMap[k] == old(meshDataMap)[k]
    {
      meshDataMap := meshDataMap[(guid, fileId) := Some(mesh)];
    }
  }

  /** Store, then get: the texture comes back, keyed by the (guid, fileID)
      pair, and a lookup under another fileID of the same guid does not see
      it. */
  method StoreThenGetTexture(rm: ResourceManager, texture: Texture, guid: string, fileId: string, otherFileId: string)
    returns (got: Option<Texture>, other: Option<Texture>)
    requires otherFileId != fileId && (guid, otherFileId) !in rm.textureDataMap
    modifies rm`textureDataMap
    ensures got == Some(texture) && other == None
  {
    rm.StoreTextureData(texture, guid, fileId);
    got := rm.GetTextureData(guid, fileId);
    other := rm.GetTextureData(guid, otherFileId);
  }
}
