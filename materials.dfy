/**
 * PathTracingMaterial: a material's colours, scalars and four optional
 * textures, the four lists of textures that all materials share (one per
 * texture slot: albedo, metalness/roughness, normal, emission) and the
 * per-material positions of its textures in those lists.
 *
 * Textures and lists are objects compared by reference, as Unity textures
 * and .NET lists are; the four shared lists hang off one registry object
 * that every material references.
 */
module Materials {
  import opened Geometry
  import opened Lists

  /** A Texture2D, known only by its identity. */
  class Texture2D {
    constructor() {}
  }

  /** A List<Texture2D>, shared by every material that refers to it. */
  class TextureList {
    var items: seq<Texture2D>

    constructor()
      ensures items == []
    {
      items := [];
    }
  }

  /** The four static texture lists of PathTracingMaterial. */
  class TextureRegistry {
    const albedoTextures: TextureList
    const mrTextures: TextureList
    const normalTextures: TextureList
    const emissionTextures: TextureList

    /** The four lists are four different objects. */
    predicate Valid() {
      && albedoTextures != mrTextures && albedoTextures != normalTextures && albedoTextures != emissionTextures
      && mrTextures != normalTextures && mrTextures != emissionTextures
      && normalTextures != emissionTextures
    }

    constructor()
      ensures Valid()
      ensures albedoTextures.items == [] && mrTextures.items == [] && normalTextures.items == [] && emissionTextures.items == []
    {
      albedoTextures := new TextureList();
      mrTextures := new TextureList();
      normalTextures := new TextureList();
      emissionTextures := new TextureList();
    }
  }

  /** Unity's Color; only r, g and b reach the buffer object. */
  datatype Color = Color(r: real, g: real, b: real, a: real)

  /** PtMaterialBufferObject: what the shader reads for one material. */
  datatype PtMaterialBufferObject = PtMaterialBufferObject(
    albedo: Vec3, emission: Vec3, transmission: Vec3,
    ior: real, metalness: real, roughness: real,
    albedoTextureId: int, emissionTextureId: int, normalTextureId: int, mrTextureId: int)

  /** The list after a registration: the texture is appended only when it is not there yet. */
  function WithTexture(items: seq<Texture2D>, texture: Texture2D): seq<Texture2D> {
    if texture in items then items else items + [texture]
  }

  /** Registering a texture a second time changes nothing and yields the same position. */
  lemma RegistrationIdempotent(items: seq<Texture2D>, texture: Texture2D)
    ensures WithTexture(WithTexture(items, texture), texture) == WithTexture(items, texture)
    ensures IndexOf(WithTexture(items, texture), texture) >= 0
    ensures WithTexture(items, texture)[IndexOf(WithTexture(items, texture), texture)] == texture
    ensures texture !in items ==> IndexOf(WithTexture(items, texture), texture) == |items|
  {
    if texture !in items {
      assert (items + [texture])[..|items|] == items;
    }
  }

  /**
   * A slot after RegisterTextures: with a texture, the list holds it (appended
   * only if it was absent) and the new position is its first occurrence;
   * without one, the list and the position are as before.
   */
  predicate SlotRegistered(before: seq<Texture2D>, after: seq<Texture2D>, texture: Texture2D?, id: int, newId: int) {
    if texture == null then after == before && newId == id
    else after == WithTexture(before, texture) && newId == IndexOf(after, texture)
  }

  /**
   * A slot after UnregisterTextures removes its texture: with a texture, the
   * position is -1 and the texture's first occurrence is gone from the list;
   * without one, the list and the position are as before.
   */
  predicate SlotUnregistered(before: seq<Texture2D>, after: seq<Texture2D>, texture: Texture2D?, id: int, newId: int) {
    if texture == null then after == before && newId == id
    else after == RemoveFirst<Texture2D>(before, texture) && newId == -1
  }

  class PathTracingMaterial {
    const registry: TextureRegistry

    var albedo: Color
    var emission: Color
    var transmission: Color
    var ior: real
    var metalness: real
    var roughness: real

    var albedoTexture: Texture2D?
    var mrTexture: Texture2D?
    var normalTexture: Texture2D?
    var emissionTexture: Texture2D?

    var albedoTextureId: int
    var mrTextureId: int
    var normalTextureId: int
    var emissionTextureId: int

    /** The field initialisers: no textures, every texture position -1, an index of refraction of 1.459. */
    constructor(registry: TextureRegistry)
      ensures this.registry == registry
      ensures albedoTexture == null && mrTexture == null && normalTexture == null && emissionTexture == null
      ensures albedoTextureId == -1 && mrTextureId == -1 && normalTextureId == -1 && emissionTextureId == -1
      ensures ior == 1.459 && metalness == 0.0 && roughness == 0.0
      ensures albedo == Color(0.0, 0.0, 0.0, 0.0) && emission == albedo && transmission == albedo
    {
      this.registry := registry;
      albedo, emission, transmission := Color(0.0, 0.0, 0.0, 0.0), Color(0.0, 0.0, 0.0, 0.0), Color(0.0, 0.0, 0.0, 0.0);
      ior, metalness, roughness := 1.459, 0.0, 0.0;
      albedoTexture, mrTexture, normalTexture, emissionTexture := null, null, null, null;
      albedoTextureId, mrTextureId, normalTextureId, emissionTextureId := -1, -1, -1, -1;
    }

    /**
     * RegisterTextureToList: appends the texture when the list does not hold
     * it yet, and returns the position of its first occurrence.
     */
    method RegisterTextureToList(list: TextureList, texture: Texture2D) returns (index: int)
      modifies list
      ensures list.items == WithTexture(old(list.items), texture)
      ensures texture in old(list.items) ==> list.items == old(list.items)
      ensures index == IndexOf(list.items, texture)
      ensures 0 <= index < |list.items| && list.items[index] == texture && texture !in list.items[..index]
    {
      if texture !in list.items {
        list.items := list.items + [texture];
      }
      index := IndexOf(list.items, texture);
    }

    /**
     * RegisterTextures: each set texture is registered in its slot's list and
     * its position recorded; a slot without a texture keeps its position and
     * its list.
     */
    method RegisterTextures()
      requires registry.Valid()
      modifies registry.albedoTextures, registry.mrTextures, registry.normalTextures, registry.emissionTextures
      modifies this`albedoTextureId, this`mrTextureId, this`normalTextureId, this`emissionTextureId
      ensures SlotRegistered(old(registry.albedoTextures.items), registry.albedoTextures.items, albedoTexture, old(albedoTextureId), albedoTextureId)
      ensures SlotRegistered(old(registry.mrTextures.items), registry.mrTextures.items, mrTexture, old(mrTextureId), mrTextureId)
      ensures SlotRegistered(old(registry.normalTextures.items), registry.normalTextures.items, normalTexture, old(normalTextureId), normalTextureId)
      ensures SlotRegistered(old(registry.emissionTextures.items), registry.emissionTextures.items, emissionTexture, old(emissionTextureId), emissionTextureId)
      ensures TexturesResolve()
    {
      albedoTextureId := RegisterSlot(registry.albedoTextures, albedoTexture, albedoTextureId);
      mrTextureId := RegisterSlot(registry.mrTextures, mrTexture, mrTextureId);
      normalTextureId := RegisterSlot(registry.normalTextures, normalTexture, normalTextureId);
      emissionTextureId := RegisterSlot(registry.emissionTextures, emissionTexture, emissionTextureId);
    }

    /** One `if` of RegisterTextures: a set texture is registered and its position returned; otherwise nothing changes. */
    method RegisterSlot(list: TextureList, texture: Texture2D?, id: int) returns (newId: int)
      modifies list
      ensures SlotRegistered(old(list.items), list.items, texture, id, newId)
      ensures texture != null ==> 0 <= newId < |list.items| && list.items[newId] == texture
    {
      newId := id;
      if texture != null {
        newId := RegisterTextureToList(list, texture);
      }
    }

    /** Every set texture sits in its slot's list at the position the material records for it. */
    predicate TexturesResolve()
      reads this, registry, registry.albedoTextures, registry.mrTextures, registry.normalTextures, registry.emissionTextures
    {
      && (albedoTexture != null ==> 0 <= albedoTextureId < |registry.albedoTextures.items| && registry.albedoTextures.items[albedoTextureId] == albedoTexture)
      && (mrTexture != null ==> 0 <= mrTextureId < |registry.mrTextures.items| && registry.mrTextures.items[mrTextureId] == mrTexture)
      && (normalTexture != null ==> 0 <= normalTextureId < |registry.normalTextures.items| && registry.normalTextures.items[normalTextureId] == normalTexture)
      && (emissionTexture != null ==> 0 <= emissionTextureId < |registry.emissionTextures.items| && registry.emissionTextures.items[emissionTextureId] == emissionTexture)
    }

    /**
     * UnregisterTextures: each set texture's position becomes -1; the albedo,
     * metalness/roughness and normal textures are removed from their lists
     * (their first occurrence), while the emission texture is appended to its
     * list once more.
     */
    method UnregisterTextures()
      requires registry.Valid()
      modifies registry.albedoTextures, registry.mrTextures, registry.normalTextures, registry.emissionTextures
      modifies this`albedoTextureId, this`mrTextureId, this`normalTextureId, this`emissionTextureId
      ensures SlotUnregistered(old(registry.albedoTextures.items), registry.albedoTextures.items, albedoTexture, old(albedoTextureId), albedoTextureId)
      ensures SlotUnregistered(old(registry.mrTextures.items), registry.mrTextures.items, mrTexture, old(mrTextureId), mrTextureId)
      ensures SlotUnregistered(old(registry.normalTextures.items), registry.normalTextures.items, normalTexture, old(normalTextureId), normalTextureId)
      ensures emissionTexture != null ==> emissionTextureId == -1 && registry.emissionTextures.items == old(registry.emissionTextures.items) + [emissionTexture]
      ensures emissionTexture == null ==> registry.emissionTextures.items == old(registry.emissionTextures.items) && emissionTextureId == old(emissionTextureId)
    {
      albedoTextureId := UnregisterSlot(registry.albedoTextures, albedoTexture, albedoTextureId);
      mrTextureId := UnregisterSlot(registry.mrTextures, mrTexture, mrTextureId);
      normalTextureId := UnregisterSlot(registry.normalTextures, normalTexture, normalTextureId);
      if emissionTexture != null {
        emissionTextureId := -1;
        registry.emissionTextures.items := registry.emissionTextures.items + [emissionTexture];
      }
    }

    /** One removing `if` of UnregisterTextures: a set texture's position becomes -1 and its first occurrence leaves the list. */
    method UnregisterSlot(list: TextureList, texture: Texture2D?, id: int) returns (newId: int)
      modifies list
      ensures SlotUnregistered(old(list.items), list.items, texture, id, newId)
    {
      newId := id;
      if texture != null {
        newId := -1;
        list.items := RemoveFirst<Texture2D>(list.items, texture);
      }
    }

    /** ToPtMaterialBufferObject: the colours without alpha, the scalars and the four texture positions, unchanged. */
    function ToPtMaterialBufferObject(): (obj: PtMaterialBufferObject)
      reads this
      ensures obj.albedo == Vec3(albedo.r, albedo.g, albedo.b)
      ensures obj.emission == Vec3(emission.r, emission.g, emission.b)
      ensures obj.transmission == Vec3(transmission.r, transmission.g, transmission.b)
      ensures obj.ior == ior && obj.metalness == metalness && obj.roughness == roughness
      ensures obj.albedoTextureId == albedoTextureId && obj.emissionTextureId == emissionTextureId
      ensures obj.mrTextureId == mrTextureId && obj.normalTextureId == normalTextureId
    {
      PtMaterialBufferObject(
        Vec3(albedo.r, albedo.g, albedo.b), Vec3(emission.r, emission.g, emission.b),
        Vec3(transmission.r, transmission.g, transmission.b),
        ior, metalness, roughness,
        albedoTextureId, emissionTextureId, normalTextureId, mrTextureId)
    }
  }

  /**
   * Registering a texture the list did not hold and then unregistering it
   * gives the albedo, metalness/roughness and normal lists back as they were;
   * the emission list instead ends with the texture twice.
   */
  lemma RegisterThenUnregister(items: seq<Texture2D>, texture: Texture2D)
    requires texture !in items
    ensures RemoveFirst(WithTexture(items, texture), texture) == items
    ensures WithTexture(items, texture) + [texture] == items + [texture, texture]
  {
    RemoveFirstUndoesAppend(items, texture);
  }
}
