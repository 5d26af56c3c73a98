/** The texture registry (TextureManager in Texture.Manager.cpp): a map
    from keyword pointer to texture record. Looking a keyword up with
    std::map::operator[] inserts a default record, which the model makes
    explicit. */
module Textures {
  import opened Common

  /** A Direct3D texture pointer: null, or a live texture. */
  datatype TextureHandle = NullTexture | Handle(id: nat)

  /** The Texture record of EngineConstant.h. */
  datatype Texture = Texture(data: TextureHandle, width: int, height: int)

  /** What `m_TextureList[keyword]` inserts for a new keyword: a
      value-initialised record (null data, zero size). */
  const DefaultTexture := Texture(NullTexture, 0, 0)

  datatype TextureManager = TextureManager(textures: map<CStr, Texture>)

  /** What Graphics::CreateTexture did to the record it was handed. */
  datatype CreateResult = Created(id: nat, width: int, height: int) | CreateFailed

  datatype LoadResult = LoadResult(ok: bool, manager: TextureManager)

  /** TextureManager::Initialize. */
  function Initialize(tm: TextureManager): (r: TextureManager)
    ensures |r.textures| == 0
  {
    TextureManager(map[])
  }

  /** TextureManager::ReleaseTexture: a keyword is erased only when it is
      present with non-null data; every other key is left alone. */
  function ReleaseTexture(tm: TextureManager, keyword: CStr): (r: TextureManager)
    ensures keyword in tm.textures && tm.textures[keyword].data.Handle? ==>
      r.textures.Keys == tm.textures.Keys - {keyword}
    ensures !(keyword in tm.textures && tm.textures[keyword].data.Handle?) ==> r == tm
    ensures forall k :: k in r.textures ==> k in tm.textures && r.textures[k] == tm.textures[k]
  {
    if keyword in tm.textures && tm.textures[keyword].data.Handle? then
      TextureManager(tm.textures - {keyword})
    else tm
  }

  /** TextureManager::ReleaseAllTextures: every non-null texture is released,
      null ones are skipped, and the registry is cleared. The result carries
      the ids of the textures released. */
  function ReleaseAllTextures(tm: TextureManager): (r: (TextureManager, set<nat>))
    ensures |r.0.textures| == 0
    ensures forall k :: k in tm.textures && tm.textures[k].data.Handle? ==> tm.textures[k].data.id in r.1
    ensures forall id :: id in r.1 ==> exists k :: k in tm.textures && tm.textures[k].data == Handle(id)
  {
    (TextureManager(map[]), set k | k in tm.textures && tm.textures[k].data.Handle? :: tm.textures[k].data.id)
  }

  /** TextureManager::LoadTexture, with the outcome of Graphics::CreateTexture
      as an input. Null arguments are refused; an existing keyword reports
      success without loading; otherwise the keyword is inserted before the
      load and stays, with a default record, when the load fails. */
  function LoadTexture(tm: TextureManager, keyword: CStr, fileName: CStr, created: CreateResult): (r: LoadResult)
    ensures fileName.NullPtr? || keyword.NullPtr? ==> !r.ok && r.manager == tm
    ensures fileName.Ptr? && keyword.Ptr? && keyword in tm.textures ==> r.ok && r.manager == tm
    ensures fileName.Ptr? && keyword.Ptr? && keyword !in tm.textures ==>
      && r.ok == created.Created?
      && keyword in r.manager.textures
      && r.manager.textures.Keys == tm.textures.Keys + {keyword}
      && (created.Created? ==> r.manager.textures[keyword] == Texture(Handle(created.id), created.width, created.height))
      && (created.CreateFailed? ==> r.manager.textures[keyword] == DefaultTexture)
    ensures forall k :: k in tm.textures ==> k in r.manager.textures && r.manager.textures[k] == tm.textures[k]
  {
    if fileName.NullPtr? || keyword.NullPtr? then LoadResult(false, tm)
    else if keyword in tm.textures then LoadResult(true, tm)
    else
      match created
      case Created(id, w, h) => LoadResult(true, TextureManager(tm.textures[keyword := Texture(Handle(id), w, h)]))
      case CreateFailed => LoadResult(false, TextureManager(tm.textures[keyword := DefaultTexture]))
  }

  /** Loading a keyword twice is the same as loading it once, whatever the
      second load would have produced. */
  lemma LoadTextureIdempotent(tm: TextureManager, keyword: CStr, fileName: CStr, c1: CreateResult, c2: CreateResult)
    ensures LoadTexture(LoadTexture(tm, keyword, fileName, c1).manager, keyword, fileName, c2).manager
         == LoadTexture(tm, keyword, fileName, c1).manager
  {
  }

  /** TextureManager::GetTexture: the record for a present keyword, null otherwise. */
  function GetTexture(tm: TextureManager, keyword: CStr): (r: Option<Texture>)
    ensures r.Nothing? <==> keyword !in tm.textures
    ensures r.Some? ==> r.value == tm.textures[keyword]
  {
    if keyword in tm.textures then Some(tm.textures[keyword]) else Nothing
  }

  /** A successful first load makes the texture available under its keyword,
      and releasing it makes it unavailable again. */
  lemma LoadThenGetThenRelease(tm: TextureManager, keyword: CStr, fileName: CStr, id: nat, w: int, h: int)
    requires keyword.Ptr? && fileName.Ptr? && keyword !in tm.textures
    ensures var loaded := LoadTexture(tm, keyword, fileName, Created(id, w, h)).manager;
      && GetTexture(loaded, keyword) == Some(Texture(Handle(id), w, h))
      && GetTexture(ReleaseTexture(loaded, keyword), keyword).Nothing?
      && ReleaseTexture(loaded, keyword) == tm
  {
    var loaded := LoadTexture(tm, keyword, fileName, Created(id, w, h)).manager;
    assert ReleaseTexture(loaded, keyword).textures == tm.textures;
  }

  /** As written, a failed load cannot be retried: the second call finds the
      keyword left behind by the first and reports success, and the record it
      leaves has no texture data. */
  lemma RetryAfterFailedLoadReportsSuccess(tm: TextureManager, keyword: CStr, fileName: CStr, retry: CreateResult)
    requires keyword.Ptr? && fileName.Ptr? && keyword !in tm.textures
    ensures var first := LoadTexture(tm, keyword, fileName, CreateFailed);
      var second := LoadTexture(first.manager, keyword, fileName, retry);
      && !first.ok
      && second.ok
      && GetTexture(second.manager, keyword) == Some(DefaultTexture)
  {
  }

  /** Every registered keyword holds texture data. */
  ghost predicate AllLoaded(tm: TextureManager)
  {
    forall k :: k in tm.textures ==> tm.textures[k].data.Handle?
  }

  /** LoadTexture as evidently intended: a failed load leaves no entry behind. */
  function LoadTextureChecked(tm: TextureManager, keyword: CStr, fileName: CStr, created: CreateResult): (r: LoadResult)
    ensures AllLoaded(tm) ==> AllLoaded(r.manager)
    ensures AllLoaded(tm) && r.ok ==>
      GetTexture(r.manager, keyword).Some? && GetTexture(r.manager, keyword).value.data.Handle?
    ensures !r.ok ==> r.manager == tm
  {
    var r := LoadTexture(tm, keyword, fileName, created);
    if r.ok then r else LoadResult(false, tm)
  }

  /** With the checked load a retry after a failure really loads. */
  lemma RetryAfterFailedCheckedLoad(tm: TextureManager, keyword: CStr, fileName: CStr, id: nat, w: int, h: int)
    requires keyword.Ptr? && fileName.Ptr? && keyword !in tm.textures
    ensures var first := LoadTextureChecked(tm, keyword, fileName, CreateFailed);
      var second := LoadTextureChecked(first.manager, keyword, fileName, Created(id, w, h));
      && !first.ok && second.ok
      && GetTexture(second.manager, keyword) == Some(Texture(Handle(id), w, h))
  {
  }
}
