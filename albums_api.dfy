/** The album routes: album CRUD, the cover upload with its content-type allowlist, likes and the
    like count with its cache marker header. */
module AlbumsApi {
  import opened Outcomes
  import opened Seqs
  import opened Text
  import opened Store
  import opened Storage
  import opened Caching
  import opened Albums
  import opened Http

  const AlbumUpdated := "Album berhasil diperbarui"
  const AlbumDeleted := "Album berhasil dihapus"
  const CoverUploaded := "Sampul berhasil diunggah"
  const AlbumLiked := "Berhasil menyukai album"
  const AlbumUnliked := "Batal menyukai album"

  /** The header that marks a like count served from the cache. */
  const FromCacheHeader := Header("X-Data-Source", "cache")

  /** The content types the cover route accepts, compared exactly. */
  const AllowedCoverTypes := ["image/jpeg", "image/png", "image/webp", "image/jpg"]

  datatype AlbumCreated = AlbumCreated(albumId: Id)
  datatype AlbumData = AlbumData(album: AlbumDetail)
  datatype LikesData = LikesData(likes: JsNumber)

  /** The uploaded cover field, when the payload holds a file part; contentType is the part's
      Content-Type header, absent when the part has none. */
  datatype CoverPart = CoverPart(contentType: Option<string>)

  /** Whether the route lets a cover of this content type through to the service. */
  predicate CoverTypeAllowed(ct: Option<string>) {
    ct.Some? && ct.value in AllowedCoverTypes
  }

  /** Every content type the route lets through names an image extension, and for each of them the
      extension lookup as written agrees with the corrected one: the route never reaches the
      prototype names of the lookup table. */
  lemma AllowedCoverExtension(ct: Option<string>)
    requires CoverTypeAllowed(ct)
    ensures ExtFromContentType(ct) != "bin"
    ensures ExtAsWritten(ct) == ExtFromContentType(ct)
  {
    var key := AsciiLower(OrEmpty(ct));
    assert key == ct.value;
    ExtensionChoice(ct.value);
    ExtAsWrittenAgreesElsewhere(ct);
  }

  class AlbumsHandler {
    const service: AlbumsService

    constructor(service: AlbumsService)
      ensures this.service == service
    {
      this.service := service;
    }

    /** POST /albums: 201 with the id of the new album. */
    method PostAlbum(verdict: Verdict, name: string, year: int, nonce: string) returns (r: Outcome<Reply<AlbumCreated>>)
      requires service.Valid() && AlbumIdPrefix + nonce !in service.db.issued
      modifies service.db
      ensures service.Valid()
      ensures verdict.Some? ==> r == Fail(Invariant(verdict.value)) && unchanged(service.db)
      ensures r.Ok? <==> verdict.None?
      ensures r.Ok? ==> && r.value == Reply(StatusCreated, Data(AlbumCreated(AlbumIdPrefix + nonce)), None)
                        && AlbumIdPrefix + nonce !in old(service.db.albums)
                        && service.db.Rows() == old(service.db.Rows()).(
                             albums := old(service.db.albums)[AlbumIdPrefix + nonce := AlbumRow(name, year, None)])
    {
      if verdict.Some? {
        return Fail(Invariant(verdict.value));
      }
      var id := service.AddAlbum(name, year, nonce);
      r := Ok(Reply(StatusCreated, Data(AlbumCreated(id)), None));
    }

    /** GET /albums/{id}: the album, from the cache when it holds it. */
    method GetAlbumById(a: Id, now: int) returns (r: Outcome<Reply<AlbumData>>)
      requires service.Valid()
      modifies service.cache
      ensures service.Valid() && unchanged(service.db)
      ensures r.Ok? <==> a in service.db.albums
      ensures r.Fail? ==> r.error == NotFound(AlbumNotFound)
      ensures r.Ok? ==> && r.value.code == StatusOk && r.value.header.None? && r.value.body.Data?
                        && HeaderMatches(r.value.body.data.album, a, service.db.albums[a])
    {
      var album := service.GetAlbumById(a, now);
      if album.Fail? {
        return Fail(album.error);
      }
      r := Ok(Reply(StatusOk, Data(AlbumData(album.value)), None));
    }

    /** PUT /albums/{id}: renames and re-dates the album. */
    method PutAlbumById(verdict: Verdict, a: Id, name: string, year: int) returns (r: Outcome<Reply<()>>)
      requires service.Valid()
      modifies service.db, service.cache
      ensures service.Valid()
      ensures verdict.Some? ==> r == Fail(Invariant(verdict.value))
      ensures verdict.None? && a !in old(service.db.albums) ==> r == Fail(NotFound(AlbumNotFound))
      ensures r.Ok? <==> verdict.None? && a in old(service.db.albums)
      ensures r.Fail? ==> unchanged(service.db)
      ensures r.Ok? ==> && r.value == Reply(StatusOk, Message(AlbumUpdated), None)
                        && service.db.Rows() == old(service.db.Rows()).(
                             albums := old(service.db.albums)[a := old(service.db.albums)[a].(name := name, year := year)])
    {
      if verdict.Some? {
        return Fail(Invariant(verdict.value));
      }
      var edited := service.EditAlbumById(a, name, year);
      if edited.Fail? {
        return Fail(edited.error);
      }
      r := Ok(Reply(StatusOk, Message(AlbumUpdated), None));
    }

    /** DELETE /albums/{id}: removes the album and its likes. */
    method DeleteAlbumById(a: Id) returns (r: Outcome<Reply<()>>)
      requires service.Valid()
      modifies service.db, service.cache
      ensures service.Valid()
      ensures r.Ok? <==> a in old(service.db.albums)
      ensures r.Fail? ==> r.error == NotFound(AlbumNotFound) && unchanged(service.db)
      ensures r.Ok? ==> && r.value == Reply(StatusOk, Message(AlbumDeleted), None)
                        && service.db.Rows() == old(service.db.Rows()).(
                             albums := old(service.db.albums) - {a}, likes := Filter(old(service.db.likes), LikeOutside(a)))
                        && a !in service.db.albums && LikeCount(service.db.likes, a) == 0
    {
      var deleted := service.DeleteAlbumById(a);
      if deleted.Fail? {
        return Fail(deleted.error);
      }
      FilterNone(service.db.likes, LikeOf(a));
      r := Ok(Reply(StatusOk, Message(AlbumDeleted), None));
    }

    /** POST /albums/{id}/covers: a missing file part and a content type outside the allowlist are
        rejected before the album is looked up; otherwise the service stores the cover; 201. The
        second result is the request to delete the object of the replaced cover, if any. */
    method PostAlbumCover(a: Id, cover: Option<CoverPart>, put: Outcome<()>, now: nat)
      returns (r: Outcome<Reply<()>>, removal: Option<DeleteRequest>)
      requires service.Valid()
      modifies service.db, service.cache
      ensures service.Valid()
      ensures cover.None? ==> r == Fail(Invariant(CoverRequired))
      ensures cover.Some? && !CoverTypeAllowed(cover.value.contentType) ==> r == Fail(Invariant(CoverTypeRejected))
      ensures cover.Some? && CoverTypeAllowed(cover.value.contentType) && a !in old(service.db.albums)
              ==> r == Fail(NotFound(AlbumNotFound))
      ensures r.Ok? <==> && cover.Some? && CoverTypeAllowed(cover.value.contentType)
                         && a in old(service.db.albums) && put.Ok?
      ensures r.Fail? ==> unchanged(service.db) && removal.None?
      ensures r.Ok? ==> && r.value == Reply(StatusCreated, Message(CoverUploaded), None)
                        && var key := BuildKeyForAlbumCover(service.storage, Some(a), cover.value.contentType, now);
                        && ExtFromContentType(cover.value.contentType) != "bin"
                        && service.db.Rows() == old(service.db.Rows()).(
                             albums := old(service.db.albums)[a := old(service.db.albums)[a].(cover := Some(PublicUrl(service.storage, key)))])
                        && removal == (if Truthy(old(service.db.albums)[a].cover)
                                       then DeleteCommand(service.storage, ExtractKeyFromUrl(old(service.db.albums)[a].cover.value))
                                       else None)
    {
      removal := None;
      if cover.None? {
        return Fail(Invariant(CoverRequired)), None;
      }
      var contentType := cover.value.contentType;
      if !CoverTypeAllowed(contentType) {
        return Fail(Invariant(CoverTypeRejected)), None;
      }
      AllowedCoverExtension(contentType);
      var url;
      url, removal := service.SetAlbumCover(a, contentType, put, now);
      if url.Fail? {
        return Fail(url.error), removal;
      }
      r := Ok(Reply(StatusCreated, Message(CoverUploaded), None));
    }

    /** POST /albums/{id}/likes: the authenticated user likes the album; 201. */
    method PostLikeAlbum(a: Id, credential: Id, nonce: string) returns (r: Outcome<Reply<()>>)
      requires service.Valid() && LikeIdPrefix + nonce !in service.db.issued
      modifies service.db, service.cache
      ensures service.Valid()
      ensures a !in old(service.db.albums) ==> r == Fail(NotFound(AlbumNotFound))
      ensures a in old(service.db.albums) && HasLiked(old(service.db.likes), credential, a) ==> r == Fail(Invariant(AlreadyLiked))
      ensures a in old(service.db.albums) && !HasLiked(old(service.db.likes), credential, a) && credential !in old(service.db.users)
              ==> r == Fail(Database(ForeignKeyViolation))
      ensures r.Ok? <==> a in old(service.db.albums) && !HasLiked(old(service.db.likes), credential, a) && credential in old(service.db.users)
      ensures r.Fail? ==> unchanged(service.db)
      ensures r.Ok? ==> && r.value == Reply(StatusCreated, Message(AlbumLiked), None)
                        && service.db.Rows() == old(service.db.Rows()).(
                             likes := old(service.db.likes) + [LikeRow(LikeIdPrefix + nonce, credential, a)])
                        && LikeCount(service.db.likes, a) == LikeCount(old(service.db.likes), a) + 1
                        && HasLiked(service.db.likes, credential, a)
    {
      var liked := service.LikeAlbum(credential, a, nonce);
      if liked.Fail? {
        return Fail(liked.error);
      }
      r := Ok(Reply(StatusCreated, Message(AlbumLiked), None));
    }

    /** DELETE /albums/{id}/likes: the authenticated user withdraws their like. */
    method DeleteLikeAlbum(a: Id, credential: Id) returns (r: Outcome<Reply<()>>)
      requires service.Valid()
      modifies service.db, service.cache
      ensures service.Valid()
      ensures a !in old(service.db.albums) ==> r == Fail(NotFound(AlbumNotFound))
      ensures a in old(service.db.albums) && !HasLiked(old(service.db.likes), credential, a) ==> r == Fail(Invariant(NotLiked))
      ensures r.Ok? <==> a in old(service.db.albums) && HasLiked(old(service.db.likes), credential, a)
      ensures r.Fail? ==> unchanged(service.db)
      ensures r.Ok? ==> && r.value == Reply(StatusOk, Message(AlbumUnliked), None)
                        && service.db.Rows() == old(service.db.Rows()).(likes := Filter(old(service.db.likes), LikeOtherThan(credential, a)))
                        && LikeCount(service.db.likes, a) + 1 == LikeCount(old(service.db.likes), a)
                        && !HasLiked(service.db.likes, credential, a)
    {
      var unliked := service.UnlikeAlbum(credential, a);
      if unliked.Fail? {
        return Fail(unliked.error);
      }
      r := Ok(Reply(StatusOk, Message(AlbumUnliked), None));
    }

    /** GET /albums/{id}/likes: the number of likes, with the X-Data-Source: cache header exactly
        when the number came from the cache. */
    method GetAlbumLikes(a: Id, now: int) returns (r: Outcome<Reply<LikesData>>)
      requires service.Valid()
      modifies service.cache
      ensures service.Valid() && unchanged(service.db)
      ensures r.Ok? <==> a in service.db.albums
      ensures r.Fail? ==> r.error == NotFound(AlbumNotFound)
      ensures r.Ok? ==> && r.value.code == StatusOk
                        && r.value.body == Data(LikesData(Num(LikeCount(service.db.likes, a))))
                        && (r.value.header == Some(FromCacheHeader) <==> old(service.CachedLikes(a, now)).Some?)
                        && (r.value.header.None? <==> old(service.CachedLikes(a, now)).None?)
    {
      var count := service.GetAlbumLikesCount(a, now);
      if count.Fail? {
        return Fail(count.error);
      }
      var header := if count.value.fromCache then Some(FromCacheHeader) else None;
      r := Ok(Reply(StatusOk, Data(LikesData(count.value.likes)), header));
    }
  }
}
