/** Albums: their rows, their cover images in object storage, the likes users give them, and the two
    kinds of cache entry the service keeps (an album with its songs, and an album's like count). */
module Albums {
  import opened Outcomes
  import opened Seqs
  import opened Text
  import opened Store
  import opened Storage
  import opened Caching

  const AlbumIdPrefix := "album-"
  const LikeIdPrefix := "like-"

  /** A song as the album detail lists it. */
  datatype AlbumSong = AlbumSong(id: Id, title: string, performer: string)
  /** An album with its songs. The song query has no ORDER BY, so their order is not modelled: a set. */
  datatype AlbumDetail = AlbumDetail(id: Id, name: string, year: int, coverUrl: Option<string>, songs: set<AlbumSong>)
  /** What a cache entry holds: the text of a like count, or the JSON text of an album (JSON text and
      the value it encodes are identified). */
  datatype CacheValue = CountText(text: string) | AlbumJson(album: AlbumDetail)
  /** A JavaScript number as Number() yields it from a text. */
  datatype JsNumber = Num(value: nat) | NotANumber
  datatype LikesResult = LikesResult(likes: JsNumber, fromCache: bool)

  function AlbumKey(a: Id): string { "album:detail:" + a }
  function LikesKey(a: Id): string { "album-likes:" + a }

  /** The two kinds of key never collide, and each names one album. */
  lemma CacheKeysDistinct(a: Id, b: Id)
    ensures AlbumKey(a) != LikesKey(b)
    ensures AlbumKey(a) == AlbumKey(b) ==> a == b
    ensures LikesKey(a) == LikesKey(b) ==> a == b
  {
    assert AlbumKey(a)[5] == ':' && LikesKey(b)[5] == '-';
    PrefixInjective("album:detail:", a, b);
    PrefixInjective("album-likes:", a, b);
  }

  /** Number(s), for the empty text and decimal numerals; anything else is NaN. */
  function ToNumber(s: string): JsNumber {
    if s == "" then Num(0)
    else match ParseNat(s)
      case Some(v) => Num(v)
      case None => NotANumber
  }

  /** Number(String(n)) == n. */
  lemma ToNumberOfString(n: nat)
    ensures ToNumber(NatToString(n)) == Num(n)
  {
    ParseNatToString(n);
  }

  /** Number() of a cache entry's text: the JSON text of an album is not a numeral. */
  function NumberOfCached(v: CacheValue): JsNumber {
    match v
    case CountText(t) => ToNumber(t)
    case AlbumJson(_) => NotANumber
  }

  /** SELECT id, title, performer FROM songs WHERE album_id = a. */
  function SongsOfAlbum(songs: map<Id, SongRow>, a: Id): set<AlbumSong> {
    set s | s in songs && songs[s].albumId == Some(a) :: AlbumSong(s, songs[s].title, songs[s].performer)
  }

  /** The album's songs are exactly the songs whose album is a, each listed once with its current
      title and performer; since a song row names one album, no song is listed under two albums. */
  lemma SongsOfAlbumSpec(songs: map<Id, SongRow>, a: Id, b: Id)
    ensures forall s :: s in songs && songs[s].albumId == Some(a)
              ==> AlbumSong(s, songs[s].title, songs[s].performer) in SongsOfAlbum(songs, a)
    ensures forall x :: x in SongsOfAlbum(songs, a)
              ==> x.id in songs && songs[x.id].albumId == Some(a) && x == AlbumSong(x.id, songs[x.id].title, songs[x.id].performer)
    ensures forall x, y :: x in SongsOfAlbum(songs, a) && y in SongsOfAlbum(songs, a) && x.id == y.id ==> x == y
    ensures a != b ==> SongsOfAlbum(songs, a) !! SongsOfAlbum(songs, b)
  {
    if a != b {
      forall x | x in SongsOfAlbum(songs, a) ensures x !in SongsOfAlbum(songs, b) {
        assert songs[x.id].albumId == Some(a);
      }
    }
  }

  /** The album a as getAlbumById builds it from the tables. */
  function AlbumDetailOf(t: Tables, a: Id): AlbumDetail
    requires a in t.albums
  {
    AlbumDetail(a, t.albums[a].name, t.albums[a].year, t.albums[a].cover, SongsOfAlbum(t.songs, a))
  }

  /** The album fields of d are those of row a. */
  predicate HeaderMatches(d: AlbumDetail, a: Id, row: AlbumRow) {
    d.id == a && d.name == row.name && d.year == row.year && d.coverUrl == row.cover
  }

  /** What the service keeps true of the cache: a like count entry of an existing album holds the
      album's current count (and names an album id that was issued), and an album entry names an
      existing album and holds its current name, year and cover. The songs inside an album entry
      may be stale: changes to songs do not invalidate it. */
  ghost predicate CacheCoherent(entries: map<string, Entry<CacheValue>>, t: Tables, issued: set<Id>) {
    && (forall a :: LikesKey(a) in entries ==>
          a in issued && (a in t.albums ==> entries[LikesKey(a)].value == CountText(NatToString(LikeCount(t.likes, a)))))
    && (forall a :: AlbumKey(a) in entries ==>
          a in t.albums && entries[AlbumKey(a)].value.AlbumJson?
          && HeaderMatches(entries[AlbumKey(a)].value.album, a, t.albums[a]))
  }

  /** Changes to tables other than albums and likes (songs, playlists and the rest) keep the cache coherent. */
  lemma CoherenceFrame(entries: map<string, Entry<CacheValue>>, t: Tables, issued: set<Id>, t2: Tables, issued2: set<Id>)
    requires CacheCoherent(entries, t, issued)
    requires t2.albums == t.albums && t2.likes == t.likes && issued <= issued2
    ensures CacheCoherent(entries, t2, issued2)
  {
  }

  /** Dropping any entry keeps the cache coherent: that covers DEL and eviction. */
  lemma CoherenceWithout(entries: map<string, Entry<CacheValue>>, t: Tables, issued: set<Id>, key: string)
    requires CacheCoherent(entries, t, issued)
    ensures CacheCoherent(entries - {key}, t, issued)
  {
  }

  /** A change to the likes that alters only album a's count keeps the cache coherent once a's count
      entry is gone. */
  lemma CoherenceWithLikes(entries: map<string, Entry<CacheValue>>, t: Tables, issued: set<Id>, t2: Tables, a: Id)
    requires CacheCoherent(entries, t, issued) && LikesKey(a) !in entries
    requires t2.albums == t.albums
    requires forall b :: b in t.albums && b != a ==> LikeCount(t2.likes, b) == LikeCount(t.likes, b)
    ensures CacheCoherent(entries, t2, issued)
  {
  }

  /** Storing an album's detail as built from the tables keeps the cache coherent. */
  lemma CoherenceWithAlbum(entries: map<string, Entry<CacheValue>>, t: Tables, issued: set<Id>, a: Id, expiresAt: int)
    requires CacheCoherent(entries, t, issued) && a in t.albums
    ensures CacheCoherent(entries[AlbumKey(a) := Entry(AlbumJson(AlbumDetailOf(t, a)), expiresAt)], t, issued)
  {
    var e := entries[AlbumKey(a) := Entry(AlbumJson(AlbumDetailOf(t, a)), expiresAt)];
    forall b | LikesKey(b) in e ensures LikesKey(b) in entries && e[LikesKey(b)] == entries[LikesKey(b)] {
      CacheKeysDistinct(a, b);
    }
    forall b | AlbumKey(b) in e && b != a ensures AlbumKey(b) in entries && e[AlbumKey(b)] == entries[AlbumKey(b)] {
      CacheKeysDistinct(a, b);
    }
  }

  /** Storing an album's current like count keeps the cache coherent. */
  lemma CoherenceWithCount(entries: map<string, Entry<CacheValue>>, t: Tables, issued: set<Id>, a: Id, expiresAt: int)
    requires CacheCoherent(entries, t, issued) && a in t.albums && a in issued
    ensures CacheCoherent(entries[LikesKey(a) := Entry(CountText(NatToString(LikeCount(t.likes, a))), expiresAt)], t, issued)
  {
    var e := entries[LikesKey(a) := Entry(CountText(NatToString(LikeCount(t.likes, a))), expiresAt)];
    forall b | LikesKey(b) in e && b != a ensures LikesKey(b) in entries && e[LikesKey(b)] == entries[LikesKey(b)] {
      CacheKeysDistinct(a, b);
      CacheKeysDistinct(b, a);
    }
    forall b | AlbumKey(b) in e ensures AlbumKey(b) in entries && e[AlbumKey(b)] == entries[AlbumKey(b)] {
      CacheKeysDistinct(b, a);
    }
  }

  /** Removing user u's like of album a lowers a's count by one if there was such a like, and leaves
      it otherwise; every other album's count stays. */
  lemma {:induction false} UnlikeCount(s: seq<LikeRow>, u: Id, a: Id, b: Id)
    requires Pairwise(s, LikesDistinct)
    ensures LikeCount(Filter(s, LikeOtherThan(u, a)), b) + (if b == a && HasLiked(s, u, a) then 1 else 0) == LikeCount(s, b)
  {
    if s != [] {
      var x := s[0];
      var rest := s[1..];
      PairwiseTail(s, LikesDistinct);
      UnlikeCount(rest, u, a, b);
      var f := Filter(rest, LikeOtherThan(u, a));
      var kept := if x.albumId == b then [x] else [];
      assert Filter(s, LikeOf(b)) == kept + Filter(rest, LikeOf(b));
      if x.userId == u && x.albumId == a {
        assert !HasLiked(rest, u, a) by {
          forall r | r in rest ensures !(r.userId == u && r.albumId == a) {
            assert LikesDistinct(x, r);
          }
        }
        assert !LikeOtherThan(u, a)(x);
        assert Filter(s, LikeOtherThan(u, a)) == [] + f;
        assert [] + f == f;
        assert HasLiked(s, u, a) by {
          assert x in s;
        }
        assert LikeCount(s, b) == |kept| + LikeCount(rest, b);
      } else {
        HasLikedTail(s, u, a);
        assert LikeOtherThan(u, a)(x);
        assert Filter(s, LikeOtherThan(u, a)) == [x] + f;
        assert ([x] + f)[1..] == f;
        assert Filter([x] + f, LikeOf(b)) == kept + Filter(f, LikeOf(b));
        assert LikeCount(Filter(s, LikeOtherThan(u, a)), b) == |kept| + LikeCount(f, b);
      }
    }
  }

  /** When the first row is not u's like of a, u has liked a in s exactly when u has in the rest. */
  lemma HasLikedTail(s: seq<LikeRow>, u: Id, a: Id)
    requires s != [] && !(s[0].userId == u && s[0].albumId == a)
    ensures HasLiked(s, u, a) == HasLiked(s[1..], u, a)
  {
    if HasLiked(s, u, a) {
      var r :| r in s && r.userId == u && r.albumId == a;
      assert r in s[1..];
    }
    if HasLiked(s[1..], u, a) {
      var r :| r in s[1..] && r.userId == u && r.albumId == a;
      assert r in s;
    }
  }

  class AlbumsService {
    const db: Database
    const storage: StorageSettings
    const cache: Cache?<CacheValue>

    constructor(db: Database, storage: StorageSettings, cache: Cache?<CacheValue>)
      ensures this.db == db && this.storage == storage && this.cache == cache
    {
      this.db := db;
      this.storage := storage;
      this.cache := cache;
    }

    ghost predicate Valid()
      reads db, cache
    {
      db.Valid() && (cache != null ==> CacheCoherent(cache.entries, db.Rows(), db.issued))
    }

    /** The album under a's detail key at second now, if the cache holds one. */
    function CachedAlbum(a: Id, now: int): Option<AlbumDetail>
      reads cache
    {
      if cache != null && cache.Lookup(AlbumKey(a), now).Some? && cache.Lookup(AlbumKey(a), now).value.AlbumJson?
      then Some(cache.Lookup(AlbumKey(a), now).value.album)
      else None
    }

    /** The entry under a's like count key at second now, if the cache holds one. */
    function CachedLikes(a: Id, now: int): Option<CacheValue>
      reads cache
    {
      if cache != null then cache.Lookup(LikesKey(a), now) else None
    }

    /** Adds an album without a cover, under the id "album-" + nonce. */
    method AddAlbum(name: string, year: int, nonce: string) returns (id: Id)
      requires Valid() && AlbumIdPrefix + nonce !in db.issued
      modifies db
      ensures Valid()
      ensures id == AlbumIdPrefix + nonce && id !in old(db.albums)
      ensures db.Rows() == old(db.Rows()).(albums := old(db.albums)[id := AlbumRow(name, year, None)])
      ensures db.issued == old(db.issued) + {id} && db.clock == old(db.clock)
    {
      id := AlbumIdPrefix + nonce;
      db.InsertAlbum(id, AlbumRow(name, year, None));
      if cache != null {
        forall b | LikesKey(b) in cache.entries && b in db.albums
          ensures cache.entries[LikesKey(b)].value == CountText(NatToString(LikeCount(db.likes, b)))
        {
          assert b != id;
        }
      }
    }

    /** getAlbumById: the cached album when there is one; otherwise the album read from the tables,
        which is then cached; NotFound when there is no such album. */
    method GetAlbumById(a: Id, now: int) returns (r: Outcome<AlbumDetail>)
      requires Valid()
      modifies cache
      ensures Valid() && unchanged(db)
      ensures r.Ok? <==> a in db.albums
      ensures r.Fail? ==> r.error == NotFound(AlbumNotFound) && (cache != null ==> unchanged(cache))
      ensures r.Ok? ==> HeaderMatches(r.value, a, db.albums[a])
      ensures old(CachedAlbum(a, now)).Some? ==> r == Ok(old(CachedAlbum(a, now)).value) && (cache != null ==> unchanged(cache))
      ensures old(CachedAlbum(a, now)).None? && r.Ok? ==>
                && r.value == AlbumDetailOf(db.Rows(), a)
                && (cache != null ==> cache.entries == old(cache.entries)[AlbumKey(a) := Entry(AlbumJson(r.value), now + DefaultTtl)])
    {
      if cache != null {
        var cached := cache.Get(AlbumKey(a), now);
        if cached.Some? && cached.value.AlbumJson? {
          return Ok(cached.value.album);
        }
      }
      if a !in db.albums {
        return Fail(NotFound(AlbumNotFound));
      }
      var album := AlbumDetailOf(db.Rows(), a);
      if cache != null {
        CoherenceWithAlbum(cache.entries, db.Rows(), db.issued, a, now + DefaultTtl);
        cache.Set(AlbumKey(a), AlbumJson(album), now);
      }
      r := Ok(album);
    }

    /** editAlbumById: new name and year, and the album's cached detail dropped; NotFound otherwise. */
    method EditAlbumById(a: Id, name: string, year: int) returns (r: Outcome<()>)
      requires Valid()
      modifies db, cache
      ensures Valid()
      ensures r.Ok? <==> a in old(db.albums)
      ensures r.Fail? ==> r.error == NotFound(AlbumNotFound) && unchanged(db) && (cache != null ==> unchanged(cache))
      ensures r.Ok? ==> && db.Rows() == old(db.Rows()).(albums := old(db.albums)[a := old(db.albums)[a].(name := name, year := year)])
                        && (cache != null ==> cache.entries == old(cache.entries) - {AlbumKey(a)})
      ensures db.issued == old(db.issued) && db.clock == old(db.clock)
    {
      var found := db.UpdateAlbum(a, name, year);
      if !found {
        return Fail(NotFound(AlbumNotFound));
      }
      if cache != null {
        cache.Delete(AlbumKey(a));
        forall b | AlbumKey(b) in cache.entries ensures b != a {
          CacheKeysDistinct(a, b);
        }
      }
      r := Ok(());
    }

    /** deleteAlbumById: the album and (by cascade) its likes removed, its cached detail dropped. */
    method DeleteAlbumById(a: Id) returns (r: Outcome<()>)
      requires Valid()
      modifies db, cache
      ensures Valid()
      ensures r.Ok? <==> a in old(db.albums)
      ensures r.Fail? ==> r.error == NotFound(AlbumNotFound) && unchanged(db) && (cache != null ==> unchanged(cache))
      ensures r.Ok? ==> && db.Rows() == old(db.Rows()).(albums := old(db.albums) - {a}, likes := Filter(old(db.likes), LikeOutside(a)))
                        && (cache != null ==> cache.entries == old(cache.entries) - {AlbumKey(a)})
      ensures db.issued == old(db.issued) && db.clock == old(db.clock)
    {
      ghost var likes := db.likes;
      var found := db.DeleteAlbum(a);
      if !found {
        return Fail(NotFound(AlbumNotFound));
      }
      if cache != null {
        cache.Delete(AlbumKey(a));
        forall b | AlbumKey(b) in cache.entries ensures b != a {
          CacheKeysDistinct(a, b);
        }
        forall b | b in db.albums ensures LikeCount(db.likes, b) == LikeCount(likes, b) {
          FilterSubsumed(likes, LikeOutside(a), LikeOf(b));
        }
      }
      r := Ok(());
    }

    /** updateAlbumCoverUrlById: the new cover URL, and the album's cached detail dropped. */
    method UpdateAlbumCoverUrlById(a: Id, url: string) returns (r: Outcome<()>)
      requires Valid()
      modifies db, cache
      ensures Valid()
      ensures r.Ok? <==> a in old(db.albums)
      ensures r.Fail? ==> r.error == NotFound(AlbumNotFound) && unchanged(db) && (cache != null ==> unchanged(cache))
      ensures r.Ok? ==> && db.Rows() == old(db.Rows()).(albums := old(db.albums)[a := old(db.albums)[a].(cover := Some(url))])
                        && (cache != null ==> cache.entries == old(cache.entries) - {AlbumKey(a)})
      ensures db.issued == old(db.issued) && db.clock == old(db.clock)
    {
      var found := db.UpdateAlbumCover(a, url);
      if !found {
        return Fail(NotFound(AlbumNotFound));
      }
      if cache != null {
        cache.Delete(AlbumKey(a));
        forall b | AlbumKey(b) in cache.entries ensures b != a {
          CacheKeysDistinct(a, b);
        }
      }
      r := Ok(());
    }

    /** setAlbumCover: NotFound before anything is uploaded when the album does not exist; otherwise
        the image goes to a new key, the album points at its public URL, and the object of the old
        cover, if any, is asked to be deleted. put is the outcome of the PutObject call; the outcome
        of the DeleteObject call is ignored, so the request to delete (removal) is all the model returns
        of it. now is the time in milliseconds. */
    method SetAlbumCover(a: Id, contentType: Option<string>, put: Outcome<()>, now: nat)
      returns (r: Outcome<string>, removal: Option<DeleteRequest>)
      requires Valid()
      modifies db, cache
      ensures Valid()
      ensures db.issued == old(db.issued) && db.clock == old(db.clock)
      ensures a !in old(db.albums) ==> r == Fail(NotFound(AlbumNotFound))
      ensures a in old(db.albums) ==>
                r == Upload(storage, contentType, BuildKeyForAlbumCover(storage, Some(a), contentType, now), put)
      ensures r.Ok? <==> a in old(db.albums) && Truthy(contentType) && put.Ok?
      ensures r.Fail? ==> unchanged(db) && (cache != null ==> unchanged(cache)) && removal.None?
      ensures r.Ok? ==>
                && r.value == PublicUrl(storage, BuildKeyForAlbumCover(storage, Some(a), contentType, now))
                && db.Rows() == old(db.Rows()).(albums := old(db.albums)[a := old(db.albums)[a].(cover := Some(r.value))])
                && (cache != null ==> cache.entries == old(cache.entries) - {AlbumKey(a)})
                && removal == (if Truthy(old(db.albums)[a].cover)
                               then DeleteCommand(storage, ExtractKeyFromUrl(old(db.albums)[a].cover.value))
                               else None)
      ensures r.Ok? && HostSafe(storage) ==>
                forall k :: old(db.albums)[a].cover == Some(PublicUrl(storage, k)) && k != ""
                  ==> removal == Some(DeleteRequest(storage.bucket, k))
    {
      removal := None;
      if a !in db.albums {
        return Fail(NotFound(AlbumNotFound)), None;
      }
      var oldCover := db.albums[a].cover;
      var key := BuildKeyForAlbumCover(storage, Some(a), contentType, now);
      r := Upload(storage, contentType, key, put);
      if r.Fail? {
        return;
      }
      var updated := UpdateAlbumCoverUrlById(a, r.value);
      if Truthy(oldCover) {
        var oldKey := ExtractKeyFromUrl(oldCover.value);
        removal := DeleteCommand(storage, oldKey);
        if HostSafe(storage) {
          forall k | oldCover == Some(PublicUrl(storage, k)) && k != ""
            ensures removal == Some(DeleteRequest(storage.bucket, k))
          {
            ExtractKeyOfPublicUrl(storage, k);
          }
        }
      }
    }

    /** Fails with NotFound unless album a exists. */
    method VerifyAlbumExists(a: Id) returns (r: Outcome<()>)
      ensures r.Ok? <==> a in db.albums
      ensures r.Fail? ==> r.error == NotFound(AlbumNotFound)
    {
      if a in db.albums {
        r := Ok(());
      } else {
        r := Fail(NotFound(AlbumNotFound));
      }
    }

    /** likeAlbum: user u likes album a once, under the id "like-" + nonce; the album's cached like
        count is dropped. */
    method LikeAlbum(u: Id, a: Id, nonce: string) returns (r: Outcome<()>)
      requires Valid() && LikeIdPrefix + nonce !in db.issued
      modifies db, cache
      ensures Valid()
      ensures a !in old(db.albums) ==> r == Fail(NotFound(AlbumNotFound))
      ensures a in old(db.albums) && HasLiked(old(db.likes), u, a) ==> r == Fail(Invariant(AlreadyLiked))
      ensures a in old(db.albums) && !HasLiked(old(db.likes), u, a) && u !in old(db.users)
              ==> r == Fail(Database(ForeignKeyViolation))
      ensures r.Ok? <==> a in old(db.albums) && !HasLiked(old(db.likes), u, a) && u in old(db.users)
      ensures r.Fail? ==> unchanged(db) && (cache != null ==> unchanged(cache))
      ensures r.Ok? ==> && db.Rows() == old(db.Rows()).(likes := old(db.likes) + [LikeRow(LikeIdPrefix + nonce, u, a)])
                        && db.issued == old(db.issued) + {LikeIdPrefix + nonce} && db.clock == old(db.clock)
                        && HasLiked(db.likes, u, a)
                        && LikeCount(db.likes, a) == LikeCount(old(db.likes), a) + 1
                        && (cache != null ==> cache.entries == old(cache.entries) - {LikesKey(a)})
    {
      var present := VerifyAlbumExists(a);
      if present.Fail? {
        return Fail(present.error);
      }
      if HasLiked(db.likes, u, a) {
        return Fail(Invariant(AlreadyLiked));
      }
      ghost var likes := db.likes;
      var id := LikeIdPrefix + nonce;
      var code := db.InsertLike(id, u, a);
      if code.Some? {
        return Fail(Database(code.value));
      }
      FilterAppend(likes, LikeRow(id, u, a), LikeOf(a));
      assert LikeRow(id, u, a) in db.likes;
      if cache != null {
        cache.Delete(LikesKey(a));
        forall b | b in db.albums && b != a ensures LikeCount(db.likes, b) == LikeCount(likes, b) {
          FilterAppend(likes, LikeRow(id, u, a), LikeOf(b));
        }
        CoherenceWithLikes(cache.entries, old(db.Rows()), db.issued, db.Rows(), a);
      }
      r := Ok(());
    }

    /** unlikeAlbum: user u's like of album a removed, and the album's cached like count dropped. */
    method UnlikeAlbum(u: Id, a: Id) returns (r: Outcome<()>)
      requires Valid()
      modifies db, cache
      ensures Valid()
      ensures a !in old(db.albums) ==> r == Fail(NotFound(AlbumNotFound))
      ensures a in old(db.albums) && !HasLiked(old(db.likes), u, a) ==> r == Fail(Invariant(NotLiked))
      ensures r.Ok? <==> a in old(db.albums) && HasLiked(old(db.likes), u, a)
      ensures r.Fail? ==> unchanged(db) && (cache != null ==> unchanged(cache))
      ensures r.Ok? ==> && db.Rows() == old(db.Rows()).(likes := Filter(old(db.likes), LikeOtherThan(u, a)))
                        && db.issued == old(db.issued) && db.clock == old(db.clock)
                        && !HasLiked(db.likes, u, a)
                        && LikeCount(db.likes, a) + 1 == LikeCount(old(db.likes), a)
                        && (cache != null ==> cache.entries == old(cache.entries) - {LikesKey(a)})
    {
      var present := VerifyAlbumExists(a);
      if present.Fail? {
        return Fail(present.error);
      }
      ghost var likes := db.likes;
      var found := db.DeleteLike(u, a);
      if !found {
        return Fail(Invariant(NotLiked));
      }
      UnlikeCount(likes, u, a, a);
      if cache != null {
        cache.Delete(LikesKey(a));
        forall b | b in db.albums && b != a ensures LikeCount(db.likes, b) == LikeCount(likes, b) {
          UnlikeCount(likes, u, a, b);
        }
        CoherenceWithLikes(cache.entries, old(db.Rows()), db.issued, db.Rows(), a);
      }
      r := Ok(());
    }

    /** getAlbumLikesCount: the number of likes of album a, from the cache when it holds the count
        (fromCache) and from the table otherwise, in which case the count is cached. The number is the
        table's count either way. */
    method GetAlbumLikesCount(a: Id, now: int) returns (r: Outcome<LikesResult>)
      requires Valid()
      modifies cache
      ensures Valid() && unchanged(db)
      ensures r.Ok? <==> a in db.albums
      ensures r.Fail? ==> r.error == NotFound(AlbumNotFound) && (cache != null ==> unchanged(cache))
      ensures r.Ok? ==> r.value.likes == Num(LikeCount(db.likes, a))
      ensures r.Ok? ==> (r.value.fromCache <==> old(CachedLikes(a, now)).Some?)
      ensures r.Ok? && r.value.fromCache ==> (cache != null ==> unchanged(cache))
      ensures r.Ok? && !r.value.fromCache && cache != null ==>
                cache.entries == old(cache.entries)[LikesKey(a) := Entry(CountText(NatToString(LikeCount(db.likes, a))), now + DefaultTtl)]
    {
      var present := VerifyAlbumExists(a);
      if present.Fail? {
        return Fail(present.error);
      }
      if cache != null {
        var cached := cache.Get(LikesKey(a), now);
        if cached.Some? {
          ToNumberOfString(LikeCount(db.likes, a));
          return Ok(LikesResult(NumberOfCached(cached.value), true));
        }
      }
      var likes := LikeCount(db.likes, a);
      if cache != null {
        CoherenceWithCount(cache.entries, db.Rows(), db.issued, a, now + DefaultTtl);
        cache.Set(LikesKey(a), CountText(NatToString(likes)), now);
      }
      r := Ok(LikesResult(Num(likes), false));
    }
  }
}
