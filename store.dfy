/** The relational store all services share, as the migrations declare it: the tables, their primary
    keys and UNIQUE constraints, their foreign keys with ON DELETE CASCADE, and the INSERT, UPDATE and
    DELETE statements the services issue. A statement that violates a constraint changes nothing and
    reports its SQLSTATE code, as Postgres does. */
module Store {
  import opened Outcomes
  import opened Seqs

  type Id = string
  /** A timestamp, in milliseconds. */
  type Time = int

  datatype UserRow = UserRow(username: string)
  datatype SongRow = SongRow(title: string, year: int, genre: string, performer: string,
                             duration: Option<int>, albumId: Option<Id>)
  datatype AlbumRow = AlbumRow(name: string, year: int, cover: Option<string>)
  datatype PlaylistRow = PlaylistRow(id: Id, name: string, owner: Id)
  datatype CollaborationRow = CollaborationRow(id: Id, playlistId: Id, userId: Id)
  datatype PlaylistSongRow = PlaylistSongRow(id: Id, playlistId: Id, songId: Id, createdAt: Time)
  datatype ActivityRow = ActivityRow(id: Id, playlistId: Id, songId: Id, userId: Id, action: string, time: Time)
  datatype LikeRow = LikeRow(id: Id, userId: Id, albumId: Id)

  /** The content of every table at one moment. */
  datatype Tables = Tables(
    users: map<Id, UserRow>,
    songs: map<Id, SongRow>,
    albums: map<Id, AlbumRow>,
    playlists: seq<PlaylistRow>,
    collaborations: seq<CollaborationRow>,
    playlistSongs: seq<PlaylistSongRow>,
    activities: seq<ActivityRow>,
    likes: seq<LikeRow>)

  // ---------------------------------------------------------------------------------------------
  // Queries over the tables

  function PlaylistIds(t: seq<PlaylistRow>): set<Id> {
    set r | r in t :: r.id
  }

  /** SELECT ... FROM playlists WHERE id = p. */
  function FindPlaylist(t: seq<PlaylistRow>, p: Id): (r: Option<PlaylistRow>)
    ensures r.Some? ==> r.value in t && r.value.id == p
    ensures r.None? <==> p !in PlaylistIds(t)
  {
    if t == [] then None
    else if t[0].id == p then Some(t[0])
    else FindPlaylist(t[1..], p)
  }

  predicate IsCollaborator(t: seq<CollaborationRow>, p: Id, u: Id) {
    exists r :: r in t && r.playlistId == p && r.userId == u
  }

  predicate InPlaylist(t: seq<PlaylistSongRow>, p: Id, s: Id) {
    exists r :: r in t && r.playlistId == p && r.songId == s
  }

  predicate HasLiked(t: seq<LikeRow>, u: Id, a: Id) {
    exists r :: r in t && r.userId == u && r.albumId == a
  }

  // Row selections of the WHERE clauses.
  function PlaylistOtherThan(p: Id): PlaylistRow -> bool { (r: PlaylistRow) => r.id != p }
  function CollaborationOutside(p: Id): CollaborationRow -> bool { (r: CollaborationRow) => r.playlistId != p }
  function CollaborationOtherThan(p: Id, u: Id): CollaborationRow -> bool { (r: CollaborationRow) => !(r.playlistId == p && r.userId == u) }
  function MembershipOf(p: Id): PlaylistSongRow -> bool { (r: PlaylistSongRow) => r.playlistId == p }
  function MembershipOutside(p: Id): PlaylistSongRow -> bool { (r: PlaylistSongRow) => r.playlistId != p }
  function MembershipOtherThan(p: Id, s: Id): PlaylistSongRow -> bool { (r: PlaylistSongRow) => !(r.playlistId == p && r.songId == s) }
  function MembershipWithoutSong(s: Id): PlaylistSongRow -> bool { (r: PlaylistSongRow) => r.songId != s }
  function ActivityOf(p: Id): ActivityRow -> bool { (r: ActivityRow) => r.playlistId == p }
  function ActivityOutside(p: Id): ActivityRow -> bool { (r: ActivityRow) => r.playlistId != p }
  function ActivityWithoutSong(s: Id): ActivityRow -> bool { (r: ActivityRow) => r.songId != s }
  function LikeOf(a: Id): LikeRow -> bool { (r: LikeRow) => r.albumId == a }
  function LikeOutside(a: Id): LikeRow -> bool { (r: LikeRow) => r.albumId != a }
  function LikeOtherThan(u: Id, a: Id): LikeRow -> bool { (r: LikeRow) => !(r.userId == u && r.albumId == a) }

  /** SELECT COUNT(*) FROM user_album_likes WHERE album_id = a. */
  function LikeCount(t: seq<LikeRow>, a: Id): nat {
    |Filter(t, LikeOf(a))|
  }

  // ---------------------------------------------------------------------------------------------
  // Constraints

  // Two rows of a table, the earlier one first: primary keys differ, UNIQUE pairs differ, and
  // timestamps do not decrease (rows are inserted with the current time of a clock that never goes back).
  function PlaylistsDistinct(a: PlaylistRow, b: PlaylistRow): bool {
    a.id != b.id
  }
  function CollaborationsDistinct(a: CollaborationRow, b: CollaborationRow): bool {
    a.id != b.id && (a.playlistId != b.playlistId || a.userId != b.userId)
  }
  function MembershipsInOrder(a: PlaylistSongRow, b: PlaylistSongRow): bool {
    a.id != b.id && (a.playlistId != b.playlistId || a.songId != b.songId) && a.createdAt <= b.createdAt
  }
  function ActivitiesInOrder(a: ActivityRow, b: ActivityRow): bool {
    a.id != b.id && a.time <= b.time
  }
  function LikesDistinct(a: LikeRow, b: LikeRow): bool {
    a.id != b.id && (a.userId != b.userId || a.albumId != b.albumId)
  }

  ghost predicate PlaylistsOk(t: Tables, issued: set<Id>) {
    && Pairwise(t.playlists, PlaylistsDistinct)
    && forall r :: r in t.playlists ==> r.id in issued && r.owner in t.users
  }

  ghost predicate CollaborationsOk(t: Tables, issued: set<Id>) {
    && Pairwise(t.collaborations, CollaborationsDistinct)
    && forall r :: r in t.collaborations ==>
         r.id in issued && r.playlistId in PlaylistIds(t.playlists) && r.userId in t.users
  }

  ghost predicate MembershipsOk(t: Tables, issued: set<Id>, clock: Time) {
    && Pairwise(t.playlistSongs, MembershipsInOrder)
    && forall r :: r in t.playlistSongs ==>
         r.id in issued && r.playlistId in PlaylistIds(t.playlists) && r.songId in t.songs && r.createdAt <= clock
  }

  ghost predicate ActivitiesOk(t: Tables, issued: set<Id>, clock: Time) {
    && Pairwise(t.activities, ActivitiesInOrder)
    && forall r :: r in t.activities ==>
         r.id in issued && r.playlistId in PlaylistIds(t.playlists) && r.songId in t.songs
         && r.userId in t.users && r.time <= clock
  }

  ghost predicate LikesOk(t: Tables, issued: set<Id>) {
    && Pairwise(t.likes, LikesDistinct)
    && forall r :: r in t.likes ==> r.id in issued && r.userId in t.users && r.albumId in t.albums
  }

  /** Every constraint of the schema, plus: every id in use was issued, and no timestamp is later
      than the clock. */
  ghost predicate TablesOk(t: Tables, issued: set<Id>, clock: Time) {
    && t.users.Keys <= issued && t.songs.Keys <= issued && t.albums.Keys <= issued
    && PlaylistsOk(t, issued)
    && CollaborationsOk(t, issued)
    && MembershipsOk(t, issued, clock)
    && ActivitiesOk(t, issued, clock)
    && LikesOk(t, issued)
  }

  /** The tables left by deleting playlist p with its cascade. */
  function WithoutPlaylist(t: Tables, p: Id): Tables {
    t.(playlists := Filter(t.playlists, PlaylistOtherThan(p)),
       collaborations := Filter(t.collaborations, CollaborationOutside(p)),
       playlistSongs := Filter(t.playlistSongs, MembershipOutside(p)),
       activities := Filter(t.activities, ActivityOutside(p)))
  }

  /** Deleting a playlist together with every row that refers to it keeps the schema's constraints. */
  lemma CascadeKeepsTablesOk(t: Tables, issued: set<Id>, clock: Time, p: Id)
    requires TablesOk(t, issued, clock)
    ensures TablesOk(WithoutPlaylist(t, p), issued, clock)
  {
    var t2 := WithoutPlaylist(t, p);
    PlaylistIdsRemove(t.playlists, p);
    FilterPairwise(t.playlists, PlaylistOtherThan(p), PlaylistsDistinct);
    FilterPairwise(t.collaborations, CollaborationOutside(p), CollaborationsDistinct);
    FilterPairwise(t.playlistSongs, MembershipOutside(p), MembershipsInOrder);
    FilterPairwise(t.activities, ActivityOutside(p), ActivitiesInOrder);
    assert PlaylistsOk(t2, issued);
    assert CollaborationsOk(t2, issued);
    assert MembershipsOk(t2, issued, clock);
    assert ActivitiesOk(t2, issued, clock);
  }

  lemma PlaylistIdsAppend(t: seq<PlaylistRow>, x: PlaylistRow)
    ensures PlaylistIds(t + [x]) == PlaylistIds(t) + {x.id}
  {
    forall q | q in PlaylistIds(t) ensures q in PlaylistIds(t + [x]) {
      var r :| r in t && r.id == q;
      assert r in t + [x];
    }
    assert x in t + [x];
  }

  lemma PlaylistIdsRemove(t: seq<PlaylistRow>, p: Id)
    ensures PlaylistIds(Filter(t, PlaylistOtherThan(p))) == PlaylistIds(t) - {p}
  {
    var f := Filter(t, PlaylistOtherThan(p));
    forall q | q in PlaylistIds(t) - {p} ensures q in PlaylistIds(f) {
      var r :| r in t && r.id == q;
      assert r in f;
    }
  }

  /** A playlist found by id is the only row with that id. */
  lemma FindPlaylistUnique(t: seq<PlaylistRow>, i: nat)
    requires Pairwise(t, PlaylistsDistinct)
    requires i < |t|
    ensures FindPlaylist(t, t[i].id) == Some(t[i])
  {
    var r := FindPlaylist(t, t[i].id);
    var j :| 0 <= j < |t| && t[j] == r.value;
  }

  // ---------------------------------------------------------------------------------------------
  // The database

  class Database {
    var users: map<Id, UserRow>
    var songs: map<Id, SongRow>
    var albums: map<Id, AlbumRow>
    var playlists: seq<PlaylistRow>
    var collaborations: seq<CollaborationRow>
    var playlistSongs: seq<PlaylistSongRow>
    var activities: seq<ActivityRow>
    var likes: seq<LikeRow>
    /** The latest time any row was stamped with. */
    var clock: Time
    /** Every id the id generator has handed out. */
    ghost var issued: set<Id>

    function Rows(): Tables
      reads this
    {
      Tables(users, songs, albums, playlists, collaborations, playlistSongs, activities, likes)
    }

    ghost predicate Valid()
      reads this
    {
      TablesOk(Rows(), issued, clock)
    }

    /** A database holding the given users (registration is not part of this model) and nothing else. */
    constructor(users: map<Id, UserRow>, start: Time)
      ensures Valid()
      ensures Rows() == Tables(users, map[], map[], [], [], [], [], [])
      ensures clock == start && issued == users.Keys
    {
      this.users := users;
      songs, albums := map[], map[];
      playlists, collaborations, playlistSongs, activities, likes := [], [], [], [], [];
      clock := start;
      issued := users.Keys;
    }

    /** INSERT INTO playlists; owner references users(id). */
    method InsertPlaylist(id: Id, name: string, owner: Id) returns (code: Option<string>)
      requires Valid() && id !in issued
      modifies this
      ensures Valid()
      ensures code == (if owner in old(users) then None else Some(ForeignKeyViolation))
      ensures code.None? ==> Rows() == old(Rows()).(playlists := old(playlists) + [PlaylistRow(id, name, owner)])
                             && issued == old(issued) + {id} && clock == old(clock)
      ensures code.Some? ==> unchanged(this)
    {
      if owner !in users {
        return Some(ForeignKeyViolation);
      }
      var row := PlaylistRow(id, name, owner);
      PairwiseAppend(playlists, row, PlaylistsDistinct);
      PlaylistIdsAppend(playlists, row);
      playlists := playlists + [row];
      issued := issued + {id};
      code := None;
    }

    /** DELETE FROM playlists WHERE id = p, with the ON DELETE CASCADE of collaborations,
        playlist_songs and playlist_song_activities. */
    method DeletePlaylist(p: Id) returns (found: bool)
      requires Valid()
      modifies this
      ensures Valid()
      ensures found == (p in PlaylistIds(old(playlists)))
      ensures found ==> Rows() == old(Rows()).(
                          playlists := Filter(old(playlists), PlaylistOtherThan(p)),
                          collaborations := Filter(old(collaborations), CollaborationOutside(p)),
                          playlistSongs := Filter(old(playlistSongs), MembershipOutside(p)),
                          activities := Filter(old(activities), ActivityOutside(p)))
                        && issued == old(issued) && clock == old(clock)
      ensures !found ==> unchanged(this)
    {
      found := p in PlaylistIds(playlists);
      if !found {
        return;
      }
      CascadeKeepsTablesOk(Rows(), issued, clock, p);
      playlists := Filter(playlists, PlaylistOtherThan(p));
      collaborations := Filter(collaborations, CollaborationOutside(p));
      playlistSongs := Filter(playlistSongs, MembershipOutside(p));
      activities := Filter(activities, ActivityOutside(p));
    }

    /** INSERT INTO collaborations: UNIQUE (playlist_id, user_id), foreign keys to playlists and users. */
    method InsertCollaboration(id: Id, p: Id, u: Id) returns (code: Option<string>)
      requires Valid() && id !in issued
      modifies this
      ensures Valid()
      ensures code == (if IsCollaborator(old(collaborations), p, u) then Some(UniqueViolation)
                       else if p !in PlaylistIds(old(playlists)) || u !in old(users) then Some(ForeignKeyViolation)
                       else None)
      ensures code.None? ==> Rows() == old(Rows()).(collaborations := old(collaborations) + [CollaborationRow(id, p, u)])
                             && issued == old(issued) + {id} && clock == old(clock)
      ensures code.Some? ==> unchanged(this)
    {
      if IsCollaborator(collaborations, p, u) {
        return Some(UniqueViolation);
      }
      if p !in PlaylistIds(playlists) || u !in users {
        return Some(ForeignKeyViolation);
      }
      var row := CollaborationRow(id, p, u);
      PairwiseAppend(collaborations, row, CollaborationsDistinct);
      collaborations := collaborations + [row];
      issued := issued + {id};
      code := None;
    }

    /** DELETE FROM collaborations WHERE playlist_id = p AND user_id = u. */
    method DeleteCollaboration(p: Id, u: Id) returns (found: bool)
      requires Valid()
      modifies this
      ensures Valid()
      ensures found == IsCollaborator(old(collaborations), p, u)
      ensures Rows() == old(Rows()).(collaborations := Filter(old(collaborations), CollaborationOtherThan(p, u)))
      ensures issued == old(issued) && clock == old(clock)
      ensures !found ==> unchanged(this)
    {
      found := IsCollaborator(collaborations, p, u);
      if !found {
        FilterAll(collaborations, CollaborationOtherThan(p, u));
        return;
      }
      FilterPairwise(collaborations, CollaborationOtherThan(p, u), CollaborationsDistinct);
      collaborations := Filter(collaborations, CollaborationOtherThan(p, u));
    }

    /** INSERT INTO playlist_songs: UNIQUE (playlist_id, song_id), foreign keys to playlists and songs. */
    method InsertPlaylistSong(id: Id, p: Id, s: Id, now: Time) returns (code: Option<string>)
      requires Valid() && id !in issued && clock <= now
      modifies this
      ensures Valid()
      ensures code == (if InPlaylist(old(playlistSongs), p, s) then Some(UniqueViolation)
                       else if p !in PlaylistIds(old(playlists)) || s !in old(songs) then Some(ForeignKeyViolation)
                       else None)
      ensures code.None? ==> Rows() == old(Rows()).(playlistSongs := old(playlistSongs) + [PlaylistSongRow(id, p, s, now)])
                             && issued == old(issued) + {id} && clock == now
      ensures code.Some? ==> unchanged(this)
    {
      if InPlaylist(playlistSongs, p, s) {
        return Some(UniqueViolation);
      }
      if p !in PlaylistIds(playlists) || s !in songs {
        return Some(ForeignKeyViolation);
      }
      var row := PlaylistSongRow(id, p, s, now);
      PairwiseAppend(playlistSongs, row, MembershipsInOrder);
      playlistSongs := playlistSongs + [row];
      issued := issued + {id};
      clock := now;
      code := None;
    }

    /** DELETE FROM playlist_songs WHERE playlist_id = p AND song_id = s. */
    method DeletePlaylistSong(p: Id, s: Id) returns (found: bool)
      requires Valid()
      modifies this
      ensures Valid()
      ensures found == InPlaylist(old(playlistSongs), p, s)
      ensures Rows() == old(Rows()).(playlistSongs := Filter(old(playlistSongs), MembershipOtherThan(p, s)))
      ensures issued == old(issued) && clock == old(clock)
      ensures !found ==> unchanged(this)
    {
      found := InPlaylist(playlistSongs, p, s);
      if !found {
        FilterAll(playlistSongs, MembershipOtherThan(p, s));
        return;
      }
      FilterPairwise(playlistSongs, MembershipOtherThan(p, s), MembershipsInOrder);
      playlistSongs := Filter(playlistSongs, MembershipOtherThan(p, s));
    }

    /** INSERT INTO playlist_song_activities: foreign keys to playlists, songs and users. */
    method InsertActivity(id: Id, p: Id, s: Id, u: Id, action: string, now: Time) returns (code: Option<string>)
      requires Valid() && id !in issued && clock <= now
      modifies this
      ensures Valid()
      ensures code == (if p in PlaylistIds(old(playlists)) && s in old(songs) && u in old(users) then None
                       else Some(ForeignKeyViolation))
      ensures code.None? ==> Rows() == old(Rows()).(activities := old(activities) + [ActivityRow(id, p, s, u, action, now)])
                             && issued == old(issued) + {id} && clock == now
      ensures code.Some? ==> unchanged(this)
    {
      if p !in PlaylistIds(playlists) || s !in songs || u !in users {
        return Some(ForeignKeyViolation);
      }
      var row := ActivityRow(id, p, s, u, action, now);
      PairwiseAppend(activities, row, ActivitiesInOrder);
      activities := activities + [row];
      issued := issued + {id};
      clock := now;
      code := None;
    }

    /** INSERT INTO songs; album_id references albums(id) when it is not null. */
    method InsertSong(id: Id, row: SongRow) returns (code: Option<string>)
      requires Valid() && id !in issued
      modifies this
      ensures Valid()
      ensures code == (if row.albumId.Some? && row.albumId.value !in old(albums) then Some(ForeignKeyViolation) else None)
      ensures code.None? ==> Rows() == old(Rows()).(songs := old(songs)[id := row])
                             && issued == old(issued) + {id} && clock == old(clock)
      ensures code.Some? ==> unchanged(this)
    {
      if row.albumId.Some? && row.albumId.value !in albums {
        return Some(ForeignKeyViolation);
      }
      songs := songs[id := row];
      issued := issued + {id};
      code := None;
    }

    /** UPDATE songs SET ... WHERE id = s: no row matches an absent id; otherwise the new album_id
        must reference an album. */
    method UpdateSong(s: Id, row: SongRow) returns (code: Option<string>, found: bool)
      requires Valid()
      modifies this
      ensures Valid()
      ensures found == (s in old(songs))
      ensures code == (if found && row.albumId.Some? && row.albumId.value !in old(albums) then Some(ForeignKeyViolation) else None)
      ensures found && code.None? ==> Rows() == old(Rows()).(songs := old(songs)[s := row])
      ensures !found || code.Some? ==> unchanged(this)
      ensures issued == old(issued) && clock == old(clock)
    {
      found := s in songs;
      if !found {
        return None, false;
      }
      if row.albumId.Some? && row.albumId.value !in albums {
        return Some(ForeignKeyViolation), true;
      }
      songs := songs[s := row];
      code := None;
    }

    /** DELETE FROM songs WHERE id = s, with the ON DELETE CASCADE of playlist_songs and
        playlist_song_activities. */
    method DeleteSong(s: Id) returns (found: bool)
      requires Valid()
      modifies this
      ensures Valid()
      ensures found == (s in old(songs))
      ensures found ==> Rows() == old(Rows()).(
                          songs := old(songs) - {s},
                          playlistSongs := Filter(old(playlistSongs), MembershipWithoutSong(s)),
                          activities := Filter(old(activities), ActivityWithoutSong(s)))
      ensures !found ==> unchanged(this)
      ensures issued == old(issued) && clock == old(clock)
    {
      found := s in songs;
      if !found {
        return;
      }
      FilterPairwise(playlistSongs, MembershipWithoutSong(s), MembershipsInOrder);
      FilterPairwise(activities, ActivityWithoutSong(s), ActivitiesInOrder);
      songs := songs - {s};
      playlistSongs := Filter(playlistSongs, MembershipWithoutSong(s));
      activities := Filter(activities, ActivityWithoutSong(s));
    }

    /** INSERT INTO albums. */
    method InsertAlbum(id: Id, row: AlbumRow)
      requires Valid() && id !in issued
      modifies this
      ensures Valid()
      ensures Rows() == old(Rows()).(albums := old(albums)[id := row])
      ensures issued == old(issued) + {id} && clock == old(clock)
    {
      albums := albums[id := row];
      issued := issued + {id};
    }

    /** UPDATE albums SET ... WHERE id = a: the row is replaced by change(old row). */
    method UpdateAlbum(a: Id, name: string, year: int) returns (found: bool)
      requires Valid()
      modifies this
      ensures Valid()
      ensures found == (a in old(albums))
      ensures found ==> Rows() == old(Rows()).(albums := old(albums)[a := old(albums)[a].(name := name, year := year)])
      ensures !found ==> unchanged(this)
      ensures issued == old(issued) && clock == old(clock)
    {
      found := a in albums;
      if found {
        albums := albums[a := albums[a].(name := name, year := year)];
      }
    }

    /** UPDATE albums SET cover = url WHERE id = a. */
    method UpdateAlbumCover(a: Id, url: string) returns (found: bool)
      requires Valid()
      modifies this
      ensures Valid()
      ensures found == (a in old(albums))
      ensures found ==> Rows() == old(Rows()).(albums := old(albums)[a := old(albums)[a].(cover := Some(url))])
      ensures !found ==> unchanged(this)
      ensures issued == old(issued) && clock == old(clock)
    {
      found := a in albums;
      if found {
        albums := albums[a := albums[a].(cover := Some(url))];
      }
    }

    /** DELETE FROM albums WHERE id = a, with the ON DELETE CASCADE of user_album_likes. */
    method DeleteAlbum(a: Id) returns (found: bool)
      requires Valid()
      modifies this
      ensures Valid()
      ensures found == (a in old(albums))
      ensures found ==> Rows() == old(Rows()).(albums := old(albums) - {a}, likes := Filter(old(likes), LikeOutside(a)))
      ensures !found ==> unchanged(this)
      ensures issued == old(issued) && clock == old(clock)
    {
      found := a in albums;
      if !found {
        return;
      }
      FilterPairwise(likes, LikeOutside(a), LikesDistinct);
      albums := albums - {a};
      likes := Filter(likes, LikeOutside(a));
    }

    /** INSERT INTO user_album_likes: UNIQUE (user_id, album_id), foreign keys to users and albums. */
    method InsertLike(id: Id, u: Id, a: Id) returns (code: Option<string>)
      requires Valid() && id !in issued
      modifies this
      ensures Valid()
      ensures code == (if HasLiked(old(likes), u, a) then Some(UniqueViolation)
                       else if u !in old(users) || a !in old(albums) then Some(ForeignKeyViolation)
                       else None)
      ensures code.None? ==> Rows() == old(Rows()).(likes := old(likes) + [LikeRow(id, u, a)])
                             && issued == old(issued) + {id} && clock == old(clock)
      ensures code.Some? ==> unchanged(this)
    {
      if HasLiked(likes, u, a) {
        return Some(UniqueViolation);
      }
      if u !in users || a !in albums {
        return Some(ForeignKeyViolation);
      }
      var row := LikeRow(id, u, a);
      PairwiseAppend(likes, row, LikesDistinct);
      likes := likes + [row];
      issued := issued + {id};
      code := None;
    }

    /** DELETE FROM user_album_likes WHERE user_id = u AND album_id = a. */
    method DeleteLike(u: Id, a: Id) returns (found: bool)
      requires Valid()
      modifies this
      ensures Valid()
      ensures found == HasLiked(old(likes), u, a)
      ensures Rows() == old(Rows()).(likes := Filter(old(likes), LikeOtherThan(u, a)))
      ensures issued == old(issued) && clock == old(clock)
      ensures !found ==> unchanged(this)
    {
      found := HasLiked(likes, u, a);
      if !found {
        FilterAll(likes, LikeOtherThan(u, a));
        return;
      }
      FilterPairwise(likes, LikeOtherThan(u, a), LikesDistinct);
      likes := Filter(likes, LikeOtherThan(u, a));
    }
  }
}
