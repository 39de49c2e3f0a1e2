/** Playlists: creation, deletion with its cascade, the owner and owner-or-collaborator checks, song
    membership with its activity log, and the two listings (a user's playlists by name, a playlist's
    songs in the order they were added). */
module Playlists {
  import opened Outcomes
  import opened Seqs
  import opened Text
  import opened Store
  import opened Collaborations
  import opened ActivityLog

  const PlaylistIdPrefix := "playlist-"
  const MembershipIdPrefix := "playlistSong-"

  /** One row of a user's playlist listing. */
  datatype PlaylistSummary = PlaylistSummary(id: Id, name: string, username: string)
  /** One song of a playlist. */
  datatype SongSummary = SongSummary(id: Id, title: string, performer: string)
  /** A playlist with its owner's name and its songs. */
  datatype PlaylistDetail = PlaylistDetail(id: Id, name: string, username: string, songs: seq<SongSummary>)

  // ---------------------------------------------------------------------------------------------
  // A user's playlists: owned UNION collaborated, ORDER BY name

  /** The playlists user u owns or collaborates on. */
  function VisibleTo(collaborations: seq<CollaborationRow>, u: Id): PlaylistRow -> bool {
    (r: PlaylistRow) => r.owner == u || IsCollaborator(collaborations, r.id, u)
  }

  function SummaryOf(users: map<Id, UserRow>, q: PlaylistRow): PlaylistSummary
    requires q.owner in users
  {
    PlaylistSummary(q.id, q.name, users[q.owner].username)
  }

  /** The inner join of playlist rows with their owners. */
  function Summaries(users: map<Id, UserRow>, rows: seq<PlaylistRow>): (r: seq<PlaylistSummary>)
    ensures |r| <= |rows|
  {
    if rows == [] then []
    else (if rows[0].owner in users then [SummaryOf(users, rows[0])] else []) + Summaries(users, rows[1..])
  }

  predicate SortedByName(s: seq<PlaylistSummary>) {
    forall i :: 0 <= i < |s| - 1 ==> LexLe(s[i].name, s[i + 1].name)
  }

  /** Inserts x before the first entry whose name does not sort before x's. */
  function InsertByName(x: PlaylistSummary, s: seq<PlaylistSummary>): (r: seq<PlaylistSummary>)
    ensures multiset(r) == multiset(s) + multiset{x}
  {
    if s == [] || LexLe(x.name, s[0].name) then [x] + s
    else
      assert s == [s[0]] + s[1..];
      [s[0]] + InsertByName(x, s[1..])
  }

  /** ORDER BY name ASC; entries with equal names keep their table order. */
  function SortByName(s: seq<PlaylistSummary>): (r: seq<PlaylistSummary>)
    ensures multiset(r) == multiset(s)
  {
    if s == [] then []
    else
      assert s == [s[0]] + s[1..];
      InsertByName(s[0], SortByName(s[1..]))
  }

  /** The listing getPlaylistsByOwner returns. Each playlist row is visited once, which is the
      duplicate removal of UNION: a playlist its owner also collaborates on is listed once. */
  function PlaylistsOf(t: Tables, u: Id): seq<PlaylistSummary> {
    SortByName(Summaries(t.users, Filter(t.playlists, VisibleTo(t.collaborations, u))))
  }

  function SummaryIdsDiffer(a: PlaylistSummary, b: PlaylistSummary): bool {
    a.id != b.id
  }

  lemma {:induction false} SummariesComplete(users: map<Id, UserRow>, rows: seq<PlaylistRow>)
    requires forall x :: x in rows ==> x.owner in users
    ensures |Summaries(users, rows)| == |rows|
    ensures forall i :: 0 <= i < |rows| ==> Summaries(users, rows)[i] == SummaryOf(users, rows[i])
  {
    if rows != [] {
      assert forall x :: x in rows[1..] ==> x in rows;
      SummariesComplete(users, rows[1..]);
      var r := Summaries(users, rows);
      forall i | 0 <= i < |rows| ensures r[i] == SummaryOf(users, rows[i]) {
        if i > 0 {
          assert rows[i] == rows[1..][i - 1];
        }
      }
    }
  }

  lemma {:induction false} InsertByNameSorted(x: PlaylistSummary, s: seq<PlaylistSummary>)
    requires SortedByName(s)
    ensures SortedByName(InsertByName(x, s))
  {
    if s == [] || LexLe(x.name, s[0].name) {
    } else {
      var tail := s[1..];
      assert SortedByName(tail) by {
        forall i | 0 <= i < |tail| - 1 ensures LexLe(tail[i].name, tail[i + 1].name) {
          assert tail[i] == s[i + 1] && tail[i + 1] == s[i + 2];
        }
      }
      InsertByNameSorted(x, tail);
      var rest := InsertByName(x, tail);
      LexLeTotal(x.name, s[0].name);
      assert LexLe(s[0].name, rest[0].name) by {
        if tail == [] || LexLe(x.name, tail[0].name) {
          assert rest[0] == x;
        } else {
          assert rest[0] == tail[0] == s[1];
        }
      }
      var r := [s[0]] + rest;
      forall i | 0 <= i < |r| - 1 ensures LexLe(r[i].name, r[i + 1].name) {
        if i > 0 {
          assert r[i] == rest[i - 1] && r[i + 1] == rest[i];
        }
      }
    }
  }

  lemma {:induction false} SortByNameSorted(s: seq<PlaylistSummary>)
    ensures SortedByName(SortByName(s))
  {
    if s != [] {
      SortByNameSorted(s[1..]);
      InsertByNameSorted(s[0], SortByName(s[1..]));
    }
  }

  lemma {:induction false} InsertKeepsIdsDistinct(x: PlaylistSummary, s: seq<PlaylistSummary>)
    requires Pairwise(s, SummaryIdsDiffer)
    requires forall y :: y in s ==> y.id != x.id
    ensures Pairwise(InsertByName(x, s), SummaryIdsDiffer)
  {
    if s == [] || LexLe(x.name, s[0].name) {
      PairwiseCons(x, s, SummaryIdsDiffer);
    } else {
      PairwiseTail(s, SummaryIdsDiffer);
      assert forall y :: y in s[1..] ==> y in s;
      InsertKeepsIdsDistinct(x, s[1..]);
      var rest := InsertByName(x, s[1..]);
      forall y | y in rest ensures SummaryIdsDiffer(s[0], y) {
        assert y in multiset(rest);
        if y == x {
          assert s[0] in s;
        }
      }
      PairwiseCons(s[0], rest, SummaryIdsDiffer);
    }
  }

  lemma {:induction false} SortKeepsIdsDistinct(s: seq<PlaylistSummary>)
    requires Pairwise(s, SummaryIdsDiffer)
    ensures Pairwise(SortByName(s), SummaryIdsDiffer)
  {
    if s != [] {
      PairwiseTail(s, SummaryIdsDiffer);
      SortKeepsIdsDistinct(s[1..]);
      var sorted := SortByName(s[1..]);
      forall y | y in sorted ensures y.id != s[0].id {
        assert y in multiset(sorted);
        assert SummaryIdsDiffer(s[0], y);
      }
      InsertKeepsIdsDistinct(s[0], sorted);
    }
  }

  /** Two playlist rows with the same id are the same row. */
  lemma SameIdSameRow(t: seq<PlaylistRow>, a: PlaylistRow, b: PlaylistRow)
    requires Pairwise(t, PlaylistsDistinct)
    requires a in t && b in t && a.id == b.id
    ensures a == b
  {
    var i :| 0 <= i < |t| && t[i] == a;
    var j :| 0 <= j < |t| && t[j] == b;
  }

  /** What the listing lemmas need of the playlists table: unique ids and known owners. */
  ghost predicate PlaylistsKeyed(t: Tables) {
    && Pairwise(t.playlists, PlaylistsDistinct)
    && forall q :: q in t.playlists ==> q.owner in t.users
  }

  lemma PlaylistsOfJoin(t: Tables, u: Id)
    requires PlaylistsKeyed(t)
    ensures var rows := Filter(t.playlists, VisibleTo(t.collaborations, u));
            && |Summaries(t.users, rows)| == |rows|
            && (forall i :: 0 <= i < |rows| ==> Summaries(t.users, rows)[i] == SummaryOf(t.users, rows[i]))
            && Pairwise(rows, PlaylistsDistinct)
  {
    var rows := Filter(t.playlists, VisibleTo(t.collaborations, u));
    SummariesComplete(t.users, rows);
    FilterPairwise(t.playlists, VisibleTo(t.collaborations, u), PlaylistsDistinct);
  }

  lemma PlaylistsOfOrdered(t: Tables, u: Id)
    requires PlaylistsKeyed(t)
    ensures SortedByName(PlaylistsOf(t, u))
    ensures Pairwise(PlaylistsOf(t, u), SummaryIdsDiffer)
  {
    var rows := Filter(t.playlists, VisibleTo(t.collaborations, u));
    var s := Summaries(t.users, rows);
    PlaylistsOfJoin(t, u);
    assert Pairwise(s, SummaryIdsDiffer) by {
      forall i, j | 0 <= i < j < |s| ensures SummaryIdsDiffer(s[i], s[j]) {
        assert PlaylistsDistinct(rows[i], rows[j]);
      }
    }
    SortKeepsIdsDistinct(s);
    SortByNameSorted(s);
  }

  lemma PlaylistsOfMember(t: Tables, u: Id, q: PlaylistRow)
    requires PlaylistsKeyed(t) && q in t.playlists
    ensures SummaryOf(t.users, q) in PlaylistsOf(t, u) <==> q.owner == u || IsCollaborator(t.collaborations, q.id, u)
  {
    var rows := Filter(t.playlists, VisibleTo(t.collaborations, u));
    var s := Summaries(t.users, rows);
    SortedMembers(s, SummaryOf(t.users, q));
    PlaylistsOfJoin(t, u);
    if q.owner == u || IsCollaborator(t.collaborations, q.id, u) {
      VisibleListed(t, u, q);
    }
    if SummaryOf(t.users, q) in s {
      var i :| 0 <= i < |s| && s[i] == SummaryOf(t.users, q);
      assert rows[i] in rows;
      SameIdSameRow(t.playlists, rows[i], q);
    }
  }

  /** Sorting keeps exactly the entries it is given. */
  lemma SortedMembers(s: seq<PlaylistSummary>, x: PlaylistSummary)
    ensures x in SortByName(s) <==> x in s
  {
    assert x in multiset(SortByName(s)) <==> x in multiset(s);
  }

  /** A playlist visible to u appears in the join before sorting. */
  lemma VisibleListed(t: Tables, u: Id, q: PlaylistRow)
    requires PlaylistsKeyed(t) && q in t.playlists
    requires q.owner == u || IsCollaborator(t.collaborations, q.id, u)
    ensures SummaryOf(t.users, q) in Summaries(t.users, Filter(t.playlists, VisibleTo(t.collaborations, u)))
  {
    var rows := Filter(t.playlists, VisibleTo(t.collaborations, u));
    PlaylistsOfJoin(t, u);
    assert q in rows;
    var i :| 0 <= i < |rows| && rows[i] == q;
    assert Summaries(t.users, rows)[i] == SummaryOf(t.users, q);
  }

  lemma PlaylistsOfOrigin(t: Tables, u: Id, x: PlaylistSummary)
    requires PlaylistsKeyed(t) && x in PlaylistsOf(t, u)
    ensures exists q :: q in t.playlists && x == SummaryOf(t.users, q)
                        && (q.owner == u || IsCollaborator(t.collaborations, q.id, u))
  {
    var rows := Filter(t.playlists, VisibleTo(t.collaborations, u));
    var s := Summaries(t.users, rows);
    PlaylistsOfJoin(t, u);
    assert x in multiset(s);
    var i :| 0 <= i < |s| && s[i] == x;
    assert rows[i] in rows;
  }

  /** In a consistent database, user u's listing holds exactly the playlists u owns or collaborates
      on, each once, sorted by name. */
  lemma PlaylistsOfSpec(t: Tables, issued: set<Id>, clock: Time, u: Id)
    requires TablesOk(t, issued, clock)
    ensures SortedByName(PlaylistsOf(t, u))
    ensures Pairwise(PlaylistsOf(t, u), SummaryIdsDiffer)
    ensures forall q :: q in t.playlists ==>
              (SummaryOf(t.users, q) in PlaylistsOf(t, u) <==> q.owner == u || IsCollaborator(t.collaborations, q.id, u))
    ensures forall x :: x in PlaylistsOf(t, u) ==>
              exists q :: q in t.playlists && x == SummaryOf(t.users, q)
                          && (q.owner == u || IsCollaborator(t.collaborations, q.id, u))
  {
    assert PlaylistsKeyed(t);
    PlaylistsOfOrdered(t, u);
    forall q | q in t.playlists
      ensures SummaryOf(t.users, q) in PlaylistsOf(t, u) <==> q.owner == u || IsCollaborator(t.collaborations, q.id, u)
    {
      PlaylistsOfMember(t, u, q);
    }
    forall x | x in PlaylistsOf(t, u)
      ensures exists q :: q in t.playlists && x == SummaryOf(t.users, q)
                          && (q.owner == u || IsCollaborator(t.collaborations, q.id, u))
    {
      PlaylistsOfOrigin(t, u, x);
    }
  }

  // ---------------------------------------------------------------------------------------------
  // A playlist's songs, ORDER BY membership created_at

  function SongSummaryOf(songs: map<Id, SongRow>, s: Id): SongSummary
    requires s in songs
  {
    SongSummary(s, songs[s].title, songs[s].performer)
  }

  /** The inner join of membership rows with the songs they name. */
  function JoinSongs(songs: map<Id, SongRow>, rows: seq<PlaylistSongRow>): (r: seq<SongSummary>)
    ensures |r| <= |rows|
  {
    if rows == [] then []
    else (if rows[0].songId in songs then [SongSummaryOf(songs, rows[0].songId)] else []) + JoinSongs(songs, rows[1..])
  }

  /** The membership rows of playlist p, in table order, which is created_at order (TablesOk);
      rows stamped with the same time keep their insertion order. */
  function MembershipsOf(t: Tables, p: Id): seq<PlaylistSongRow> {
    Filter(t.playlistSongs, MembershipOf(p))
  }

  function SongsOf(t: Tables, p: Id): seq<SongSummary> {
    JoinSongs(t.songs, MembershipsOf(t, p))
  }

  function SongIds(r: seq<SongSummary>): set<Id> {
    set x | x in r :: x.id
  }

  function SongIdsDiffer(a: SongSummary, b: SongSummary): bool {
    a.id != b.id
  }

  /** The header row of getPlaylistWithSongs: the playlist joined with its owner. */
  function Header(t: Tables, p: Id): Option<PlaylistSummary> {
    match FindPlaylist(t.playlists, p)
    case None => None
    case Some(q) => if q.owner in t.users then Some(SummaryOf(t.users, q)) else None
  }

  lemma {:induction false} JoinSongsComplete(songs: map<Id, SongRow>, rows: seq<PlaylistSongRow>)
    requires forall x :: x in rows ==> x.songId in songs
    ensures |JoinSongs(songs, rows)| == |rows|
    ensures forall i :: 0 <= i < |rows| ==> JoinSongs(songs, rows)[i] == SongSummaryOf(songs, rows[i].songId)
  {
    if rows != [] {
      assert forall x :: x in rows[1..] ==> x in rows;
      JoinSongsComplete(songs, rows[1..]);
      var r := JoinSongs(songs, rows);
      forall i | 0 <= i < |rows| ensures r[i] == SongSummaryOf(songs, rows[i].songId) {
        if i > 0 {
          assert rows[i] == rows[1..][i - 1];
        }
      }
    }
  }

  lemma {:induction false} JoinSongsAppend(songs: map<Id, SongRow>, rows: seq<PlaylistSongRow>, x: PlaylistSongRow)
    ensures JoinSongs(songs, rows + [x]) == JoinSongs(songs, rows) + JoinSongs(songs, [x])
  {
    if rows == [] {
      assert rows + [x] == [x];
    } else {
      assert (rows + [x])[1..] == rows[1..] + [x];
      JoinSongsAppend(songs, rows[1..], x);
    }
  }

  /** In a consistent database, a playlist's song listing names exactly the songs in the playlist,
      each once, one per membership row, in the order the songs were added. */
  lemma SongsOfSpec(t: Tables, issued: set<Id>, clock: Time, p: Id)
    requires TablesOk(t, issued, clock)
    ensures |SongsOf(t, p)| == |MembershipsOf(t, p)|
    ensures forall i :: 0 <= i < |SongsOf(t, p)| ==> SongsOf(t, p)[i].id == MembershipsOf(t, p)[i].songId
    ensures forall i, j :: 0 <= i < j < |MembershipsOf(t, p)| ==>
              MembershipsOf(t, p)[i].createdAt <= MembershipsOf(t, p)[j].createdAt
    ensures forall s :: s in SongIds(SongsOf(t, p)) <==> InPlaylist(t.playlistSongs, p, s)
    ensures Pairwise(SongsOf(t, p), SongIdsDiffer)
  {
    assert MembershipsKeyed(t);
    SongsOfOrdered(t, p);
    forall s ensures s in SongIds(SongsOf(t, p)) <==> InPlaylist(t.playlistSongs, p, s) {
      SongsOfMember(t, p, s);
    }
  }

  /** What the song listing lemmas need of the membership table: unique pairs in time order, and
      known songs. */
  ghost predicate MembershipsKeyed(t: Tables) {
    && Pairwise(t.playlistSongs, MembershipsInOrder)
    && forall m :: m in t.playlistSongs ==> m.songId in t.songs
  }

  lemma SongsOfOrdered(t: Tables, p: Id)
    requires MembershipsKeyed(t)
    ensures |SongsOf(t, p)| == |MembershipsOf(t, p)|
    ensures forall i :: 0 <= i < |SongsOf(t, p)| ==> SongsOf(t, p)[i].id == MembershipsOf(t, p)[i].songId
    ensures forall i, j :: 0 <= i < j < |MembershipsOf(t, p)| ==>
              MembershipsOf(t, p)[i].createdAt <= MembershipsOf(t, p)[j].createdAt
    ensures Pairwise(SongsOf(t, p), SongIdsDiffer)
  {
    var rows := MembershipsOf(t, p);
    var r := SongsOf(t, p);
    JoinSongsComplete(t.songs, rows);
    FilterPairwise(t.playlistSongs, MembershipOf(p), MembershipsInOrder);
    forall i, j | 0 <= i < j < |rows| ensures rows[i].createdAt <= rows[j].createdAt {
      assert MembershipsInOrder(rows[i], rows[j]);
    }
    forall i, j | 0 <= i < j < |r| ensures SongIdsDiffer(r[i], r[j]) {
      assert rows[i] in rows && rows[j] in rows;
      assert MembershipsInOrder(rows[i], rows[j]);
    }
  }

  lemma SongsOfMember(t: Tables, p: Id, s: Id)
    requires MembershipsKeyed(t)
    ensures s in SongIds(SongsOf(t, p)) <==> InPlaylist(t.playlistSongs, p, s)
  {
    var rows := MembershipsOf(t, p);
    var r := SongsOf(t, p);
    JoinSongsComplete(t.songs, rows);
    if InPlaylist(t.playlistSongs, p, s) {
      var m :| m in t.playlistSongs && m.playlistId == p && m.songId == s;
      var i :| 0 <= i < |rows| && rows[i] == m;
      assert r[i] in r;
    }
    if s in SongIds(r) {
      var x :| x in r && x.id == s;
      var i :| 0 <= i < |r| && r[i] == x;
      assert rows[i] in rows;
    }
  }

  /** Adding a song to playlist p puts it at the end of p's listing and changes no other listing. */
  lemma SongListGrowsByOne(t: Tables, x: PlaylistSongRow, q: Id)
    requires x.songId in t.songs
    ensures SongsOf(t.(playlistSongs := t.playlistSongs + [x]), q)
            == SongsOf(t, q) + (if x.playlistId == q then [SongSummaryOf(t.songs, x.songId)] else [])
  {
    var rows := MembershipsOf(t, q);
    FilterAppend(t.playlistSongs, x, MembershipOf(q));
    if x.playlistId == q {
      JoinSongsAppend(t.songs, rows, x);
      assert [x][1..] == [];
    } else {
      assert rows + [] == rows;
    }
  }

  /** Removing the pair (p, s) removes exactly that membership. */
  lemma RemovedMembership(t: seq<PlaylistSongRow>, p: Id, s: Id, q: Id, v: Id)
    ensures InPlaylist(Filter(t, MembershipOtherThan(p, s)), q, v) <==> InPlaylist(t, q, v) && !(q == p && v == s)
  {
    var f := Filter(t, MembershipOtherThan(p, s));
    if InPlaylist(t, q, v) && !(q == p && v == s) {
      var r :| r in t && r.playlistId == q && r.songId == v;
      assert r in f;
    }
  }

  /** Adding a song and removing it again gives back the membership table it started from. */
  lemma {:induction false} AddThenRemoveSong(t: seq<PlaylistSongRow>, x: PlaylistSongRow)
    requires !InPlaylist(t, x.playlistId, x.songId)
    ensures Filter(t + [x], MembershipOtherThan(x.playlistId, x.songId)) == t
  {
    FilterAppend(t, x, MembershipOtherThan(x.playlistId, x.songId));
    FilterAll(t, MembershipOtherThan(x.playlistId, x.songId));
  }

  /** Deleting a playlist leaves no collaboration, membership or activity that names it. */
  lemma CascadeLeavesNoOrphans(t: Tables, p: Id)
    ensures forall c :: c in Filter(t.collaborations, CollaborationOutside(p)) ==> c.playlistId != p
    ensures forall m :: m in Filter(t.playlistSongs, MembershipOutside(p)) ==> m.playlistId != p
    ensures forall a :: a in Filter(t.activities, ActivityOutside(p)) ==> a.playlistId != p
    ensures forall c :: c in t.collaborations && c.playlistId != p ==> c in Filter(t.collaborations, CollaborationOutside(p))
    ensures forall m :: m in t.playlistSongs && m.playlistId != p ==> m in Filter(t.playlistSongs, MembershipOutside(p))
    ensures forall a :: a in t.activities && a.playlistId != p ==> a in Filter(t.activities, ActivityOutside(p))
  {
  }

  /** The error addSongToPlaylist throws when the INSERT fails with SQLSTATE code. */
  function AddSongFailure(code: string): (f: Failure)
    ensures f.Invariant? <==> code == UniqueViolation
    ensures f.Invariant? ==> f.message == SongAlreadyInPlaylist
    ensures !f.Invariant? ==> f == Database(code)
  {
    if code == UniqueViolation then Invariant(SongAlreadyInPlaylist) else Database(code)
  }

  // ---------------------------------------------------------------------------------------------
  // The service

  class PlaylistsService {
    const db: Database
    /** The optional collaborations and activities services; when present they share db. */
    const collab: CollaborationsService?
    const activities: PlaylistActivitiesService?

    predicate Wired() {
      && (collab != null ==> collab.db == db)
      && (activities != null ==> activities.db == db)
    }

    constructor(db: Database, collab: CollaborationsService?, activities: PlaylistActivitiesService?)
      requires collab != null ==> collab.db == db
      requires activities != null ==> activities.db == db
      ensures this.db == db && this.collab == collab && this.activities == activities
      ensures Wired()
    {
      this.db := db;
      this.collab := collab;
      this.activities := activities;
    }

    /** Whether an action of user u is logged: only when an activities service is configured and
        the activity row's foreign key to users holds. */
    predicate Logs(u: Id)
      reads db
    {
      activities != null && u in db.users
    }

    /** Creates playlist "playlist-" + nonce named name and owned by owner. An owner that is not a
        registered user violates the foreign key and the database error propagates. */
    method AddPlaylist(name: string, owner: Id, nonce: string) returns (r: Outcome<Id>)
      requires db.Valid() && PlaylistIdPrefix + nonce !in db.issued
      modifies db
      ensures db.Valid()
      ensures r.Ok? <==> owner in old(db.users)
      ensures r.Ok? ==> && r.value == PlaylistIdPrefix + nonce
                        && db.Rows() == old(db.Rows()).(playlists := old(db.playlists) + [PlaylistRow(r.value, name, owner)])
                        && db.issued == old(db.issued) + {r.value} && db.clock == old(db.clock)
                        && r.value in PlaylistIds(db.playlists)
      ensures r.Fail? ==> r.error == Database(ForeignKeyViolation) && unchanged(db)
    {
      var id := PlaylistIdPrefix + nonce;
      var code := db.InsertPlaylist(id, name, owner);
      match code {
        case None =>
          PlaylistIdsAppend(old(db.playlists), PlaylistRow(id, name, owner));
          r := Ok(id);
        case Some(c) => r := Fail(Database(c));
      }
    }

    /** The playlists user u owns or collaborates on, each once, sorted by name. */
    method GetPlaylistsByOwner(u: Id) returns (rows: seq<PlaylistSummary>)
      requires db.Valid()
      ensures rows == PlaylistsOf(db.Rows(), u)
      ensures SortedByName(rows)
      ensures Pairwise(rows, SummaryIdsDiffer)
      ensures forall q :: q in db.playlists ==>
                (SummaryOf(db.users, q) in rows <==> q.owner == u || IsCollaborator(db.collaborations, q.id, u))
      ensures forall x :: x in rows ==>
                exists q :: q in db.playlists && x == SummaryOf(db.users, q)
                            && (q.owner == u || IsCollaborator(db.collaborations, q.id, u))
    {
      rows := PlaylistsOf(db.Rows(), u);
      PlaylistsOfSpec(db.Rows(), db.issued, db.clock, u);
    }

    /** Deletes playlist p together with its collaborations, songs and activities. */
    method DeletePlaylistById(p: Id) returns (r: Outcome<()>)
      requires db.Valid()
      modifies db
      ensures db.Valid()
      ensures r.Ok? <==> p in PlaylistIds(old(db.playlists))
      ensures r.Fail? ==> r.error == NotFound(PlaylistNotFound) && unchanged(db)
      ensures r.Ok? ==> db.Rows() == old(db.Rows()).(
                          playlists := Filter(old(db.playlists), PlaylistOtherThan(p)),
                          collaborations := Filter(old(db.collaborations), CollaborationOutside(p)),
                          playlistSongs := Filter(old(db.playlistSongs), MembershipOutside(p)),
                          activities := Filter(old(db.activities), ActivityOutside(p)))
      ensures r.Ok? ==> p !in PlaylistIds(db.playlists)
    {
      var found := db.DeletePlaylist(p);
      if found {
        PlaylistIdsRemove(old(db.playlists), p);
        r := Ok(());
      } else {
        r := Fail(NotFound(PlaylistNotFound));
      }
    }

    /** NotFound when playlist p is absent; otherwise Authorization exactly when u is not its owner. */
    method VerifyPlaylistOwner(p: Id, u: Id) returns (r: Outcome<()>)
      requires db.Valid()
      ensures p !in PlaylistIds(db.playlists) ==> r == Fail(NotFound(PlaylistNotFound))
      ensures p in PlaylistIds(db.playlists) ==>
                r == (if FindPlaylist(db.playlists, p).value.owner == u then Ok(()) else Fail(Authorization(AccessDenied)))
      ensures r.Ok? <==> exists q :: q in db.playlists && q.id == p && q.owner == u
    {
      match FindPlaylist(db.playlists, p) {
        case None => r := Fail(NotFound(PlaylistNotFound));
        case Some(q) =>
          if q.owner != u {
            r := Fail(Authorization(AccessDenied));
          } else {
            r := Ok(());
          }
      }
      if exists q :: q in db.playlists && q.id == p && q.owner == u {
        var q :| q in db.playlists && q.id == p && q.owner == u;
        SameIdSameRow(db.playlists, q, FindPlaylist(db.playlists, p).value);
      }
    }

    /** The owner check, falling back on the collaborator check when the owner check fails with
        Authorization and a collaborations service is configured. */
    method VerifyPlaylistAccess(p: Id, u: Id) returns (r: Outcome<()>)
      requires Wired() && db.Valid()
      ensures p !in PlaylistIds(db.playlists) ==> r == Fail(NotFound(PlaylistNotFound))
      ensures r.Ok? <==> p in PlaylistIds(db.playlists)
                         && (FindPlaylist(db.playlists, p).value.owner == u
                             || (collab != null && IsCollaborator(db.collaborations, p, u)))
      ensures r.Fail? && p in PlaylistIds(db.playlists) ==> r.error == Authorization(AccessDenied)
    {
      r := VerifyPlaylistOwner(p, u);
      if r.Fail? && r.error.Authorization? && collab != null {
        r := collab.VerifyCollaborator(p, u);
      }
    }

    /** NotFound unless song s exists. */
    method VerifySongExists(s: Id) returns (r: Outcome<()>)
      ensures r.Ok? <==> s in db.songs
      ensures r.Fail? ==> r.error == NotFound(SongNotFound)
    {
      if s in db.songs {
        r := Ok(());
      } else {
        r := Fail(NotFound(SongNotFound));
      }
    }

    /** NotFound unless playlist p exists. */
    method AssertPlaylistExists(p: Id) returns (r: Outcome<()>)
      ensures r.Ok? <==> p in PlaylistIds(db.playlists)
      ensures r.Fail? ==> r.error == NotFound(PlaylistNotFound)
    {
      if FindPlaylist(db.playlists, p).Some? {
        r := Ok(());
      } else {
        r := Fail(NotFound(PlaylistNotFound));
      }
    }

    /** Adds song s to playlist p at time now under id "playlistSong-" + nonce, then logs 'add' for
        user u at time logged under id "activity-" + logNonce. The playlist is checked first, then
        the song, then the pair must be new; the log entry is written only after the song was
        added, and a failure to write it leaves the song added. */
    method AddSongToPlaylist(p: Id, s: Id, u: Id, nonce: string, logNonce: string, now: Time, logged: Time)
      returns (r: Outcome<()>)
      requires Wired() && db.Valid()
      requires MembershipIdPrefix + nonce !in db.issued && ActivityIdPrefix + logNonce !in db.issued
      requires db.clock <= now <= logged
      modifies db
      ensures db.Valid()
      ensures p !in PlaylistIds(old(db.playlists)) ==> r == Fail(NotFound(PlaylistNotFound)) && unchanged(db)
      ensures p in PlaylistIds(old(db.playlists)) && s !in old(db.songs) ==> r == Fail(NotFound(SongNotFound)) && unchanged(db)
      ensures p in PlaylistIds(old(db.playlists)) && s in old(db.songs) && InPlaylist(old(db.playlistSongs), p, s)
              ==> r == Fail(Invariant(SongAlreadyInPlaylist)) && unchanged(db)
      ensures p in PlaylistIds(old(db.playlists)) && s in old(db.songs) && !InPlaylist(old(db.playlistSongs), p, s) ==>
                && db.playlistSongs == old(db.playlistSongs) + [PlaylistSongRow(MembershipIdPrefix + nonce, p, s, now)]
                && db.activities == old(db.activities)
                                    + (if old(Logs(u)) then [ActivityRow(ActivityIdPrefix + logNonce, p, s, u, AddAction, logged)] else [])
                && db.Rows() == old(db.Rows()).(playlistSongs := db.playlistSongs, activities := db.activities)
                && r == (if activities == null || u in old(db.users) then Ok(()) else Fail(Database(ForeignKeyViolation)))
                && InPlaylist(db.playlistSongs, p, s)
    {
      var present := AssertPlaylistExists(p);
      if present.Fail? {
        return Fail(present.error);
      }
      var known := VerifySongExists(s);
      if known.Fail? {
        return Fail(known.error);
      }
      var id := MembershipIdPrefix + nonce;
      var code := db.InsertPlaylistSong(id, p, s, now);
      if code.Some? {
        return Fail(AddSongFailure(code.value));
      }
      assert PlaylistSongRow(id, p, s, now) in db.playlistSongs;
      r := Ok(());
      if activities != null {
        assert (ActivityIdPrefix + logNonce)[0] != id[0];
        var entry := activities.AddActivity(p, s, u, AddAction, logNonce, logged);
        if entry.Fail? {
          r := Fail(entry.error);
        }
      }
    }

    /** Removes song s from playlist p, then logs 'delete' for user u at time logged under id
        "activity-" + logNonce. NotFound, with nothing logged, when the pair is absent; whether the
        playlist exists is not checked separately. */
    method DeleteSongFromPlaylist(p: Id, s: Id, u: Id, logNonce: string, logged: Time) returns (r: Outcome<()>)
      requires Wired() && db.Valid()
      requires ActivityIdPrefix + logNonce !in db.issued && db.clock <= logged
      modifies db
      ensures db.Valid()
      ensures !InPlaylist(old(db.playlistSongs), p, s) ==> r == Fail(NotFound(MembershipNotFound)) && unchanged(db)
      ensures InPlaylist(old(db.playlistSongs), p, s) ==>
                && db.playlistSongs == Filter(old(db.playlistSongs), MembershipOtherThan(p, s))
                && db.activities == old(db.activities)
                                    + (if old(Logs(u)) then [ActivityRow(ActivityIdPrefix + logNonce, p, s, u, DeleteAction, logged)] else [])
                && db.Rows() == old(db.Rows()).(playlistSongs := db.playlistSongs, activities := db.activities)
                && r == (if activities == null || u in old(db.users) then Ok(()) else Fail(Database(ForeignKeyViolation)))
                && !InPlaylist(db.playlistSongs, p, s)
    {
      ghost var before := db.playlistSongs;
      var found := db.DeletePlaylistSong(p, s);
      RemovedMembership(before, p, s, p, s);
      if !found {
        return Fail(NotFound(MembershipNotFound));
      }
      ghost var m :| m in before && m.playlistId == p && m.songId == s;
      r := Ok(());
      if activities != null {
        var entry := activities.AddActivity(p, s, u, DeleteAction, logNonce, logged);
        if entry.Fail? {
          r := Fail(entry.error);
        }
      }
    }

    /** Playlist p with its owner's name and its songs in the order they were added; NotFound when
        p is absent. */
    method GetPlaylistWithSongs(p: Id) returns (r: Outcome<PlaylistDetail>)
      requires db.Valid()
      ensures r.Ok? <==> p in PlaylistIds(db.playlists)
      ensures r.Fail? ==> r.error == NotFound(PlaylistNotFound)
      ensures r.Ok? ==> && var q := FindPlaylist(db.playlists, p).value;
                        && r.value == PlaylistDetail(p, q.name, db.users[q.owner].username, SongsOf(db.Rows(), p))
    {
      match Header(db.Rows(), p) {
        case None => r := Fail(NotFound(PlaylistNotFound));
        case Some(h) => r := Ok(PlaylistDetail(h.id, h.name, h.username, SongsOf(db.Rows(), p)));
      }
    }

    /** The activity listing of playlist p; InvariantError when no activities service is configured. */
    method GetPlaylistActivities(p: Id) returns (r: Outcome<seq<ActivityView>>)
      requires Wired() && db.Valid()
      ensures r.Fail? <==> activities == null
      ensures r.Fail? ==> r.error == Invariant(ActivitiesUnavailable)
      ensures r.Ok? ==> r.value == ActivitiesOf(db.Rows(), p)
    {
      if activities == null {
        return Fail(Invariant(ActivitiesUnavailable));
      }
      var rows := activities.GetActivities(p);
      r := Ok(rows);
    }
  }
}
