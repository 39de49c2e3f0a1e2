/** Songs: adding, reading, editing and deleting them, the song search query, and the shape of the
    song object the API returns. */
module Songs {
  import opened Outcomes
  import opened Seqs
  import opened Text
  import opened Store

  const SongIdPrefix := "song-"

  // ---------------------------------------------------------------------------------------------
  // Song objects

  /** A JSON value as it appears in a song object. */
  datatype JsValue = JNull | JStr(s: string) | JInt(i: int)
  /** A JavaScript object: its own properties (order not modelled). */
  type JsObject = map<string, JsValue>

  function OptionalText(v: Option<string>): JsValue {
    if v.Some? then JStr(v.value) else JNull
  }

  function OptionalInt(v: Option<int>): JsValue {
    if v.Some? then JInt(v.value) else JNull
  }

  /** The row object node-postgres builds for SELECT id, title, year, genre, performer, duration and
      the album column, named albumColumn. */
  function SongRowObject(id: Id, row: SongRow, albumColumn: string): JsObject {
    map["id" := JStr(id), "title" := JStr(row.title), "year" := JInt(row.year), "genre" := JStr(row.genre),
        "performer" := JStr(row.performer), "duration" := OptionalInt(row.duration),
        albumColumn := OptionalText(row.albumId)]
  }

  /** mapSongRow: the row without its albumId property, plus albumId set to the row's albumId, or
      null when that is null or undefined (absent). */
  function MapSongRow(row: JsObject): (r: JsObject)
    ensures r.Keys == row.Keys + {"albumId"}
    ensures forall k :: k in row && k != "albumId" ==> r[k] == row[k]
    ensures "albumId" in row ==> r["albumId"] == row["albumId"]
    ensures "albumId" !in row ==> r["albumId"] == JNull
  {
    var albumId := if "albumId" in row && row["albumId"] != JNull then row["albumId"] else JNull;
    (map k | k in row && k != "albumId" :: row[k])["albumId" := albumId]
  }

  /** mapSongRow is idempotent, and keeps a present albumId as it is. */
  lemma MapSongRowIdempotent(row: JsObject)
    ensures MapSongRow(MapSongRow(row)) == MapSongRow(row)
    ensures "albumId" in row ==> MapSongRow(row)["albumId"] == row["albumId"]
  {
    var once := MapSongRow(row);
    var twice := MapSongRow(once);
    assert twice.Keys == once.Keys;
    forall k | k in once ensures twice[k] == once[k] {
    }
  }

  /** getSongById as written: the album column is selected as album_id, so mapSongRow never sees an
      albumId property. */
  function SongByIdAsWritten(t: Tables, s: Id): Option<JsObject> {
    if s in t.songs then Some(MapSongRow(SongRowObject(s, t.songs[s], "album_id"))) else None
  }

  /** getSongById with the album column selected AS "albumId", as mapSongRow expects. */
  function SongById(t: Tables, s: Id): Option<JsObject> {
    if s in t.songs then Some(MapSongRow(SongRowObject(s, t.songs[s], "albumId"))) else None
  }

  /** Finding: as written, a song that belongs to an album is returned with albumId null and with an
      extra album_id property holding the album. */
  lemma AlbumIdLostAsWritten(t: Tables, s: Id)
    requires s in t.songs && t.songs[s].albumId.Some?
    ensures SongByIdAsWritten(t, s).Some?
    ensures SongByIdAsWritten(t, s).value["albumId"] == JNull
    ensures SongByIdAsWritten(t, s).value["album_id"] == JStr(t.songs[s].albumId.value)
  {
  }

  /** The corrected object: exactly the song's columns under their API names, albumId included. */
  lemma SongByIdSpec(t: Tables, s: Id)
    ensures SongById(t, s).Some? <==> s in t.songs
    ensures SongById(t, s).Some? ==>
              && SongById(t, s).value.Keys == {"id", "title", "year", "genre", "performer", "duration", "albumId"}
              && SongById(t, s).value["id"] == JStr(s)
              && SongById(t, s).value["title"] == JStr(t.songs[s].title)
              && SongById(t, s).value["year"] == JInt(t.songs[s].year)
              && SongById(t, s).value["genre"] == JStr(t.songs[s].genre)
              && SongById(t, s).value["performer"] == JStr(t.songs[s].performer)
              && SongById(t, s).value["duration"] == OptionalInt(t.songs[s].duration)
              && SongById(t, s).value["albumId"] == OptionalText(t.songs[s].albumId)
  {
    if s in t.songs {
      var o := SongRowObject(s, t.songs[s], "albumId");
      assert o.Keys == {"id", "title", "year", "genre", "performer", "duration", "albumId"};
    }
  }

  // ---------------------------------------------------------------------------------------------
  // Errors

  /** The error addSong throws when the INSERT fails with SQLSTATE code: an unknown album is
      reported as such, every other failure as the song not being added. */
  function AddSongFailure(code: string): (f: Failure)
    ensures f.Invariant?
    ensures f.message == AlbumIdNotFound <==> code == ForeignKeyViolation
    ensures code != ForeignKeyViolation ==> f.message == SongNotAdded
  {
    if code == ForeignKeyViolation then Invariant(AlbumIdNotFound) else Invariant(SongNotAdded)
  }

  /** The error editSongById throws for a failure of its UPDATE: an unknown album becomes an
      InvariantError, everything else (NotFound included) passes unchanged. */
  function EditSongFailure(e: Failure): (f: Failure)
    ensures e == Database(ForeignKeyViolation) ==> f == Invariant(AlbumIdNotFound)
    ensures e != Database(ForeignKeyViolation) ==> f == e
  {
    if e == Database(ForeignKeyViolation) then Invariant(AlbumIdNotFound) else e
  }

  // ---------------------------------------------------------------------------------------------
  // The search query of getSongs

  const SongsQueryBase := "SELECT id, title, performer FROM songs WHERE 1=1"
  const SongsQueryOrder := " ORDER BY id"

  /** A search condition: the column and the text it must contain. */
  datatype Condition = Condition(column: string, value: string)

  /** The conditions a search applies: title, then performer, each only when given and not empty. */
  function Conditions(title: Option<string>, performer: Option<string>): (cs: seq<Condition>)
    ensures |cs| <= 2
  {
    (if Truthy(title) then [Condition("title", title.value)] else [])
    + (if Truthy(performer) then [Condition("performer", performer.value)] else [])
  }

  /** " AND column ILIKE $n", for the conditions from placeholder number n on. */
  function Clauses(cs: seq<Condition>, n: nat): string
    decreases |cs|
  {
    if cs == [] then ""
    else " AND " + cs[0].column + " ILIKE $" + NatToString(n) + Clauses(cs[1..], n + 1)
  }

  /** The parameters: each condition's text wrapped in '%', in placeholder order. */
  function Patterns(cs: seq<Condition>): (ps: seq<string>)
    ensures |ps| == |cs|
    ensures forall i :: 0 <= i < |cs| ==> ps[i] == "%" + cs[i].value + "%"
  {
    if cs == [] then [] else ["%" + cs[0].value + "%"] + Patterns(cs[1..])
  }

  /** One ILIKE clause: " AND column ILIKE $n". */
  function Clause(c: Condition, n: nat): string {
    " AND " + c.column + " ILIKE $" + NatToString(n)
  }

  lemma {:induction false} ClausesAppend(cs: seq<Condition>, c: Condition, n: nat)
    ensures Clauses(cs + [c], n) == Clauses(cs, n) + Clause(c, n + |cs|)
    decreases |cs|
  {
    if cs == [] {
      assert Clauses([c], n) == Clause(c, n) + Clauses([], n + 1);
    } else {
      assert (cs + [c])[1..] == cs[1..] + [c];
      ClausesAppend(cs[1..], c, n + 1);
    }
  }

  lemma PatternsAppend(cs: seq<Condition>, c: Condition)
    ensures Patterns(cs + [c]) == Patterns(cs) + ["%" + c.value + "%"]
  {
  }

  /** Appending one more condition: its clause takes the next placeholder number, its pattern the
      next parameter position. */
  lemma AddCondition(cs: seq<Condition>, c: Condition, text: string, params: seq<string>)
    requires text == SongsQueryBase + Clauses(cs, 1) && params == Patterns(cs)
    ensures text + Clause(c, |params| + 1) == SongsQueryBase + Clauses(cs + [c], 1)
    ensures params + ["%" + c.value + "%"] == Patterns(cs + [c])
  {
    ClausesAppend(cs, c, 1);
    PatternsAppend(cs, c);
  }

  /** getSongs builds its query: one ILIKE clause per condition, numbered $1, $2 in the order of the
      parameters, so that placeholder $i binds the pattern of the i-th condition. */
  method BuildSongsQuery(title: Option<string>, performer: Option<string>) returns (text: string, params: seq<string>)
    ensures text == SongsQueryBase + Clauses(Conditions(title, performer), 1) + SongsQueryOrder
    ensures params == Patterns(Conditions(title, performer))
  {
    ghost var cs: seq<Condition> := [];
    params := [];
    text := SongsQueryBase;
    if Truthy(title) {
      var c := Condition("title", title.value);
      AddCondition(cs, c, text, params);
      cs := cs + [c];
      text := text + Clause(c, |params| + 1);
      params := params + ["%" + c.value + "%"];
    }
    if Truthy(performer) {
      var c := Condition("performer", performer.value);
      AddCondition(cs, c, text, params);
      cs := cs + [c];
      text := text + Clause(c, |params| + 1);
      params := params + ["%" + c.value + "%"];
    }
    assert cs == Conditions(title, performer);
    text := text + SongsQueryOrder;
  }

  /** An absent or empty filter text is no filter: the search has no condition exactly when neither
      filter is truthy, and then the query selects every song, ordered, with no parameters. */
  lemma EmptyFiltersSelectAll(title: Option<string>, performer: Option<string>)
    ensures Conditions(title, performer) == [] <==> !Truthy(title) && !Truthy(performer)
    ensures !Truthy(title) && !Truthy(performer) ==>
              && SongsQueryBase + Clauses(Conditions(title, performer), 1) + SongsQueryOrder
                 == "SELECT id, title, performer FROM songs WHERE 1=1 ORDER BY id"
              && Patterns(Conditions(title, performer)) == []
  {
    if Truthy(title) || Truthy(performer) {
      assert |Conditions(title, performer)| >= 1;
    }
  }

  // ---------------------------------------------------------------------------------------------
  // The service

  class SongsService {
    const db: Database

    constructor(db: Database)
      ensures this.db == db
    {
      this.db := db;
    }

    /** addSong: a new song under the id "song-" + nonce; an album that does not exist is refused. */
    method AddSong(row: SongRow, nonce: string) returns (r: Outcome<Id>)
      requires db.Valid() && SongIdPrefix + nonce !in db.issued
      modifies db
      ensures db.Valid()
      ensures r.Ok? <==> row.albumId.None? || row.albumId.value in old(db.albums)
      ensures r.Ok? ==> && r.value == SongIdPrefix + nonce
                        && db.Rows() == old(db.Rows()).(songs := old(db.songs)[r.value := row])
                        && db.issued == old(db.issued) + {r.value} && db.clock == old(db.clock)
      ensures r.Fail? ==> r.error == Invariant(AlbumIdNotFound) && unchanged(db)
    {
      var id := SongIdPrefix + nonce;
      var code := db.InsertSong(id, row);
      match code {
        case None => r := Ok(id);
        case Some(c) => r := Fail(AddSongFailure(c));
      }
    }

    /** getSongById: the song object, or NotFound. */
    method GetSongById(s: Id) returns (r: Outcome<JsObject>)
      ensures r.Ok? <==> s in db.songs
      ensures r.Fail? ==> r.error == NotFound(SongNotFound)
      ensures r.Ok? ==> Some(r.value) == SongById(db.Rows(), s)
      ensures r.Ok? ==> r.value["albumId"] == OptionalText(db.songs[s].albumId)
    {
      var song := SongById(db.Rows(), s);
      if song.None? {
        return Fail(NotFound(SongNotFound));
      }
      SongByIdSpec(db.Rows(), s);
      r := Ok(song.value);
    }

    /** editSongById: replaces every column of song s; NotFound when there is no such song, and an
        InvariantError when the new album does not exist. */
    method EditSongById(s: Id, row: SongRow) returns (r: Outcome<()>)
      requires db.Valid()
      modifies db
      ensures db.Valid()
      ensures s !in old(db.songs) ==> r == Fail(NotFound(SongNotFound))
      ensures s in old(db.songs) && row.albumId.Some? && row.albumId.value !in old(db.albums)
              ==> r == Fail(Invariant(AlbumIdNotFound))
      ensures r.Ok? <==> s in old(db.songs) && (row.albumId.None? || row.albumId.value in old(db.albums))
      ensures r.Ok? ==> db.Rows() == old(db.Rows()).(songs := old(db.songs)[s := row])
      ensures r.Fail? ==> unchanged(db)
      ensures db.issued == old(db.issued) && db.clock == old(db.clock)
    {
      var code, found := db.UpdateSong(s, row);
      if code.Some? {
        return Fail(EditSongFailure(Database(code.value)));
      }
      if !found {
        return Fail(EditSongFailure(NotFound(SongNotFound)));
      }
      r := Ok(());
    }

    /** deleteSongById: removes song s, and with it (ON DELETE CASCADE) its playlist entries and
        activity rows; NotFound when there is no such song. */
    method DeleteSongById(s: Id) returns (r: Outcome<()>)
      requires db.Valid()
      modifies db
      ensures db.Valid()
      ensures r.Ok? <==> s in old(db.songs)
      ensures r.Fail? ==> r.error == NotFound(SongNotFound) && unchanged(db)
      ensures r.Ok? ==> && db.Rows() == old(db.Rows()).(
                             songs := old(db.songs) - {s},
                             playlistSongs := Filter(old(db.playlistSongs), MembershipWithoutSong(s)),
                             activities := Filter(old(db.activities), ActivityWithoutSong(s)))
                        && s !in db.songs
      ensures db.issued == old(db.issued) && db.clock == old(db.clock)
    {
      var found := db.DeleteSong(s);
      if !found {
        return Fail(NotFound(SongNotFound));
      }
      r := Ok(());
    }
  }
}
