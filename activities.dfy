/** The playlist activity log: one row per song added to or removed from a playlist, read back
    joined with the user's name and the song's title, oldest first. */
module ActivityLog {
  import opened Outcomes
  import opened Seqs
  import opened Store

  const ActivityIdPrefix := "activity-"
  const AddAction := "add"
  const DeleteAction := "delete"

  /** One row of the activity listing. */
  datatype ActivityView = ActivityView(username: string, title: string, action: string, time: Time)

  /** The inner join of activity rows with users and songs: a row whose user or song is absent drops out. */
  function JoinActivities(users: map<Id, UserRow>, songs: map<Id, SongRow>, rows: seq<ActivityRow>): (r: seq<ActivityView>)
    ensures |r| <= |rows|
  {
    if rows == [] then []
    else
      (if rows[0].userId in users && rows[0].songId in songs
       then [ActivityView(users[rows[0].userId].username, songs[rows[0].songId].title, rows[0].action, rows[0].time)]
       else [])
      + JoinActivities(users, songs, rows[1..])
  }

  /** The listing of playlist p: its activity rows, joined, in time order. The table itself is kept in
      time order (TablesOk), so ORDER BY time is the table order; rows stamped with the same time keep
      their insertion order. */
  function ActivitiesOf(t: Tables, p: Id): seq<ActivityView> {
    JoinActivities(t.users, t.songs, Filter(t.activities, ActivityOf(p)))
  }

  /** When every row's user and song exist, the join keeps every row, position by position. */
  lemma {:induction false} JoinActivitiesComplete(users: map<Id, UserRow>, songs: map<Id, SongRow>, rows: seq<ActivityRow>)
    requires forall x :: x in rows ==> x.userId in users && x.songId in songs
    ensures |JoinActivities(users, songs, rows)| == |rows|
    ensures forall i :: 0 <= i < |rows| ==>
              JoinActivities(users, songs, rows)[i]
              == ActivityView(users[rows[i].userId].username, songs[rows[i].songId].title, rows[i].action, rows[i].time)
  {
    if rows != [] {
      assert forall x :: x in rows[1..] ==> x in rows;
      JoinActivitiesComplete(users, songs, rows[1..]);
      var r := JoinActivities(users, songs, rows);
      forall i | 0 <= i < |rows|
        ensures r[i] == ActivityView(users[rows[i].userId].username, songs[rows[i].songId].title, rows[i].action, rows[i].time)
      {
        if i > 0 {
          assert rows[i] == rows[1..][i - 1];
        }
      }
    }
  }

  /** Joining a table with one more row appended = the old join plus that row's view, if it joins. */
  lemma {:induction false} JoinActivitiesAppend(users: map<Id, UserRow>, songs: map<Id, SongRow>, rows: seq<ActivityRow>, x: ActivityRow)
    ensures JoinActivities(users, songs, rows + [x])
            == JoinActivities(users, songs, rows) + JoinActivities(users, songs, [x])
  {
    if rows == [] {
      assert rows + [x] == [x];
    } else {
      assert (rows + [x])[1..] == rows[1..] + [x];
      JoinActivitiesAppend(users, songs, rows[1..], x);
    }
  }

  /** In a consistent database, the listing of a playlist has one entry per activity row of that
      playlist, and the entries come in non-decreasing time order. */
  lemma ActivitiesOfComplete(t: Tables, issued: set<Id>, clock: Time, p: Id)
    requires TablesOk(t, issued, clock)
    ensures |ActivitiesOf(t, p)| == |Filter(t.activities, ActivityOf(p))|
    ensures forall i, j :: 0 <= i < j < |ActivitiesOf(t, p)| ==> ActivitiesOf(t, p)[i].time <= ActivitiesOf(t, p)[j].time
  {
    var rows := Filter(t.activities, ActivityOf(p));
    JoinActivitiesComplete(t.users, t.songs, rows);
    FilterPairwise(t.activities, ActivityOf(p), ActivitiesInOrder);
    var r := ActivitiesOf(t, p);
    forall i, j | 0 <= i < j < |r| ensures r[i].time <= r[j].time {
      assert ActivitiesInOrder(rows[i], rows[j]);
    }
  }

  /** Logging an activity of playlist p appends exactly its entry to p's listing, and leaves the
      listing of every other playlist as it was. */
  lemma LogGrowsByOne(t: Tables, x: ActivityRow, q: Id)
    requires x.userId in t.users && x.songId in t.songs
    ensures ActivitiesOf(t.(activities := t.activities + [x]), q)
            == ActivitiesOf(t, q)
               + (if x.playlistId == q
                  then [ActivityView(t.users[x.userId].username, t.songs[x.songId].title, x.action, x.time)]
                  else [])
  {
    var rows := Filter(t.activities, ActivityOf(q));
    FilterAppend(t.activities, x, ActivityOf(q));
    if x.playlistId == q {
      JoinActivitiesAppend(t.users, t.songs, rows, x);
      assert [x][1..] == [];
    } else {
      assert rows + [] == rows;
    }
  }

  class PlaylistActivitiesService {
    const db: Database

    constructor(db: Database)
      ensures this.db == db
    {
      this.db := db;
    }

    /** Logs that user u performed action on song s of playlist p, at time now. The id is
        "activity-" followed by the generator's fresh nonce. */
    method AddActivity(p: Id, s: Id, u: Id, action: string, nonce: string, now: Time) returns (r: Outcome<Id>)
      requires db.Valid() && ActivityIdPrefix + nonce !in db.issued && db.clock <= now
      modifies db
      ensures db.Valid()
      ensures r.Ok? <==> p in PlaylistIds(old(db.playlists)) && s in old(db.songs) && u in old(db.users)
      ensures r.Ok? ==> && r.value == ActivityIdPrefix + nonce
                        && db.Rows() == old(db.Rows()).(activities := old(db.activities) + [ActivityRow(r.value, p, s, u, action, now)])
                        && db.issued == old(db.issued) + {r.value} && db.clock == now
      ensures r.Fail? ==> r.error == Database(ForeignKeyViolation) && unchanged(db)
    {
      var id := ActivityIdPrefix + nonce;
      var code := db.InsertActivity(id, p, s, u, action, now);
      match code {
        case None => r := Ok(id);
        case Some(c) => r := Fail(Database(c));
      }
    }

    /** The activity listing of playlist p. */
    method GetActivities(p: Id) returns (rows: seq<ActivityView>)
      requires db.Valid()
      ensures rows == ActivitiesOf(db.Rows(), p)
      ensures |rows| == |Filter(db.activities, ActivityOf(p))|
      ensures forall i, j :: 0 <= i < j < |rows| ==> rows[i].time <= rows[j].time
    {
      rows := ActivitiesOf(db.Rows(), p);
      ActivitiesOfComplete(db.Rows(), db.issued, db.clock, p);
    }
  }
}
