/** Collaborators of a playlist: users other than the owner who may read and change its songs. */
module Collaborations {
  import opened Outcomes
  import opened Seqs
  import opened Store

  const CollaborationIdPrefix := "collab-"

  /** The error addCollaboration throws when the INSERT fails with SQLSTATE code: a duplicate pair
      becomes an InvariantError, any other database error propagates unchanged. */
  function AddCollaborationFailure(code: string): (f: Failure)
    ensures f.Invariant? <==> code == UniqueViolation
    ensures f.Invariant? ==> f.message == CollaboratorAlreadyAdded
    ensures !f.Invariant? ==> f == Database(code)
  {
    if code == UniqueViolation then Invariant(CollaboratorAlreadyAdded) else Database(code)
  }

  /** Removing the pair (p, u) removes exactly that collaboration: every other pair keeps its status. */
  lemma RemovedCollaborator(t: seq<CollaborationRow>, p: Id, u: Id, q: Id, v: Id)
    ensures IsCollaborator(Filter(t, CollaborationOtherThan(p, u)), q, v)
            <==> IsCollaborator(t, q, v) && !(q == p && v == u)
  {
    var f := Filter(t, CollaborationOtherThan(p, u));
    if IsCollaborator(t, q, v) && !(q == p && v == u) {
      var r :| r in t && r.playlistId == q && r.userId == v;
      assert r in f;
    }
  }

  /** Adding the pair (p, u) and then removing it gives back the table it started from. */
  lemma {:induction false} AddThenRemoveCollaborator(t: seq<CollaborationRow>, x: CollaborationRow)
    requires !IsCollaborator(t, x.playlistId, x.userId)
    ensures Filter(t + [x], CollaborationOtherThan(x.playlistId, x.userId)) == t
  {
    FilterAppend(t, x, CollaborationOtherThan(x.playlistId, x.userId));
    FilterAll(t, CollaborationOtherThan(x.playlistId, x.userId));
  }

  class CollaborationsService {
    const db: Database

    constructor(db: Database)
      ensures this.db == db
    {
      this.db := db;
    }

    /** Fails with NotFound unless user u is registered. */
    method EnsureUserExists(u: Id) returns (r: Outcome<()>)
      ensures r.Ok? <==> u in db.users
      ensures r.Fail? ==> r.error == NotFound(UserNotFound)
    {
      if u in db.users {
        r := Ok(());
      } else {
        r := Fail(NotFound(UserNotFound));
      }
    }

    /** Fails with NotFound unless playlist p exists. */
    method EnsurePlaylistExists(p: Id) returns (r: Outcome<()>)
      ensures r.Ok? <==> p in PlaylistIds(db.playlists)
      ensures r.Fail? ==> r.error == NotFound(PlaylistNotFound)
    {
      if FindPlaylist(db.playlists, p).Some? {
        r := Ok(());
      } else {
        r := Fail(NotFound(PlaylistNotFound));
      }
    }

    /** Makes user u a collaborator of playlist p, under the id "collab-" + nonce: the playlist is
        checked first, then the user, then the pair must be new. */
    method AddCollaboration(p: Id, u: Id, nonce: string) returns (r: Outcome<Id>)
      requires db.Valid() && CollaborationIdPrefix + nonce !in db.issued
      modifies db
      ensures db.Valid()
      ensures p !in PlaylistIds(old(db.playlists)) ==> r == Fail(NotFound(PlaylistNotFound))
      ensures p in PlaylistIds(old(db.playlists)) && u !in old(db.users) ==> r == Fail(NotFound(UserNotFound))
      ensures p in PlaylistIds(old(db.playlists)) && u in old(db.users) && IsCollaborator(old(db.collaborations), p, u)
              ==> r == Fail(Invariant(CollaboratorAlreadyAdded))
      ensures r.Ok? <==> p in PlaylistIds(old(db.playlists)) && u in old(db.users) && !IsCollaborator(old(db.collaborations), p, u)
      ensures r.Ok? ==> && r.value == CollaborationIdPrefix + nonce
                        && db.Rows() == old(db.Rows()).(collaborations := old(db.collaborations) + [CollaborationRow(r.value, p, u)])
                        && db.issued == old(db.issued) + {r.value} && db.clock == old(db.clock)
                        && IsCollaborator(db.collaborations, p, u)
      ensures r.Fail? ==> unchanged(db)
    {
      var found := EnsurePlaylistExists(p);
      if found.Fail? {
        return Fail(found.error);
      }
      var known := EnsureUserExists(u);
      if known.Fail? {
        return Fail(known.error);
      }
      var id := CollaborationIdPrefix + nonce;
      var code := db.InsertCollaboration(id, p, u);
      match code {
        case None =>
          assert CollaborationRow(id, p, u) in db.collaborations;
          r := Ok(id);
        case Some(c) => r := Fail(AddCollaborationFailure(c));
      }
    }

    /** Removes user u from the collaborators of playlist p; NotFound if u was not one. */
    method DeleteCollaboration(p: Id, u: Id) returns (r: Outcome<()>)
      requires db.Valid()
      modifies db
      ensures db.Valid()
      ensures r.Ok? <==> IsCollaborator(old(db.collaborations), p, u)
      ensures r.Fail? ==> r.error == NotFound(CollaboratorNotFound) && unchanged(db)
      ensures db.Rows() == old(db.Rows()).(collaborations := Filter(old(db.collaborations), CollaborationOtherThan(p, u)))
      ensures db.issued == old(db.issued) && db.clock == old(db.clock)
      ensures !IsCollaborator(db.collaborations, p, u)
    {
      var found := db.DeleteCollaboration(p, u);
      RemovedCollaborator(old(db.collaborations), p, u, p, u);
      if found {
        r := Ok(());
      } else {
        r := Fail(NotFound(CollaboratorNotFound));
      }
    }

    /** Fails with Authorization unless user u collaborates on playlist p. */
    method VerifyCollaborator(p: Id, u: Id) returns (r: Outcome<()>)
      ensures r.Ok? <==> IsCollaborator(db.collaborations, p, u)
      ensures r.Fail? ==> r.error == Authorization(AccessDenied)
    {
      if IsCollaborator(db.collaborations, p, u) {
        r := Ok(());
      } else {
        r := Fail(Authorization(AccessDenied));
      }
    }
  }
}
