/** The collaboration routes: only the owner of a playlist may add or remove its collaborators. */
module CollaborationsApi {
  import opened Outcomes
  import opened Seqs
  import opened Store
  import opened Collaborations
  import opened Playlists
  import opened Http

  const CollaboratorRemoved := "Kolaborator berhasil dihapus"

  datatype CollaborationCreated = CollaborationCreated(collaborationId: Id)

  /** Whether user u owns playlist p. */
  predicate Owns(db: Database, p: Id, u: Id)
    reads db
  {
    exists q :: q in db.playlists && q.id == p && q.owner == u
  }

  class CollaborationsHandler {
    const collabService: CollaborationsService
    const playlistsService: PlaylistsService

    constructor(collabService: CollaborationsService, playlistsService: PlaylistsService)
      requires collabService.db == playlistsService.db
      ensures this.collabService == collabService && this.playlistsService == playlistsService
    {
      this.collabService := collabService;
      this.playlistsService := playlistsService;
    }

    /** POST /collaborations: the owner of p makes user u a collaborator; 201 with the new id. */
    method PostCollaboration(verdict: Verdict, p: Id, u: Id, credential: Id, nonce: string)
      returns (r: Outcome<Reply<CollaborationCreated>>)
      requires collabService.db == playlistsService.db
      requires collabService.db.Valid() && CollaborationIdPrefix + nonce !in collabService.db.issued
      modifies collabService.db
      ensures collabService.db.Valid()
      ensures verdict.Some? ==> r == Fail(Invariant(verdict.value))
      ensures verdict.None? && p !in PlaylistIds(old(collabService.db.playlists)) ==> r == Fail(NotFound(PlaylistNotFound))
      ensures verdict.None? && p in PlaylistIds(old(collabService.db.playlists)) && !old(Owns(collabService.db, p, credential))
              ==> r == Fail(Authorization(AccessDenied))
      ensures r.Ok? <==> && verdict.None? && old(Owns(collabService.db, p, credential)) && u in old(collabService.db.users)
                         && !IsCollaborator(old(collabService.db.collaborations), p, u)
      ensures verdict.None? && old(Owns(collabService.db, p, credential)) && u !in old(collabService.db.users)
              ==> r == Fail(NotFound(UserNotFound))
      ensures verdict.None? && old(Owns(collabService.db, p, credential)) && u in old(collabService.db.users)
              && IsCollaborator(old(collabService.db.collaborations), p, u)
              ==> r == Fail(Invariant(CollaboratorAlreadyAdded))
      ensures r.Fail? ==> unchanged(collabService.db)
      ensures r.Ok? ==> && r.value == Reply(StatusCreated, Data(CollaborationCreated(CollaborationIdPrefix + nonce)), None)
                        && collabService.db.Rows() == old(collabService.db.Rows()).(
                             collaborations := old(collabService.db.collaborations) + [CollaborationRow(CollaborationIdPrefix + nonce, p, u)])
    {
      if verdict.Some? {
        return Fail(Invariant(verdict.value));
      }
      var owner := playlistsService.VerifyPlaylistOwner(p, credential);
      if owner.Fail? {
        return Fail(owner.error);
      }
      var id := collabService.AddCollaboration(p, u, nonce);
      if id.Fail? {
        return Fail(id.error);
      }
      r := Ok(Reply(StatusCreated, Data(CollaborationCreated(id.value)), None));
    }

    /** DELETE /collaborations: the owner of p removes user u from its collaborators. */
    method DeleteCollaboration(verdict: Verdict, p: Id, u: Id, credential: Id) returns (r: Outcome<Reply<()>>)
      requires collabService.db == playlistsService.db
      requires collabService.db.Valid()
      modifies collabService.db
      ensures collabService.db.Valid()
      ensures verdict.Some? ==> r == Fail(Invariant(verdict.value)) && unchanged(collabService.db)
      ensures verdict.None? && p !in PlaylistIds(old(collabService.db.playlists)) ==> r == Fail(NotFound(PlaylistNotFound))
      ensures verdict.None? && p in PlaylistIds(old(collabService.db.playlists)) && !old(Owns(collabService.db, p, credential))
              ==> r == Fail(Authorization(AccessDenied))
      ensures !old(Owns(collabService.db, p, credential)) ==> unchanged(collabService.db)
      ensures verdict.None? && old(Owns(collabService.db, p, credential)) && !IsCollaborator(old(collabService.db.collaborations), p, u)
              ==> r == Fail(NotFound(CollaboratorNotFound))
      ensures r.Ok? <==> && verdict.None? && old(Owns(collabService.db, p, credential))
                         && IsCollaborator(old(collabService.db.collaborations), p, u)
      ensures r.Fail? ==> unchanged(collabService.db)
      ensures r.Ok? ==> && r.value == Reply(StatusOk, Message(CollaboratorRemoved), None)
                        && collabService.db.Rows() == old(collabService.db.Rows()).(
                             collaborations := Filter(old(collabService.db.collaborations), CollaborationOtherThan(p, u)))
                        && !IsCollaborator(collabService.db.collaborations, p, u)
    {
      if verdict.Some? {
        return Fail(Invariant(verdict.value));
      }
      var owner := playlistsService.VerifyPlaylistOwner(p, credential);
      if owner.Fail? {
        return Fail(owner.error);
      }
      var removed := collabService.DeleteCollaboration(p, u);
      if removed.Fail? {
        return Fail(removed.error);
      }
      r := Ok(Reply(StatusOk, Message(CollaboratorRemoved), None));
    }
  }
}
