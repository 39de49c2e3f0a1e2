/** The playlist routes: each handler validates the payload first, then checks who may act on the
    playlist, then calls the service, and replies 201 for what it creates. */
module PlaylistsApi {
  import opened Outcomes
  import opened Seqs
  import opened Store
  import opened ActivityLog
  import opened Playlists
  import opened Http

  const PlaylistDeleted := "Playlist berhasil dihapus"
  const SongAddedToPlaylist := "Lagu berhasil ditambahkan ke playlist"
  const SongRemovedFromPlaylist := "Lagu berhasil dihapus dari playlist"

  datatype PlaylistCreated = PlaylistCreated(playlistId: Id)
  datatype PlaylistList = PlaylistList(playlists: seq<PlaylistSummary>)
  datatype PlaylistData = PlaylistData(playlist: PlaylistDetail)
  datatype ActivitiesData = ActivitiesData(playlistId: Id, activities: seq<ActivityView>)

  /** Whether user u may read and change the songs of playlist p: its owner, or a collaborator when
      collaborations are configured. */
  predicate MayAccess(service: PlaylistsService, p: Id, u: Id)
    reads service.db
  {
    p in PlaylistIds(service.db.playlists)
    && (FindPlaylist(service.db.playlists, p).value.owner == u
        || (service.collab != null && IsCollaborator(service.db.collaborations, p, u)))
  }

  class PlaylistsHandler {
    const service: PlaylistsService

    constructor(service: PlaylistsService)
      ensures this.service == service
    {
      this.service := service;
    }

    /** POST /playlists: a playlist owned by the authenticated user; 201 with its id. */
    method PostPlaylist(verdict: Verdict, name: string, credential: Id, nonce: string) returns (r: Outcome<Reply<PlaylistCreated>>)
      requires service.db.Valid() && PlaylistIdPrefix + nonce !in service.db.issued
      modifies service.db
      ensures service.db.Valid()
      ensures verdict.Some? ==> r == Fail(Invariant(verdict.value)) && unchanged(service.db)
      ensures verdict.None? ==> (r.Ok? <==> credential in old(service.db.users))
      ensures r.Fail? ==> unchanged(service.db)
      ensures r.Ok? ==> && r.value == Reply(StatusCreated, Data(PlaylistCreated(PlaylistIdPrefix + nonce)), None)
                        && service.db.Rows() == old(service.db.Rows()).(
                             playlists := old(service.db.playlists) + [PlaylistRow(PlaylistIdPrefix + nonce, name, credential)])
    {
      if verdict.Some? {
        return Fail(Invariant(verdict.value));
      }
      var id := service.AddPlaylist(name, credential, nonce);
      if id.Fail? {
        return Fail(id.error);
      }
      r := Ok(Reply(StatusCreated, Data(PlaylistCreated(id.value)), None));
    }

    /** GET /playlists: the playlists the authenticated user owns or collaborates on, by name. */
    method GetPlaylists(credential: Id) returns (r: Reply<PlaylistList>)
      requires service.db.Valid()
      ensures r == Reply(StatusOk, Data(PlaylistList(PlaylistsOf(service.db.Rows(), credential))), None)
      ensures SortedByName(r.body.data.playlists)
      ensures forall q :: q in service.db.playlists ==>
                (SummaryOf(service.db.users, q) in r.body.data.playlists
                 <==> q.owner == credential || IsCollaborator(service.db.collaborations, q.id, credential))
    {
      var rows := service.GetPlaylistsByOwner(credential);
      r := Reply(StatusOk, Data(PlaylistList(rows)), None);
    }

    /** DELETE /playlists/{id}: only the owner may delete a playlist. */
    method DeletePlaylistById(p: Id, credential: Id) returns (r: Outcome<Reply<()>>)
      requires service.db.Valid()
      modifies service.db
      ensures service.db.Valid()
      ensures p !in PlaylistIds(old(service.db.playlists)) ==> r == Fail(NotFound(PlaylistNotFound))
      ensures r.Ok? <==> exists q :: q in old(service.db.playlists) && q.id == p && q.owner == credential
      ensures p in PlaylistIds(old(service.db.playlists)) && r.Fail? ==> r.error == Authorization(AccessDenied)
      ensures r.Fail? ==> unchanged(service.db)
      ensures r.Ok? ==> && r.value == Reply(StatusOk, Message(PlaylistDeleted), None)
                        && service.db.Rows() == old(service.db.Rows()).(
                             playlists := Filter(old(service.db.playlists), PlaylistOtherThan(p)),
                             collaborations := Filter(old(service.db.collaborations), CollaborationOutside(p)),
                             playlistSongs := Filter(old(service.db.playlistSongs), MembershipOutside(p)),
                             activities := Filter(old(service.db.activities), ActivityOutside(p)))
                        && p !in PlaylistIds(service.db.playlists)
    {
      var owner := service.VerifyPlaylistOwner(p, credential);
      if owner.Fail? {
        return Fail(owner.error);
      }
      var deleted := service.DeletePlaylistById(p);
      assert deleted.Ok?;
      r := Ok(Reply(StatusOk, Message(PlaylistDeleted), None));
    }

    /** POST /playlists/{id}/songs: an owner or collaborator adds a song; 201. */
    method PostSongToPlaylist(verdict: Verdict, p: Id, s: Id, credential: Id, nonce: string, logNonce: string, now: Time, logged: Time)
      returns (r: Outcome<Reply<()>>)
      requires service.Wired() && service.db.Valid()
      requires MembershipIdPrefix + nonce !in service.db.issued && ActivityIdPrefix + logNonce !in service.db.issued
      requires service.db.clock <= now <= logged
      modifies service.db
      ensures service.db.Valid()
      ensures verdict.Some? ==> r == Fail(Invariant(verdict.value)) && unchanged(service.db)
      ensures verdict.None? && p !in PlaylistIds(old(service.db.playlists)) ==> r == Fail(NotFound(PlaylistNotFound))
      ensures verdict.None? && p in PlaylistIds(old(service.db.playlists)) && !old(MayAccess(service, p, credential))
              ==> r == Fail(Authorization(AccessDenied)) && unchanged(service.db)
      ensures verdict.None? && old(MayAccess(service, p, credential)) && s !in old(service.db.songs)
              ==> r == Fail(NotFound(SongNotFound)) && unchanged(service.db)
      ensures !old(MayAccess(service, p, credential)) ==> unchanged(service.db)
      ensures verdict.None? && old(MayAccess(service, p, credential)) && s in old(service.db.songs)
              && InPlaylist(old(service.db.playlistSongs), p, s)
              ==> r == Fail(Invariant(SongAlreadyInPlaylist)) && unchanged(service.db)
      ensures verdict.None? && old(MayAccess(service, p, credential)) && s in old(service.db.songs)
              && !InPlaylist(old(service.db.playlistSongs), p, s) ==>
                && service.db.playlistSongs == old(service.db.playlistSongs) + [PlaylistSongRow(MembershipIdPrefix + nonce, p, s, now)]
                && service.db.activities == old(service.db.activities)
                     + (if old(service.Logs(credential)) then [ActivityRow(ActivityIdPrefix + logNonce, p, s, credential, AddAction, logged)] else [])
                && service.db.Rows() == old(service.db.Rows()).(playlistSongs := service.db.playlistSongs, activities := service.db.activities)
                && r == (if service.activities == null || credential in old(service.db.users)
                         then Ok(Reply(StatusCreated, Message(SongAddedToPlaylist), None))
                         else Fail(Database(ForeignKeyViolation)))
      ensures r.Ok? ==> && r.value == Reply(StatusCreated, Message(SongAddedToPlaylist), None)
                        && old(MayAccess(service, p, credential)) && !InPlaylist(old(service.db.playlistSongs), p, s)
                        && service.db.playlistSongs == old(service.db.playlistSongs) + [PlaylistSongRow(MembershipIdPrefix + nonce, p, s, now)]
    {
      if verdict.Some? {
        return Fail(Invariant(verdict.value));
      }
      var access := service.VerifyPlaylistAccess(p, credential);
      if access.Fail? {
        return Fail(access.error);
      }
      var song := service.VerifySongExists(s);
      if song.Fail? {
        return Fail(song.error);
      }
      var added := service.AddSongToPlaylist(p, s, credential, nonce, logNonce, now, logged);
      if added.Fail? {
        return Fail(added.error);
      }
      r := Ok(Reply(StatusCreated, Message(SongAddedToPlaylist), None));
    }

    /** GET /playlists/{id}/songs: the playlist with its songs, for an owner or collaborator. */
    method GetSongsFromPlaylist(p: Id, credential: Id) returns (r: Outcome<Reply<PlaylistData>>)
      requires service.Wired() && service.db.Valid()
      ensures p !in PlaylistIds(service.db.playlists) ==> r == Fail(NotFound(PlaylistNotFound))
      ensures r.Ok? <==> MayAccess(service, p, credential)
      ensures p in PlaylistIds(service.db.playlists) && r.Fail? ==> r.error == Authorization(AccessDenied)
      ensures r.Ok? ==> && var q := FindPlaylist(service.db.playlists, p).value;
                        && r.value == Reply(StatusOk, Data(PlaylistData(PlaylistDetail(p, q.name, service.db.users[q.owner].username,
                                                                                       SongsOf(service.db.Rows(), p)))), None)
    {
      var access := service.VerifyPlaylistAccess(p, credential);
      if access.Fail? {
        return Fail(access.error);
      }
      var playlist := service.GetPlaylistWithSongs(p);
      assert playlist.Ok?;
      r := Ok(Reply(StatusOk, Data(PlaylistData(playlist.value)), None));
    }

    /** DELETE /playlists/{id}/songs: an owner or collaborator removes a song. */
    method DeleteSongFromPlaylist(verdict: Verdict, p: Id, s: Id, credential: Id, logNonce: string, logged: Time)
      returns (r: Outcome<Reply<()>>)
      requires service.Wired() && service.db.Valid()
      requires ActivityIdPrefix + logNonce !in service.db.issued && service.db.clock <= logged
      modifies service.db
      ensures service.db.Valid()
      ensures verdict.Some? ==> r == Fail(Invariant(verdict.value)) && unchanged(service.db)
      ensures verdict.None? && p !in PlaylistIds(old(service.db.playlists)) ==> r == Fail(NotFound(PlaylistNotFound))
      ensures verdict.None? && p in PlaylistIds(old(service.db.playlists)) && !old(MayAccess(service, p, credential))
              ==> r == Fail(Authorization(AccessDenied))
      ensures verdict.None? && old(MayAccess(service, p, credential)) && !InPlaylist(old(service.db.playlistSongs), p, s)
              ==> r == Fail(NotFound(MembershipNotFound))
      ensures !old(MayAccess(service, p, credential)) ==> unchanged(service.db)
      ensures verdict.None? && !InPlaylist(old(service.db.playlistSongs), p, s) ==> unchanged(service.db)
      ensures verdict.None? && old(MayAccess(service, p, credential)) && InPlaylist(old(service.db.playlistSongs), p, s) ==>
                && service.db.playlistSongs == Filter(old(service.db.playlistSongs), MembershipOtherThan(p, s))
                && service.db.activities == old(service.db.activities)
                     + (if old(service.Logs(credential)) then [ActivityRow(ActivityIdPrefix + logNonce, p, s, credential, DeleteAction, logged)] else [])
                && service.db.Rows() == old(service.db.Rows()).(playlistSongs := service.db.playlistSongs, activities := service.db.activities)
                && r == (if service.activities == null || credential in old(service.db.users)
                         then Ok(Reply(StatusOk, Message(SongRemovedFromPlaylist), None))
                         else Fail(Database(ForeignKeyViolation)))
      ensures r.Ok? ==> && r.value == Reply(StatusOk, Message(SongRemovedFromPlaylist), None)
                        && old(MayAccess(service, p, credential))
                        && service.db.playlistSongs == Filter(old(service.db.playlistSongs), MembershipOtherThan(p, s))
                        && !InPlaylist(service.db.playlistSongs, p, s)
    {
      if verdict.Some? {
        return Fail(Invariant(verdict.value));
      }
      var access := service.VerifyPlaylistAccess(p, credential);
      if access.Fail? {
        return Fail(access.error);
      }
      var removed := service.DeleteSongFromPlaylist(p, s, credential, logNonce, logged);
      if removed.Fail? {
        return Fail(removed.error);
      }
      r := Ok(Reply(StatusOk, Message(SongRemovedFromPlaylist), None));
    }

    /** GET /playlists/{id}/activities: the playlist id and its activity listing, for an owner or
        collaborator. */
    method GetPlaylistActivities(p: Id, credential: Id) returns (r: Outcome<Reply<ActivitiesData>>)
      requires service.Wired() && service.db.Valid()
      ensures p !in PlaylistIds(service.db.playlists) ==> r == Fail(NotFound(PlaylistNotFound))
      ensures p in PlaylistIds(service.db.playlists) && !MayAccess(service, p, credential) ==> r == Fail(Authorization(AccessDenied))
      ensures MayAccess(service, p, credential) && service.activities == null ==> r == Fail(Invariant(ActivitiesUnavailable))
      ensures r.Ok? <==> MayAccess(service, p, credential) && service.activities != null
      ensures r.Ok? ==> r.value == Reply(StatusOk, Data(ActivitiesData(p, ActivitiesOf(service.db.Rows(), p))), None)
    {
      var access := service.VerifyPlaylistAccess(p, credential);
      if access.Fail? {
        return Fail(access.error);
      }
      var activities := service.GetPlaylistActivities(p);
      if activities.Fail? {
        return Fail(activities.error);
      }
      r := Ok(Reply(StatusOk, Data(ActivitiesData(p, activities.value)), None));
    }
  }
}
