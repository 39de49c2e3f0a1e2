# Open Music backend — playlists, collaborations, albums and covers

This project models the core of a hapi/PostgreSQL/Redis/S3 music API.

- **Playlists.** A user owns playlists and adds songs to them. Users the owner names as collaborators may read and change the songs too. Every addition or removal of a song is logged as an activity.
- **Albums.** Albums have a cover image, stored in an S3 bucket. Users like and unlike albums. An album's detail and its like count are cached in Redis.
- **Songs.** Songs are created, read, edited and deleted.
- **Route handlers.** The handlers validate the payload first, then authorise the caller, and only then act.
- **Error mapping.** A server extension turns every thrown error into an HTTP reply.

## Modules

| file | module | what it holds |
|---|---|---|
| `outcomes.dfy` | `Outcomes` | `Option`; the `Failure` classes (NotFound, Authorization and Invariant errors, database errors by SQLSTATE, plain Errors); `Outcome` = value or thrown failure; the services' messages |
| `text.dfy` | `Text` | JavaScript truthiness, `String(n)` and `Number(s)` for decimal numerals, ASCII lower-casing, code-point order |
| `seqs.dfy` | `Seqs` | `Filter` (a `WHERE` clause on a table) and its lemmas |
| `store.dfy` | `Store` | the rows of the tables, and the `Database` class |
| `cache.dfy` | `Caching` | the Redis cache as a class over a map of entries with expiry |
| `activities.dfy` | `ActivityLog` | the activity service and its join with users and songs |
| `collaborations.dfy` | `Collaborations` | the collaboration service |
| `playlists.dfy` | `Playlists` | the playlist service: listing (`UNION` … `ORDER BY name`), song membership, access checks |
| `songs.dfy` | `Songs` | the song service, the `getSongs` query builder, `mapSongRow` |
| `storage.dfy` | `Storage` | the S3 storage service |
| `albums.dfy` | `Albums` | the album service with its cache; the cache-coherence invariant |
| `http.dfy` | `Http` | replies (code, `data` or `message` body, optional header) and validator verdicts |
| `playlists_api.dfy`, `collaborations_api.dfy`, `albums_api.dfy` | `PlaylistsApi`, `CollaborationsApi`, `AlbumsApi` | the route handlers |
| `server.dfy` | `Server` | the `onPreResponse` error classifier, port and host defaults, the storage settings the server starts with |

Notes on `store.dfy`:

- The `Database` class stands for the one PostgreSQL database that every service shares, so services that share a pool share one `Database` object.
- Each SQL statement the services issue is a `Database` method.
  - An `INSERT` returns the SQLSTATE it fails with: 23505 for a unique violation, 23503 for a foreign-key violation.
  - A `DELETE … RETURNING` reports whether it found a row.
  - A delete cascades as the migrations' `ON DELETE CASCADE` says.
- `Database.Valid()` is the schema's invariant:
  - primary keys and `UNIQUE` pairs are distinct;
  - foreign keys point at existing rows;
  - `playlist_songs.created_at` and `playlist_song_activities.time` are in insertion order;
  - every id was issued exactly once.

Modelling conventions:

- **Ids.** `nanoid` becomes a caller-supplied `nonce`, with the precondition that the prefixed id is fresh.
- **Time.** `new Date()` and `Date.now()` become time parameters.
- **Validation.** The result of a Joi validator is a `Verdict` parameter: `None` when the payload is valid, `Some(message)` otherwise.
- **Storage I/O.** The outcome of an S3 `PutObject` is a parameter. The `DeleteObject` request the service would send is returned instead of being sent.

## Model

| member | source | states |
|---|---|---|
| Text.ParseNatToString | src/services/albumsService.js:164-173 | `Number(String(n)) == n`: a like count written to the cache as text reads back as the same number |
| Text.NatToStringInjective | src/services/albumsService.js:173 | different counts are cached as different texts |
| Store.FindPlaylist | src/services/playlistService.js:60-66 | the row found has the id asked for; nothing is found exactly when no playlist has that id |
| Store.PlaylistIdsRemove | src/services/playlistService.js:52-57 | deleting playlist p removes exactly p from the set of playlist ids |
| Store.FindPlaylistUnique | migrations/1757798613227_create-table-playlists.js:13 | with distinct primary keys, the lookup by a row's id returns that row |
| Store.Database.constructor | migrations/1757798613227_create-table-playlists.js:11-38 | a fresh database holds only its users and satisfies the schema invariant |
| Store.Database.InsertPlaylist | src/services/playlistService.js:14-29 | fails with 23503 exactly when the owner is not a user; otherwise appends the row and keeps the invariant |
| Store.Database.DeletePlaylist | migrations/1757799667787_create-table-playlist-songs.js:23-30 | reports whether the playlist existed; removes it with its collaborations, songs and activities (cascade) |
| Store.Database.InsertCollaboration | migrations/1757825393455_create-collaborations-table.js:23-43 | 23505 for an existing pair, 23503 for a missing playlist or user, else appends the row |
| Store.Database.DeleteCollaboration | src/services/collaborationService.js:46-52 | reports whether the pair existed; the table loses exactly that pair |
| Store.Database.InsertPlaylistSong | migrations/1757799667787_create-table-playlist-songs.js:23-43 | 23505 for a song already in the playlist, 23503 for a missing playlist or song, else appends the row |
| Store.Database.DeletePlaylistSong | src/services/playlistService.js:114-123 | reports whether the song was in the playlist; the table loses exactly that pair |
| Store.Database.InsertActivity | migrations/1757828691451_create-table-playlist-song-activities.js:21-44 | 23503 unless playlist, song and user exist, else appends the row |
| Store.Database.InsertSong | src/services/songService.js:17-26 | 23503 for an album id that names no album, else stores the row |
| Store.Database.UpdateSong | src/services/songService.js:70-78 | reports whether the song exists; 23503 for an unknown album id; otherwise replaces the row |
| Store.Database.DeleteSong | migrations/1757799667787_create-table-playlist-songs.js:32-39 | removes the song and, by cascade, its playlist memberships and activities |
| Store.Database.InsertAlbum | src/services/albumsService.js:21-27 | stores the album under its fresh id |
| Store.Database.UpdateAlbum | src/services/albumsService.js:58-63 | reports whether the album exists; changes only its name and year |
| Store.Database.UpdateAlbumCover | src/services/albumsService.js:78-82 | reports whether the album exists; changes only its cover |
| Store.Database.DeleteAlbum | migrations/1758501452506_create-table-user-album-likes.js:26-28 | removes the album and, by cascade, its likes |
| Store.Database.InsertLike | migrations/1758501452506_create-table-user-album-likes.js:23-32 | 23505 for a repeated (user, album) pair, then 23503 for a missing user or album, else appends the row |
| Store.Database.DeleteLike | src/services/albumsService.js:146-150 | reports whether the user liked the album; the table loses exactly that like |
| Caching.Cache.constructor | src/services/cacheService.js:5-15 | a new cache is empty |
| Caching.Cache.Set | src/services/cacheService.js:14-23 | SET … EX 1800: a GET of the key returns the value at every second before the expiry 1800 s later and nothing from then on; every other key reads as before |
| Caching.Cache.Delete | src/services/cacheService.js:25-27 | DEL: no GET of the key finds a value any more; every other key reads as before |
| ActivityLog.JoinActivitiesComplete | src/services/playlistActivitiesService.js:19-32 | when every activity's user and song exist, the join keeps every activity, in order, as (username, title, action, time) |
| ActivityLog.ActivitiesOfComplete | src/services/playlistActivitiesService.js:19-32 | one entry per activity of the playlist, in non-decreasing time |
| ActivityLog.LogGrowsByOne | src/services/playlistActivitiesService.js:9-17 | logging an activity adds one entry at the end of that playlist's listing and leaves other playlists' listings unchanged |
| ActivityLog.PlaylistActivitiesService.AddActivity | src/services/playlistActivitiesService.js:9-17 | succeeds exactly when playlist, song and user exist; appends the activity with id "activity-" + nonce |
| ActivityLog.PlaylistActivitiesService.GetActivities | src/services/playlistActivitiesService.js:19-32 | the playlist's activities, all of them, in time order |
| Collaborations.RemovedCollaborator | src/services/collaborationService.js:46-52 | removing (p, u) changes the collaborator status of that pair only |
| Collaborations.AddThenRemoveCollaborator | src/services/collaborationService.js:28-52 | adding a new pair and then removing it gives back the table it started from |
| Collaborations.CollaborationsService.EnsureUserExists | src/services/collaborationService.js:12-18 | ok exactly when the user exists, otherwise NotFound |
| Collaborations.CollaborationsService.EnsurePlaylistExists | src/services/collaborationService.js:20-26 | ok exactly when the playlist exists, otherwise NotFound |
| Collaborations.CollaborationsService.AddCollaboration | src/services/collaborationService.js:28-44 | playlist checked first, then user, then the pair must be new (a repeated pair is "Kolaborator sudah terdaftar"); on success the pair is a collaboration with id "collab-" + nonce and no other table changes; on failure nothing changes |
| Collaborations.CollaborationsService.DeleteCollaboration | src/services/collaborationService.js:46-52 | ok exactly when the pair existed, NotFound otherwise; afterwards u is not a collaborator of p |
| Collaborations.CollaborationsService.VerifyCollaborator | src/services/collaborationService.js:54-61 | ok exactly when u collaborates on p, otherwise an Authorization error |
| Playlists.InsertByNameSorted | src/services/playlistService.js:45 | inserting into a name-sorted list keeps it sorted |
| Playlists.SortByNameSorted | src/services/playlistService.js:45 | `ORDER BY name ASC` yields a list sorted by name, a permutation of its input |
| Playlists.SortKeepsIdsDistinct | src/services/playlistService.js:39 | sorting keeps the ids distinct, as `UNION` leaves them |
| Playlists.PlaylistsOfSpec | src/services/playlistService.js:32-50 | the listing is sorted by name with distinct ids; a playlist is in it exactly when the user owns it or collaborates on it; every entry comes from a playlist row |
| Playlists.SongsOfSpec | src/services/playlistService.js:141-150 | the playlist's songs, one per membership, in `created_at` order, no song twice, exactly the songs in the playlist |
| Playlists.SongListGrowsByOne | src/services/playlistService.js:97-103 | adding a membership appends one song to that playlist's list and leaves other playlists' lists unchanged |
| Playlists.RemovedMembership | src/services/playlistService.js:115-123 | removing (p, s) changes the membership of that pair only |
| Playlists.AddThenRemoveSong | src/services/playlistService.js:91-126 | adding a new song and then removing it gives back the table it started from |
| Playlists.CascadeLeavesNoOrphans | migrations/1757825393455_create-collaborations-table.js:23-30 | after the cascade no collaboration, membership or activity refers to the deleted playlist, and every collaboration, membership and activity of another playlist stays |
| Playlists.PlaylistsService.constructor | src/services/playlistService.js:8-12 | the collaboration and activity services are optional and share the database |
| Playlists.PlaylistsService.AddPlaylist | src/services/playlistService.js:14-30 | succeeds exactly when the owner is a user; the new playlist "playlist-" + nonce is appended |
| Playlists.PlaylistsService.GetPlaylistsByOwner | src/services/playlistService.js:32-50 | owned and collaborated playlists, each once, sorted by name |
| Playlists.PlaylistsService.DeletePlaylistById | src/services/playlistService.js:52-58 | NotFound for an unknown id; otherwise the playlist and everything that refers to it are gone |
| Playlists.PlaylistsService.VerifyPlaylistOwner | src/services/playlistService.js:60-69 | NotFound for an unknown playlist; ok exactly when u is the owner; Authorization error otherwise |
| Playlists.PlaylistsService.VerifyPlaylistAccess | src/services/playlistService.js:71-81 | ok exactly when u is the owner or, with collaborations configured, a collaborator; NotFound is not masked |
| Playlists.PlaylistsService.VerifySongExists | src/services/playlistService.js:83-89 | ok exactly when the song exists |
| Playlists.PlaylistsService.AssertPlaylistExists | src/services/playlistService.js:163-169 | ok exactly when the playlist exists |
| Playlists.PlaylistsService.AddSongToPlaylist | src/services/playlistService.js:91-112 | playlist, then song, then a duplicate check (a duplicate is "Lagu sudah ada di playlist"): each failure leaves the database unchanged; on success the song is appended and, with activities configured, an "add" activity by u is logged |
| Playlists.PlaylistsService.DeleteSongFromPlaylist | src/services/playlistService.js:114-126 | NotFound when the song is not in the playlist; otherwise exactly that membership is removed and a "delete" activity by u is logged when activities are configured |
| Playlists.PlaylistsService.GetPlaylistWithSongs | src/services/playlistService.js:128-156 | NotFound for an unknown playlist; otherwise id, name, owner's username and the songs in order |
| Playlists.PlaylistsService.GetPlaylistActivities | src/services/playlistService.js:158-161 | fails exactly when no activity service is configured; otherwise the activity listing |
| Songs.MapSongRow | src/services/songService.js:6 | the row gets an `albumId` key, holding the row's own `albumId` when it has one and null when it has none; every other key keeps its value |
| Songs.MapSongRowIdempotent | src/services/songService.js:6 | mapping twice is mapping once; an existing `albumId` is kept |
| Songs.AlbumIdLostAsWritten | src/services/songService.js:54-62 | as written, a song stored with an album is returned with `albumId: null`, and the album id sits under `album_id` |
| Songs.SongByIdSpec | src/services/songService.js:54-62 | found exactly for stored songs; the object carries the stored fields and the stored album id as `albumId` |
| Songs.Patterns | src/services/songService.js:40-44 | one `%…%` pattern per active filter, in order |
| Songs.ClausesAppend | src/services/songService.js:39-46 | one more filter appends one `AND … ILIKE $n` clause numbered after the earlier ones |
| Songs.BuildSongsQuery | src/services/songService.js:35-48 | the text is the base query, one numbered clause per truthy filter (title before performer), then `ORDER BY id`; the parameters are their patterns |
| Songs.EmptyFiltersSelectAll | src/services/songService.js:35-48 | the search has no condition exactly when neither filter is truthy; then the query selects every song ordered by id, with no parameters |
| Songs.SongsService.AddSong | src/services/songService.js:13-33 | succeeds exactly when the album id is absent or names an album, and then only the song is added; otherwise the 23503 of the insert becomes "albumId tidak ditemukan" and nothing changes |
| Songs.SongsService.GetSongById | src/services/songService.js:54-62 | NotFound exactly for unknown ids; otherwise the song with its stored album id |
| Songs.SongsService.EditSongById | src/services/songService.js:64-83 | NotFound for an unknown song; the 23503 of an unknown album becomes "albumId tidak ditemukan"; else only the row is replaced |
| Songs.SongsService.DeleteSongById | src/services/songService.js:85-91 | NotFound for an unknown song; otherwise the song and its memberships and activities are gone |
| Storage.FirstTruthy | src/services/storageService.js:7-17 | `a \|\| b \|\| …`: nothing exactly when every candidate is falsy, otherwise the first truthy one |
| Storage.ResolveSettings | src/services/storageService.js:6-36 | fails exactly when bucket or region is set nowhere; otherwise the first truthy source of each, the ACL flag, and the base path with "covers" as default |
| Storage.EmptyVariableFallsThrough | src/services/storageService.js:10-11 | an empty S3_BUCKET_NAME does not count: the AWS_BUCKET_NAME value is used |
| Storage.MaskRuns | src/services/storageService.js:40 | the result uses only letters, digits, `-` and `_` |
| Storage.SafeNameShape | src/services/storageService.js:38-43 | a safe name uses only letters, digits, `-` and `_`, has no `--`, and neither starts nor ends with `-` |
| Storage.SafeNameIdempotent | src/services/storageService.js:38-43 | sanitising a safe name changes nothing |
| Storage.ExtFromContentType | src/services/storageService.js:45-53 | the extension is always one of jpg, png, webp, bin |
| Storage.ExtensionChoice | src/services/storageService.js:45-53 | the four image types map, in any letter case, to their extension, and every other type maps to bin |
| Storage.ExtAsWrittenLeaksPrototype | src/services/storageService.js:52 | as written, "constructor" and "__proto__" give the text of an inherited member instead of bin |
| Storage.ExtAsWrittenAgreesElsewhere | src/services/storageService.js:45-53 | on every other content type the lookup as written agrees with the corrected one |
| Storage.CoverFileNameShape | src/services/storageService.js:55-58 | the file name contains no `/`, so the key adds exactly one segment to `basePath`; it is never empty and never starts with `-` |
| Storage.CoverKeysDifferInTime | src/services/storageService.js:55-60 | for one album and content type, keys built at different times differ |
| Storage.EncodeChar | src/services/storageService.js:101 | an unreserved character stays as it is; any other becomes at least one `%XX` escape |
| Storage.EncodeUriComponent | src/services/storageService.js:101-103 | the output is never shorter and uses only unreserved characters and `%` |
| Storage.EncodeIdentity | src/services/storageService.js:101-103 | encoding leaves a text unchanged exactly when it is all unreserved characters |
| Storage.SlashIsEscaped | src/services/storageService.js:101-103 | the encoding of any text contains no `/`, and each `/` of a key becomes `%2F` between the encodings of its two sides |
| Storage.PublicUrl | src/services/storageService.js:100-104 | the URL is the bucket's virtual-hosted origin followed by one path segment, the encoded key |
| Storage.DecodeEncode | src/services/storageService.js:114 | decoding the encoding of any text gives the text back |
| Storage.ExtractKeyOfPublicUrl | src/services/storageService.js:111-118 | for a bucket and region without URL delimiters, the key extracted from a key's public URL is that key |
| Storage.UploadedUrlNamesKey | src/services/storageService.js:71-98 | for a bucket and region without URL delimiters, extracting the key from the URL a successful upload returns gives back the uploaded key |
| Server.StartupPutsArePrivate | src/services/storageService.js:76-83 | every PutObject of the running server names the configured bucket, the key and the content type, and carries no public-read ACL |
| Albums.CacheKeysDistinct | src/services/albumsService.js:13-15 | album-detail and like-count keys never collide, and each names one album |
| Albums.ToNumberOfString | src/services/albumsService.js:164-173 | a count cached as `String(n)` reads back as n |
| Albums.SongsOfAlbumSpec | src/services/albumsService.js:45-48 | the album's songs are exactly the songs whose album id is that album, each listed once; no song is listed under two albums |
| Albums.CoherenceWithAlbum | src/services/albumsService.js:50-52 | caching the album read from the tables keeps the cache coherent |
| Albums.CoherenceWithCount | src/services/albumsService.js:167-173 | caching the counted likes keeps the cache coherent |
| Albums.UnlikeCount | src/services/albumsService.js:146-150 | removing a like lowers that album's count by one when the user had liked it, and leaves every other album's count unchanged |
| Albums.AlbumsService.AddAlbum | src/services/albumsService.js:17-30 | the album "album-" + nonce is stored without a cover; the cache stays coherent |
| Albums.AlbumsService.GetAlbumById | src/services/albumsService.js:32-54 | found exactly for stored albums; a live cache entry is returned as is; otherwise the album read from the tables is cached for 1800 s |
| Albums.AlbumsService.EditAlbumById | src/services/albumsService.js:56-65 | NotFound for unknown ids; otherwise name and year change and the album's cache entry is dropped |
| Albums.AlbumsService.DeleteAlbumById | src/services/albumsService.js:67-74 | NotFound for unknown ids; otherwise album and likes are gone and the cache entry is dropped |
| Albums.AlbumsService.UpdateAlbumCoverUrlById | src/services/albumsService.js:76-84 | NotFound for unknown ids; otherwise only the cover changes and the cache entry is dropped |
| Albums.AlbumsService.SetAlbumCover | src/services/albumsService.js:86-116 | NotFound first; then the upload's outcome; on success the cover is the new public URL, and a truthy old cover's key is asked to be deleted (exactly that key when it was a public URL of this bucket; no DeleteObject for a falsy key) |
| Albums.AlbumsService.VerifyAlbumExists | src/services/albumsService.js:118-124 | ok exactly when the album exists |
| Albums.AlbumsService.LikeAlbum | src/services/albumsService.js:126-142 | NotFound, then "already liked", then 23503 for an unknown user; on success the count rises by one and the cached count is dropped |
| Albums.AlbumsService.UnlikeAlbum | src/services/albumsService.js:144-153 | NotFound, then "not liked"; on success the count falls by one and the cached count is dropped |
| Albums.AlbumsService.GetAlbumLikesCount | src/services/albumsService.js:159-175 | the number of likes in the table, whether read from the cache or counted; `fromCache` exactly when a live cached count existed |
| PlaylistsApi.PlaylistsHandler.PostPlaylist | src/api/playlists/handler.js:10-20 | the payload is validated before anything changes; 201 with the id of the new playlist owned by the caller, and no other table changes |
| PlaylistsApi.PlaylistsHandler.GetPlaylists | src/api/playlists/handler.js:22-33 | 200 with the caller's owned and collaborated playlists, sorted by name |
| PlaylistsApi.PlaylistsHandler.DeletePlaylistById | src/api/playlists/handler.js:35-43 | only the owner deletes; anyone else gets NotFound or Authorization and nothing changes; on success the playlist goes with exactly its collaborations, songs and activities, and no other table changes |
| PlaylistsApi.PlaylistsHandler.PostSongToPlaylist | src/api/playlists/handler.js:45-68 | validate, authorise, check the song, add: each earlier failure and a duplicate song leave the database unchanged; otherwise the song is appended and an "add" activity by the caller is logged when activities are configured, no other table changes, and the reply is 201 unless logging failed |
| PlaylistsApi.PlaylistsHandler.GetSongsFromPlaylist | src/api/playlists/handler.js:70-82 | ok exactly for the owner or a collaborator, with the playlist and its songs |
| PlaylistsApi.PlaylistsHandler.DeleteSongFromPlaylist | src/api/playlists/handler.js:84-100 | validate, authorise, then remove exactly that membership and log a "delete" activity by the caller when activities are configured; no other table changes; a refused caller or a song not in the playlist changes nothing |
| PlaylistsApi.PlaylistsHandler.GetPlaylistActivities | src/api/playlists/handler.js:102-120 | ok exactly for the owner or a collaborator when activities are configured; the reply echoes the playlist id |
| CollaborationsApi.CollaborationsHandler.PostCollaboration | src/api/collaborations/handler.js:12-29 | validate, then owner only: a collaborator cannot grant access; then an unknown user is NotFound and a repeated pair an InvariantError; 201 with exactly the new collaboration's id and only that row added; any failure changes nothing |
| CollaborationsApi.CollaborationsHandler.DeleteCollaboration | src/api/collaborations/handler.js:31-40 | validate, then owner only; any failure changes nothing; on success exactly that pair is removed and no other table changes |
| AlbumsApi.AllowedCoverExtension | src/api/albums/handler.js:50-51 | every allowlisted content type maps to an image extension, never bin, and never reaches the prototype names |
| AlbumsApi.AlbumsHandler.PostAlbum | src/api/albums/handler.js:12-21 | validated first; 201 with the id of the new album, and no other table changes |
| AlbumsApi.AlbumsHandler.GetAlbumById | src/api/albums/handler.js:23-27 | 200 with the album exactly when it exists |
| AlbumsApi.AlbumsHandler.PutAlbumById | src/api/albums/handler.js:29-36 | validated first; name and year change exactly when the album exists, and no other table changes |
| AlbumsApi.AlbumsHandler.DeleteAlbumById | src/api/albums/handler.js:38-42 | the album is gone with exactly its likes, and no other table changes |
| AlbumsApi.AlbumsHandler.PostAlbumCover | src/api/albums/handler.js:44-59 | a missing file, then a type outside the allowlist, are rejected before the album is looked up and change nothing; on success 201, a non-bin extension, the new cover and no other table changed, and the request to delete the object of a truthy old cover |
| AlbumsApi.AlbumsHandler.PostLikeAlbum | src/api/albums/handler.js:61-69 | NotFound, then "already liked", then 23503 for an unknown caller, each changing nothing; otherwise 201, exactly the caller's like is appended and the count rises by one |
| AlbumsApi.AlbumsHandler.DeleteLikeAlbum | src/api/albums/handler.js:71-76 | NotFound, then "not liked", each changing nothing; otherwise the caller's like is removed, no other table changes, and the count falls by one |
| AlbumsApi.AlbumsHandler.GetAlbumLikes | src/api/albums/handler.js:78-84 | 200 with the true count; the `X-Data-Source: cache` header exactly when the count came from the cache |
| Server.OnPreResponse | src/server.js:46-84 | values pass through; a ClientError keeps its code; a 'fail' comes only from a ClientError or a 4xx; an 'error' is always the generic 500 |
| Server.BoomClientErrors | src/server.js:65-80 | a Boom 4xx that is neither a ClientError nor a Joi error keeps its code; a 404 gets the fixed not-found message, any other its own message or the bad-request fallback |
| Server.JoiIsBadRequest | src/server.js:59-63 | a Joi error that is not a ClientError is a 400 |
| Server.OtherErrorsAreHidden | src/server.js:65-83 | a non-client error outside 4xx gets the generic 500 message |
| Server.Thrown | src/server.js:50-65 | NotFound, Authorization and Invariant failures are ClientErrors; none is a Joi error; every one reaches the extension as a Boom 500, since none was a Boom when thrown |
| Server.FailureReply | src/server.js:46-84 | NotFound is 404, Authorization 403, Invariant 400, each with its message; a database error or a plain Error is the generic 500, so no SQLSTATE is sent |
| Server.ListensPubliclyOnlyWhenAsked | src/server.js:40-42 | the server listens on every interface exactly when HOST says 0.0.0.0, or HOST is unset and NODE_ENV is exactly 'production'; unset HOST otherwise means localhost |
| Server.StartupStorageSettings | src/server.js:87 | the server's covers are private and stored under "covers"; without bucket or region it does not start |

## Findings

| source | as written | input that shows it | evidently intended | confidence | as-written member | corrected member |
|---|---|---|---|---|---|---|
| src/services/storageService.js:45-53 | `map[key] \|\| 'bin'` looks the lower-cased content type up on a plain object literal, so names inherited from `Object.prototype` are found too | content type "constructor" (or "Constructor", "__proto__") gives the extension "function Object() { [native code] }" (or "[object Object]") instead of "bin" | only the four listed types have an extension; every other type maps to "bin" | medium, not executed | Storage.ExtAsWritten, Storage.ExtAsWrittenLeaksPrototype | Storage.ExtFromContentType, Storage.ExtensionChoice |
| src/services/songService.js:54-62 | `getSongById` selects the column `album_id` without an alias, and `mapSongRow` (line 6) reads `albumId`, which is then always absent | a song stored with album "album-1" is returned with `albumId: null` (and an extra `album_id: "album-1"`) | the song's album id is returned as `albumId` | high, not executed | Songs.SongByIdAsWritten, Songs.AlbumIdLostAsWritten | Songs.SongById, Songs.SongByIdSpec |

The cover route's allowlist (src/api/albums/handler.js:50-52) lets none of the prototype names through, so the first finding cannot be reached through the route (`AlbumsApi.AllowedCoverExtension`). It can be reached through any other caller of the storage service.

## Left out

- **SQL and drivers.** No SQL text is parsed or executed, and the `pg` Pool is not modelled. Each statement is a `Database` method whose effect is stated directly. The `getSongs` query is modelled as the text and parameters it builds; its `ILIKE` matching and `ORDER BY id` execution are not.
- **Concurrency.** Requests run one at a time. Two concurrent requests that pass the same check before either writes are not modelled.
- **Unreachable failure paths.** The `INSERT … RETURNING id` branches at src/services/playlistService.js:28, src/services/albumsService.js:28 and src/services/songService.js:27 cannot fail without an exception, so they are not modelled.
- **Timestamps.** `created_at`/`updated_at` columns that nothing reads are not stored. `playlist_songs.created_at` and the activity time are stored because results are ordered by them.
- **Orderings.** `ORDER BY name` compares by code point, not by a database collation. Ties are broken by insertion order.
- **The songs→albums foreign key.** The migration that creates `songs` and `albums` is not part of this model. The key is checked on insert and update (23503), but deleting an album neither cascades to nor clears `songs.album_id`.
- Albums.AlbumsService.GetAlbumById: the songs inside a cached album detail are not kept coherent. The source never invalidates the album entry when songs change. The cache-coherence invariant therefore covers only the album's own columns, and a cache hit promises only that those match the table.
- **Redis.** A TTL is an expiry time compared with a `now` parameter. An entry evicted early is modelled by `Caching.Cache.Delete`. Redis client errors, and the connection set-up, are not modelled.
- Caching.Cache.Set: the optional `ttl` argument of `set` is not a parameter; every caller in the source leaves it at the default of 1800 s.
- **Values the service stores as is.** `JSON.stringify`/`JSON.parse` of an album are taken as the identity. `Number(s)` is modelled for decimal numerals and the empty text, which are the only texts the service stores.
- **S3.** No network, credentials or `S3Client` are modelled. `_streamToBuffer` (src/services/storageService.js:62-69) and the `Body`/`ContentLength` of `PutObject` are not modelled. A failed `PutObject` is an `Outcome` parameter, and the `DeleteObject` call becomes the returned request (its failure is ignored in the source).
- Storage.BuildKeyForAlbumCover: `path.posix.join` is modelled as joining with one `/`. The normalisation `join` applies to `.` and `..` segments, and to repeated or trailing slashes in `basePath`, is not modelled.
- **Letter case.** `toLowerCase` is modelled for ASCII letters only.
- **URL parsing.** `new URL` is modelled for `http:`/`https:` URLs only, and its pathname is the text from the first `/` after the authority to the first `?` or `#`. Every other scheme yields no key, where WHATWG URL parsing could yield one. Backslashes, which that parser reads as slashes in `http(s)` URLs, and host normalisation are not modelled. Nor is the removal of `.` and `..` path segments: the pathname of a URL whose encoded key is `.`, `..` or a percent-encoded form of them (`%2E`) is taken as is, where the WHATWG parser would drop or collapse that segment. So for the keys `.` and `..` the real round trip of `Storage.ExtractKeyOfPublicUrl` and `Storage.UploadedUrlNamesKey` gives back the empty key; no cover key is one of them, since each contains a `/`. `Storage.ExtractKeyOfPublicUrl` needs a bucket and region free of `/`, `?` and `#`.
- **Validators.** The Joi payload validators (src/validator) are not part of this model. Their verdict is a parameter.
- **Exception classes.** The exception classes are not part of this model. NotFoundError, AuthorizationError and InvariantError are taken as ClientErrors with codes 404, 403 and 400.
- **Other server set-up.** JWT authentication, the plugin and route registration, CORS and `server.start` in src/server.js are not modelled. The caller's id is a parameter.
- **Exports.** The exports route and `producerservice.js` (message-queue producer) are not modelled.
- **Handler feature detection.** The playlist handlers' fallbacks for a service without `verifyPlaylistAccess` or `getPlaylistsByUser` (src/api/playlists/handler.js:26-30, 52-56) are not modelled. The service modelled always has the former and never the latter.
- **Clock.** `Date.now()` is a natural-number parameter in milliseconds.
