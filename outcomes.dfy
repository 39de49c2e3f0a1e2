/** Optional values, the errors the services throw, and the outcome of a service call. */
module Outcomes {

  datatype Option<+T> = None | Some(value: T)

  /** The errors a service call can end with. NotFound, Authorization and Invariant are the three
      ClientError subclasses (NotFoundError, AuthorizationError, InvariantError); Database is an error
      raised by the relational store, carrying its SQLSTATE code; Plain is any other Error. */
  datatype Failure =
    | NotFound(message: string)
    | Authorization(message: string)
    | Invariant(message: string)
    | Database(code: string)
    | Plain(message: string)

  /** A call either returns a value or throws a Failure. */
  datatype Outcome<+T> = Ok(value: T) | Fail(error: Failure)

  // SQLSTATE codes of the constraint violations the schema can raise.
  const UniqueViolation := "23505"
  const ForeignKeyViolation := "23503"

  // The messages the services and handlers put in their errors.
  const PlaylistNotFound := "Playlist tidak ditemukan"
  const SongNotFound := "Lagu tidak ditemukan"
  const UserNotFound := "User tidak ditemukan"
  const MembershipNotFound := "Lagu di playlist tidak ditemukan"
  const CollaboratorNotFound := "Kolaborator tidak ditemukan"
  const AccessDenied := "Anda tidak berhak mengakses resource ini"
  const SongAlreadyInPlaylist := "Lagu sudah ada di playlist"
  const CollaboratorAlreadyAdded := "Kolaborator sudah terdaftar"
  const ActivitiesUnavailable := "Fitur aktivitas belum tersedia"
  const AlbumNotFound := "Album tidak ditemukan"
  const AlreadyLiked := "Anda sudah menyukai album ini"
  const NotLiked := "Anda belum menyukai album ini"
  const AlbumIdNotFound := "albumId tidak ditemukan"
  const SongNotAdded := "Lagu gagal ditambahkan"
  const CoverRequired := "Berkas cover wajib diunggah"
  const CoverTypeRejected := "Tipe berkas harus gambar (jpg/png/webp)"
  const ContentTypeMissing := "Content-Type tidak terdeteksi"
  const StorageNotConfigured := "S3 bucket/region belum diset (S3_BUCKET_NAME & S3_REGION atau AWS_BUCKET_NAME & AWS_REGION)"
}
