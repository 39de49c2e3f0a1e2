/** The server's own logic: the onPreResponse extension that turns a thrown error into an HTTP reply,
    the listening port and host, and the storage settings the server starts with. */
module Server {
  import opened Outcomes
  import opened Storage

  const ServerFailure := "Maaf, terjadi kegagalan pada server kami."
  const BadRequest := "Permintaan tidak valid"
  const InvalidData := "Data tidak valid"
  const ResourceNotFound := "Resource tidak ditemukan"

  /** What a thrown error offers the extension: clientStatus is the statusCode of a ClientError (None
      when the error is not one), isJoi the flag of a Joi validation error, boomStatus the
      output.statusCode of a Boom error (None when the error is not a Boom). */
  datatype ThrownError = ThrownError(clientStatus: Option<int>, message: string, isJoi: bool, boomStatus: Option<int>)

  /** The response a route produced: a value, or an error it threw. */
  datatype Outgoing = Value | Error(error: ThrownError)

  /** What the extension does: let the response through, or replace it by a reply with that status
      code, status word and message. */
  datatype PreResponse = Continue | Respond(code: int, status: string, message: string)

  /** The error's message, or the fallback when the message is empty. */
  function MessageOr(e: ThrownError, fallback: string): (m: string)
    ensures e.message != "" ==> m == e.message
    ensures e.message == "" ==> m == fallback
  {
    if e.message != "" then e.message else fallback
  }

  /** onPreResponse: a ClientError keeps its status code, a Joi error becomes 400, a Boom 404 gets a
      fixed message and any other Boom 4xx keeps its code, all with status 'fail'; everything else is
      a 500 with status 'error' and a message that tells nothing about the error. */
  function OnPreResponse(out: Outgoing): (r: PreResponse)
    ensures r.Continue? <==> out.Value?
    ensures r.Respond? ==> r.message != ""
    ensures r.Respond? ==> (r.status == "fail" || r.status == "error")
    ensures r.Respond? && r.status == "error" ==> r.code == 500 && r.message == ServerFailure
    ensures r.Respond? && r.status == "fail" ==> out.error.clientStatus.Some? || 400 <= r.code < 500
    ensures out.Error? && out.error.clientStatus.Some? ==> r.code == out.error.clientStatus.value && r.status == "fail"
  {
    match out
    case Value => Continue
    case Error(e) =>
      if e.clientStatus.Some? then Respond(e.clientStatus.value, "fail", MessageOr(e, BadRequest))
      else if e.isJoi then Respond(400, "fail", MessageOr(e, InvalidData))
      else if e.boomStatus == Some(404) then Respond(404, "fail", ResourceNotFound)
      else if e.boomStatus.Some? && 400 <= e.boomStatus.value < 500 then Respond(e.boomStatus.value, "fail", MessageOr(e, BadRequest))
      else Respond(500, "error", ServerFailure)
  }

  /** A Joi error that is not a ClientError is a 400 whatever Boom status it carries. */
  lemma JoiIsBadRequest(e: ThrownError)
    requires e.clientStatus.None? && e.isJoi
    ensures OnPreResponse(Error(e)) == Respond(400, "fail", MessageOr(e, InvalidData))
  {
  }

  /** A Boom 4xx that is neither a ClientError nor a Joi error keeps its status code with status
      'fail'; a 404 always carries the fixed not-found message, whatever message it had. */
  lemma BoomClientErrors(e: ThrownError)
    requires e.clientStatus.None? && !e.isJoi
    requires e.boomStatus.Some? && 400 <= e.boomStatus.value < 500
    ensures OnPreResponse(Error(e)).code == e.boomStatus.value
    ensures OnPreResponse(Error(e)) == if e.boomStatus.value == 404 then Respond(404, "fail", ResourceNotFound)
                                        else Respond(e.boomStatus.value, "fail", if e.message != "" then e.message else BadRequest)
  {
  }

  /** A Boom error outside 4xx that is neither a ClientError nor a Joi error is answered with the
      generic 500, so its message never reaches the client. */
  lemma OtherErrorsAreHidden(e: ThrownError)
    requires e.clientStatus.None? && !e.isJoi
    requires e.boomStatus.None? || !(400 <= e.boomStatus.value < 500)
    ensures OnPreResponse(Error(e)) == Respond(500, "error", ServerFailure)
  {
  }

  /** The status codes of the error classes the services throw: NotFoundError 404,
      AuthorizationError 403, InvariantError 400 (all ClientError subclasses). */
  const NotFoundStatus := 404
  const AuthorizationStatus := 403
  const InvariantStatus := 400

  /** The error object a service failure reaches the extension as. hapi wraps every thrown error as a
      Boom; one that is not already a Boom gets status 500, and no service error is one, ClientErrors
      included. Database errors and plain Errors are not ClientErrors; the message of a database
      error is represented by its SQLSTATE. */
  function Thrown(f: Failure): (e: ThrownError)
    ensures e.clientStatus.Some? <==> f.NotFound? || f.Authorization? || f.Invariant?
    ensures !e.isJoi
    ensures e.boomStatus == Some(500)
  {
    match f
    case NotFound(m) => ThrownError(Some(NotFoundStatus), m, false, Some(500))
    case Authorization(m) => ThrownError(Some(AuthorizationStatus), m, false, Some(500))
    case Invariant(m) => ThrownError(Some(InvariantStatus), m, false, Some(500))
    case Database(code) => ThrownError(None, code, false, Some(500))
    case Plain(m) => ThrownError(None, m, false, Some(500))
  }

  /** The reply for a service failure: NotFound is a 404, Authorization a 403, Invariant a 400, each
      carrying the service's own message when it has one; a database error or a plain Error is the
      generic 500, so neither the SQLSTATE nor the message of a plain Error is ever sent. */
  lemma FailureReply(f: Failure)
    ensures f.NotFound? ==> OnPreResponse(Error(Thrown(f))) == Respond(404, "fail", if f.message != "" then f.message else BadRequest)
    ensures f.Authorization? ==> OnPreResponse(Error(Thrown(f))) == Respond(403, "fail", if f.message != "" then f.message else BadRequest)
    ensures f.Invariant? ==> OnPreResponse(Error(Thrown(f))) == Respond(400, "fail", if f.message != "" then f.message else BadRequest)
    ensures f.Database? || f.Plain? ==> OnPreResponse(Error(Thrown(f))) == Respond(500, "error", ServerFailure)
  {
    match f
    case Database(_) => OtherErrorsAreHidden(Thrown(f));
    case Plain(_) => OtherErrorsAreHidden(Thrown(f));
    case _ =>
  }

  /** The listening port: PORT as given (a string, kept even when empty, since ?? only replaces an
      absent value), otherwise the number 5000. */
  datatype Port = PortText(text: string) | PortNumber(number: int)

  function ListenPort(env: Env): (p: Port)
    ensures p.PortNumber? <==> "PORT" !in env
    ensures p.PortNumber? ==> p.number == 5000
    ensures p.PortText? ==> p.text == env["PORT"]
  {
    if "PORT" in env then PortText(env["PORT"]) else PortNumber(5000)
  }

  /** The listening host: HOST when set (even empty); otherwise 0.0.0.0 when NODE_ENV is exactly
      'production', localhost in every other case. */
  function ListenHost(env: Env): (h: string)
    ensures "HOST" in env ==> h == env["HOST"]
    ensures "HOST" !in env ==> (h == "0.0.0.0" <==> "NODE_ENV" in env && env["NODE_ENV"] == "production")
    ensures "HOST" !in env ==> (h == "0.0.0.0" || h == "localhost")
  {
    if "HOST" in env then env["HOST"]
    else if "NODE_ENV" in env && env["NODE_ENV"] == "production" then "0.0.0.0"
    else "localhost"
  }

  /** The server listens on every interface only when HOST says so or NODE_ENV is exactly
      'production'; in every other case it listens on localhost. */
  lemma ListensPubliclyOnlyWhenAsked(env: Env)
    ensures ListenHost(env) == "0.0.0.0"
            <==> (|| ("HOST" in env && env["HOST"] == "0.0.0.0")
                  || ("HOST" !in env && "NODE_ENV" in env && env["NODE_ENV"] == "production"))
    ensures "HOST" !in env && ListenHost(env) != "0.0.0.0" ==> ListenHost(env) == "localhost"
  {
  }

  /** The storage service the server builds: options that set only publicReadAcl = false, so bucket
      and region come from the configuration or the environment. */
  function StartupStorage(config: Option<S3Config>, env: Env): Outcome<StorageSettings> {
    ResolveSettings(Some(StorageOptions(None, None, None, false)), config, env)
  }

  /** Covers uploaded by the running server are private (no public-read ACL) and stored under
      'covers'; without a bucket or a region the server does not start. */
  lemma StartupStorageSettings(config: Option<S3Config>, env: Env)
    ensures StartupStorage(config, env).Ok? ==> && !StartupStorage(config, env).value.publicReadAcl
                                                && StartupStorage(config, env).value.basePath == "covers"
    ensures StartupStorage(config, env).Fail? ==> StartupStorage(config, env).error == Plain(StorageNotConfigured)
  {
  }

  /** Every PutObject request of the running server goes to the configured bucket, under the key and
      content type of the upload, and without the public-read ACL. */
  lemma StartupPutsArePrivate(config: Option<S3Config>, env: Env, contentType: string, key: string)
    requires StartupStorage(config, env).Ok?
    ensures PutCommand(StartupStorage(config, env).value, contentType, key)
            == PutRequest(StartupStorage(config, env).value.bucket, key, contentType, None)
    ensures Some(PutCommand(StartupStorage(config, env).value, contentType, key).bucket)
            == FirstTruthy(BucketCandidates(Some(StorageOptions(None, None, None, false)), config, env))
  {
  }
}
