/** The object-storage helpers the album cover upload relies on: settings resolution, file-name
    sanitising, the extension chosen from a content type, the object key of a cover, the public URL
    of an object, and the guards of upload and delete. The S3 calls themselves are outcomes passed in. */
module Storage {
  import opened Outcomes
  import opened Text

  // ---------------------------------------------------------------------------------------------
  // Settings

  datatype StorageOptions = StorageOptions(bucketName: Option<string>, region: Option<string>,
                                           basePath: Option<string>, publicReadAcl: bool)
  /** The s3 section of the application configuration. */
  datatype S3Config = S3Config(bucketName: Option<string>, region: Option<string>)
  /** The process environment: an absent name is undefined. */
  type Env = map<string, string>

  datatype StorageSettings = StorageSettings(bucket: string, region: string, publicReadAcl: bool, basePath: string)

  function EnvVar(env: Env, name: string): Option<string> {
    if name in env then Some(env[name]) else None
  }

  /** a || b || ...: the first truthy candidate. */
  function FirstTruthy(candidates: seq<Option<string>>): (r: Option<string>)
    ensures r.None? <==> forall i :: 0 <= i < |candidates| ==> !Truthy(candidates[i])
    ensures r.Some? ==> exists i :: 0 <= i < |candidates| && candidates[i] == r && Truthy(r)
                                    && forall j :: 0 <= j < i ==> !Truthy(candidates[j])
  {
    if candidates == [] then None
    else if Truthy(candidates[0]) then candidates[0]
    else
      var r := FirstTruthy(candidates[1..]);
      assert forall j :: 1 <= j < |candidates| ==> candidates[j] == candidates[1..][j - 1];
      r
  }

  function OptBucket(opts: Option<StorageOptions>): Option<string> {
    if opts.Some? then opts.value.bucketName else None
  }
  function OptRegion(opts: Option<StorageOptions>): Option<string> {
    if opts.Some? then opts.value.region else None
  }
  function ConfigBucket(config: Option<S3Config>): Option<string> {
    if config.Some? then config.value.bucketName else None
  }
  function ConfigRegion(config: Option<S3Config>): Option<string> {
    if config.Some? then config.value.region else None
  }

  /** The bucket candidates, most preferred first: options, configuration, S3_BUCKET_NAME, AWS_BUCKET_NAME. */
  function BucketCandidates(opts: Option<StorageOptions>, config: Option<S3Config>, env: Env): seq<Option<string>> {
    [OptBucket(opts), ConfigBucket(config), EnvVar(env, "S3_BUCKET_NAME"), EnvVar(env, "AWS_BUCKET_NAME")]
  }

  /** The region candidates, most preferred first: options, configuration, S3_REGION, AWS_REGION. */
  function RegionCandidates(opts: Option<StorageOptions>, config: Option<S3Config>, env: Env): seq<Option<string>> {
    [OptRegion(opts), ConfigRegion(config), EnvVar(env, "S3_REGION"), EnvVar(env, "AWS_REGION")]
  }

  /** The constructor of the storage service: bucket and region from the first source that sets them,
      an error when either is set nowhere, the public-read flag, and the key prefix (default "covers"). */
  function ResolveSettings(opts: Option<StorageOptions>, config: Option<S3Config>, env: Env): (r: Outcome<StorageSettings>)
    ensures r.Fail? <==> FirstTruthy(BucketCandidates(opts, config, env)).None?
                         || FirstTruthy(RegionCandidates(opts, config, env)).None?
    ensures r.Fail? ==> r.error == Plain(StorageNotConfigured)
    ensures r.Ok? ==> && Some(r.value.bucket) == FirstTruthy(BucketCandidates(opts, config, env))
                      && Some(r.value.region) == FirstTruthy(RegionCandidates(opts, config, env))
                      && r.value.bucket != "" && r.value.region != ""
                      && r.value.publicReadAcl == (opts.Some? && opts.value.publicReadAcl)
                      && r.value.basePath == (if opts.Some? && Truthy(opts.value.basePath) then opts.value.basePath.value else "covers")
  {
    var bucket := FirstTruthy(BucketCandidates(opts, config, env));
    var region := FirstTruthy(RegionCandidates(opts, config, env));
    if bucket.None? || region.None? then Fail(Plain(StorageNotConfigured))
    else
      var base := if opts.Some? then opts.value.basePath else None;
      Ok(StorageSettings(bucket.value, region.value, opts.Some? && opts.value.publicReadAcl,
                         if Truthy(base) then base.value else "covers"))
  }

  /** An empty S3_BUCKET_NAME does not count as set: the AWS_* name is used instead. */
  lemma EmptyVariableFallsThrough(env: Env)
    requires "S3_BUCKET_NAME" in env && env["S3_BUCKET_NAME"] == ""
    requires "AWS_BUCKET_NAME" in env && env["AWS_BUCKET_NAME"] != ""
    ensures FirstTruthy(BucketCandidates(None, None, env)) == Some(env["AWS_BUCKET_NAME"])
  {
    var c := BucketCandidates(None, None, env);
    assert c[1..][1..][1..] == [Some(env["AWS_BUCKET_NAME"])];
    assert FirstTruthy(c) == FirstTruthy(c[1..]) == FirstTruthy(c[1..][1..]) == FirstTruthy(c[1..][1..][1..]);
  }

  // ---------------------------------------------------------------------------------------------
  // _safeName

  /** The characters of [a-zA-Z0-9-_]. */
  predicate SafeChar(c: char) {
    ('a' <= c <= 'z') || ('A' <= c <= 'Z') || ('0' <= c <= '9') || c == '-' || c == '_'
  }

  predicate AllSafe(s: string) {
    forall i :: 0 <= i < |s| ==> SafeChar(s[i])
  }

  /** No two neighbouring characters are both '-'. (Stated over a pair of positions so that each
      instance needs both characters already at hand.) */
  ghost predicate NoDoubleDash(s: string) {
    forall i, j :: 0 <= i < j < |s| && j == i + 1 ==> !(s[i] == '-' && s[j] == '-')
  }

  predicate NoEdgeDash(s: string) {
    s != [] ==> s[0] != '-' && s[|s| - 1] != '-'
  }

  /** replace(/[^a-zA-Z0-9-_]+/g, '-'): each maximal run of other characters becomes one '-'.
      inRun says the previous character belonged to such a run. */
  function MaskRuns(s: string, inRun: bool): (r: string)
    ensures AllSafe(r)
  {
    if s == [] then []
    else if !SafeChar(s[0]) then (if inRun then [] else ['-']) + MaskRuns(s[1..], true)
    else [s[0]] + MaskRuns(s[1..], false)
  }

  /** replace(/-+/g, '-'): each run of '-' becomes one '-'. afterDash says the previous character
      written was a '-'. */
  function CollapseDashes(s: string, afterDash: bool): (r: string)
    ensures AllSafe(s) ==> AllSafe(r)
    ensures NoDoubleDash(r)
    ensures afterDash ==> r == [] || r[0] != '-'
  {
    if s == [] then []
    else if s[0] == '-' then
      var rest := CollapseDashes(s[1..], true);
      assert AllSafe(s) ==> AllSafe(s[1..]) by {
        if AllSafe(s) {
          forall i | 0 <= i < |s[1..]| ensures SafeChar(s[1..][i]) {
            assert s[1..][i] == s[i + 1];
          }
        }
      }
      (if afterDash then [] else ['-']) + rest
    else
      var rest := CollapseDashes(s[1..], false);
      assert AllSafe(s) ==> AllSafe(s[1..]) by {
        if AllSafe(s) {
          forall i | 0 <= i < |s[1..]| ensures SafeChar(s[1..][i]) {
            assert s[1..][i] == s[i + 1];
          }
        }
      }
      [s[0]] + rest
  }

  /** Drops the leading '-' characters. */
  function TrimStart(s: string): (r: string)
    ensures |r| <= |s| && r == s[|s| - |r|..]
    ensures r == [] || r[0] != '-'
  {
    if s != [] && s[0] == '-' then TrimStart(s[1..]) else s
  }

  /** Drops the trailing '-' characters. */
  function TrimEnd(s: string): (r: string)
    ensures |r| <= |s| && r == s[..|r|]
    ensures r == [] || r[|r| - 1] != '-'
  {
    if s != [] && s[|s| - 1] == '-' then TrimEnd(s[..|s| - 1]) else s
  }

  /** replace(/^[-]+|[-]+$/g, ''). */
  function TrimDashes(s: string): string {
    TrimEnd(TrimStart(s))
  }

  /** _safeName: the text with every run of characters outside [a-zA-Z0-9-_] made a single '-',
      runs of '-' collapsed, and '-' trimmed from both ends. */
  function SafeName(s: Option<string>): string {
    TrimDashes(CollapseDashes(MaskRuns(OrEmpty(s), false), false))
  }

  lemma SliceKeepsShape(s: string, i: nat, j: nat)
    requires i <= j <= |s|
    requires AllSafe(s) && NoDoubleDash(s)
    ensures AllSafe(s[i..j]) && NoDoubleDash(s[i..j])
  {
    var t := s[i..j];
    forall k | 0 <= k < |t| ensures SafeChar(t[k]) {
      assert t[k] == s[i + k];
    }
    forall k, l | 0 <= k && l == k + 1 && l < |t| ensures !(t[k] == '-' && t[l] == '-') {
      assert t[k] == s[i + k] && t[l] == s[i + l];
    }
  }

  /** The result of _safeName holds only [a-zA-Z0-9-_], never two '-' in a row, and neither starts
      nor ends with '-'; null, undefined and '' give ''. */
  lemma SafeNameShape(s: Option<string>)
    ensures AllSafe(SafeName(s)) && NoDoubleDash(SafeName(s)) && NoEdgeDash(SafeName(s))
    ensures !Truthy(s) ==> SafeName(s) == ""
  {
    TrimKeepsShape(CollapseDashes(MaskRuns(OrEmpty(s), false), false));
  }

  /** Trimming '-' from both ends keeps [a-zA-Z0-9-_] and single dashes, and leaves no '-' at either end. */
  lemma TrimKeepsShape(c: string)
    requires AllSafe(c) && NoDoubleDash(c)
    ensures AllSafe(TrimDashes(c)) && NoDoubleDash(TrimDashes(c)) && NoEdgeDash(TrimDashes(c))
  {
    var a := TrimStart(c);
    SliceKeepsShape(c, |c| - |a|, |c|);
    var b := TrimEnd(a);
    assert b == a[0..|b|];
    SliceKeepsShape(a, 0, |b|);
    assert b != [] ==> b[0] == a[0];
  }

  lemma {:induction false} MaskRunsKeepsSafe(s: string, inRun: bool)
    requires AllSafe(s)
    ensures MaskRuns(s, inRun) == s
  {
    if s != [] {
      assert AllSafe(s[1..]) by {
        forall i | 0 <= i < |s[1..]| ensures SafeChar(s[1..][i]) {
          assert s[1..][i] == s[i + 1];
        }
      }
      MaskRunsKeepsSafe(s[1..], false);
      assert s == [s[0]] + s[1..];
    }
  }

  lemma {:induction false} CollapseKeepsSingleDashes(s: string, afterDash: bool)
    requires NoDoubleDash(s)
    requires afterDash ==> s == [] || s[0] != '-'
    ensures CollapseDashes(s, afterDash) == s
  {
    if s != [] {
      assert NoDoubleDash(s[1..]) by {
        forall i, j | 0 <= i && j == i + 1 && j < |s[1..]| ensures !(s[1..][i] == '-' && s[1..][j] == '-') {
          assert s[1..][i] == s[i + 1] && s[1..][j] == s[j + 1];
        }
      }
      if s[0] == '-' {
        assert |s| > 1 ==> s[1] != '-' by {
          if |s| > 1 {
            assert !(s[0] == '-' && s[1] == '-');
          }
        }
        CollapseKeepsSingleDashes(s[1..], true);
      } else {
        CollapseKeepsSingleDashes(s[1..], false);
      }
      assert s == [s[0]] + s[1..];
    }
  }

  /** _safeName is idempotent. */
  lemma SafeNameIdempotent(s: Option<string>)
    ensures SafeName(Some(SafeName(s))) == SafeName(s)
  {
    var n := SafeName(s);
    SafeNameShape(s);
    assert OrEmpty(Some(n)) == n;
    MaskRunsKeepsSafe(n, false);
    CollapseKeepsSingleDashes(n, false);
  }

  // ---------------------------------------------------------------------------------------------
  // _extFromContentType

  /** The own properties of the extension table. */
  function ExtensionOf(key: string): Option<string> {
    if key == "image/jpeg" || key == "image/jpg" then Some("jpg")
    else if key == "image/png" then Some("png")
    else if key == "image/webp" then Some("webp")
    else None
  }

  /** The extension for a content type, compared without regard to ASCII letter case; 'bin' when the
      table has no entry. The key is looked up among the table's own entries only (see the findings). */
  function ExtFromContentType(ct: Option<string>): (ext: string)
    ensures ext == "jpg" || ext == "png" || ext == "webp" || ext == "bin"
  {
    var key := AsciiLower(OrEmpty(ct));
    if ExtensionOf(key).Some? then ExtensionOf(key).value else "bin"
  }

  /** The lookup as written: a plain object literal also answers for the names it inherits from
      Object.prototype. Lower-cased keys can only reach "constructor" (the Object function, whose
      text is "function Object() { [native code] }") and "__proto__" (Object.prototype, whose text
      is "[object Object]"); both are truthy, so they replace 'bin'. */
  function ExtAsWritten(ct: Option<string>): string {
    var key := AsciiLower(OrEmpty(ct));
    if ExtensionOf(key).Some? then ExtensionOf(key).value
    else if key == "constructor" then "function Object() { [native code] }"
    else if key == "__proto__" then "[object Object]"
    else "bin"
  }

  /** The content types of the table map, in any ASCII letter case, to their extension, and
      everything else maps to 'bin'. */
  lemma ExtensionChoice(ct: string)
    ensures AsciiLower(ct) == "image/jpeg" || AsciiLower(ct) == "image/jpg" ==> ExtFromContentType(Some(ct)) == "jpg"
    ensures AsciiLower(ct) == "image/png" ==> ExtFromContentType(Some(ct)) == "png"
    ensures AsciiLower(ct) == "image/webp" ==> ExtFromContentType(Some(ct)) == "webp"
    ensures ExtFromContentType(Some(ct)) == "bin" <==> ExtensionOf(AsciiLower(ct)).None?
  {
    if ct == "" {
      assert AsciiLower(ct) == "";
    }
  }

  /** Finding: "constructor" (in any letter case) yields the text of the Object function as the
      extension, not 'bin'. */
  lemma ExtAsWrittenLeaksPrototype()
    ensures ExtAsWritten(Some("constructor")) == "function Object() { [native code] }"
    ensures ExtAsWritten(Some("__proto__")) == "[object Object]"
    ensures ExtFromContentType(Some("constructor")) == "bin"
    ensures ExtFromContentType(Some("__proto__")) == "bin"
  {
    assert AsciiLower("constructor") == "constructor";
    assert AsciiLower("__proto__") == "__proto__";
  }

  /** The two lookups agree on every content type except the two inherited names. */
  lemma ExtAsWrittenAgreesElsewhere(ct: Option<string>)
    requires AsciiLower(OrEmpty(ct)) != "constructor" && AsciiLower(OrEmpty(ct)) != "__proto__"
    ensures ExtAsWritten(ct) == ExtFromContentType(ct)
  {
  }

  // ---------------------------------------------------------------------------------------------
  // buildKeyForAlbumCover

  /** The file name of a cover: the sanitised album id ('album' when that is empty), '-', the time
      in milliseconds, '.', the extension. */
  function CoverFileName(albumId: Option<string>, ct: Option<string>, now: nat): string {
    var safe := SafeName(albumId);
    (if safe == "" then "album" else safe) + "-" + NatToString(now) + "." + ExtFromContentType(ct)
  }

  /** The object key of a new cover: basePath, '/', the file name. */
  function BuildKeyForAlbumCover(settings: StorageSettings, albumId: Option<string>, ct: Option<string>, now: nat): (key: string)
    ensures key == settings.basePath + "/" + CoverFileName(albumId, ct, now)
  {
    settings.basePath + "/" + CoverFileName(albumId, ct, now)
  }

  /** The file name part never contains '/', so the key adds exactly one path segment to basePath;
      it never starts with '-', as the id part is never empty ('album' stands in for an empty one). */
  lemma CoverFileNameShape(albumId: Option<string>, ct: Option<string>, now: nat)
    ensures Avoids(CoverFileName(albumId, ct, now), {'/'})
    ensures CoverFileName(albumId, ct, now) != [] && CoverFileName(albumId, ct, now)[0] != '-'
  {
    var safe := SafeName(albumId);
    var id := if safe == "" then "album" else safe;
    SafeNameShape(albumId);
    IdPart(safe);
    FileNameShape(id, NatToString(now), ExtFromContentType(ct));
  }

  /** The id part of a cover's file name, the sanitised id or 'album', holds only [a-zA-Z0-9-_] and
      starts with something other than '-'. */
  lemma IdPart(safe: string)
    requires AllSafe(safe) && NoEdgeDash(safe)
    ensures var id := if safe == "" then "album" else safe;
            AllSafe(id) && id != [] && id[0] != '-'
  {
    if safe == "" {
      var a := "album";
      assert SafeChar(a[0]) && SafeChar(a[1]) && SafeChar(a[2]) && SafeChar(a[3]) && SafeChar(a[4]);
    }
  }

  /** A name made of safe characters, '-', a numeral, '.', and an extension holds no '/', and starts
      with the first character of its id part. */
  lemma FileNameShape(id: string, num: string, ext: string)
    requires AllSafe(id) && AllDigits(num) && id != []
    requires ext == "jpg" || ext == "png" || ext == "webp" || ext == "bin"
    ensures Avoids(id + "-" + num + "." + ext, {'/'})
    ensures (id + "-" + num + "." + ext)[0] == id[0]
  {
    var stops := {'/'};
    assert Avoids(id, stops) by {
      forall i | 0 <= i < |id| ensures id[i] != '/' {
        assert SafeChar(id[i]);
      }
    }
    assert Avoids(num, stops) by {
      forall i | 0 <= i < |num| ensures num[i] != '/' {
        assert IsDigit(num[i]);
      }
    }
    assert Avoids("-", stops) && Avoids(".", stops) && Avoids(ext, stops);
    AvoidsAppend(id, "-", stops);
    AvoidsAppend(id + "-", num, stops);
    AvoidsAppend(id + "-" + num, ".", stops);
    AvoidsAppend(id + "-" + num + ".", ext, stops);
  }

  /** Two texts of the form prefix + numeral + "." + extension that are equal have equal numerals. */
  lemma SameNumeral(p: string, a: string, b: string, e: string)
    requires p + a + "." + e == p + b + "." + e
    ensures a == b
  {
    assert |a| == |b|;
    assert a == (p + a + "." + e)[|p|..|p| + |a|];
    assert b == (p + b + "." + e)[|p|..|p| + |b|];
  }

  lemma KeyParts(base: string, id: string, n: string, e: string)
    ensures base + "/" + (id + "-" + n + "." + e) == base + "/" + id + "-" + n + "." + e
  {
  }

  /** Two covers of the same album and type get the same key only when uploaded at the same
      millisecond. */
  lemma CoverKeysDifferInTime(settings: StorageSettings, albumId: Option<string>, ct: Option<string>, t1: nat, t2: nat)
    ensures BuildKeyForAlbumCover(settings, albumId, ct, t1) == BuildKeyForAlbumCover(settings, albumId, ct, t2) ==> t1 == t2
  {
    if BuildKeyForAlbumCover(settings, albumId, ct, t1) == BuildKeyForAlbumCover(settings, albumId, ct, t2) {
      var safe := SafeName(albumId);
      var id := if safe == "" then "album" else safe;
      var e := ExtFromContentType(ct);
      KeyParts(settings.basePath, id, NatToString(t1), e);
      KeyParts(settings.basePath, id, NatToString(t2), e);
      SameNumeral(settings.basePath + "/" + id + "-", NatToString(t1), NatToString(t2), e);
      NatToStringInjective(t1, t2);
    }
  }

  // ---------------------------------------------------------------------------------------------
  // getPublicUrl and encodeURIComponent (section 19.2.6.5 of ECMA-262)

  /** The characters encodeURIComponent leaves as they are. */
  predicate Unreserved(c: char) {
    ('a' <= c <= 'z') || ('A' <= c <= 'Z') || ('0' <= c <= '9')
    || c == '-' || c == '_' || c == '.' || c == '!' || c == '~' || c == '*' || c == '\'' || c == '(' || c == ')'
  }

  predicate HexDigit(c: char) {
    ('0' <= c <= '9') || ('A' <= c <= 'F')
  }

  function HexChar(d: nat): (c: char)
    requires d < 16
    ensures HexDigit(c)
  {
    if d < 10 then ('0' as int + d) as char else ('A' as int + d - 10) as char
  }

  /** The UTF-8 encoding of one character. */
  function Utf8(c: char): (bytes: seq<nat>)
    ensures 1 <= |bytes| <= 4
    ensures forall i :: 0 <= i < |bytes| ==> bytes[i] < 256
    ensures |bytes| == 1 <==> c as int < 0x80
  {
    var n := c as int;
    var q1 := n / 64;
    var q2 := q1 / 64;
    var q3 := q2 / 64;
    if n < 0x80 then [n]
    else if n < 0x800 then [0xC0 + q1, 0x80 + n % 64]
    else if n < 0x10000 then [0xE0 + q2, 0x80 + q1 % 64, 0x80 + n % 64]
    else [0xF0 + q3, 0x80 + q2 % 64, 0x80 + q1 % 64, 0x80 + n % 64]
  }

  function PercentBytes(bytes: seq<nat>): (r: string)
    requires forall i :: 0 <= i < |bytes| ==> bytes[i] < 256
    ensures |r| == 3 * |bytes|
    ensures forall i :: 0 <= i < |r| ==> r[i] == '%' || HexDigit(r[i])
  {
    if bytes == [] then []
    else ['%', HexChar(bytes[0] / 16), HexChar(bytes[0] % 16)] + PercentBytes(bytes[1..])
  }

  function EncodeChar(c: char): (r: string)
    ensures Unreserved(c) ==> r == [c]
    ensures !Unreserved(c) ==> |r| >= 3
    ensures forall i :: 0 <= i < |r| ==> Unreserved(r[i]) || r[i] == '%'
  {
    if Unreserved(c) then [c] else PercentBytes(Utf8(c))
  }

  /** encodeURIComponent: unreserved characters stay, every other character becomes the
      percent-escapes of its UTF-8 bytes, in upper-case hexadecimal. */
  function EncodeUriComponent(s: string): (r: string)
    ensures |r| >= |s|
    ensures forall i :: 0 <= i < |r| ==> Unreserved(r[i]) || r[i] == '%'
  {
    if s == [] then [] else EncodeChar(s[0]) + EncodeUriComponent(s[1..])
  }

  lemma {:induction false} EncodeAppend(a: string, b: string)
    ensures EncodeUriComponent(a + b) == EncodeUriComponent(a) + EncodeUriComponent(b)
  {
    if a == [] {
      assert a + b == b;
    } else {
      assert (a + b)[0] == a[0];
      assert (a + b)[1..] == a[1..] + b;
      EncodeAppend(a[1..], b);
      calc {
        EncodeUriComponent(a + b);
        EncodeChar(a[0]) + EncodeUriComponent(a[1..] + b);
        EncodeChar(a[0]) + (EncodeUriComponent(a[1..]) + EncodeUriComponent(b));
        (EncodeChar(a[0]) + EncodeUriComponent(a[1..])) + EncodeUriComponent(b);
      }
    }
  }

  /** A text is left unchanged by the encoding exactly when all its characters are unreserved. */
  lemma {:induction false} EncodeIdentity(s: string)
    ensures EncodeUriComponent(s) == s <==> forall i :: 0 <= i < |s| ==> Unreserved(s[i])
  {
    if s != [] {
      EncodeIdentity(s[1..]);
      if Unreserved(s[0]) {
        assert EncodeUriComponent(s) == [s[0]] + EncodeUriComponent(s[1..]);
        if EncodeUriComponent(s) == s {
          assert EncodeUriComponent(s[1..]) == s[1..];
        }
        if forall i :: 0 <= i < |s| ==> Unreserved(s[i]) {
          assert forall i :: 0 <= i < |s[1..]| ==> Unreserved(s[1..][i]) by {
            forall i | 0 <= i < |s[1..]| ensures Unreserved(s[1..][i]) {
              assert s[1..][i] == s[i + 1];
            }
          }
        }
      } else {
        assert |EncodeUriComponent(s)| >= 3 + |s[1..]|;
      }
    }
  }

  /** No encoded text contains a slash: each slash of an object key becomes "%2F", so
      "covers/x.jpg" becomes "covers%2Fx.jpg" and the key is a single path segment. */
  lemma SlashIsEscaped(a: string, b: string)
    ensures '/' !in EncodeUriComponent(a)
    ensures EncodeUriComponent(a + "/" + b) == EncodeUriComponent(a) + "%2F" + EncodeUriComponent(b)
  {
    var enc := EncodeUriComponent(a);
    forall i | 0 <= i < |enc| ensures enc[i] != '/' {
      assert Unreserved(enc[i]) || enc[i] == '%';
    }
    EncodeAppend(a, "/");
    EncodeAppend(a + "/", b);
    EncodedSlash();
  }

  lemma EncodedSlash()
    ensures EncodeUriComponent("/") == "%2F"
  {
    assert EncodeChar('/') == PercentBytes([47]);
  }

  /** getPublicUrl: the virtual-hosted URL of the object, with the whole key as one encoded path segment. */
  function PublicUrl(settings: StorageSettings, key: string): (url: string)
    ensures url == "https://" + settings.bucket + ".s3." + settings.region + ".amazonaws.com/" + EncodeUriComponent(key)
    ensures forall i :: |url| - |EncodeUriComponent(key)| <= i < |url| ==> url[i] != '/'
  {
    var prefix := "https://" + settings.bucket + ".s3." + settings.region + ".amazonaws.com/";
    var enc := EncodeUriComponent(key);
    assert forall i :: 0 <= i < |enc| ==> (prefix + enc)[|prefix| + i] == enc[i];
    prefix + enc
  }

  // ---------------------------------------------------------------------------------------------
  // extractKeyFromUrl and decodeURIComponent (section 19.2.6.2 of ECMA-262)

  function HexValue(c: char): Option<nat> {
    if '0' <= c <= '9' then Some(c as int - '0' as int)
    else if 'A' <= c <= 'F' then Some(c as int - 'A' as int + 10)
    else if 'a' <= c <= 'f' then Some(c as int - 'a' as int + 10)
    else None
  }

  /** The byte of the escape "%XY" at position i, if there is one. */
  function EscapedByte(s: string, i: nat): (b: Option<nat>)
    ensures b.Some? ==> b.value < 256
  {
    if i + 3 <= |s| && s[i] == '%' && HexValue(s[i + 1]).Some? && HexValue(s[i + 2]).Some?
    then Some(16 * HexValue(s[i + 1]).value + HexValue(s[i + 2]).value)
    else None
  }

  /** The number of bytes of the UTF-8 sequence a leading byte announces; 0 for a byte that cannot lead. */
  function SequenceLength(b: nat): nat {
    if b < 0x80 then 1
    else if 0xC0 <= b < 0xE0 then 2
    else if 0xE0 <= b < 0xF0 then 3
    else if 0xF0 <= b < 0xF8 then 4
    else 0
  }

  /** The k escaped bytes starting at position i, each a continuation byte 10xxxxxx. */
  function Continuations(s: string, i: nat, k: nat): (r: Option<seq<nat>>)
    ensures r.Some? ==> |r.value| == k && forall j :: 0 <= j < k ==> 0x80 <= r.value[j] < 0xC0
    decreases k
  {
    if k == 0 then Some([])
    else
      var b := EscapedByte(s, i);
      var rest := Continuations(s, i + 3, k - 1);
      if b.Some? && 0x80 <= b.value < 0xC0 && rest.Some? then Some([b.value] + rest.value) else None
  }

  /** The code point of a leading byte of a sequence of length n and its continuation bytes. */
  function CodePoint(lead: nat, tail: seq<nat>): int
    requires |tail| <= 3
  {
    var b0: int := lead;
    if |tail| == 0 then b0
    else
      var b1: int := tail[0];
      if |tail| == 1 then (b0 - 0xC0) * 64 + (b1 - 0x80)
      else
        var b2: int := tail[1];
        if |tail| == 2 then ((b0 - 0xE0) * 64 + (b1 - 0x80)) * 64 + (b2 - 0x80)
        else
          var b3: int := tail[2];
          (((b0 - 0xF0) * 64 + (b1 - 0x80)) * 64 + (b2 - 0x80)) * 64 + (b3 - 0x80)
  }

  /** The smallest code point a sequence of n bytes may carry: shorter forms are rejected. */
  function MinCodePoint(n: nat): int {
    if n <= 1 then 0 else if n == 2 then 0x80 else if n == 3 then 0x800 else 0x10000
  }

  predicate ScalarValue(cp: int) {
    0 <= cp < 0xD800 || 0xE000 <= cp <= 0x10FFFF
  }

  /** decodeURIComponent: characters other than '%' stay; each UTF-8 sequence of escapes becomes its
      character; a malformed escape, an invalid sequence, an over-long form, a surrogate or a code
      point above 0x10FFFF is a URIError (None). */
  function DecodeUriComponent(s: string): (r: Option<string>)
    decreases |s|
  {
    if s == [] then Some([])
    else if s[0] != '%' then
      var rest := DecodeUriComponent(s[1..]);
      if rest.Some? then Some([s[0]] + rest.value) else None
    else
      var lead := EscapedByte(s, 0);
      if lead.None? || SequenceLength(lead.value) == 0 then None
      else
        var n := SequenceLength(lead.value);
        var tail := Continuations(s, 3, n - 1);
        if tail.None? then None
        else
          var cp := CodePoint(lead.value, tail.value);
          if cp < MinCodePoint(n) || !ScalarValue(cp) || 3 * n > |s| then None
          else
            var rest := DecodeUriComponent(s[3 * n..]);
            if rest.Some? then Some([cp as char] + rest.value) else None
  }

  lemma HexRoundTrip(d: nat)
    requires d < 16
    ensures HexValue(HexChar(d)) == Some(d)
  {
  }

  lemma {:induction false} EscapesOfBytes(bytes: seq<nat>, rest: string, k: nat)
    requires forall i :: 0 <= i < |bytes| ==> bytes[i] < 256
    requires k < |bytes|
    ensures EscapedByte(PercentBytes(bytes) + rest, 3 * k) == Some(bytes[k])
  {
    var head := ['%', HexChar(bytes[0] / 16), HexChar(bytes[0] % 16)];
    var t := PercentBytes(bytes[1..]) + rest;
    assert PercentBytes(bytes) + rest == head + t;
    if k == 0 {
      EscapeOfByte(bytes[0], t);
    } else {
      EscapesOfBytes(bytes[1..], rest, k - 1);
      EscapedByteAfter(head, t, 3 * (k - 1));
    }
  }

  /** The escape of one byte decodes to that byte, whatever follows it. */
  lemma EscapeOfByte(b: nat, t: string)
    requires b < 256
    ensures EscapedByte(['%', HexChar(b / 16), HexChar(b % 16)] + t, 0) == Some(b)
  {
    HexRoundTrip(b / 16);
    HexRoundTrip(b % 16);
  }

  /** Text in front of an escape moves it without changing it. */
  lemma EscapedByteAfter(front: string, t: string, i: nat)
    ensures EscapedByte(front + t, |front| + i) == EscapedByte(t, i)
  {
    if i + 3 <= |t| {
      assert (front + t)[|front| + i..|front| + i + 3] == t[i..i + 3];
    }
  }

  lemma {:induction false} ContinuationsOfBytes(bytes: seq<nat>, rest: string, i: nat, k: nat)
    requires forall j :: 0 <= j < |bytes| ==> bytes[j] < 256
    requires 1 <= i && i + k <= |bytes|
    requires forall j :: i <= j < i + k ==> 0x80 <= bytes[j] < 0xC0
    ensures Continuations(PercentBytes(bytes) + rest, 3 * i, k) == Some(bytes[i..i + k])
    decreases k
  {
    if k > 0 {
      EscapesOfBytes(bytes, rest, i);
      ContinuationsOfBytes(bytes, rest, i + 1, k - 1);
      assert bytes[i..i + k] == [bytes[i]] + bytes[i + 1..i + k];
    }
  }

  /** The UTF-8 bytes of a character form a sequence the decoder accepts and maps back to it. */
  lemma Utf8Decodes(c: char)
    ensures SequenceLength(Utf8(c)[0]) == |Utf8(c)|
    ensures forall j :: 1 <= j < |Utf8(c)| ==> 0x80 <= Utf8(c)[j] < 0xC0
    ensures CodePoint(Utf8(c)[0], Utf8(c)[1..]) == c as int
    ensures MinCodePoint(|Utf8(c)|) <= c as int && ScalarValue(c as int)
  {
    var n := c as int;
    var b := Utf8(c);
    assert n == 64 * (n / 64) + n % 64;
    assert n / 64 == 64 * (n / 64 / 64) + (n / 64) % 64;
    assert n / 64 / 64 == 64 * (n / 64 / 64 / 64) + (n / 64 / 64) % 64;
    if n >= 0x10000 {
      assert b[1..] == [b[1], b[2], b[3]];
    } else if n >= 0x800 {
      assert b[1..] == [b[1], b[2]];
    } else if n >= 0x80 {
      assert b[1..] == [b[1]];
    }
  }

  /** Decoding the escapes of one reserved character followed by more text yields that character first. */
  lemma DecodeEscapedChar(c: char, rest: string)
    requires !Unreserved(c)
    ensures DecodeUriComponent(EncodeChar(c) + rest)
            == (if DecodeUriComponent(rest).Some? then Some([c] + DecodeUriComponent(rest).value) else None)
  {
    var bytes := Utf8(c);
    var s := PercentBytes(bytes) + rest;
    assert EncodeChar(c) + rest == s;
    Utf8Decodes(c);
    EscapedSequence(bytes, rest, s);
    DecodeSequence(s, bytes[0], bytes[1..]);
  }

  /** The percent-escapes of a leading byte and its continuation bytes read back as that leading byte
      and those continuation bytes, with the text after them left over. */
  lemma EscapedSequence(bytes: seq<nat>, rest: string, s: string)
    requires 1 <= |bytes| <= 4
    requires forall i :: 0 <= i < |bytes| ==> bytes[i] < 256
    requires forall j :: 1 <= j < |bytes| ==> 0x80 <= bytes[j] < 0xC0
    requires s == PercentBytes(bytes) + rest
    ensures s != [] && s[0] == '%' && EscapedByte(s, 0) == Some(bytes[0])
    ensures Continuations(s, 3, |bytes| - 1) == Some(bytes[1..])
    ensures 3 * |bytes| <= |s| && s[3 * |bytes|..] == rest
  {
    var n := |bytes|;
    EscapesOfBytes(bytes, rest, 0);
    ContinuationsOfBytes(bytes, rest, 1, n - 1);
    assert bytes[1..n] == bytes[1..];
    PercentBytesThenRest(bytes, rest);
  }

  lemma PercentBytesThenRest(bytes: seq<nat>, rest: string)
    requires forall i :: 0 <= i < |bytes| ==> bytes[i] < 256
    ensures (PercentBytes(bytes) + rest)[3 * |bytes|..] == rest
  {
    var p := PercentBytes(bytes);
    assert (p + rest)[|p|..] == rest;
  }

  /** A well-formed escaped UTF-8 sequence at the head of s decodes to its character, followed by the
      decoding of what comes after it. */
  lemma DecodeSequence(s: string, lead: nat, tail: seq<nat>)
    requires s != [] && s[0] == '%' && EscapedByte(s, 0) == Some(lead)
    requires SequenceLength(lead) == |tail| + 1 && |tail| <= 3
    requires Continuations(s, 3, |tail|) == Some(tail)
    requires MinCodePoint(|tail| + 1) <= CodePoint(lead, tail) && ScalarValue(CodePoint(lead, tail))
    requires 3 * (|tail| + 1) <= |s|
    ensures DecodeUriComponent(s)
            == (var rest := DecodeUriComponent(s[3 * (|tail| + 1)..]);
                if rest.Some? then Some([CodePoint(lead, tail) as char] + rest.value) else None)
  {
  }

  /** Decoding the encoding of one character followed by more text yields that character first. */
  lemma DecodeEncodedChar(c: char, rest: string)
    ensures DecodeUriComponent(EncodeChar(c) + rest)
            == (if DecodeUriComponent(rest).Some? then Some([c] + DecodeUriComponent(rest).value) else None)
  {
    if Unreserved(c) {
      var s := EncodeChar(c) + rest;
      assert s[0] == c && s[1..] == rest;
    } else {
      DecodeEscapedChar(c, rest);
    }
  }

  /** decodeURIComponent undoes encodeURIComponent. */
  lemma {:induction false} DecodeEncode(s: string)
    ensures DecodeUriComponent(EncodeUriComponent(s)) == Some(s)
  {
    if s != [] {
      DecodeEncode(s[1..]);
      DecodeEncodedChar(s[0], EncodeUriComponent(s[1..]));
      assert [s[0]] + s[1..] == s;
    }
  }

  /** The index of the first character of s in stops, or |s|. */
  function FirstOf(s: string, stops: set<char>): (i: nat)
    ensures i <= |s|
    ensures forall j :: 0 <= j < i ==> s[j] !in stops
    ensures i < |s| ==> s[i] in stops
  {
    if s == [] then 0 else if s[0] in stops then 0 else 1 + FirstOf(s[1..], stops)
  }

  /** The pathname of an http or https URL: from the first '/' after the authority up to the query or
      fragment, or "/" when the authority runs to a '?', a '#' or the end. Other text is not parsed. */
  function Pathname(url: string): Option<string> {
    var rest := if |url| >= 8 && url[..8] == "https://" then Some(url[8..])
                else if |url| >= 7 && url[..7] == "http://" then Some(url[7..])
                else None;
    if rest.None? then None
    else
      var r := rest.value;
      var i := FirstOf(r, {'/', '?', '#'});
      if i < |r| && r[i] == '/' then Some(r[i..i + FirstOf(r[i..], {'?', '#'})]) else Some("/")
  }

  /** replace(/^\/+/, ''). */
  function StripLeadingSlashes(s: string): (r: string)
    ensures r == [] || r[0] != '/'
  {
    if s != [] && s[0] == '/' then StripLeadingSlashes(s[1..]) else s
  }

  /** extractKeyFromUrl: the decoded pathname without its leading slashes; null when the URL does not
      parse or its path does not decode. */
  function ExtractKeyFromUrl(url: string): Option<string> {
    var path := Pathname(url);
    if path.None? then None else DecodeUriComponent(StripLeadingSlashes(path.value))
  }

  /** The host name of the storage's URLs: bucket and region hold no '/', '?' or '#'. */
  predicate HostSafe(settings: StorageSettings) {
    Avoids(settings.bucket, {'/', '?', '#'}) && Avoids(settings.region, {'/', '?', '#'})
  }

  predicate Avoids(s: string, stops: set<char>) {
    forall i :: 0 <= i < |s| ==> s[i] !in stops
  }

  lemma AvoidsAppend(a: string, b: string, stops: set<char>)
    requires Avoids(a, stops) && Avoids(b, stops)
    ensures Avoids(a + b, stops)
  {
    forall i | 0 <= i < |a + b| ensures (a + b)[i] !in stops {
      if i >= |a| {
        assert (a + b)[i] == b[i - |a|];
      }
    }
  }

  /** The pathname of an https URL whose authority avoids '/', '?' and '#', followed by "/" and a path
      that avoids '?' and '#', is that "/" and path. */
  lemma PathnameOf(host: string, path: string)
    requires Avoids(host, {'/', '?', '#'}) && Avoids(path, {'?', '#'})
    ensures Pathname("https://" + (host + "/" + path)) == Some("/" + path)
  {
    var url := "https://" + (host + "/" + path);
    var r := host + "/" + path;
    assert url[..8] == "https://" && url[8..] == r;
    FirstOfPrefix(host, "/" + path, {'/', '?', '#'});
    assert r[|host|..] == "/" + path;
    assert Avoids("/", {'?', '#'});
    AvoidsAppend("/", path, {'?', '#'});
    FirstOfNone("/" + path, {'?', '#'});
    var i := FirstOf(r, {'/', '?', '#'});
    assert i == |host| && r[i] == '/';
    assert r[i..i + FirstOf(r[i..], {'?', '#'})] == "/" + path;
  }

  /** The key extracted from the public URL of an object is the object's key. */
  lemma ExtractKeyOfPublicUrl(settings: StorageSettings, key: string)
    requires HostSafe(settings)
    ensures ExtractKeyFromUrl(PublicUrl(settings, key)) == Some(key)
  {
    var host := settings.bucket + ".s3." + settings.region + ".amazonaws.com";
    var enc := EncodeUriComponent(key);
    assert PublicUrl(settings, key) == "https://" + (host + "/" + enc);
    HostAvoids(settings);
    EncodedPath(key);
    PathnameOf(host, enc);
    DecodeEncode(key);
  }

  /** The authority of a public URL holds no '/', '?' or '#'. */
  lemma HostAvoids(settings: StorageSettings)
    requires HostSafe(settings)
    ensures Avoids(settings.bucket + ".s3." + settings.region + ".amazonaws.com", {'/', '?', '#'})
  {
    var stops := {'/', '?', '#'};
    assert Avoids(".s3.", stops) && Avoids(".amazonaws.com", stops);
    AvoidsAppend(settings.bucket, ".s3.", stops);
    AvoidsAppend(settings.bucket + ".s3.", settings.region, stops);
    AvoidsAppend(settings.bucket + ".s3." + settings.region, ".amazonaws.com", stops);
  }

  /** An encoded key holds no '?' or '#', and does not start with '/'. */
  lemma EncodedPath(key: string)
    ensures Avoids(EncodeUriComponent(key), {'?', '#'})
    ensures StripLeadingSlashes("/" + EncodeUriComponent(key)) == EncodeUriComponent(key)
  {
    var enc := EncodeUriComponent(key);
    assert ("/" + enc)[1..] == enc;
    if enc != [] {
      assert Unreserved(enc[0]) || enc[0] == '%';
    }
  }

  lemma {:induction false} FirstOfPrefix(a: string, b: string, stops: set<char>)
    requires Avoids(a, stops)
    requires b != [] && b[0] in stops
    ensures FirstOf(a + b, stops) == |a|
  {
    if a == [] {
      assert a + b == b;
    } else {
      assert (a + b)[0] == a[0] && a[0] !in stops;
      assert (a + b)[1..] == a[1..] + b;
      assert Avoids(a[1..], stops) by {
        forall i | 0 <= i < |a[1..]| ensures a[1..][i] !in stops {
          assert a[1..][i] == a[i + 1];
        }
      }
      FirstOfPrefix(a[1..], b, stops);
    }
  }

  lemma FirstOfNone(s: string, stops: set<char>)
    requires Avoids(s, stops)
    ensures FirstOf(s, stops) == |s|
  {
  }

  // ---------------------------------------------------------------------------------------------
  // upload and delete

  /** upload: an absent or empty content type is refused before anything is sent; otherwise the
      outcome of the PutObject call decides, and success yields the object's public URL. */
  function Upload(settings: StorageSettings, contentType: Option<string>, key: string, put: Outcome<()>): (r: Outcome<string>)
    ensures !Truthy(contentType) ==> r == Fail(Plain(ContentTypeMissing))
    ensures Truthy(contentType) && put.Fail? ==> r == Fail(put.error)
    ensures Truthy(contentType) && put.Ok? ==> r == Ok(PublicUrl(settings, key))
  {
    if !Truthy(contentType) then Fail(Plain(ContentTypeMissing))
    else if put.Fail? then Fail(put.error)
    else Ok(PublicUrl(settings, key))
  }

  /** What upload returns leads back to what it stored: for a bucket and region without URL
      delimiters, the key extracted from the URL of a successful upload is the uploaded key. */
  lemma UploadedUrlNamesKey(settings: StorageSettings, contentType: Option<string>, key: string, put: Outcome<()>)
    requires HostSafe(settings)
    requires Upload(settings, contentType, key, put).Ok?
    ensures ExtractKeyFromUrl(Upload(settings, contentType, key, put).value) == Some(key)
  {
    ExtractKeyOfPublicUrl(settings, key);
  }

  /** The PutObject request upload sends: the object is made public-read exactly when the storage was
      configured so. */
  datatype PutRequest = PutRequest(bucket: string, key: string, contentType: string, acl: Option<string>)

  function PutCommand(settings: StorageSettings, contentType: string, key: string): (r: PutRequest)
    ensures r.bucket == settings.bucket && r.key == key && r.contentType == contentType
    ensures r.acl.Some? <==> settings.publicReadAcl
    ensures r.acl.Some? ==> r.acl.value == "public-read"
  {
    PutRequest(settings.bucket, key, contentType, if settings.publicReadAcl then Some("public-read") else None)
  }

  /** The DeleteObject request delete(key) sends: none at all for an absent or empty key. */
  datatype DeleteRequest = DeleteRequest(bucket: string, key: string)

  function DeleteCommand(settings: StorageSettings, key: Option<string>): (r: Option<DeleteRequest>)
    ensures r.None? <==> !Truthy(key)
    ensures r.Some? ==> r.value == DeleteRequest(settings.bucket, key.value)
  {
    if Truthy(key) then Some(DeleteRequest(settings.bucket, key.value)) else None
  }
}
