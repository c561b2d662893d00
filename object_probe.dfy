/** One manifest row per object: the file name from the key, the size from the
    head-object query and the digest of the streamed object, each call reduced to the
    reply the aws CLI gives. */
module ObjectProbe {
  import opened Text
  import opened Manifest
  import opened AwsCommand

  /** What a finished CLI call captured: exit status, stdout and stderr as text. */
  datatype Completed = Completed(returncode: int, stdout: string, stderr: string)

  /** What a streamed CLI call yields: the bytes written to stdout, then the exit
      status and the decoded stderr once the process is done. */
  datatype Streamed = Streamed(body: seq<byte>, returncode: int, stderr: string)

  /** The aws CLI as seen by the script: the reply to each argv. */
  datatype Store = Store(run: seq<string> -> Completed, stream: seq<string> -> Streamed)

  /** Everything a row depends on besides the object: the options passed to the CLI,
      the CLI itself and the digest function (MD5, rendered as hex). */
  datatype Env = Env(profile: Option<string>, region: Option<string>, store: Store, md5: seq<byte> -> string)

  /** The error detail for a failed call: the stripped stderr, or a fixed note when it is blank. */
  function StderrDetail(stderr: string): (r: string)
    ensures r != ""
    ensures IsBlank(stderr) ==> r == "No stderr output."
    ensures !IsBlank(stderr) ==> r == Strip(stderr)
  {
    var s := Strip(stderr);
    if s == "" then "No stderr output." else s
  }

  // ---------------------------------------------------------------------------
  // fetch_size_bytes

  function SizeCommand(obj: S3ObjectRef, env: Env): seq<string> {
    BaseCommand(env.profile, env.region) + HeadObjectArgs(obj)
  }

  /** The size an object's head-object reply stands for, or the error it reports. */
  function SizeFromReply(obj: S3ObjectRef, reply: Completed): (r: Result<int, ManifestError>)
    ensures reply.returncode != 0 ==> r == Err(SizeFetchFailed(obj.lineNumber, obj.uri, StderrDetail(reply.stderr)))
    ensures r.Ok? ==> reply.returncode == 0 && ParseInt(Strip(reply.stdout)) == Some(r.value)
    ensures r.Err? && reply.returncode == 0 ==>
      ParseInt(Strip(reply.stdout)).None? && r.error == UnexpectedContentLength(obj.lineNumber, obj.uri, Strip(reply.stdout))
  {
    if reply.returncode != 0 then Err(SizeFetchFailed(obj.lineNumber, obj.uri, StderrDetail(reply.stderr)))
    else
      var text := Strip(reply.stdout);
      match ParseInt(text)
      case None => Err(UnexpectedContentLength(obj.lineNumber, obj.uri, text))
      case Some(n) => Ok(n)
  }

  /** A successful reply carrying a decimal number, with any surrounding whitespace (the
      CLI ends its text output with a newline), gives back that number. */
  lemma SizeRoundTrip(obj: S3ObjectRef, n: int, before: string, after: string, stderr: string)
    requires IsBlank(before) && IsBlank(after)
    ensures SizeFromReply(obj, Completed(0, before + IntToDecimal(n) + after, stderr)) == Ok(n)
  {
    var s := IntToDecimal(n);
    assert !IsSpace(s[0]) && !IsSpace(s[|s| - 1]) by {
      var d := NatToDecimal(if n < 0 then -n else n);
      assert IsDigit(d[0]) && IsDigit(d[|d| - 1]);
      assert s[|s| - 1] == d[|d| - 1];
    }
    StripPadded(before, s, after);
    ParseIntDecimal(n);
  }

  /** A successful reply whose text is not an integer (such as "None") is an error,
      and so is every reply with a non-zero exit status, whatever its stdout. */
  lemma SizeNeedsIntegerText(obj: S3ObjectRef, reply: Completed)
    requires reply.returncode == 0
    ensures SizeFromReply(obj, reply).Ok? <==> ParseInt(Strip(reply.stdout)).Some?
    ensures SizeFromReply(obj, reply).Ok? ==> Strip(reply.stdout) != "" && !IsSpace(Strip(reply.stdout)[0])
  {
    if SizeFromReply(obj, reply).Ok? {
      ParseIntRefuses(Strip(reply.stdout));
    }
  }

  /** fetch_size_bytes: run the head-object query and read its reply. */
  method FetchSizeBytes(obj: S3ObjectRef, env: Env) returns (r: Result<int, ManifestError>, command: seq<string>)
    ensures command == SizeCommand(obj, env)
    ensures r == SizeFromReply(obj, env.store.run(command))
  {
    command := AwsBaseCommand(env.profile, env.region);
    command := command + HeadObjectArgs(obj);
    var result := env.store.run(command);
    if result.returncode != 0 {
      var stderr := StderrDetail(result.stderr);
      return Err(SizeFetchFailed(obj.lineNumber, obj.uri, stderr)), command;
    }
    var sizeText := Strip(result.stdout);
    match ParseInt(sizeText)
    case None =>
      r := Err(UnexpectedContentLength(obj.lineNumber, obj.uri, sizeText));
    case Some(n) =>
      r := Ok(n);
  }

  // ---------------------------------------------------------------------------
  // stream_md5_hex

  function DigestCommand(obj: S3ObjectRef, env: Env): seq<string> {
    BaseCommand(env.profile, env.region) + CopyArgs(obj)
  }

  /** The digest a stream reply stands for: the digest of all its bytes when the
      process exits with status 0, an error otherwise, however many bytes were read. */
  function DigestFromStream(obj: S3ObjectRef, reply: Streamed, md5: seq<byte> -> string): (r: Result<string, ManifestError>)
    ensures reply.returncode != 0 ==> r == Err(StreamFailed(obj.lineNumber, obj.uri, StderrDetail(reply.stderr)))
    ensures reply.returncode == 0 ==> r == Ok(md5(reply.body))
  {
    if reply.returncode != 0 then Err(StreamFailed(obj.lineNumber, obj.uri, StderrDetail(reply.stderr)))
    else Ok(md5(reply.body))
  }

  function Min(a: int, b: int): int {
    if a < b then a else b
  }

  /** One read of at most ReadChunkSizeBytes bytes from the stream at `pos`. */
  function ReadChunk(body: seq<byte>, pos: nat): (chunk: seq<byte>)
    requires pos <= |body|
    ensures chunk == [] <==> pos == |body|
    ensures |chunk| <= ReadChunkSizeBytes && pos + |chunk| <= |body|
    ensures body[..pos] + chunk == body[..pos + |chunk|]
  {
    body[pos..Min(pos + ReadChunkSizeBytes, |body|)]
  }

  /** stream_md5_hex: copy the object to stdout, feed every chunk read to the digest,
      then check the exit status. */
  method StreamMd5Hex(obj: S3ObjectRef, env: Env) returns (r: Result<string, ManifestError>, command: seq<string>)
    ensures command == DigestCommand(obj, env)
    ensures r == DigestFromStream(obj, env.store.stream(command), env.md5)
  {
    command := AwsBaseCommand(env.profile, env.region);
    command := command + CopyArgs(obj);
    var process := env.store.stream(command);
    var fed: seq<byte> := [];
    var pos := 0;
    while true
      invariant pos <= |process.body|
      invariant fed == process.body[..pos]
      decreases |process.body| - pos
    {
      var chunk := ReadChunk(process.body, pos);
      if chunk == [] {
        break;
      }
      fed := fed + chunk;
      pos := pos + |chunk|;
    }
    assert fed == process.body;
    if process.returncode != 0 {
      var stderr := StderrDetail(process.stderr);
      return Err(StreamFailed(obj.lineNumber, obj.uri, stderr)), command;
    }
    r := Ok(env.md5(fed));
  }

  // ---------------------------------------------------------------------------
  // Path(key).name

  /** The last segment that is neither empty nor ".", as pathlib keeps them. */
  function LastName(segments: seq<string>): (r: string)
    ensures r == "" || r in segments
    ensures r != "."
  {
    if segments == [] then ""
    else
      var s := segments[|segments| - 1];
      if s != "" && s != "." then s else LastName(segments[..|segments| - 1])
  }

  /** Path(key).name for a POSIX path. */
  function FileName(key: string): (r: string)
    ensures r == "" || ('/' !in r && r != "." && r in Split(key, '/'))
  {
    var segments := Split(key, '/');
    var name := LastName(segments);
    assert name != "" ==> '/' !in name by {
      if name != "" {
        var k :| 0 <= k < |segments| && segments[k] == name;
      }
    }
    name
  }

  /** The name of dir/name is name, for a name that is a real segment. */
  lemma FileNameOfJoined(dir: string, name: string)
    requires name != "" && name != "." && '/' !in name
    ensures FileName(dir + "/" + name) == name
  {
    assert dir + "/" + name == dir + ['/'] + name;
    SplitAround(dir, '/', name);
    SplitWithoutSep(name, '/');
    assert Split(dir + ['/'] + name, '/') == Split(dir, '/') + [name];
  }

  /** A trailing slash does not change the name: "a/b/" is named "b". */
  lemma FileNameIgnoresTrailingSlash(dir: string)
    ensures FileName(dir + "/") == FileName(dir)
  {
    assert dir + "/" == dir + ['/'] + "";
    SplitAround(dir, '/', "");
    var segs := Split(dir, '/') + [""];
    assert segs[..|segs| - 1] == Split(dir, '/');
  }

  lemma {:induction false} LastNameEmptyIff(segments: seq<string>)
    ensures LastName(segments) == "" <==> forall k :: 0 <= k < |segments| ==> segments[k] == "" || segments[k] == "."
  {
    if segments != [] {
      var n := |segments| - 1;
      LastNameEmptyIff(segments[..n]);
      assert forall k :: 0 <= k < n ==> segments[..n][k] == segments[k];
    }
  }

  /** A key has no name exactly when every one of its segments is empty or ".". */
  lemma FileNameEmptyIff(key: string)
    ensures FileName(key) == "" <==>
      var segs := Split(key, '/');
      forall k :: 0 <= k < |segs| ==> segs[k] == "" || segs[k] == "."
  {
    assert FileName(key) == LastName(Split(key, '/'));
    LastNameEmptyIff(Split(key, '/'));
  }

  // ---------------------------------------------------------------------------
  // build_row

  /** The row built for an object, or the first error met on the way. */
  function RowFor(obj: S3ObjectRef, authz: string, env: Env): Result<ManifestRow, ManifestError> {
    var name := FileName(obj.key);
    if name == "" then Err(NoFileName(obj.lineNumber, obj.key))
    else
      match SizeFromReply(obj, env.store.run(SizeCommand(obj, env)))
      case Err(e) => Err(e)
      case Ok(size) =>
        match DigestFromStream(obj, env.store.stream(DigestCommand(obj, env)), env.md5)
        case Err(e) => Err(e)
        case Ok(digest) => Ok(ManifestRow("", name, digest, size, DefaultAcl, authz, obj.uri))
  }

  /** The CLI calls made while building the row, in order. */
  function CallsFor(obj: S3ObjectRef, env: Env): seq<seq<string>> {
    if FileName(obj.key) == "" then []
    else if SizeFromReply(obj, env.store.run(SizeCommand(obj, env))).Err? then [SizeCommand(obj, env)]
    else [SizeCommand(obj, env), DigestCommand(obj, env)]
  }

  /** build_row: derive the file name, then fetch the size, then stream the digest. */
  method BuildRow(obj: S3ObjectRef, authz: string, env: Env)
    returns (r: Result<ManifestRow, ManifestError>, calls: seq<seq<string>>)
    ensures r == RowFor(obj, authz, env)
    ensures calls == CallsFor(obj, env)
  {
    var fileName := FileName(obj.key);
    if fileName == "" {
      return Err(NoFileName(obj.lineNumber, obj.key)), [];
    }
    var size, sizeCommand := FetchSizeBytes(obj, env);
    calls := [sizeCommand];
    if size.Err? {
      return Err(size.error), calls;
    }
    var md5, digestCommand := StreamMd5Hex(obj, env);
    calls := calls + [digestCommand];
    if md5.Err? {
      return Err(md5.error), calls;
    }
    r := Ok(ManifestRow("", fileName, md5.value, size.value, DefaultAcl, authz, obj.uri));
  }

  /** A built row carries the constant fields, the supplied authz, the object's URI,
      the key's file name, the reported size and the digest of the streamed bytes. */
  lemma RowContents(obj: S3ObjectRef, authz: string, env: Env)
    requires RowFor(obj, authz, env).Ok?
    ensures var row := RowFor(obj, authz, env).value;
      && row.guid == "" && row.acl == DefaultAcl && row.authz == authz && row.urls == obj.uri
      && row.fileName == FileName(obj.key) && row.fileName != ""
      && SizeFromReply(obj, env.store.run(SizeCommand(obj, env))) == Ok(row.size)
      && env.store.stream(DigestCommand(obj, env)).returncode == 0
      && row.md5 == env.md5(env.store.stream(DigestCommand(obj, env)).body)
  {
  }

  /** A row fails exactly when the key has no name, the size query fails or the stream
      exits with a non-zero status. */
  lemma RowFailsIff(obj: S3ObjectRef, authz: string, env: Env)
    ensures RowFor(obj, authz, env).Err? <==>
      || FileName(obj.key) == ""
      || SizeFromReply(obj, env.store.run(SizeCommand(obj, env))).Err?
      || env.store.stream(DigestCommand(obj, env)).returncode != 0
  {
  }

  /** The name is checked before any call; the size is fetched before the digest is
      streamed, and a failed size query opens no stream. */
  lemma CallOrder(obj: S3ObjectRef, authz: string, env: Env)
    ensures FileName(obj.key) == "" ==> CallsFor(obj, env) == [] && RowFor(obj, authz, env) == Err(NoFileName(obj.lineNumber, obj.key))
    ensures CallsFor(obj, env) != [] ==> CallsFor(obj, env)[0] == SizeCommand(obj, env)
    ensures DigestCommand(obj, env) in CallsFor(obj, env) ==> CallsFor(obj, env) == [SizeCommand(obj, env), DigestCommand(obj, env)]
    ensures RowFor(obj, authz, env).Ok? ==> CallsFor(obj, env) == [SizeCommand(obj, env), DigestCommand(obj, env)]
  {
    var b := BaseCommand(env.profile, env.region);
    assert SizeCommand(obj, env)[|b|] == "s3api";
    assert DigestCommand(obj, env)[|b|] == "s3";
  }
}
