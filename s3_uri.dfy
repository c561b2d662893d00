/** Validation of one input line as an S3 object reference: the component split that
    urllib.parse.urlsplit performs (scheme, then the authority after "//" up to the first
    "/", "?" or "#", then the path, with fragment and query cut off), and the checks that
    turn the split into an S3ObjectRef. */
module S3Uri {
  import opened Text
  import opened Manifest

  datatype SplitResult = SplitResult(scheme: string, netloc: string, path: string, query: string, fragment: string)

  predicate IsAsciiAlpha(c: char) { 'a' <= c <= 'z' || 'A' <= c <= 'Z' }

  predicate IsSchemeChar(c: char) { IsAsciiAlpha(c) || IsDigit(c) || c == '+' || c == '-' || c == '.' }

  /** The characters urlsplit strips from the front of a URL: C0 controls and space. */
  predicate IsC0OrSpace(c: char) { c <= ' ' }

  /** The characters urlsplit deletes anywhere in a URL. */
  predicate IsUnsafe(c: char) { c == '\t' || c == '\r' || c == '\n' }

  predicate IsAuthorityEnd(c: char) { c == '/' || c == '?' || c == '#' }

  predicate NoUnsafe(s: string) { forall i :: 0 <= i < |s| ==> !IsUnsafe(s[i]) }

  function LStripC0(s: string): (r: string)
    ensures |r| <= |s| && r == s[|s| - |r|..]
    ensures r == [] || !IsC0OrSpace(r[0])
  {
    if s != [] && IsC0OrSpace(s[0]) then LStripC0(s[1..]) else s
  }

  function RemoveUnsafe(s: string): (r: string)
    ensures NoUnsafe(r)
    ensures forall i :: 0 <= i < |r| ==> r[i] in s
    ensures NoUnsafe(s) ==> r == s
  {
    if s == [] then []
    else
      var rest := RemoveUnsafe(s[1..]);
      assert forall i :: 0 <= i < |rest| ==> rest[i] in s;
      if IsUnsafe(s[0]) then rest else [s[0]] + rest
  }

  /** What urlsplit works on: the line with leading C0 controls and spaces stripped
      and every tab, CR and LF removed. */
  function Sanitize(line: string): string {
    RemoveUnsafe(LStripC0(line))
  }

  /** s.find(c), with |s| standing for "not found". */
  function Find(s: string, c: char): (i: nat)
    ensures i <= |s|
    ensures i < |s| ==> s[i] == c
    ensures forall j :: 0 <= j < i ==> s[j] != c
  {
    if s == [] || s[0] == c then 0 else 1 + Find(s[1..], c)
  }

  /** The first index at or after `from` holding "/", "?" or "#", or |s|. */
  function AuthorityEnd(s: string, from: nat): (i: nat)
    requires from <= |s|
    ensures from <= i <= |s|
    ensures i < |s| ==> IsAuthorityEnd(s[i])
    ensures forall j :: from <= j < i ==> !IsAuthorityEnd(s[j])
    decreases |s| - from
  {
    if from == |s| || IsAuthorityEnd(s[from]) then from else AuthorityEnd(s, from + 1)
  }

  /** A scheme is everything before the first ":" when that is non-empty, starts with an
      ASCII letter and holds only scheme characters; it is lower-cased. */
  function SplitScheme(url: string): (r: (string, string))
    ensures NoUnsafe(url) ==> NoUnsafe(r.1)
  {
    var i := Find(url, ':');
    if 0 < i < |url| && IsAsciiAlpha(url[0]) && (forall j :: 0 <= j < i ==> IsSchemeChar(url[j]))
    then (AsciiLower(url[..i]), url[i + 1..])
    else ("", url)
  }

  /** After "//", the authority runs up to the first "/", "?" or "#". */
  function SplitNetloc(s: string): (r: (string, string))
    ensures NoUnsafe(s) ==> NoUnsafe(r.0) && NoUnsafe(r.1)
    ensures forall i :: 0 <= i < |r.0| ==> !IsAuthorityEnd(r.0[i])
  {
    if |s| >= 2 && s[..2] == "//" then
      var d := AuthorityEnd(s, 2);
      (s[2..d], s[d..])
    else ("", s)
  }

  /** s.split(c, 1) when c occurs in s, and (s, "") otherwise. */
  function SplitOnce(s: string, c: char): (r: (string, string))
    ensures |r.0| <= |s| && r.0 == s[..|r.0|]
    ensures c !in r.0
  {
    var i := Find(s, c);
    if i < |s| then (s[..i], s[i + 1..]) else (s, "")
  }

  /** s.rpartition(c)[2]: the text after the last c, or all of s when c does not occur. */
  function AfterLast(s: string, c: char): (r: string)
    ensures |r| <= |s| && r == s[|s| - |r|..]
    ensures c !in r
    ensures |r| < |s| ==> s[|s| - |r| - 1] == c
  {
    s[LastStart(s, c)..]
  }

  /** Where the text after the last c starts. */
  function LastStart(s: string, c: char): (k: nat)
    ensures k <= |s|
    ensures forall i :: k <= i < |s| ==> s[i] != c
    ensures k > 0 ==> s[k - 1] == c
  {
    if s == [] || s[|s| - 1] == c then |s|
    else
      var front := s[..|s| - 1];
      var k := LastStart(front, c);
      assert forall i :: k <= i < |front| ==> s[i] == front[i];
      k
  }

  /** The check urlsplit makes on a bracketed host: after the last "@", nothing may come
      before the "[", and after the first "]" that follows it only a port starting with
      ":" may come. */
  predicate BracketMisplaced(netloc: string) {
    var host := AfterLast(netloc, '@');
    var open := Find(host, '[');
    open < |host| &&
      (open > 0 ||
       var bracketed := host[open + 1..];
       var close := Find(bracketed, ']');
       var port := if close < |bracketed| then bracketed[close + 1..] else "";
       port != "" && port[0] != ':')
  }

  /** urlsplit raises ValueError for a netloc with "[" but no "]" or the reverse, and for
      one whose brackets are misplaced. */
  predicate BracketsRefused(netloc: string) {
    ('[' in netloc) != (']' in netloc) || ('[' in netloc && BracketMisplaced(netloc))
  }

  /** urllib.parse.urlparse for a scheme without parameters, such as s3. */
  function UrlSplit(line: string): (p: SplitResult)
    ensures NoUnsafe(p.netloc) && forall i :: 0 <= i < |p.netloc| ==> !IsAuthorityEnd(p.netloc[i])
    ensures NoUnsafe(p.path) && forall i :: 0 <= i < |p.path| ==> p.path[i] != '?' && p.path[i] != '#'
  {
    var url := Sanitize(line);
    var (scheme, afterScheme) := SplitScheme(url);
    var (netloc, afterNetloc) := SplitNetloc(afterScheme);
    var (beforeFragment, fragment) := SplitOnce(afterNetloc, '#');
    var (path, query) := SplitOnce(beforeFragment, '?');
    assert forall i :: 0 <= i < |path| ==> path[i] == beforeFragment[i] && beforeFragment[i] == afterNetloc[i];
    SplitResult(scheme, netloc, path, query, fragment)
  }

  /** The characters a netloc split by urlsplit can hold. */
  predicate BucketChars(b: string) {
    b != [] && NoUnsafe(b) && forall i :: 0 <= i < |b| ==> !IsAuthorityEnd(b[i])
  }

  predicate ValidBucket(b: string) {
    BucketChars(b) && !BracketsRefused(b)
  }

  predicate ValidKey(k: string) {
    k != [] && k[0] != '/' && NoUnsafe(k) && forall i :: 0 <= i < |k| ==> k[i] != '?' && k[i] != '#'
  }

  /** The invariant of every reference the validator produces. */
  predicate ValidRef(ref: S3ObjectRef) {
    ValidBucket(ref.bucket) && ValidKey(ref.key) && ref.uri == "s3://" + ref.bucket + "/" + ref.key
  }

  /** _parse_s3_uri: a line urlparse raises on is refused first; otherwise the checks
      of S3Checks apply to its components. */
  function ParseS3Uri(line: string, lineNumber: int): (r: Result<S3ObjectRef, ManifestError>)
    ensures r.Ok? ==> ValidRef(r.value) && r.value.lineNumber == lineNumber
    ensures r.Err? ==>
      || r.error == UrlRejected(lineNumber, line)
      || r.error == MalformedUri(lineNumber, line)
      || r.error == MissingObjectKey(lineNumber, line)
  {
    var parts := UrlSplit(line);
    if BracketsRefused(parts.netloc) then Err(UrlRejected(lineNumber, line))
    else S3Checks(parts, line, lineNumber)
  }

  /** The checks _parse_s3_uri makes on the components: the scheme must be s3 with a
      non-empty bucket and a path that is not made only of slashes; the key drops the
      leading slashes, and a query or fragment is dropped. */
  function S3Checks(parts: SplitResult, line: string, lineNumber: int): (r: Result<S3ObjectRef, ManifestError>)
    requires NoUnsafe(parts.netloc) && forall i :: 0 <= i < |parts.netloc| ==> !IsAuthorityEnd(parts.netloc[i])
    requires NoUnsafe(parts.path) && forall i :: 0 <= i < |parts.path| ==> parts.path[i] != '?' && parts.path[i] != '#'
    requires !BracketsRefused(parts.netloc)
    ensures r.Ok? ==> ValidRef(r.value) && r.value.lineNumber == lineNumber
    ensures r.Err? ==> r.error == MalformedUri(lineNumber, line) || r.error == MissingObjectKey(lineNumber, line)
  {
    if parts.scheme != "s3" || parts.netloc == "" || parts.path == "" then
      Err(MalformedUri(lineNumber, line))
    else
      var key := LStripChar(parts.path, '/');
      if key == "" then Err(MissingObjectKey(lineNumber, line))
      else
        SuffixOfPath(parts.path, key);
        Ok(S3ObjectRef(lineNumber, "s3://" + parts.netloc + "/" + key, parts.netloc, key))
  }

  /** A line is refused the way urlparse refuses it exactly when its netloc has an
      unbalanced or misplaced bracket; every other refusal is one of the script's own. */
  lemma UrlRejectedIff(line: string, n: int)
    ensures ParseS3Uri(line, n) == Err(UrlRejected(n, line)) <==> BracketsRefused(UrlSplit(line).netloc)
  {
  }

  lemma SuffixOfPath(path: string, key: string)
    requires NoUnsafe(path) && forall i :: 0 <= i < |path| ==> path[i] != '?' && path[i] != '#'
    requires |key| <= |path| && key == path[|path| - |key|..]
    ensures NoUnsafe(key) && forall i :: 0 <= i < |key| ==> key[i] != '?' && key[i] != '#'
  {
    forall i | 0 <= i < |key| ensures !IsUnsafe(key[i]) && key[i] != '?' && key[i] != '#' {
      assert key[i] == path[|path| - |key| + i];
    }
  }

  // ---------------------------------------------------------------------------
  // The accepted lines, characterised by their shape

  lemma {:induction false} SchemeOfS3(sch: string, rest: string)
    requires AsciiLower(sch) == "s3"
    ensures SplitScheme(sch + ":" + rest) == ("s3", rest)
  {
    var url := sch + ":" + rest;
    assert sch[0] == 's' || sch[0] == 'S';
    assert sch[1] == '3';
    assert url[2] == ':' && url[0] != ':' && url[1] != ':';
    assert Find(url, ':') == 2;
    assert url[..2] == sch && url[3..] == rest;
  }

  lemma {:induction false} NetlocOf(bucket: string, rest: string)
    requires forall i :: 0 <= i < |bucket| ==> !IsAuthorityEnd(bucket[i])
    requires rest == [] || IsAuthorityEnd(rest[0])
    ensures SplitNetloc("//" + bucket + rest) == (bucket, rest)
  {
    var s := "//" + bucket + rest;
    assert s[..2] == "//";
    var d := AuthorityEnd(s, 2);
    assert forall j :: 2 <= j < 2 + |bucket| ==> s[j] == bucket[j - 2];
    if rest != [] {
      assert s[2 + |bucket|] == rest[0];
    }
    assert d == 2 + |bucket|;
    assert s[2..d] == bucket && s[d..] == rest;
  }

  /** A tail that is empty or starts a query or a fragment. */
  predicate IsUriTail(tail: string) {
    tail == [] || tail[0] == '?' || tail[0] == '#'
  }

  lemma {:induction false} PathOf(path: string, tail: string)
    requires forall i :: 0 <= i < |path| ==> path[i] != '?' && path[i] != '#'
    requires IsUriTail(tail)
    ensures SplitOnce(SplitOnce(path + tail, '#').0, '?').0 == path
  {
    var s := path + tail;
    var h := Find(s, '#');
    assert forall j :: 0 <= j < |path| ==> s[j] == path[j];
    assert h >= |path|;
    var before := SplitOnce(s, '#').0;
    assert before == s[..h];
    assert before[..|path|] == path;
    var q := Find(before, '?');
    if tail != [] && tail[0] == '?' {
      assert s[|path|] == '?';
      assert h > |path|;
      assert before[|path|] == '?';
    } else if tail != [] {
      assert s[|path|] == '#';
      assert h == |path|;
      assert before == path;
    } else {
      assert s == path;
      assert before == path;
    }
    assert q == |path|;
  }

  /** How UrlSplit composes its stages. */
  lemma UrlSplitFrom(line: string, afterScheme: string, netloc: string, rest: string)
    requires SplitScheme(Sanitize(line)) == ("s3", afterScheme)
    requires SplitNetloc(afterScheme) == (netloc, rest)
    ensures UrlSplit(line).scheme == "s3" && UrlSplit(line).netloc == netloc
    ensures UrlSplit(line).path == SplitOnce(SplitOnce(rest, '#').0, '?').0
  {
  }

  lemma SanitizedS3(sch: string, rest: string)
    requires AsciiLower(sch) == "s3"
    requires NoUnsafe(rest)
    ensures Sanitize(sch + "://" + rest) == sch + "://" + rest
  {
    assert sch[0] == 's' || sch[0] == 'S';
    assert sch[1] == '3';
    assert NoUnsafe(sch + "://");
    NoUnsafeConcat(sch + "://", rest);
  }

  lemma SchemeOfS3Line(sch: string, rest: string)
    requires AsciiLower(sch) == "s3"
    requires NoUnsafe(rest)
    ensures SplitScheme(Sanitize(sch + "://" + rest)) == ("s3", "//" + rest)
  {
    SanitizedS3(sch, rest);
    assert "://" == ":" + "//";
    RegroupMiddle(sch, ":", "//", rest);
    SchemeOfS3(sch, "//" + rest);
  }

  lemma SchemeOfShape(sch: string, bucket: string, slashes: string, key: string, tail: string)
    requires AsciiLower(sch) == "s3"
    requires NoUnsafe(bucket) && NoUnsafe(slashes) && NoUnsafe(key) && NoUnsafe(tail)
    ensures SplitScheme(Sanitize(sch + "://" + bucket + slashes + key + tail))
      == ("s3", "//" + bucket + slashes + key + tail)
  {
    NoUnsafeConcat(bucket, slashes);
    NoUnsafeConcat(bucket + slashes, key);
    NoUnsafeConcat(bucket + slashes + key, tail);
    SchemeOfS3Line(sch, bucket + slashes + key + tail);
    Regroup5(sch + "://", bucket, slashes, key, tail);
    Regroup5("//", bucket, slashes, key, tail);
  }

  lemma NetlocOfShape(bucket: string, slashes: string, key: string, tail: string)
    requires BucketChars(bucket)
    requires slashes != [] && AllChar(slashes, '/')
    ensures SplitNetloc("//" + bucket + slashes + key + tail) == (bucket, slashes + key + tail)
  {
    var rest := slashes + key + tail;
    assert rest[0] == '/';
    assert "//" + bucket + slashes + key + tail == "//" + bucket + rest;
    NetlocOf(bucket, rest);
  }

  lemma PathOfShape(slashes: string, key: string, tail: string)
    requires AllChar(slashes, '/')
    requires key == [] || ValidKey(key)
    requires IsUriTail(tail)
    ensures SplitOnce(SplitOnce(slashes + key + tail, '#').0, '?').0 == slashes + key
  {
    forall i | 0 <= i < |slashes + key| ensures (slashes + key)[i] != '?' && (slashes + key)[i] != '#' {
      if i >= |slashes| { assert (slashes + key)[i] == key[i - |slashes|]; }
    }
    PathOf(slashes + key, tail);
  }

  /** The components urlsplit finds in a line of the shape scheme "://" bucket slashes
      key tail. */
  lemma UrlSplitOfShape(sch: string, bucket: string, slashes: string, key: string, tail: string)
    requires AsciiLower(sch) == "s3"
    requires BucketChars(bucket)
    requires slashes != [] && AllChar(slashes, '/')
    requires key == [] || ValidKey(key)
    requires IsUriTail(tail) && NoUnsafe(tail)
    ensures var parts := UrlSplit(sch + "://" + bucket + slashes + key + tail);
      parts.scheme == "s3" && parts.netloc == bucket && parts.path == slashes + key
  {
    assert NoUnsafe(slashes);
    assert NoUnsafe(key);
    SchemeOfShape(sch, bucket, slashes, key, tail);
    NetlocOfShape(bucket, slashes, key, tail);
    PathOfShape(slashes, key, tail);
    UrlSplitFrom(sch + "://" + bucket + slashes + key + tail, "//" + bucket + slashes + key + tail,
      bucket, slashes + key + tail);
  }

  /** Every line of the shape scheme "://" bucket slashes key tail, with scheme s3 in any
      letter case, is accepted as bucket and key when the key is non-empty, and is
      refused as a missing key when it is empty. */
  lemma ParseOfShape(sch: string, bucket: string, slashes: string, key: string, tail: string, n: int)
    requires AsciiLower(sch) == "s3"
    requires ValidBucket(bucket)
    requires slashes != [] && AllChar(slashes, '/')
    requires key == [] || ValidKey(key)
    requires IsUriTail(tail) && NoUnsafe(tail)
    ensures var line := sch + "://" + bucket + slashes + key + tail;
      ParseS3Uri(line, n) == if key == [] then Err(MissingObjectKey(n, line))
                             else Ok(S3ObjectRef(n, "s3://" + bucket + "/" + key, bucket, key))
  {
    UrlSplitOfShape(sch, bucket, slashes, key, tail);
    LStripCharRun(slashes, key, '/');
  }

  /** A line of that shape whose bucket has an unbalanced or misplaced bracket is refused
      the way urlparse refuses it, whatever its key. */
  lemma RejectsBadBrackets(sch: string, bucket: string, slashes: string, key: string, tail: string, n: int)
    requires AsciiLower(sch) == "s3"
    requires BucketChars(bucket) && BracketsRefused(bucket)
    requires slashes != [] && AllChar(slashes, '/')
    requires key == [] || ValidKey(key)
    requires IsUriTail(tail) && NoUnsafe(tail)
    ensures var line := sch + "://" + bucket + slashes + key + tail;
      ParseS3Uri(line, n) == Err(UrlRejected(n, line))
  {
    UrlSplitOfShape(sch, bucket, slashes, key, tail);
  }

  /** For instance, an opening bracket with no closing one in the bucket. */
  lemma UnclosedBracketRefused(n: int)
    ensures ParseS3Uri("s3://[b/k", n) == Err(UrlRejected(n, "s3://[b/k"))
  {
    assert "s3" + "://" + "[b" + "/" + "k" + "" == "s3://[b/k";
    assert "[b"[0] == '[' && ']' !in "[b";
    RejectsBadBrackets("s3", "[b", "/", "k", "", n);
  }

  lemma NoUnsafeConcat(a: string, b: string)
    requires NoUnsafe(a) && NoUnsafe(b)
    ensures NoUnsafe(a + b)
  {
    assert forall i :: |a| <= i < |a + b| ==> (a + b)[i] == b[i - |a|];
  }

  /** A normalised URI parses back to the reference it came from: the validator is
      idempotent. */
  lemma ParseNormalised(ref: S3ObjectRef, n: int)
    requires ValidRef(ref)
    ensures ParseS3Uri(ref.uri, n) == Ok(ref.(lineNumber := n))
  {
    assert "s3" + "://" + ref.bucket + "/" + ref.key + "" == ref.uri;
    ParseOfShape("s3", ref.bucket, "/", ref.key, "", n);
  }

  /** The four stages of UrlSplit, one after the other. */
  lemma UrlSplitStages(line: string)
    ensures UrlSplit(line).scheme == SplitScheme(Sanitize(line)).0
    ensures UrlSplit(line).netloc == SplitNetloc(SplitScheme(Sanitize(line)).1).0
    ensures UrlSplit(line).path
      == SplitOnce(SplitOnce(SplitNetloc(SplitScheme(Sanitize(line)).1).1, '#').0, '?').0
  {
  }

  lemma SchemeParts(url: string) returns (sch: string)
    requires SplitScheme(url).0 == "s3"
    ensures AsciiLower(sch) == "s3" && url == sch + ":" + SplitScheme(url).1
  {
    var i := Find(url, ':');
    sch := url[..i];
    assert url == url[..i] + [':'] + url[i + 1..];
  }

  lemma NetlocParts(s: string)
    requires SplitNetloc(s).0 != ""
    ensures s == "//" + SplitNetloc(s).0 + SplitNetloc(s).1
    ensures SplitNetloc(s).1 == [] || IsAuthorityEnd(SplitNetloc(s).1[0])
  {
    var d := AuthorityEnd(s, 2);
    assert s == s[..2] + s[2..d] + s[d..];
  }

  lemma PathParts(s: string) returns (tail: string)
    ensures s == SplitOnce(SplitOnce(s, '#').0, '?').0 + tail && IsUriTail(tail)
  {
    var h := Find(s, '#');
    var before := SplitOnce(s, '#').0;
    assert before == s[..h];
    var q := Find(before, '?');
    var path := SplitOnce(before, '?').0;
    assert path == s[..q];
    tail := s[q..];
    assert s == s[..q] + s[q..];
    if tail != [] {
      if q < |before| {
        assert tail[0] == before[q];
      } else {
        assert q == h && h < |s|;
      }
    }
  }

  lemma KeyParts(path: string) returns (slashes: string)
    requires path != [] && path[0] == '/'
    ensures slashes != [] && AllChar(slashes, '/') && path == slashes + LStripChar(path, '/')
  {
    var key := LStripChar(path, '/');
    slashes := path[..|path| - |key|];
    assert path == slashes + key;
  }

  lemma Reassemble(url: string, sch: string, afterScheme: string, bucket: string, rest: string,
                   path: string, tail: string, slashes: string, key: string)
    requires url == sch + ":" + afterScheme
    requires afterScheme == "//" + bucket + rest
    requires rest == path + tail
    requires path == slashes + key
    ensures url == sch + "://" + bucket + slashes + key + tail
  {
  }

  /** Conversely, an accepted line has that shape after the characters urlsplit
      discards are gone: the returned scheme text, slash run and tail rebuild it. */
  lemma ShapeOfAccepted(line: string, n: int) returns (sch: string, slashes: string, tail: string)
    requires ParseS3Uri(line, n).Ok?
    ensures var ref := ParseS3Uri(line, n).value;
      && Sanitize(line) == sch + "://" + ref.bucket + slashes + ref.key + tail
      && AsciiLower(sch) == "s3"
      && slashes != [] && AllChar(slashes, '/')
      && IsUriTail(tail)
  {
    var ref := ParseS3Uri(line, n).value;
    var url := Sanitize(line);
    UrlSplitStages(line);
    var afterScheme := SplitScheme(url).1;
    var rest := SplitNetloc(afterScheme).1;
    var path := UrlSplit(line).path;
    sch := SchemeParts(url);
    NetlocParts(afterScheme);
    tail := PathParts(rest);
    assert path[0] == '/' by {
      assert rest[..|path|] == path;
      assert rest[0] == path[0];
    }
    slashes := KeyParts(path);
    Reassemble(url, sch, afterScheme, ref.bucket, rest, path, tail, slashes, ref.key);
  }

  /** A line without a ":" has no scheme and is refused as malformed, unless urlparse
      already raised on its brackets. */
  lemma RejectsWithoutColon(line: string, n: int)
    requires ':' !in line
    ensures ParseS3Uri(line, n) ==
      if BracketsRefused(UrlSplit(line).netloc) then Err(UrlRejected(n, line)) else Err(MalformedUri(n, line))
  {
    SchemeNeedsColon(line);
  }

  /** Without a ":" urlsplit finds no scheme. */
  lemma SchemeNeedsColon(line: string)
    requires ':' !in line
    ensures UrlSplit(line).scheme == ""
  {
    var stripped := LStripC0(line);
    assert forall i :: 0 <= i < |stripped| ==> stripped[i] == line[|line| - |stripped| + i];
    assert ':' !in stripped;
    var url := Sanitize(line);
    assert ':' !in url;
    assert Find(url, ':') == |url|;
    UrlSplitStages(line);
  }

  /** A line whose authority after "://" is empty is refused as malformed. */
  lemma RejectsEmptyBucket(sch: string, rest: string, n: int)
    requires AsciiLower(sch) == "s3"
    requires rest == [] || IsAuthorityEnd(rest[0])
    requires NoUnsafe(rest)
    ensures ParseS3Uri(sch + "://" + rest, n) == Err(MalformedUri(n, sch + "://" + rest))
  {
    var line := sch + "://" + rest;
    SchemeOfS3Line(sch, rest);
    EmptyNetloc(rest);
    UrlSplitFrom(line, "//" + rest, "", rest);
    assert UrlSplit(line).netloc == "" && !BracketsRefused("");
  }

  lemma EmptyNetloc(rest: string)
    requires rest == [] || IsAuthorityEnd(rest[0])
    ensures SplitNetloc("//" + rest) == ("", rest)
  {
    NetlocOf("", rest);
    assert "//" + "" + rest == "//" + rest;
  }
}
