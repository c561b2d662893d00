/** Loading the input file: every line that is not blank is stripped and validated as
    an S3 URI, numbered by its 1-based position in the whole file; an optional header,
    the first non-blank line, is dropped once; the first malformed line aborts the load,
    and a load that keeps nothing fails. The file arrives as its sequence of lines.

    The loop and its specification are written over any line validator; the load of
    the script is that loop with ParseS3Uri as the validator. */
module ManifestInput {
  import opened Text
  import opened Manifest
  import opened S3Uri

  /** Indices of the non-blank lines, in increasing order. */
  function NonBlank(lines: seq<string>): (r: seq<nat>)
    ensures InRange(lines, r)
  {
    if lines == [] then []
    else
      var p := NonBlank(lines[..|lines| - 1]);
      if !IsBlank(lines[|lines| - 1]) then p + [|lines| - 1] else p
  }

  /** Indices of the lines that are validated: the non-blank ones, less the first of
      them when a header is to be skipped. */
  function Selected(lines: seq<string>, skipHeader: bool): (r: seq<nat>)
    ensures InRange(lines, r)
  {
    var nb := NonBlank(lines);
    if skipHeader && nb != [] then nb[1..] else nb
  }

  /** A line validator: a raw line and its 1-based number to a reference or an error. */
  type Validator = (string, int) -> Result<S3ObjectRef, ManifestError>

  /** The validator of load_s3_objects: _parse_s3_uri applied to the stripped line. */
  function ValidateLine(raw: string, lineNumber: int): Result<S3ObjectRef, ManifestError> {
    ParseS3Uri(Strip(raw), lineNumber)
  }

  /** The validation of line j, numbered from 1. */
  function ParseLine(lines: seq<string>, j: nat, validate: Validator): Result<S3ObjectRef, ManifestError>
    requires j < |lines|
  {
    validate(lines[j], j + 1)
  }

  predicate InRange(lines: seq<string>, sel: seq<nat>) {
    forall k :: 0 <= k < |sel| ==> sel[k] < |lines|
  }

  predicate Increasing(sel: seq<nat>) {
    forall a, b :: 0 <= a < b < |sel| ==> sel[a] < sel[b]
  }

  /** The non-blank lines are listed in increasing order. */
  lemma {:induction false} NonBlankIncreasing(lines: seq<string>)
    ensures Increasing(NonBlank(lines))
  {
    if lines != [] {
      NonBlankIncreasing(lines[..|lines| - 1]);
    }
  }

  lemma SelectedIncreasing(lines: seq<string>, skipHeader: bool)
    ensures Increasing(Selected(lines, skipHeader))
  {
    NonBlankIncreasing(lines);
  }

  /** Validation of the selected lines in order, stopping at the first failure. */
  function ParseAll(lines: seq<string>, sel: seq<nat>, validate: Validator): (r: Result<seq<S3ObjectRef>, ManifestError>)
    requires InRange(lines, sel)
    ensures r.Ok? <==> forall k :: 0 <= k < |sel| ==> ParseLine(lines, sel[k], validate).Ok?
    ensures r.Ok? ==> |r.value| == |sel| && forall k :: 0 <= k < |sel| ==> r.value[k] == ParseLine(lines, sel[k], validate).value
  {
    if sel == [] then Ok([])
    else
      match ParseLine(lines, sel[0], validate)
      case Err(e) => Err(e)
      case Ok(ref) =>
        match ParseAll(lines, sel[1..], validate)
        case Err(e) => Err(e)
        case Ok(rest) =>
          assert forall k :: 1 <= k < |sel| ==> sel[k] == sel[1..][k - 1];
          Ok([ref] + rest)
  }

  /** The load as a function of the file's lines and the validator. */
  function LoadWith(lines: seq<string>, skipHeader: bool, validate: Validator): Result<seq<S3ObjectRef>, ManifestError> {
    match ParseAll(lines, Selected(lines, skipHeader), validate)
    case Err(e) => Err(e)
    case Ok(objects) => if objects == [] then Err(NoUrisFound) else Ok(objects)
  }

  /** A load that succeeds keeps at least one reference. */
  lemma LoadedNonEmpty(lines: seq<string>, skipHeader: bool, validate: Validator)
    ensures LoadWith(lines, skipHeader, validate).Ok? ==> LoadWith(lines, skipHeader, validate).value != []
  {
  }

  /** load_s3_objects, as a function of the file's lines. */
  function LoadReference(lines: seq<string>, skipHeader: bool): Result<seq<S3ObjectRef>, ManifestError> {
    LoadWith(lines, skipHeader, ValidateLine)
  }

  // ---------------------------------------------------------------------------
  // The loop

  lemma {:induction false} ParseAllSnoc(lines: seq<string>, sel: seq<nat>, j: nat, validate: Validator)
    requires InRange(lines, sel) && j < |lines|
    ensures InRange(lines, sel + [j])
    ensures ParseAll(lines, sel + [j], validate) ==
      match ParseAll(lines, sel, validate)
      case Err(e) => Err(e)
      case Ok(objects) =>
        match ParseLine(lines, j, validate)
        case Err(e) => Err(e)
        case Ok(ref) => Ok(objects + [ref])
  {
    if sel == [] {
      assert sel + [j] == [j] && [j][0] == j && [j][1..] == [];
      assert ParseAll(lines, [], validate) == Ok([]);
      if ParseLine(lines, j, validate).Ok? {
        var ref := ParseLine(lines, j, validate).value;
        assert [ref] + [] == [] + [ref];
      }
    } else {
      var s := sel + [j];
      assert s[0] == sel[0];
      assert s[1..] == sel[1..] + [j];
      ParseAllSnoc(lines, sel[1..], j, validate);
      match ParseLine(lines, sel[0], validate)
      case Err(e) =>
      case Ok(ref) =>
        match ParseAll(lines, sel[1..], validate)
        case Err(e) =>
        case Ok(rest) =>
          if ParseLine(lines, j, validate).Ok? {
            assert [ref] + (rest + [ParseLine(lines, j, validate).value])
              == ([ref] + rest) + [ParseLine(lines, j, validate).value];
          }
    }
  }

  lemma {:induction false} ParseAllFailedPrefix(lines: seq<string>, p: seq<nat>, q: seq<nat>, validate: Validator)
    requires InRange(lines, p + q) && InRange(lines, p)
    requires ParseAll(lines, p, validate).Err?
    ensures ParseAll(lines, p + q, validate) == ParseAll(lines, p, validate)
  {
    assert (p + q)[0] == p[0];
    if ParseLine(lines, p[0], validate).Ok? {
      assert (p + q)[1..] == p[1..] + q;
      ParseAllFailedPrefix(lines, p[1..], q, validate);
    }
  }

  lemma NonBlankStep(lines: seq<string>, i: nat)
    requires i < |lines|
    ensures NonBlank(lines[..i + 1]) ==
      if !IsBlank(lines[i]) then NonBlank(lines[..i]) + [i] else NonBlank(lines[..i])
  {
    assert lines[..i + 1][..i] == lines[..i];
  }

  /** How the selection grows by one line, matching the loop's header flag. */
  lemma SelectedStep(lines: seq<string>, i: nat, skipHeader: bool)
    requires i < |lines|
    ensures Selected(lines[..i + 1], skipHeader) ==
      if IsBlank(lines[i]) || (skipHeader && NonBlank(lines[..i]) == []) then Selected(lines[..i], skipHeader)
      else Selected(lines[..i], skipHeader) + [i]
    ensures (NonBlank(lines[..i + 1]) != []) == (NonBlank(lines[..i]) != [] || !IsBlank(lines[i]))
  {
    NonBlankStep(lines, i);
    var nb := NonBlank(lines[..i]);
    if !IsBlank(lines[i]) && skipHeader && nb != [] {
      assert (nb + [i])[1..] == nb[1..] + [i];
    }
  }

  lemma {:induction false} SelectedExtends(lines: seq<string>, n: nat, skipHeader: bool) returns (rest: seq<nat>)
    requires n <= |lines|
    ensures Selected(lines, skipHeader) == Selected(lines[..n], skipHeader) + rest
    decreases |lines| - n
  {
    if n == |lines| {
      assert lines[..n] == lines;
      rest := [];
    } else {
      SelectedStep(lines, n, skipHeader);
      var later := SelectedExtends(lines, n + 1, skipHeader);
      if IsBlank(lines[n]) || (skipHeader && NonBlank(lines[..n]) == []) {
        rest := later;
      } else {
        rest := [n] + later;
        Regroup3(Selected(lines[..n], skipHeader), [n], later);
      }
    }
  }

  /** The state of the loop after the first i lines: whether the header has been
      dropped, and the references kept so far. */
  predicate LoadState(lines: seq<string>, i: nat, skipHeader: bool, validate: Validator,
                      skippedHeader: bool, objects: seq<S3ObjectRef>)
    requires i <= |lines|
  {
    && skippedHeader == (skipHeader && NonBlank(lines[..i]) != [])
    && ParseAll(lines, Selected(lines[..i], skipHeader), validate) == Ok(objects)
  }

  lemma LoadStart(lines: seq<string>, skipHeader: bool, validate: Validator)
    ensures LoadState(lines, 0, skipHeader, validate, false, [])
  {
    assert lines[..0] == [];
  }

  /** What one more line does to the loop's state: a blank line changes nothing, the
      first non-blank line is dropped when a header is expected, any other line is
      validated and either kept or ends the load with its error. */
  lemma LoadStep(lines: seq<string>, i: nat, skipHeader: bool, validate: Validator,
                 skippedHeader: bool, objects: seq<S3ObjectRef>)
    requires i < |lines|
    requires LoadState(lines, i, skipHeader, validate, skippedHeader, objects)
    ensures IsBlank(lines[i]) ==>
      LoadState(lines, i + 1, skipHeader, validate, skippedHeader, objects)
    ensures !IsBlank(lines[i]) && skipHeader && !skippedHeader ==>
      LoadState(lines, i + 1, skipHeader, validate, true, objects)
    ensures !IsBlank(lines[i]) && !(skipHeader && !skippedHeader) && validate(lines[i], i + 1).Ok? ==>
      LoadState(lines, i + 1, skipHeader, validate, skippedHeader, objects + [validate(lines[i], i + 1).value])
    ensures !IsBlank(lines[i]) && !(skipHeader && !skippedHeader) && validate(lines[i], i + 1).Err? ==>
      LoadWith(lines, skipHeader, validate) == Err(validate(lines[i], i + 1).error)
  {
    SelectedStep(lines, i, skipHeader);
    if !IsBlank(lines[i]) && !(skipHeader && NonBlank(lines[..i]) == []) {
      ParseAllSnoc(lines, Selected(lines[..i], skipHeader), i, validate);
      if validate(lines[i], i + 1).Err? {
        var rest := SelectedExtends(lines, i + 1, skipHeader);
        ParseAllFailedPrefix(lines, Selected(lines[..i + 1], skipHeader), rest, validate);
      }
    }
  }

  lemma LoadDone(lines: seq<string>, skipHeader: bool, validate: Validator,
                 skippedHeader: bool, objects: seq<S3ObjectRef>)
    requires LoadState(lines, |lines|, skipHeader, validate, skippedHeader, objects)
    ensures LoadWith(lines, skipHeader, validate) == if objects == [] then Err(NoUrisFound) else Ok(objects)
  {
    assert lines[..|lines|] == lines;
  }

  /** The loop of load_s3_objects: strip each line, skip blank ones, drop the first
      non-blank one once when a header is expected, validate the others and stop at
      the first failure. */
  method LoadLines(lines: seq<string>, skipHeader: bool, validate: Validator)
    returns (r: Result<seq<S3ObjectRef>, ManifestError>)
    ensures r == LoadWith(lines, skipHeader, validate)
  {
    var objects: seq<S3ObjectRef> := [];
    var skippedHeader := false;
    LoadStart(lines, skipHeader, validate);
    for i := 0 to |lines|
      invariant LoadState(lines, i, skipHeader, validate, skippedHeader, objects)
    {
      LoadStep(lines, i, skipHeader, validate, skippedHeader, objects);
      var line := Strip(lines[i]);
      if line == "" {
      } else if skipHeader && !skippedHeader {
        skippedHeader := true;
      } else {
        match validate(lines[i], i + 1)
        case Err(e) =>
          return Err(e);
        case Ok(ref) =>
          objects := objects + [ref];
      }
    }
    LoadDone(lines, skipHeader, validate, skippedHeader, objects);
    if objects == [] {
      return Err(NoUrisFound);
    }
    return Ok(objects);
  }

  /** load_s3_objects over the lines of the input file. */
  method LoadS3Objects(lines: seq<string>, skipHeader: bool) returns (r: Result<seq<S3ObjectRef>, ManifestError>)
    ensures r == LoadReference(lines, skipHeader)
  {
    r := LoadLines(lines, skipHeader, ValidateLine);
  }

  // ---------------------------------------------------------------------------
  // What a load yields

  /** Exactly the lines that are not whitespace-only are candidates. */
  lemma {:induction false} NonBlankMembers(lines: seq<string>, j: nat)
    ensures j in NonBlank(lines) <==> j < |lines| && !IsBlank(lines[j])
  {
    if lines != [] {
      var n := |lines| - 1;
      var p := NonBlank(lines[..n]);
      NonBlankMembers(lines[..n], j);
      assert j in p ==> j < n;
      if j < n {
        assert lines[..n][j] == lines[j];
      }
      assert NonBlank(lines) == if !IsBlank(lines[n]) then p + [n] else p;
    }
  }

  /** With a header, the dropped line is exactly the first non-blank one: a line is
      validated when it is not blank and some earlier line is not blank either. */
  lemma HeaderIsFirstNonBlank(lines: seq<string>, j: nat)
    ensures j in Selected(lines, true) <==>
      j < |lines| && !IsBlank(lines[j]) && exists i :: 0 <= i < j && !IsBlank(lines[i])
  {
    var nb := NonBlank(lines);
    NonBlankMembers(lines, j);
    NonBlankIncreasing(lines);
    if j in Selected(lines, true) {
      var k :| 0 <= k < |nb[1..]| && nb[1..][k] == j;
      assert nb[0] < j;
      NonBlankMembers(lines, nb[0]);
    }
    if j < |lines| && !IsBlank(lines[j]) && exists i :: 0 <= i < j && !IsBlank(lines[i]) {
      var i :| 0 <= i < j && !IsBlank(lines[i]);
      NonBlankMembers(lines, i);
      var k :| 0 <= k < |nb| && nb[k] == j;
      var m :| 0 <= m < |nb| && nb[m] == i;
      assert m < k;
      assert nb[1..][k - 1] == j;
    }
  }

  /** Without a header every non-blank line is validated. */
  lemma NoHeaderKeepsAll(lines: seq<string>, j: nat)
    ensures j in Selected(lines, false) <==> j < |lines| && !IsBlank(lines[j])
  {
    NonBlankMembers(lines, j);
  }

  /** A validator is sound when every reference it accepts is valid and carries the
      line number it was given, and it never reports an empty input as its error. The
      properties of the load below hold for every sound validator. */
  ghost predicate Sound(validate: Validator) {
    forall raw, n ::
      && (validate(raw, n).Ok? ==> ValidRef(validate(raw, n).value) && validate(raw, n).value.lineNumber == n)
      && (validate(raw, n).Err? ==> validate(raw, n).error != NoUrisFound)
  }

  /** The validator of load_s3_objects is sound. */
  lemma ValidatorIsSound()
    ensures Sound(ValidateLine)
  {
    forall raw, n
      ensures ValidateLine(raw, n).Ok? ==> ValidRef(ValidateLine(raw, n).value) && ValidateLine(raw, n).value.lineNumber == n
      ensures ValidateLine(raw, n).Err? ==> ValidateLine(raw, n).error != NoUrisFound
    {
      ParseIsSound(Strip(raw), n);
    }
  }

  lemma ParseIsSound(line: string, n: int)
    ensures ParseS3Uri(line, n).Ok? ==> ValidRef(ParseS3Uri(line, n).value) && ParseS3Uri(line, n).value.lineNumber == n
    ensures ParseS3Uri(line, n).Err? ==> ParseS3Uri(line, n).error != NoUrisFound
  {
    var r := ParseS3Uri(line, n);
    assert r.Err? ==> r.error.UrlRejected? || r.error.MalformedUri? || r.error.MissingObjectKey?;
  }

  /** A successful load returns one reference per selected line, in line order: the
      validation of that line, numbered by its position in the whole file. */
  lemma LoadedRefs(lines: seq<string>, skipHeader: bool, validate: Validator)
    requires Sound(validate)
    requires LoadWith(lines, skipHeader, validate).Ok?
    ensures var objects := LoadWith(lines, skipHeader, validate).value;
      var sel := Selected(lines, skipHeader);
      && |objects| == |sel| > 0
      && (forall k :: 0 <= k < |objects| ==>
            && ParseLine(lines, sel[k], validate) == Ok(objects[k])
            && objects[k].lineNumber == sel[k] + 1
            && ValidRef(objects[k]))
      && (forall a, b :: 0 <= a < b < |objects| ==> objects[a].lineNumber < objects[b].lineNumber)
  {
    SelectedIncreasing(lines, skipHeader);
  }

  /** A load succeeds exactly when something is selected and every selected line is valid. */
  lemma LoadSucceedsIff(lines: seq<string>, skipHeader: bool, validate: Validator)
    ensures LoadWith(lines, skipHeader, validate).Ok? <==>
      var sel := Selected(lines, skipHeader);
      sel != [] && forall k :: 0 <= k < |sel| ==> ParseLine(lines, sel[k], validate).Ok?
  {
  }

  lemma {:induction false} FirstFailure(lines: seq<string>, sel: seq<nat>, validate: Validator) returns (k: nat)
    requires InRange(lines, sel) && ParseAll(lines, sel, validate).Err?
    ensures k < |sel| && ParseLine(lines, sel[k], validate) == Err(ParseAll(lines, sel, validate).error)
    ensures forall m :: 0 <= m < k ==> ParseLine(lines, sel[m], validate).Ok?
  {
    if ParseLine(lines, sel[0], validate).Err? {
      k := 0;
    } else {
      var k' := FirstFailure(lines, sel[1..], validate);
      k := k' + 1;
      assert forall m :: 1 <= m < k ==> sel[m] == sel[1..][m - 1];
    }
  }

  /** A failed validation aborts the load with the error of the first invalid line. */
  lemma LoadFailsAtFirstInvalid(lines: seq<string>, skipHeader: bool, validate: Validator) returns (k: nat)
    requires LoadWith(lines, skipHeader, validate).Err?
    requires LoadWith(lines, skipHeader, validate).error != NoUrisFound
    ensures var sel := Selected(lines, skipHeader);
      && k < |sel|
      && ParseLine(lines, sel[k], validate) == Err(LoadWith(lines, skipHeader, validate).error)
      && forall m :: 0 <= m < k ==> ParseLine(lines, sel[m], validate).Ok?
  {
    k := FirstFailure(lines, Selected(lines, skipHeader), validate);
  }

  /** "No S3 URIs found" is reported exactly when no line is selected. */
  lemma NoUrisIff(lines: seq<string>, skipHeader: bool, validate: Validator)
    requires Sound(validate)
    ensures LoadWith(lines, skipHeader, validate) == Err(NoUrisFound) <==> Selected(lines, skipHeader) == []
  {
    var sel := Selected(lines, skipHeader);
    if ParseAll(lines, sel, validate).Err? {
      var k := FirstFailure(lines, sel, validate);
      assert ParseLine(lines, sel[k], validate) == validate(lines[sel[k]], sel[k] + 1);
    }
  }
}
