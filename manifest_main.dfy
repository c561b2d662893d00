/** The generator's entry point: load the objects, build the rows, write the manifest;
    any error ends the run with exit status 1 and nothing written. */
module ManifestMain {
  import opened Text
  import opened Manifest
  import opened ManifestInput
  import opened ObjectProbe
  import opened ManifestRows
  import opened ManifestWriter

  /** How a run ends: the manifest text and the number of rows it reports, or the
      error it reports. */
  datatype Run = Written(text: string, rowCount: nat) | Failed(error: ManifestError)

  function ExitCode(run: Run): int {
    if run.Written? then 0 else 1
  }

  /** A completion order for every batch size, as the pool may finish its tasks. */
  ghost predicate ValidSchedule(schedule: nat -> seq<nat>) {
    forall n: nat :: IsPermutation(schedule(n), n)
  }

  /** The run for the lines of the input file and the command-line options. */
  function Generate(lines: seq<string>, skipHeader: bool, authz: string, env: Env, workers: int, schedule: nat -> seq<nat>): Run
    requires workers > 1 ==> ValidSchedule(schedule)
  {
    match LoadReference(lines, skipHeader)
    case Err(e) => Failed(e)
    case Ok(objects) =>
      match RowsFor(objects, authz, env, workers, schedule(|objects|))
      case Err(e) => Failed(e)
      case Ok(rows) => Written(ManifestText(rows), |rows|)
  }

  /** main: load, build, write; report the first error with exit status 1. */
  method RunGenerator(lines: seq<string>, skipHeader: bool, authz: string, env: Env, workers: int, schedule: nat -> seq<nat>)
    returns (exitCode: int, run: Run)
    requires workers > 1 ==> ValidSchedule(schedule)
    ensures run == Generate(lines, skipHeader, authz, env, workers, schedule)
    ensures exitCode == ExitCode(run)
  {
    var objects := LoadS3Objects(lines, skipHeader);
    if objects.Err? {
      return 1, Failed(objects.error);
    }
    var rows := BuildRows(objects.value, authz, env, workers, schedule(|objects.value|));
    if rows.Err? {
      return 1, Failed(rows.error);
    }
    var text := WriteManifest(rows.value);
    return 0, Written(text, |rows.value|);
  }

  /** The manifest is written, and the exit status is 0, exactly when loading and
      building both succeed; with fewer than one worker nothing is written. */
  lemma WrittenOnlyAfterSuccess(lines: seq<string>, skipHeader: bool, authz: string, env: Env, workers: int, schedule: nat -> seq<nat>)
    requires workers > 1 ==> ValidSchedule(schedule)
    ensures var run := Generate(lines, skipHeader, authz, env, workers, schedule);
      && (ExitCode(run) == 0 <==> run.Written?)
      && (run.Written? <==>
            && LoadReference(lines, skipHeader).Ok?
            && RowsFor(LoadReference(lines, skipHeader).value, authz, env, workers,
                 schedule(|LoadReference(lines, skipHeader).value|)).Ok?)
      && (workers < 1 ==> run.Failed?)
  {
  }

  /** A written manifest holds the header and one line per loaded object, in input
      order, each the row built from that object, and the run reports that count. */
  lemma WrittenManifest(lines: seq<string>, skipHeader: bool, authz: string, env: Env, workers: int, schedule: nat -> seq<nat>)
    requires workers > 1 ==> ValidSchedule(schedule)
    requires Generate(lines, skipHeader, authz, env, workers, schedule).Written?
    ensures var objects := LoadReference(lines, skipHeader).value;
      var run := Generate(lines, skipHeader, authz, env, workers, schedule);
      exists rows: seq<ManifestRow> ::
        && run.text == ManifestText(rows)
        && run.rowCount == |rows| == |objects| > 0
        && forall i :: 0 <= i < |objects| ==> RowFor(objects[i], authz, env) == Ok(rows[i])
  {
    var loaded := LoadReference(lines, skipHeader);
    assert loaded.Ok?;
    var objects := loaded.value;
    LoadedNonEmpty(lines, skipHeader, ValidateLine);
    var order := schedule(|objects|);
    var built := RowsFor(objects, authz, env, workers, order);
    assert built.Ok?;
    var rows := built.value;
    assert Generate(lines, skipHeader, authz, env, workers, schedule) == Written(ManifestText(rows), |rows|);
    RowsFollowObjects(objects, authz, env, workers, order);
    forall i | 0 <= i < |objects|
      ensures RowFor(objects[i], authz, env) == Ok(rows[i])
    {
      assert RowFor(objects[i], authz, env).Ok?;
    }
  }

  /** A failed run reports the load's error, or else the error of one of the objects. */
  lemma FailureIsReported(lines: seq<string>, skipHeader: bool, authz: string, env: Env, workers: int, schedule: nat -> seq<nat>)
    requires workers >= 1 && (workers > 1 ==> ValidSchedule(schedule))
    requires Generate(lines, skipHeader, authz, env, workers, schedule).Failed?
    ensures var e := Generate(lines, skipHeader, authz, env, workers, schedule).error;
      || LoadReference(lines, skipHeader) == Err(e)
      || (&& LoadReference(lines, skipHeader).Ok?
          && exists i :: 0 <= i < |LoadReference(lines, skipHeader).value|
               && RowFor(LoadReference(lines, skipHeader).value[i], authz, env) == Err(e))
  {
    if LoadReference(lines, skipHeader).Ok? {
      var objects := LoadReference(lines, skipHeader).value;
      RowsFollowObjects(objects, authz, env, workers, schedule(|objects|));
    }
  }
}
