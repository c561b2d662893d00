/** build_rows: one row per object, in input order, whichever order the workers finish
    in; the first failure aborts the whole batch. */
module ManifestRows {
  import opened Text
  import opened Manifest
  import opened ObjectProbe

  type Outcome = Result<ManifestRow, ManifestError>

  /** What building each object's row gives, by submission index. */
  function Outcomes(objects: seq<S3ObjectRef>, authz: string, env: Env): (outs: seq<Outcome>)
    ensures |outs| == |objects|
    ensures forall i :: 0 <= i < |objects| ==> outs[i] == RowFor(objects[i], authz, env)
  {
    seq(|objects|, i requires 0 <= i < |objects| => RowFor(objects[i], authz, env))
  }

  // ---------------------------------------------------------------------------
  // The sequential path: rows built one after another, in index order.

  /** The rows of all outcomes in order, or the error of the first failure. */
  function Collect(outs: seq<Outcome>): Result<seq<ManifestRow>, ManifestError> {
    if outs == [] then Ok([])
    else
      match Collect(outs[..|outs| - 1])
      case Err(e) => Err(e)
      case Ok(rows) =>
        var last := outs[|outs| - 1];
        if last.Err? then Err(last.error) else Ok(rows + [last.value])
  }

  lemma CollectStep(outs: seq<Outcome>, i: nat)
    requires i < |outs|
    ensures Collect(outs[..i + 1]) == match Collect(outs[..i])
      case Err(e) => Err(e)
      case Ok(rows) => if outs[i].Err? then Err(outs[i].error) else Ok(rows + [outs[i].value])
  {
    assert outs[..i + 1][..i] == outs[..i];
  }

  /** Once a prefix has failed, so has every longer prefix, with the same error. */
  lemma {:induction false} CollectErrPersists(outs: seq<Outcome>, i: nat)
    requires i <= |outs| && Collect(outs[..i]).Err?
    ensures Collect(outs) == Collect(outs[..i])
    decreases |outs| - i
  {
    if i < |outs| {
      CollectStep(outs, i);
      CollectErrPersists(outs, i + 1);
    } else {
      assert outs[..i] == outs;
    }
  }

  /** Collect succeeds exactly when every outcome does, and then gives every row in order;
      otherwise it gives the error of the lowest failing index. */
  lemma {:induction false} CollectMeans(outs: seq<Outcome>)
    ensures Collect(outs).Ok? <==> forall i :: 0 <= i < |outs| ==> outs[i].Ok?
    ensures Collect(outs).Ok? ==>
      |Collect(outs).value| == |outs| && forall i :: 0 <= i < |outs| ==> Collect(outs).value[i] == outs[i].value
    ensures Collect(outs).Err? ==>
      exists i :: (0 <= i < |outs| && outs[i].Err? && Collect(outs).error == outs[i].error
        && forall j :: 0 <= j < i ==> outs[j].Ok?)
  {
    if outs != [] {
      var n := |outs| - 1;
      var front := outs[..n];
      CollectMeans(front);
      assert forall i :: 0 <= i < n ==> front[i] == outs[i];
      match Collect(front)
      case Err(e) => {
        var i :| 0 <= i < n && front[i].Err? && e == front[i].error && forall j :: 0 <= j < i ==> front[j].Ok?;
        assert outs[i].Err? && e == outs[i].error;
      }
      case Ok(rows) => {
        if outs[n].Ok? {
          var all := rows + [outs[n].value];
          assert forall i :: 0 <= i < n ==> all[i] == rows[i];
        } else {
          assert outs[n].Err?;
        }
      }
    }
  }

  // ---------------------------------------------------------------------------
  // The pooled path: results arrive in completion order and are stored by index.

  predicate InBounds(order: seq<nat>, n: nat) {
    forall j :: 0 <= j < |order| ==> order[j] < n
  }

  /** A completion order over n submitted tasks: each index finishes exactly once. */
  predicate IsPermutation(order: seq<nat>, n: nat) {
    && |order| == n
    && InBounds(order, n)
    && (forall a, b :: 0 <= a < b < n ==> order[a] != order[b])
    && (forall i :: 0 <= i < n ==> i in order)
  }

  /** The position, in completion order, of the first task that failed. */
  function FirstFailure(outs: seq<Outcome>, order: seq<nat>): Option<nat>
    requires InBounds(order, |outs|)
  {
    if order == [] then None
    else
      var m := |order| - 1;
      assert InBounds(order[..m], |outs|) by {
        assert forall j :: 0 <= j < m ==> order[..m][j] == order[j];
      }
      match FirstFailure(outs, order[..m])
      case Some(k) => Some(k)
      case None => if outs[order[m]].Err? then Some(m) else None
  }

  lemma {:induction false} FirstFailureMeans(outs: seq<Outcome>, order: seq<nat>)
    requires InBounds(order, |outs|)
    ensures FirstFailure(outs, order).None? <==> forall j :: 0 <= j < |order| ==> outs[order[j]].Ok?
    ensures FirstFailure(outs, order).Some? ==>
      var k := FirstFailure(outs, order).value;
      k < |order| && outs[order[k]].Err? && forall j :: 0 <= j < k ==> outs[order[j]].Ok?
  {
    if order != [] {
      var m := |order| - 1;
      assert forall j :: 0 <= j < m ==> order[..m][j] == order[j];
      FirstFailureMeans(outs, order[..m]);
    }
  }

  /** The slots after the tasks of `order` have stored their rows by index. */
  function Fill(outs: seq<Outcome>, order: seq<nat>): (slots: seq<Option<ManifestRow>>)
    requires InBounds(order, |outs|)
    requires forall j :: 0 <= j < |order| ==> outs[order[j]].Ok?
    ensures |slots| == |outs|
  {
    if order == [] then seq(|outs|, _ => None)
    else
      var m := |order| - 1;
      assert forall j :: 0 <= j < m ==> order[..m][j] == order[j];
      Fill(outs, order[..m])[order[m] := Some(outs[order[m]].value)]
  }

  /** Slot i holds row i exactly when task i has completed, and is empty otherwise. */
  lemma {:induction false} FillSlots(outs: seq<Outcome>, order: seq<nat>)
    requires InBounds(order, |outs|)
    requires forall j :: 0 <= j < |order| ==> outs[order[j]].Ok?
    ensures forall i :: 0 <= i < |outs| ==>
      Fill(outs, order)[i] == if i in order then Some(outs[i].value) else None
  {
    if order != [] {
      var m := |order| - 1;
      assert forall j :: 0 <= j < m ==> order[..m][j] == order[j];
      FillSlots(outs, order[..m]);
      forall i | 0 <= i < |outs|
        ensures Fill(outs, order)[i] == if i in order then Some(outs[i].value) else None
      {
        assert order == order[..m] + [order[m]];
        assert i in order <==> i in order[..m] || i == order[m];
      }
    }
  }

  /** The rows of the filled slots, empty slots skipped. */
  function Somes(slots: seq<Option<ManifestRow>>): seq<ManifestRow> {
    if slots == [] then []
    else
      var rest := Somes(slots[..|slots| - 1]);
      match slots[|slots| - 1]
      case None => rest
      case Some(row) => rest + [row]
  }

  lemma {:induction false} SomesOfFull(slots: seq<Option<ManifestRow>>)
    requires forall i :: 0 <= i < |slots| ==> slots[i].Some?
    ensures |Somes(slots)| == |slots|
    ensures forall i :: 0 <= i < |slots| ==> Somes(slots)[i] == slots[i].value
  {
    if slots != [] {
      var n := |slots| - 1;
      assert forall i :: 0 <= i < n ==> slots[..n][i] == slots[i];
      SomesOfFull(slots[..n]);
    }
  }

  /** The outcome of the pooled path: the first failure in completion order, or the
      rows read back from the slots in index order. */
  function Pooled(outs: seq<Outcome>, order: seq<nat>): Result<seq<ManifestRow>, ManifestError>
    requires InBounds(order, |outs|)
  {
    match FirstFailure(outs, order)
    case Some(k) =>
      FirstFailureMeans(outs, order);
      Err(outs[order[k]].error)
    case None =>
      FirstFailureMeans(outs, order);
      Ok(Somes(Fill(outs, order)))
  }

  /** Whatever the completion order, the pooled path gives what the sequential path
      gives when every row succeeds, fails when some row fails, and reports the error
      of one of the failing objects. */
  lemma PooledMatchesSequential(outs: seq<Outcome>, order: seq<nat>)
    requires IsPermutation(order, |outs|)
    ensures Pooled(outs, order).Ok? <==> Collect(outs).Ok?
    ensures Pooled(outs, order).Ok? ==> Pooled(outs, order) == Collect(outs)
    ensures Pooled(outs, order).Err? ==> exists i :: 0 <= i < |outs| && outs[i].Err? && Pooled(outs, order).error == outs[i].error
  {
    FirstFailureMeans(outs, order);
    CollectMeans(outs);
    if FirstFailure(outs, order).None? {
      forall i | 0 <= i < |outs| ensures outs[i].Ok? {
        assert i in order;
        var j :| 0 <= j < |order| && order[j] == i;
      }
      FillSlots(outs, order);
      var slots := Fill(outs, order);
      SomesOfFull(slots);
      var rows := Somes(slots);
      assert forall i :: 0 <= i < |outs| ==> rows[i] == outs[i].value;
      assert rows == Collect(outs).value;
    } else {
      var k := FirstFailure(outs, order).value;
      assert outs[order[k]].Err?;
    }
  }

  // ---------------------------------------------------------------------------
  // build_rows

  /** build_rows as a function of the objects and the completion order. */
  function RowsFor(objects: seq<S3ObjectRef>, authz: string, env: Env, workers: int, order: seq<nat>): (r: Result<seq<ManifestRow>, ManifestError>)
    requires workers > 1 ==> InBounds(order, |objects|)
    ensures workers < 1 ==> r == Err(BadWorkerCount)
  {
    if workers < 1 then Err(BadWorkerCount)
    else if workers == 1 then Collect(Outcomes(objects, authz, env))
    else Pooled(Outcomes(objects, authz, env), order)
  }

  /** For any worker count of at least one and any completion order, build_rows yields
      exactly one row per object, row i built from object i, when every object's row
      succeeds; otherwise it yields an error of a failing object and no rows. */
  lemma RowsFollowObjects(objects: seq<S3ObjectRef>, authz: string, env: Env, workers: int, order: seq<nat>)
    requires workers >= 1
    requires workers > 1 ==> IsPermutation(order, |objects|)
    ensures RowsFor(objects, authz, env, workers, order).Ok? <==>
      forall i :: 0 <= i < |objects| ==> RowFor(objects[i], authz, env).Ok?
    ensures RowsFor(objects, authz, env, workers, order).Ok? ==>
      var rows := RowsFor(objects, authz, env, workers, order).value;
      |rows| == |objects| && forall i :: 0 <= i < |objects| ==> rows[i] == RowFor(objects[i], authz, env).value
    ensures RowsFor(objects, authz, env, workers, order).Err? ==>
      exists i :: 0 <= i < |objects| && RowFor(objects[i], authz, env).Err?
        && RowsFor(objects, authz, env, workers, order).error == RowFor(objects[i], authz, env).error
  {
    var outs := Outcomes(objects, authz, env);
    CollectMeans(outs);
    if workers > 1 {
      PooledMatchesSequential(outs, order);
    }
  }

  /** One worker and many give the same rows, whichever order the pool finishes in. */
  lemma WorkerCountInvariant(objects: seq<S3ObjectRef>, authz: string, env: Env, workers: int, order: seq<nat>)
    requires workers > 1 && IsPermutation(order, |objects|)
    ensures RowsFor(objects, authz, env, workers, order).Ok? <==> RowsFor(objects, authz, env, 1, order).Ok?
    ensures RowsFor(objects, authz, env, workers, order).Ok? ==>
      RowsFor(objects, authz, env, workers, order) == RowsFor(objects, authz, env, 1, order)
  {
    PooledMatchesSequential(Outcomes(objects, authz, env), order);
  }

  lemma PoolStep(outs: seq<Outcome>, order: seq<nat>, k: nat)
    requires InBounds(order, |outs|) && k < |order|
    requires FirstFailure(outs, order[..k]) == None
    ensures outs[order[k]].Err? ==> FirstFailure(outs, order) == Some(k)
    ensures outs[order[k]].Ok? ==> FirstFailure(outs, order[..k + 1]) == None
    ensures outs[order[k]].Ok? ==> (FirstFailureMeans(outs, order[..k]); FirstFailureMeans(outs, order[..k + 1]);
      Fill(outs, order[..k + 1]) == Fill(outs, order[..k])[order[k] := Some(outs[order[k]].value)])
  {
    var p := order[..k + 1];
    assert p[..k] == order[..k];
    assert InBounds(p, |outs|);
    if outs[order[k]].Err? {
      assert FirstFailure(outs, p) == Some(k);
      FirstFailurePersists(outs, order, k + 1);
    }
  }

  /** The pool after k tasks of `order` have completed without a failure: the slots are
      those the completed tasks fill. */
  predicate PoolState(outs: seq<Outcome>, order: seq<nat>, k: nat, slots: seq<Option<ManifestRow>>)
    requires InBounds(order, |outs|) && k <= |order|
  {
    assert InBounds(order[..k], |outs|) by {
      assert forall j :: 0 <= j < k ==> order[..k][j] == order[j];
    }
    && FirstFailure(outs, order[..k]) == None
    && (FirstFailureMeans(outs, order[..k]); slots == Fill(outs, order[..k]))
  }

  lemma PoolStart(outs: seq<Outcome>, order: seq<nat>)
    requires InBounds(order, |outs|)
    ensures PoolState(outs, order, 0, seq(|outs|, _ => None))
  {
    assert order[..0] == [];
  }

  /** One more completed task: a failure is what the pool raises, a row is stored in
      the slot of its submission index. */
  lemma PoolAdvance(outs: seq<Outcome>, order: seq<nat>, k: nat, slots: seq<Option<ManifestRow>>)
    requires InBounds(order, |outs|) && k < |order|
    requires PoolState(outs, order, k, slots)
    ensures |slots| == |outs|
    ensures outs[order[k]].Err? ==> Pooled(outs, order) == Err(outs[order[k]].error)
    ensures outs[order[k]].Ok? ==> PoolState(outs, order, k + 1, slots[order[k] := Some(outs[order[k]].value)])
  {
    PoolStep(outs, order, k);
    if outs[order[k]].Err? {
      FirstFailureMeans(outs, order);
    }
  }

  /** Once every task has completed, the pool returns the filled slots in index order. */
  lemma PoolDone(outs: seq<Outcome>, order: seq<nat>, slots: seq<Option<ManifestRow>>)
    requires InBounds(order, |outs|)
    requires PoolState(outs, order, |order|, slots)
    ensures Pooled(outs, order) == Ok(Somes(slots))
  {
    assert order[..|order|] == order;
  }

  lemma {:induction false} FirstFailurePersists(outs: seq<Outcome>, order: seq<nat>, i: nat)
    requires InBounds(order, |outs|) && i <= |order|
    requires FirstFailure(outs, order[..i]).Some?
    ensures FirstFailure(outs, order) == FirstFailure(outs, order[..i])
    decreases |order| - i
  {
    if i < |order| {
      var p := order[..i + 1];
      assert p[..i] == order[..i];
      assert FirstFailure(outs, p) == FirstFailure(outs, order[..i]);
      FirstFailurePersists(outs, order, i + 1);
    } else {
      assert order[..i] == order;
    }
  }

  lemma SomesStep(slots: seq<Option<ManifestRow>>, i: nat)
    requires i < |slots|
    ensures Somes(slots[..i + 1]) == match slots[i]
      case None => Somes(slots[..i])
      case Some(row) => Somes(slots[..i]) + [row]
  {
    assert slots[..i + 1][..i] == slots[..i];
  }

  /** The one-worker path: build the rows one after another in index order. */
  method BuildSequentially(objects: seq<S3ObjectRef>, authz: string, env: Env)
    returns (r: Result<seq<ManifestRow>, ManifestError>)
    ensures r == Collect(Outcomes(objects, authz, env))
  {
    ghost var outs := Outcomes(objects, authz, env);
    var rows := [];
    for i := 0 to |objects|
      invariant Collect(outs[..i]) == Ok(rows)
    {
      var row, _ := BuildRow(objects[i], authz, env);
      CollectStep(outs, i);
      if row.Err? {
        CollectErrPersists(outs, i + 1);
        return Err(row.error);
      }
      rows := rows + [row.value];
    }
    assert outs[..|objects|] == outs;
    return Ok(rows);
  }

  /** Read the slots back in index order, skipping the empty ones. */
  method ReadSlots(slots: array<Option<ManifestRow>>) returns (rows: seq<ManifestRow>)
    ensures rows == Somes(slots[..])
  {
    rows := [];
    for i := 0 to slots.Length
      invariant rows == Somes(slots[..i])
    {
      SomesStep(slots[..], i);
      assert slots[..][..i] == slots[..i] && slots[..][..i + 1] == slots[..i + 1];
      if slots[i].Some? {
        rows := rows + [slots[i].value];
      }
    }
    assert slots[..slots.Length] == slots[..];
  }

  /** The pooled path: tasks complete in `completion` order; the first failure is
      raised, otherwise each row is stored at its submission index. build_rows stores
      the results after the wait, in submission order; the slots are filled here in
      completion order instead, which gives the same slots because FillSlots holds for
      every order. */
  method BuildPooled(objects: seq<S3ObjectRef>, authz: string, env: Env, completion: seq<nat>)
    returns (r: Result<seq<ManifestRow>, ManifestError>)
    requires IsPermutation(completion, |objects|)
    ensures r == Pooled(Outcomes(objects, authz, env), completion)
  {
    ghost var outs := Outcomes(objects, authz, env);
    var orderedRows := new Option<ManifestRow>[|objects|](_ => None);
    PoolStart(outs, completion);
    assert orderedRows[..] == seq(|outs|, _ => None);
    var k := 0;
    while k < |objects|
      invariant 0 <= k <= |objects|
      invariant PoolState(outs, completion, k, orderedRows[..])
    {
      var index := completion[k];
      var row, _ := BuildRow(objects[index], authz, env);
      PoolAdvance(outs, completion, k, orderedRows[..]);
      if row.Err? {
        return Err(row.error);
      }
      orderedRows[index] := Some(row.value);
      k := k + 1;
    }
    PoolDone(outs, completion, orderedRows[..]);
    var rows := ReadSlots(orderedRows);
    r := Ok(rows);
  }

  /** build_rows: reject a worker count below one, then take the one-worker path or
      the pooled path. */
  method BuildRows(objects: seq<S3ObjectRef>, authz: string, env: Env, workers: int, completion: seq<nat>)
    returns (r: Result<seq<ManifestRow>, ManifestError>)
    requires workers > 1 ==> IsPermutation(completion, |objects|)
    ensures r == RowsFor(objects, authz, env, workers, completion)
  {
    if workers < 1 {
      return Err(BadWorkerCount);
    }
    if workers == 1 {
      r := BuildSequentially(objects, authz, env);
    } else {
      r := BuildPooled(objects, authz, env, completion);
    }
  }
}
