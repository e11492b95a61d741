/** `process_files`: load the tracking map, list the workspace, transfer
    every file that is new or newer than its recorded marker, record the
    marker of each successful transfer, and save the map once at the end. */
module Engine {
  import opened Outcomes
  import opened StrOrder
  import opened Retry
  import opened TrackingStore
  import opened Workspace

  /** What the pass did with one listed file. */
  datatype Decision =
    | Skipped   // marker already up to date: no download
    | Synced    // transferred, marker updated
    | Failed    // transfer returned `False`: marker left alone

  /** The working map and one decision per file visited so far. */
  datatype Pass = Pass(markers: Markers, log: seq<Decision>)

  /** The diff test: the id is untracked, or its marker is older. */
  predicate NeedsSync(m: Markers, f: RemoteFile) {
    f.id !in m || Less(m[f.id], f.lastModified)
  }

  /** One iteration of the loop over the listing. */
  function Visit(p: Pass, f: RemoteFile, env: FileEnv): (r: Raisable<Pass>)
    ensures r.Returned? ==> |r.value.log| == |p.log| + 1 && r.value.log[..|p.log|] == p.log
    ensures r.Returned? ==> (r.value.log[|p.log|] == Skipped <==> !NeedsSync(p.markers, f))
    ensures r.Returned? ==>
      (r.value.log[|p.log|] == Synced <==>
        NeedsSync(p.markers, f) && DownloadAndUploadFile(f.name, env).result == Returned(true))
    ensures r.Returned? && r.value.log[|p.log|] == Synced ==>
      r.value.markers == p.markers[f.id := f.lastModified]
    ensures r.Returned? && r.value.log[|p.log|] != Synced ==> r.value.markers == p.markers
    ensures r.Raised? <==> NeedsSync(p.markers, f) && DownloadAndUploadFile(f.name, env).result.Raised?
    ensures r.Raised? ==> DownloadAndUploadFile(f.name, env).result == Raised(r.exc)
  {
    if !NeedsSync(p.markers, f) then
      Returned(Pass(p.markers, p.log + [Skipped]))
    else
      match DownloadAndUploadFile(f.name, env).result
      case Raised(e) => Raised(e)
      case Returned(ok) =>
        if ok then Returned(Pass(p.markers[f.id := f.lastModified], p.log + [Synced]))
        else Returned(Pass(p.markers, p.log + [Failed]))
  }

  /** The loop over the listing, in listing order; `env(i)` is what the
      environment does for the file at position i. An exception from a
      transfer ends the loop. */
  function Fold(m: Markers, files: seq<RemoteFile>, env: nat -> FileEnv): (r: Raisable<Pass>)
    ensures r.Returned? ==> |r.value.log| == |files|
    decreases |files|
  {
    if |files| == 0 then
      Returned(Pass(m, []))
    else
      var n := |files| - 1;
      match Fold(m, files[..n], env)
      case Raised(e) => Raised(e)
      case Returned(p) => Visit(p, files[n], env(n))
  }

  /** The effect of a run: the outcome of `process_files` and the tracking
      file left behind. */
  datatype Run = Run(outcome: Raisable<Pass>, saved: TrackingFile)

  /** `process_files` as a whole. */
  function ProcessFiles(file: TrackingFile, listing: nat -> Attempt<seq<RemoteFile>>, env: nat -> FileEnv): (r: Run)
    ensures r.outcome.Raised? ==> r.saved == file
    ensures r.outcome.Returned? ==> r.saved == SaveDownloadedFiles(r.outcome.value.markers)
    ensures file.Corrupt? ==> r.outcome == Raised(TrackingUnreadable)
    ensures file.Missing? && AllRetryable(listing) ==> r == Run(Returned(Pass(map[], [])), Stored(map[]))
    ensures file.Stored? && AllRetryable(listing) ==>
      r == Run(Returned(Pass(file.entries, [])), file)
    ensures forall d :: !file.Corrupt? && FirstDecisive(listing, d) && listing(d).HttpFailure? ==>
      r == Run(Raised(HttpRaised(listing(d).status)), file)
    ensures forall d :: !file.Corrupt? && FirstDecisive(listing, d) && listing(d).Ok? ==>
      r.outcome == Fold(GetDownloadedFiles(file).value, listing(d).response, env)
  {
    var outcome :=
      match GetDownloadedFiles(file)
      case Raised(e) => Raised(e)
      case Returned(m) =>
        match ListFilesFromWorkspace(listing)
        case Raised(e) => Raised(e)
        case Returned(files) => Fold(m, files, env);
    match outcome
    case Returned(p) => Run(outcome, SaveDownloadedFiles(p.markers))
    case Raised(_) => Run(outcome, file)
  }

  /** A file whose recorded marker equals its `lastModified` is not
      downloaded again. */
  lemma UnchangedFileSkipped(m: Markers, f: RemoteFile)
    requires f.id in m && m[f.id] == f.lastModified
    ensures !NeedsSync(m, f)
  {
    LessIrreflexive(f.lastModified);
  }

  /** Key k has the same entry in both maps, or is absent from both. */
  predicate Agree(m: Markers, m': Markers, k: string) {
    (k in m <==> k in m') && (k in m ==> m[k] == m'[k])
  }

  /** Some entry of the listing has id k. */
  predicate Listed(files: seq<RemoteFile>, k: string) {
    exists i :: 0 <= i < |files| && files[i].id == k
  }

  /** No id occurs twice in the listing (as the workspace guarantees). */
  predicate UniqueIds(files: seq<RemoteFile>) {
    forall i, j :: 0 <= i < j < |files| ==> files[i].id != files[j].id
  }

  /** The map records f at or beyond its `lastModified`. */
  predicate Covers(m: Markers, f: RemoteFile) {
    f.id in m && LessEq(f.lastModified, m[f.id])
  }

  /** The diff test asks for a transfer exactly when the map does not
      already cover the file: `str <` is a total order, so "marker older"
      is the negation of "marker at or beyond". */
  lemma NeedsSyncIffNotCovered(m: Markers, f: RemoteFile)
    ensures NeedsSync(m, f) <==> !Covers(m, f)
  {
    if f.id in m {
      NotLessIsAtLeast(m[f.id], f.lastModified);
    }
  }

  /** Entries for ids that are not in the listing come out of the pass exactly
      as they went in (present with the same marker, or absent). */
  lemma {:induction false} FoldUnlistedUntouched(m: Markers, files: seq<RemoteFile>, env: nat -> FileEnv, k: string)
    requires Fold(m, files, env).Returned?
    requires !Listed(files, k)
    ensures Agree(m, Fold(m, files, env).value.markers, k)
    decreases |files|
  {
    if |files| > 0 {
      var n := |files| - 1;
      assert files[n].id != k;
      assert !Listed(files[..n], k);
      FoldUnlistedUntouched(m, files[..n], env, k);
    }
  }

  /** No key is removed and no marker decreases. */
  lemma {:induction false} FoldMonotone(m: Markers, files: seq<RemoteFile>, env: nat -> FileEnv, k: string)
    ensures Fold(m, files, env).Returned? && k in m ==>
      var out := Fold(m, files, env).value.markers;
      k in out && LessEq(m[k], out[k])
    decreases |files|
  {
    if |files| > 0 && Fold(m, files, env).Returned? && k in m {
      var n := |files| - 1;
      FoldMonotone(m, files[..n], env, k);
      var p := Fold(m, files[..n], env).value;
      if files[n].id == k && Fold(m, files, env).value.log[n] == Synced {
        LessEqTransitive(m[k], p.markers[k], files[n].lastModified);
      }
    }
  }

  /** Every entry the pass changed or added holds the `lastModified` of a
      listed file with that id whose transfer succeeded. */
  lemma {:induction false} FoldChangesOnlyOnSuccess(m: Markers, files: seq<RemoteFile>, env: nat -> FileEnv, k: string)
    requires Fold(m, files, env).Returned?
    requires !Agree(m, Fold(m, files, env).value.markers, k)
    ensures var p := Fold(m, files, env).value;
      exists i :: 0 <= i < |files| && p.log[i] == Synced && files[i].id == k
        && k in p.markers && p.markers[k] == files[i].lastModified
    decreases |files|
  {
    var n := |files| - 1;
    var p := Fold(m, files, env).value;
    var p0 := Fold(m, files[..n], env).value;
    if p.log[n] == Synced && files[n].id == k {
      assert k in p.markers && p.markers[k] == files[n].lastModified;
    } else {
      assert Agree(p0.markers, p.markers, k);
      FoldChangesOnlyOnSuccess(m, files[..n], env, k);
      var i :| 0 <= i < n && p0.log[i] == Synced && files[..n][i].id == k
        && k in p0.markers && p0.markers[k] == files[..n][i].lastModified;
      assert p.log[i] == p.log[..n][i] == p0.log[i];
      assert files[i] == files[..n][i];
    }
  }

  lemma SplitLast(files: seq<RemoteFile>)
    requires |files| > 0
    ensures files == files[..|files| - 1] + [files[|files| - 1]]
  {
  }

  /** A completed pass is a completed pass over all but the last file,
      followed by one step on the last file. */
  lemma FoldLast(m: Markers, files: seq<RemoteFile>, env: nat -> FileEnv)
    requires |files| > 0 && Fold(m, files, env).Returned?
    ensures Fold(m, files[..|files| - 1], env).Returned?
    ensures var p0 := Fold(m, files[..|files| - 1], env).value;
      Fold(m, files, env) == Visit(p0, files[|files| - 1], env(|files| - 1))
  {
  }

  /** If no transfer failed, the resulting map covers every listed file. */
  lemma {:induction false} FoldCoversWhenNoFailure(m: Markers, files: seq<RemoteFile>, env: nat -> FileEnv, p: Pass)
    requires Fold(m, files, env) == Returned(p)
    requires forall i :: 0 <= i < |p.log| ==> p.log[i] != Failed
    ensures forall i :: 0 <= i < |files| ==> Covers(p.markers, files[i])
    decreases |files|
  {
    if |files| > 0 {
      var n := |files| - 1;
      var f := files[n];
      var pre := files[..n];
      FoldLast(m, files, env);
      var p0 := Fold(m, pre, env).value;
      assert Visit(p0, f, env(n)) == Returned(p);
      assert p.log[..n] == p0.log;
      assert forall i :: 0 <= i < |p0.log| ==> p0.log[i] == p.log[i];
      FoldCoversWhenNoFailure(m, pre, env, p0);
      SplitLast(files);
      CoversStep(p0, f, env(n), p, pre);
    }
  }

  /** One step that did not fail extends coverage of the files before it to
      the file it visited. */
  lemma CoversStep(p0: Pass, f: RemoteFile, e: FileEnv, p: Pass, pre: seq<RemoteFile>)
    requires Visit(p0, f, e) == Returned(p)
    requires p.log[|p0.log|] != Failed
    requires forall i :: 0 <= i < |pre| ==> Covers(p0.markers, pre[i])
    ensures forall i :: 0 <= i < |pre| + 1 ==> Covers(p.markers, (pre + [f])[i])
  {
    if p.log[|p0.log|] == Skipped {
      NotLessIsAtLeast(p0.markers[f.id], f.lastModified);
    }
    forall i | 0 <= i < |pre| + 1
      ensures Covers(p.markers, (pre + [f])[i])
    {
      if i < |pre| {
        CoversKept(p0, f, e, p, pre[i]);
      }
    }
  }

  /** A step that did not fail keeps every file covered that was covered
      before it. */
  lemma CoversKept(p0: Pass, f: RemoteFile, e: FileEnv, p: Pass, g: RemoteFile)
    requires Visit(p0, f, e) == Returned(p)
    requires p.log[|p0.log|] != Failed
    requires Covers(p0.markers, g)
    ensures Covers(p.markers, g)
  {
    if p.log[|p0.log|] == Synced && g.id == f.id {
      LessEqTransitive(g.lastModified, p0.markers[f.id], f.lastModified);
    }
  }

  /** Over a map that already covers the listing, the pass downloads
      nothing and changes nothing. */
  lemma {:induction false} FoldIdleWhenCovered(m: Markers, files: seq<RemoteFile>, env: nat -> FileEnv)
    requires forall i :: 0 <= i < |files| ==> !NeedsSync(m, files[i])
    ensures Fold(m, files, env).Returned?
    ensures Fold(m, files, env).value.markers == m
    ensures forall i :: 0 <= i < |files| ==> Fold(m, files, env).value.log[i] == Skipped
    decreases |files|
  {
    if |files| > 0 {
      var n := |files| - 1;
      forall i | 0 <= i < n
        ensures !NeedsSync(m, files[..n][i])
      {
        assert files[..n][i] == files[i];
      }
      FoldIdleWhenCovered(m, files[..n], env);
      var p := Fold(m, files, env).value;
      var p0 := Fold(m, files[..n], env).value;
      forall i | 0 <= i < n
        ensures p.log[i] == Skipped
      {
        assert p.log[i] == p.log[..n][i] == p0.log[i];
      }
    }
  }

  /** Idempotence: after a pass in which no transfer failed, a second pass
      over the same listing, from the map the first one produced, makes no
      transfer attempt and leaves the map as it is. */
  lemma {:induction false} RerunIsIdle(m: Markers, files: seq<RemoteFile>, env1: nat -> FileEnv, env2: nat -> FileEnv)
    requires Fold(m, files, env1).Returned?
    requires forall i :: 0 <= i < |files| ==> Fold(m, files, env1).value.log[i] != Failed
    ensures var m' := Fold(m, files, env1).value.markers;
      && Fold(m', files, env2).Returned?
      && Fold(m', files, env2).value.markers == m'
      && forall i :: 0 <= i < |files| ==> Fold(m', files, env2).value.log[i] == Skipped
  {
    var m' := Fold(m, files, env1).value.markers;
    FoldCoversWhenNoFailure(m, files, env1, Fold(m, files, env1).value);
    forall i | 0 <= i < |files|
      ensures !NeedsSync(m', files[i])
    {
      NotLessIsAtLeast(m'[files[i].id], files[i].lastModified);
    }
    FoldIdleWhenCovered(m', files, env2);
  }

  /** File f, visited with transfer outcome e, got decision d against the
      map m loaded at the start, and the final map out reflects it: it was
      attempted iff untracked or older in m, marked with exactly its
      `lastModified` iff its transfer returned `True`, and otherwise left as
      it was in m. */
  predicate Decided(m: Markers, f: RemoteFile, e: FileEnv, d: Decision, out: Markers) {
    && (d != Skipped <==> NeedsSync(m, f))
    && (d == Synced <==> NeedsSync(m, f) && DownloadAndUploadFile(f.name, e).result == Returned(true))
    && (d == Synced ==> f.id in out && out[f.id] == f.lastModified)
    && (d != Synced ==> Agree(m, out, f.id))
  }

  /** A later step that leaves f's entry alone keeps f's decision reflected. */
  lemma DecidedKept(m: Markers, f: RemoteFile, e: FileEnv, d: Decision, out: Markers, out': Markers)
    requires Decided(m, f, e, d, out)
    requires Agree(out, out', f.id)
    ensures Decided(m, f, e, d, out')
  {
  }

  /** With distinct ids, each file's fate depends only on the map loaded at
      the start and on its own transfer (see `Decided`). */
  lemma {:induction false} FoldDecisionsWithUniqueIds(m: Markers, files: seq<RemoteFile>, env: nat -> FileEnv)
    ensures UniqueIds(files) && Fold(m, files, env).Returned? ==>
      var p := Fold(m, files, env).value;
      forall i :: 0 <= i < |files| ==> Decided(m, files[i], env(i), p.log[i], p.markers)
    decreases |files|
  {
    if |files| > 0 && UniqueIds(files) && Fold(m, files, env).Returned? {
      var n := |files| - 1;
      var f := files[n];
      var pre := files[..n];
      FoldLast(m, files, env);
      var p0 := Fold(m, pre, env).value;
      assert UniqueIds(pre);
      FoldDecisionsWithUniqueIds(m, pre, env);
      assert !Listed(pre, f.id);
      FoldUnlistedUntouched(m, pre, env, f.id);
      SplitLast(files);
      DecidedStep(m, pre, env, p0, f, Fold(m, files, env).value);
    }
  }

  /** One step on a file whose id is new to the listing so far: the files
      before it stay decided, and it is decided against the starting map. */
  lemma DecidedStep(m: Markers, pre: seq<RemoteFile>, env: nat -> FileEnv, p0: Pass, f: RemoteFile, p: Pass)
    requires Visit(p0, f, env(|pre|)) == Returned(p)
    requires |p0.log| == |pre|
    requires forall i :: 0 <= i < |pre| ==> Decided(m, pre[i], env(i), p0.log[i], p0.markers)
    requires forall i :: 0 <= i < |pre| ==> pre[i].id != f.id
    requires Agree(m, p0.markers, f.id)
    ensures forall i :: 0 <= i < |pre| + 1 ==> Decided(m, (pre + [f])[i], env(i), p.log[i], p.markers)
  {
    forall i | 0 <= i < |pre| + 1
      ensures Decided(m, (pre + [f])[i], env(i), p.log[i], p.markers)
    {
      if i < |pre| {
        assert p.log[i] == p.log[..|pre|][i] == p0.log[i];
        DecidedKept(m, pre[i], env(i), p0.log[i], p0.markers, p.markers);
      }
    }
  }

  /** Idempotence of whole runs: if a run over a listing transfers every
      file it attempts, a later run that lists the same files (whatever its
      own download and upload outcomes) attempts nothing and saves the same
      tracking file. */
  lemma {:induction false} RunTwiceIsIdle(file: TrackingFile, files: seq<RemoteFile>,
                       listing1: nat -> Attempt<seq<RemoteFile>>, d1: nat, env1: nat -> FileEnv,
                       listing2: nat -> Attempt<seq<RemoteFile>>, d2: nat, env2: nat -> FileEnv)
    requires FirstDecisive(listing1, d1) && listing1(d1) == Ok(files)
    requires FirstDecisive(listing2, d2) && listing2(d2) == Ok(files)
    requires ProcessFiles(file, listing1, env1).outcome.Returned?
    requires var log := ProcessFiles(file, listing1, env1).outcome.value.log;
      forall i :: 0 <= i < |log| ==> log[i] != Failed
    ensures var first := ProcessFiles(file, listing1, env1);
      var second := ProcessFiles(first.saved, listing2, env2);
      && second.saved == first.saved
      && second.outcome.Returned?
      && |second.outcome.value.log| == |files|
      && forall i :: 0 <= i < |files| ==> second.outcome.value.log[i] == Skipped
  {
    var first := ProcessFiles(file, listing1, env1);
    var m := GetDownloadedFiles(file).value;
    assert first.outcome == Fold(m, files, env1);
    RerunIsIdle(m, files, env1, env2);
    var m' := first.outcome.value.markers;
    assert GetDownloadedFiles(first.saved) == Returned(m');
  }

  /** File i is reached with the pass still running, needs syncing
      against the map at that point, and its download raises a fatal HTTP
      error. */
  predicate FatalAt(m: Markers, files: seq<RemoteFile>, env: nat -> FileEnv, i: int) {
    && 0 <= i < |files|
    && Fold(m, files[..i], env).Returned?
    && NeedsSync(Fold(m, files[..i], env).value.markers, files[i])
    && DownloadAndUploadFile(files[i].name, env(i)).result.Raised?
  }

  lemma PrefixOfPrefix(files: seq<RemoteFile>, n: nat, i: nat)
    requires i <= n <= |files|
    ensures files[..n][..i] == files[..i]
  {
  }

  /** Fatal step at i, seen from the pass over the prefix before the last
      file. */
  lemma FatalAtPrefix(m: Markers, files: seq<RemoteFile>, env: nat -> FileEnv, i: nat)
    requires 0 < |files| && i < |files| - 1
    ensures FatalAt(m, files, env, i) <==> FatalAt(m, files[..|files| - 1], env, i)
  {
    PrefixOfPrefix(files, |files| - 1, i);
    assert files[..|files| - 1][i] == files[i];
  }

  /** The pass ends in an exception only when a file it attempted raised it:
      a fatal HTTP error on that file's download. */
  lemma {:induction false} FoldRaisesOnlyOnFatalDownload(m: Markers, files: seq<RemoteFile>, env: nat -> FileEnv)
    requires Fold(m, files, env).Raised?
    ensures Fold(m, files, env).exc.HttpRaised?
    ensures exists i :: FatalAt(m, files, env, i) && DownloadAndUploadFile(files[i].name, env(i)).result == Raised(Fold(m, files, env).exc)
    decreases |files|
  {
    var n := |files| - 1;
    if Fold(m, files[..n], env).Raised? {
      FoldRaisesOnlyOnFatalDownload(m, files[..n], env);
      var i :| FatalAt(m, files[..n], env, i)
        && DownloadAndUploadFile(files[..n][i].name, env(i)).result == Raised(Fold(m, files[..n], env).exc);
      FatalAtPrefix(m, files, env, i);
      assert files[i] == files[..n][i];
      assert FatalAt(m, files, env, i);
    } else {
      assert FatalAt(m, files, env, n);
    }
  }

  /** Conversely, once an attempted file's download raises a fatal HTTP
      error, the pass ends with that very exception: nothing in the loop
      catches it, and the files after it are never visited. */
  lemma {:induction false} FoldRaisesAfterFatal(m: Markers, files: seq<RemoteFile>, env: nat -> FileEnv, i: nat, p: Pass, e: Exc)
    requires i < |files| && Fold(m, files[..i], env) == Returned(p)
    requires NeedsSync(p.markers, files[i])
    requires DownloadAndUploadFile(files[i].name, env(i)).result == Raised(e)
    ensures Fold(m, files, env) == Raised(e)
    decreases |files|
  {
    var n := |files| - 1;
    if i < n {
      PrefixOfPrefix(files, n, i);
      assert files[..n][i] == files[i];
      FoldRaisesAfterFatal(m, files[..n], env, i, p, e);
      FoldKeepsRaised(m, files, env, e);
    } else {
      FoldStepRaises(m, files, env, i, p, e);
    }
  }

  /** An exception raised before the last file propagates unchanged. */
  lemma FoldKeepsRaised(m: Markers, files: seq<RemoteFile>, env: nat -> FileEnv, e: Exc)
    requires |files| > 0 && Fold(m, files[..|files| - 1], env) == Raised(e)
    ensures Fold(m, files, env) == Raised(e)
  {
  }

  /** A fatal step on the last file ends the pass with its exception. */
  lemma FoldStepRaises(m: Markers, files: seq<RemoteFile>, env: nat -> FileEnv, i: nat, p: Pass, e: Exc)
    requires i == |files| - 1 && Fold(m, files[..i], env) == Returned(p)
    requires NeedsSync(p.markers, files[i])
    requires DownloadAndUploadFile(files[i].name, env(i)).result == Raised(e)
    ensures Fold(m, files, env) == Raised(e)
  {
  }

  /** A fatal download error on any attempted file ends `process_files`
      before the save: the tracking file is left exactly as it was, and the
      markers of files already copied in this run are lost. */
  lemma RunAbortsOnFatalDownload(file: TrackingFile, listing: nat -> Attempt<seq<RemoteFile>>, d: nat,
                                 files: seq<RemoteFile>, env: nat -> FileEnv, i: nat, p: Pass, e: Exc)
    requires !file.Corrupt?
    requires FirstDecisive(listing, d) && listing(d) == Ok(files)
    requires i < |files| && Fold(GetDownloadedFiles(file).value, files[..i], env) == Returned(p)
    requires NeedsSync(p.markers, files[i])
    requires DownloadAndUploadFile(files[i].name, env(i)).result == Raised(e)
    ensures ProcessFiles(file, listing, env) == Run(Raised(e), file)
  {
    FoldRaisesAfterFatal(GetDownloadedFiles(file).value, files, env, i, p, e);
  }
}
