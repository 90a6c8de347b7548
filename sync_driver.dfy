/** `main`: check for the encoder, discover the input files, process them one
    by one keeping the successes, and write `tracks.json` when at least one
    file succeeded. */
module SyncDriver {
  import opened Wrappers
  import opened MediaPaths
  import opened Metadata
  import opened TracksJson
  import opened LocalDisk
  import opened ObjectStore
  import opened Publisher

  /** The loop's state: the tracks kept, the files whose processing threw,
      and the disk and the bucket. */
  datatype RunState = RunState(tracks: seq<ProcessedTrack>, failed: seq<string>, disk: DiskState, store: Store)

  /** One iteration of the `for … of` over the audio files. */
  function RunStep(st: RunState, file: string, tagsOf: map<string, CommonTags>, faults: DiskFaults, svc: Service, publicUrl: string): RunState {
    var o := Process(file, st.disk, tagsOf, faults, st.store, svc, publicUrl);
    if o.result.Success? then RunState(st.tracks + [o.result.value], st.failed, o.disk, o.store)
    else RunState(st.tracks, st.failed + [file], o.disk, o.store)
  }

  function RunFiles(files: seq<string>, st0: RunState, tagsOf: map<string, CommonTags>, faults: DiskFaults, svc: Service, publicUrl: string): RunState
    decreases |files|
  {
    if files == [] then st0
    else RunStep(RunFiles(files[..|files| - 1], st0, tagsOf, faults, svc, publicUrl), files[|files| - 1], tagsOf, faults, svc, publicUrl)
  }

  /** How a run ends: no encoder (the process exits), an input path that
      cannot be listed (`main` rejects and the process exits with 1), no audio
      files, done (with or without a manifest), or a fatal error writing
      `tracks.json`. */
  datatype SyncOutcome =
    | FfmpegMissing
    | ListingFailed
    | NoAudioFiles
    | Completed(tracks: seq<ProcessedTrack>, failed: seq<string>)
    | ManifestWriteFailed(tracks: seq<ProcessedTrack>, failed: seq<string>)

  datatype SyncResult = SyncResult(outcome: SyncOutcome, disk: DiskState, store: Store)

  /** `main` as a function of the disk, the input path and the bucket. */
  function Sync(ffmpegAvailable: bool, disk: DiskState, dir: InputDir, tagsOf: map<string, CommonTags>,
                faults: DiskFaults, store: Store, svc: Service, publicUrl: string): SyncResult
  {
    if !ffmpegAvailable then SyncResult(FfmpegMissing, disk, store)
    else if GetAudioFiles(dir).None? then SyncResult(ListingFailed, disk, store)
    else
      var files := GetAudioFiles(dir).value;
      if files == [] then SyncResult(NoAudioFiles, disk, store)
      else
        var run := RunFiles(files, RunState([], [], disk, store), tagsOf, faults, svc, publicUrl);
        if run.tracks == [] then SyncResult(Completed([], run.failed), run.disk, run.store)
        else if faults.manifestWriteFails then SyncResult(ManifestWriteFailed(run.tracks, run.failed), run.disk, run.store)
        else SyncResult(Completed(run.tracks, run.failed), run.disk.(manifest := Some(BuildManifest(run.tracks))), run.store)
  }

  method RunSync(disk: Disk, bucket: Bucket, ffmpegAvailable: bool, publicUrl: string) returns (outcome: SyncOutcome)
    modifies disk, bucket
    ensures SyncResult(outcome, disk.State(), bucket.State()) ==
            Sync(ffmpegAvailable, old(disk.State()), disk.inputDir, disk.tagsOf, disk.faults, old(bucket.State()), bucket.service, publicUrl)
  {
    if !ffmpegAvailable {
      return FfmpegMissing;
    }
    var listed := GetAudioFiles(disk.inputDir);
    if listed.None? {
      return ListingFailed;
    }
    var files := listed.value;
    if |files| == 0 {
      return NoAudioFiles;
    }
    var tracks, failed := ProcessFiles(files, disk, bucket, publicUrl);
    if |tracks| > 0 {
      ghost var before := disk.State();
      var ok := disk.WriteManifest(BuildManifest(tracks));
      if !ok {
        return ManifestWriteFailed(tracks, failed);
      }
      assert disk.State() == before.(manifest := Some(BuildManifest(tracks)));
    }
    return Completed(tracks, failed);
  }

  /** The `for … of` over the audio files: each file is processed, and kept
      as a track or logged as a failure. */
  method ProcessFiles(files: seq<string>, disk: Disk, bucket: Bucket, publicUrl: string)
    returns (tracks: seq<ProcessedTrack>, failed: seq<string>)
    modifies disk, bucket
    ensures RunState(tracks, failed, disk.State(), bucket.State()) ==
            RunFiles(files, RunState([], [], old(disk.State()), old(bucket.State())), disk.tagsOf, disk.faults, bucket.service, publicUrl)
  {
    tracks, failed := [], [];
    ghost var st0 := RunState([], [], disk.State(), bucket.State());
    for i := 0 to |files|
      invariant RunState(tracks, failed, disk.State(), bucket.State()) ==
                RunFiles(files[..i], st0, disk.tagsOf, disk.faults, bucket.service, publicUrl)
    {
      assert files[..i + 1][..i] == files[..i];
      var r := ProcessAudioFile(files[i], disk, bucket, publicUrl);
      if r.Success? {
        tracks := tracks + [r.value];
      } else {
        failed := failed + [files[i]];
      }
    }
    assert files[..|files|] == files;
  }

  // ---------------------------------------------------------------------------
  // Properties of the loop

  /** One file adds exactly one entry: its track, carrying its base name,
      when its processing succeeds, and the file itself among the failures
      when its processing fails. Later files are processed either way, from
      the disk and bucket this file left. */
  lemma RunStepAccounts(st: RunState, file: string, tagsOf: map<string, CommonTags>, faults: DiskFaults, svc: Service, publicUrl: string)
    ensures var o := Process(file, st.disk, tagsOf, faults, st.store, svc, publicUrl);
            var st' := RunStep(st, file, tagsOf, faults, svc, publicUrl);
            && (st'.failed == st.failed + [file] <==> o.result.Failure?)
            && (o.result.Success? ==>
                  st'.tracks == st.tracks + [o.result.value] && st'.failed == st.failed && o.result.value.filename == Stem(file))
            && (o.result.Failure? ==> st'.tracks == st.tracks)
            && st'.disk == o.disk && st'.store == o.store
  {
    ProcessDisk(file, st.disk, tagsOf, faults, st.store, svc, publicUrl);
  }

  /** A file fails exactly when the existence check of one of the keys it
      checks (its converted variants and its saved cover) fails. */
  lemma RunStepFails(st: RunState, file: string, tagsOf: map<string, CommonTags>, faults: DiskFaults, svc: Service, publicUrl: string)
    requires ValidService(svc)
    ensures RunStep(st, file, tagsOf, faults, svc, publicUrl).failed == st.failed + [file] <==>
            !(CheckedKeys(file, st.disk, tagsOf, faults) !! svc.headFaults.Keys)
  {
    RunStepAccounts(st, file, tagsOf, faults, svc, publicUrl);
    ProcessFails(file, st.disk, tagsOf, faults, st.store, svc, publicUrl);
  }

  /** Each file's result, in input order: the last entry is what processing
      the last file returns in the disk and bucket the earlier files left. */
  function Results(files: seq<string>, st0: RunState, tagsOf: map<string, CommonTags>, faults: DiskFaults,
                   svc: Service, publicUrl: string): (rs: seq<Result<ProcessedTrack, nat>>)
    ensures |rs| == |files|
    decreases |files|
  {
    if files == [] then []
    else
      var n := |files| - 1;
      var st := RunFiles(files[..n], st0, tagsOf, faults, svc, publicUrl);
      Results(files[..n], st0, tagsOf, faults, svc, publicUrl) + [Process(files[n], st.disk, tagsOf, faults, st.store, svc, publicUrl).result]
  }

  /** The records of the successful results, in order. */
  function SuccessValues(rs: seq<Result<ProcessedTrack, nat>>): seq<ProcessedTrack>
    decreases |rs|
  {
    if rs == [] then []
    else
      var last := rs[|rs| - 1];
      SuccessValues(rs[..|rs| - 1]) + if last.Success? then [last.value] else []
  }

  /** The files whose result is a failure, in order. */
  function FailedFiles(files: seq<string>, rs: seq<Result<ProcessedTrack, nat>>): seq<string>
    requires |files| == |rs|
    decreases |rs|
  {
    if rs == [] then []
    else
      var n := |rs| - 1;
      FailedFiles(files[..n], rs[..n]) + if rs[n].Failure? then [files[n]] else []
  }

  /** The loop keeps exactly the records of the files that succeeded and
      logs exactly the files that failed, both in input order; every file
      ends up as one or the other, and each track carries the base name of
      an input file. */
  lemma {:induction false} RunFilesAccounts(files: seq<string>, st0: RunState, tagsOf: map<string, CommonTags>, faults: DiskFaults, svc: Service, publicUrl: string)
    requires st0.tracks == [] && st0.failed == []
    ensures var run := RunFiles(files, st0, tagsOf, faults, svc, publicUrl);
            var rs := Results(files, st0, tagsOf, faults, svc, publicUrl);
            && run.tracks == SuccessValues(rs)
            && run.failed == FailedFiles(files, rs)
            && |run.tracks| + |run.failed| == |files|
            && (forall f :: f in run.failed ==> f in files)
            && (forall i :: 0 <= i < |run.tracks| ==> NamedAfter(run.tracks[i], files))
    decreases |files|
  {
    if files != [] {
      var p, f := files[..|files| - 1], files[|files| - 1];
      assert files == p + [f];
      RunFilesAccounts(p, st0, tagsOf, faults, svc, publicUrl);
      var mid := RunFiles(p, st0, tagsOf, faults, svc, publicUrl);
      var run := RunFiles(files, st0, tagsOf, faults, svc, publicUrl);
      RunStepAccounts(mid, f, tagsOf, faults, svc, publicUrl);
      var rp := Results(p, st0, tagsOf, faults, svc, publicUrl);
      var r := Process(f, mid.disk, tagsOf, faults, mid.store, svc, publicUrl).result;
      assert Results(files, st0, tagsOf, faults, svc, publicUrl) == rp + [r];
      SuccessValuesSnoc(rp, r);
      FailedFilesSnoc(p, rp, f, r);
      forall i | 0 <= i < |mid.tracks| ensures NamedAfter(mid.tracks[i], files) {
        NamedAfterPrefix(mid.tracks[i], files);
      }
      if run.tracks != mid.tracks {
        assert run.tracks[..|mid.tracks|] == mid.tracks;
      }
      TrackNamesGrow(files, mid.tracks, run.tracks);
    }
  }

  lemma SuccessValuesSnoc(rs: seq<Result<ProcessedTrack, nat>>, r: Result<ProcessedTrack, nat>)
    ensures SuccessValues(rs + [r]) == SuccessValues(rs) + if r.Success? then [r.value] else []
  {
    assert (rs + [r])[..|rs|] == rs;
  }

  lemma FailedFilesSnoc(files: seq<string>, rs: seq<Result<ProcessedTrack, nat>>, f: string, r: Result<ProcessedTrack, nat>)
    requires |files| == |rs|
    ensures FailedFiles(files + [f], rs + [r]) == FailedFiles(files, rs) + if r.Failure? then [f] else []
  {
    assert (files + [f])[..|files|] == files;
    assert (rs + [r])[..|rs|] == rs;
  }

  /** The track carries the base name of one of the files. */
  ghost predicate NamedAfter(t: ProcessedTrack, files: seq<string>) {
    exists j :: 0 <= j < |files| && t.filename == Stem(files[j])
  }

  lemma NamedAfterPrefix(t: ProcessedTrack, files: seq<string>)
    requires files != [] && NamedAfter(t, files[..|files| - 1])
    ensures NamedAfter(t, files)
  {
    var j :| 0 <= j < |files| - 1 && t.filename == Stem(files[..|files| - 1][j]);
    assert files[..|files| - 1][j] == files[j];
  }

  /** A track list that grows by at most one track, named after the last
      file, keeps every track named after one of the files. */
  lemma TrackNamesGrow(files: seq<string>, before: seq<ProcessedTrack>, after: seq<ProcessedTrack>)
    requires files != []
    requires forall i :: 0 <= i < |before| ==> NamedAfter(before[i], files)
    requires after == before
             || (|after| == |before| + 1 && after[..|before|] == before && after[|before|].filename == Stem(files[|files| - 1]))
    ensures forall i :: 0 <= i < |after| ==> NamedAfter(after[i], files)
  {
    forall i | 0 <= i < |after| ensures NamedAfter(after[i], files) {
      if i < |before| {
        assert after[i] == before[i] by {
          if after != before {
            assert after[i] == after[..|before|][i];
          }
        }
      } else {
        assert after[i].filename == Stem(files[|files| - 1]);
      }
    }
  }

  /** Across the whole run the bucket only extends: no request for a key that
      was there when the run began, at most one successful upload per key. */
  lemma {:induction false} RunFilesExtends(files: seq<string>, st0: RunState, tagsOf: map<string, CommonTags>, faults: DiskFaults, svc: Service, publicUrl: string)
    requires ValidService(svc)
    ensures Extends(st0.store, RunFiles(files, st0, tagsOf, faults, svc, publicUrl).store)
    decreases |files|
  {
    if files == [] {
      ExtendsRefl(st0.store);
    } else {
      var p, f := files[..|files| - 1], files[|files| - 1];
      var mid := RunFiles(p, st0, tagsOf, faults, svc, publicUrl);
      RunFilesExtends(p, st0, tagsOf, faults, svc, publicUrl);
      ProcessExtends(f, mid.disk, tagsOf, faults, mid.store, svc, publicUrl);
      ExtendsTrans(st0.store, mid.store, RunFiles(files, st0, tagsOf, faults, svc, publicUrl).store);
    }
  }

  /** The loop never writes `tracks.json`. */
  lemma {:induction false} RunFilesKeepsManifest(files: seq<string>, st0: RunState, tagsOf: map<string, CommonTags>, faults: DiskFaults, svc: Service, publicUrl: string)
    ensures RunFiles(files, st0, tagsOf, faults, svc, publicUrl).disk.manifest == st0.disk.manifest
    decreases |files|
  {
    if files != [] {
      var p, f := files[..|files| - 1], files[|files| - 1];
      var mid := RunFiles(p, st0, tagsOf, faults, svc, publicUrl);
      RunFilesKeepsManifest(p, st0, tagsOf, faults, svc, publicUrl);
      ProcessDisk(f, mid.disk, tagsOf, faults, mid.store, svc, publicUrl);
    }
  }

  // ---------------------------------------------------------------------------
  // Properties of a run

  /** `tracks.json` is written exactly when the run completes with at least
      one track, and then holds the manifest of those tracks; otherwise it is
      left as it was. */
  lemma SyncManifest(ffmpegAvailable: bool, disk: DiskState, dir: InputDir, tagsOf: map<string, CommonTags>,
                     faults: DiskFaults, store: Store, svc: Service, publicUrl: string)
    ensures var r := Sync(ffmpegAvailable, disk, dir, tagsOf, faults, store, svc, publicUrl);
            && (r.outcome.Completed? && r.outcome.tracks != [] ==> r.disk.manifest == Some(BuildManifest(r.outcome.tracks)))
            && (!(r.outcome.Completed? && r.outcome.tracks != []) ==> r.disk.manifest == disk.manifest)
  {
    var listed := GetAudioFiles(dir);
    if ffmpegAvailable && listed.Some? && listed.value != [] {
      RunFilesKeepsManifest(listed.value, RunState([], [], disk, store), tagsOf, faults, svc, publicUrl);
    }
  }

  /** Without the encoder, with an input path that cannot be listed, or
      without audio files nothing is touched. */
  lemma SyncOutcomes(ffmpegAvailable: bool, disk: DiskState, dir: InputDir, tagsOf: map<string, CommonTags>,
                     faults: DiskFaults, store: Store, svc: Service, publicUrl: string)
    ensures var r := Sync(ffmpegAvailable, disk, dir, tagsOf, faults, store, svc, publicUrl);
            && (r.outcome.FfmpegMissing? <==> !ffmpegAvailable)
            && (r.outcome.ListingFailed? <==> ffmpegAvailable && dir.Unlistable?)
            && (r.outcome.NoAudioFiles? <==> ffmpegAvailable && GetAudioFiles(dir) == Some([]))
            && (r.outcome.FfmpegMissing? || r.outcome.ListingFailed? || r.outcome.NoAudioFiles? ==> r.disk == disk && r.store == store)
            && (r.outcome.ManifestWriteFailed? ==> faults.manifestWriteFails && r.outcome.tracks != [])
  {
  }

  /** A run that gets through the files reports as tracks the records of the
      files that succeeded and as failures the files that failed, both in
      input order, so that every file is one or the other. */
  lemma SyncTracks(ffmpegAvailable: bool, disk: DiskState, dir: InputDir, tagsOf: map<string, CommonTags>,
                   faults: DiskFaults, store: Store, svc: Service, publicUrl: string)
    ensures var r := Sync(ffmpegAvailable, disk, dir, tagsOf, faults, store, svc, publicUrl);
            r.outcome.Completed? || r.outcome.ManifestWriteFailed? ==>
              var files := GetAudioFiles(dir).value;
              var rs := Results(files, RunState([], [], disk, store), tagsOf, faults, svc, publicUrl);
              && r.outcome.tracks == SuccessValues(rs) && r.outcome.failed == FailedFiles(files, rs)
              && |r.outcome.tracks| + |r.outcome.failed| == |files|
              && forall f :: f in r.outcome.failed ==> f in files
  {
    var listed := GetAudioFiles(dir);
    if ffmpegAvailable && listed.Some? && listed.value != [] {
      SyncReportsRun(ffmpegAvailable, disk, listed.value, dir, tagsOf, faults, store, svc, publicUrl);
      RunFilesAccounts(listed.value, RunState([], [], disk, store), tagsOf, faults, svc, publicUrl);
    }
  }

  /** The tracks and failures a run reports are those the loop collected. */
  lemma SyncReportsRun(ffmpegAvailable: bool, disk: DiskState, files: seq<string>, dir: InputDir, tagsOf: map<string, CommonTags>,
                       faults: DiskFaults, store: Store, svc: Service, publicUrl: string)
    requires GetAudioFiles(dir) == Some(files)
    ensures var r := Sync(ffmpegAvailable, disk, dir, tagsOf, faults, store, svc, publicUrl);
            var run := RunFiles(files, RunState([], [], disk, store), tagsOf, faults, svc, publicUrl);
            r.outcome.Completed? || r.outcome.ManifestWriteFailed? ==> r.outcome.tracks == run.tracks && r.outcome.failed == run.failed
  {
  }

  /** The bucket after a run extends the bucket before it. */
  lemma SyncExtends(ffmpegAvailable: bool, disk: DiskState, dir: InputDir, tagsOf: map<string, CommonTags>,
                    faults: DiskFaults, store: Store, svc: Service, publicUrl: string)
    requires ValidService(svc)
    ensures Extends(store, Sync(ffmpegAvailable, disk, dir, tagsOf, faults, store, svc, publicUrl).store)
  {
    var listed := GetAudioFiles(dir);
    if ffmpegAvailable && listed.Some? && listed.value != [] {
      RunFilesExtends(listed.value, RunState([], [], disk, store), tagsOf, faults, svc, publicUrl);
    } else {
      ExtendsRefl(store);
    }
  }

  /** Running again re-uploads nothing the earlier run uploaded successfully. */
  lemma RerunUploadsNothingTwice(s0: Store, s1: Store, s2: Store)
    requires Extends(s0, s1) && Extends(s1, s2)
    ensures forall i, j :: |s0.puts| <= i < |s1.puts| <= j < |s2.puts| && s1.puts[i].ok ==> s2.puts[j].key != s1.puts[i].key
  {
  }
}
