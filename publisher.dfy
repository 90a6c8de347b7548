/** `processAudioFile`: extract the tags, save the cover, convert, then
    publish each converted variant and the cover, checking existence in the
    bucket before every upload. A failed existence check (other than 404)
    aborts the file; every other failure is recorded and the file goes on. */
module Publisher {
  import opened Wrappers
  import opened MediaPaths
  import opened Metadata
  import opened TracksJson
  import opened LocalDisk
  import opened ObjectStore
  import opened Transcode

  /** The upload loop's state: the outcome per quality so far, the bucket,
      and the status of an existence check that failed, if any. */
  datatype PubState = PubState(uploads: map<string, Published>, store: Store, error: Option<nat>)

  /** `conversionResults[name]`; every configured quality has one. */
  function Lookup(results: map<string, Conversion>, name: string): Conversion {
    if name in results then results[name] else ConvError
  }

  /** One iteration of the upload loop: an errored variant is passed over; an
      existing key is recorded with its public URL and not uploaded; an absent
      key is uploaded; a failed check stops the file. */
  function PubStep(st: PubState, name: string, c: Conversion, svc: Service, publicUrl: string): PubState {
    if st.error.Some? || c.ConvError? then st
    else
      match FileExists(Head(st.store.objects, svc, c.fileName))
      case Failure(status) => st.(error := Some(status))
      case Success(true) => st.(uploads := st.uploads[name := Published(publicUrl + "/" + c.fileName, true)])
      case Success(false) =>
        var (location, store) := Put(st.store, svc, c.fileName);
        PubState(st.uploads[name := if location.Some? then Published(location.value, false) else UploadFailed], store, None)
  }

  /** The upload loop over the qualities, in configuration order. */
  function PubRun(qs: seq<Quality>, results: map<string, Conversion>, st0: PubState, svc: Service, publicUrl: string): PubState
    decreases |qs|
  {
    if qs == [] then st0
    else
      var q := qs[|qs| - 1];
      PubStep(PubRun(qs[..|qs| - 1], results, st0, svc, publicUrl), q.name, Lookup(results, q.name), svc, publicUrl)
  }

  /** The cover upload: only when a cover was saved, and only if absent. Its
      outcome is not recorded. */
  function CoverStep(st: PubState, cover: Option<string>, svc: Service): PubState {
    if st.error.Some? || cover.None? then st
    else
      match FileExists(Head(st.store.objects, svc, cover.value))
      case Failure(status) => st.(error := Some(status))
      case Success(true) => st
      case Success(false) => st.(store := Put(st.store, svc, cover.value).1)
  }

  /** What processing one file does to the disk and the bucket, and what it
      returns (a failure carries the status of the failed existence check). */
  datatype Outcome = Outcome(result: Result<ProcessedTrack, nat>, disk: DiskState, store: Store)

  function ParsedTags(tagsOf: map<string, CommonTags>, audioFile: string): Option<CommonTags> {
    if audioFile in tagsOf then Some(tagsOf[audioFile]) else None
  }

  function Converted0(audioFile: string, disk: DiskState, faults: DiskFaults): ConvState {
    ConvRun(Qualities, ConvState(map[], disk.outputs, disk.encodes), audioFile, Stem(audioFile), faults.encodeFails)
  }

  function SavedCover(meta: TrackMetadata, covers: map<string, seq<bv8>>, faults: DiskFaults, base: string): (Option<string>, map<string, seq<bv8>>) {
    if meta.coverArt.Some? then SaveCover(covers, faults.coverWriteFails, meta.coverArt.value, base) else (None, covers)
  }

  /** `processAudioFile(audioFile)` as a function of the disk and the bucket. */
  function Process(audioFile: string, disk: DiskState, tagsOf: map<string, CommonTags>, faults: DiskFaults,
                   store: Store, svc: Service, publicUrl: string): Outcome
  {
    var base := Stem(audioFile);
    var meta := ExtractMetadata(ParsedTags(tagsOf, audioFile), audioFile);
    var saved := SavedCover(meta, disk.covers, faults, base);
    var conv := Converted0(audioFile, disk, faults);
    var pub := CoverStep(PubRun(Qualities, conv.results, PubState(map[], store, None), svc, publicUrl), saved.0, svc);
    var disk' := DiskState(conv.outputs, saved.1, conv.encodes, disk.manifest);
    Outcome(if pub.error.Some? then Failure(pub.error.value) else Success(ProcessedTrack(meta, base, saved.0, pub.uploads)),
            disk', pub.store)
  }

  /** Once a check has failed, the rest of the loop does nothing. */
  lemma {:induction false} PubRunStops(qs: seq<Quality>, n: nat, results: map<string, Conversion>, st0: PubState, svc: Service, publicUrl: string)
    requires n <= |qs| && PubRun(qs[..n], results, st0, svc, publicUrl).error.Some?
    ensures PubRun(qs, results, st0, svc, publicUrl) == PubRun(qs[..n], results, st0, svc, publicUrl)
    decreases |qs|
  {
    if |qs| > n {
      var p := qs[..|qs| - 1];
      assert p[..n] == qs[..n];
      PubRunStops(p, n, results, st0, svc, publicUrl);
    } else {
      assert qs[..n] == qs;
    }
  }

  method ProcessAudioFile(audioFile: string, disk: Disk, bucket: Bucket, publicUrl: string) returns (r: Result<ProcessedTrack, nat>)
    modifies disk, bucket
    ensures Outcome(r, disk.State(), bucket.State()) ==
            Process(audioFile, old(disk.State()), disk.tagsOf, disk.faults, old(bucket.State()), bucket.service, publicUrl)
  {
    var base := Stem(audioFile);
    var parsed := disk.ParseFile(audioFile);
    var meta := ExtractMetadata(parsed, audioFile);
    var coverName: Option<string> := None;
    if meta.coverArt.Some? {
      coverName := disk.SaveCoverArt(meta.coverArt.value, base);
    }
    assert (coverName, disk.covers) == SavedCover(meta, old(disk.covers), disk.faults, base);
    var conv := ConvertAudio(disk, audioFile, base);
    assert conv == Converted0(audioFile, old(disk.State()), disk.faults).results;
    ghost var pub := PubRun(Qualities, conv, PubState(map[], bucket.State(), None), bucket.service, publicUrl);
    var uploads, error := UploadVariants(conv, bucket, publicUrl);
    if error.Some? {
      r := Failure(error.value);
      return;
    }
    error := UploadCover(coverName, bucket);
    assert PubState(uploads, bucket.State(), error) == CoverStep(pub, coverName, bucket.service);
    if error.Some? {
      r := Failure(error.value);
      return;
    }
    r := Success(ProcessedTrack(meta, base, coverName, uploads));
  }

  /** The `for … of` over the conversion results: each converted variant is
      checked and, when absent, uploaded; a rethrown check error ends the
      loop. */
  method UploadVariants(conv: map<string, Conversion>, bucket: Bucket, publicUrl: string)
    returns (uploads: map<string, Published>, error: Option<nat>)
    modifies bucket
    ensures PubState(uploads, bucket.State(), error) ==
            PubRun(Qualities, conv, PubState(map[], old(bucket.State()), None), bucket.service, publicUrl)
  {
    ghost var pst0 := PubState(map[], bucket.State(), None);
    uploads := map[];
    for i := 0 to |Qualities|
      invariant PubState(uploads, bucket.State(), None) == PubRun(Qualities[..i], conv, pst0, bucket.service, publicUrl)
    {
      var q := Qualities[i];
      assert Qualities[..i + 1][..i] == Qualities[..i];
      var c := Lookup(conv, q.name);
      if c.Converted? {
        var found := bucket.FileExistsInR2(c.fileName);
        if found.Failure? {
          PubRunStops(Qualities, i + 1, conv, pst0, bucket.service, publicUrl);
          error := Some(found.error);
          return;
        }
        if found.value {
          uploads := uploads[q.name := Published(publicUrl + "/" + c.fileName, true)];
        } else {
          var location := bucket.UploadToR2(c.fileName);
          uploads := uploads[q.name := if location.Some? then Published(location.value, false) else UploadFailed];
        }
      }
    }
    assert Qualities[..|Qualities|] == Qualities;
    error := None;
  }

  /** The cover upload: checked, and uploaded only when absent; its outcome
      is not kept. */
  method UploadCover(cover: Option<string>, bucket: Bucket) returns (error: Option<nat>)
    modifies bucket
    ensures forall uploads :: PubState(uploads, bucket.State(), error) ==
              CoverStep(PubState(uploads, old(bucket.State()), None), cover, bucket.service)
  {
    error := None;
    if cover.Some? {
      var found := bucket.FileExistsInR2(cover.value);
      if found.Failure? {
        error := Some(found.error);
        return;
      }
      if !found.value {
        var _ := bucket.UploadToR2(cover.value);
      }
    }
  }

  // ---------------------------------------------------------------------------
  // What the upload loop does, key by key

  /** Each converted result names its quality's variant key. */
  ghost predicate WellKeyed(qs: seq<Quality>, results: map<string, Conversion>, base: string) {
    forall q :: q in qs && Lookup(results, q.name).Converted? ==> Lookup(results, q.name).fileName == VariantKey(base, q.name)
  }

  /** The outcome a converted variant should get, decided by the bucket before
      the file: the existing object's public URL, or the upload's. */
  function Expected(c: Conversion, objects0: map<string, string>, svc: Service, publicUrl: string): Published
    requires c.Converted?
  {
    if c.fileName in objects0 then Published(publicUrl + "/" + c.fileName, true)
    else if c.fileName in svc.rejected then UploadFailed
    else Published(svc.location + "/" + c.fileName, false)
  }

  /** The upload requests the loop should make: one per converted variant
      absent from the bucket before the file, in order. */
  function ExpectedPuts(qs: seq<Quality>, results: map<string, Conversion>, objects0: map<string, string>, svc: Service): seq<PutRecord>
    decreases |qs|
  {
    if qs == [] then []
    else
      var c := Lookup(results, qs[|qs| - 1].name);
      ExpectedPuts(qs[..|qs| - 1], results, objects0, svc)
        + (if c.Converted? && c.fileName !in objects0
           then [PutRecord(c.fileName, ContentType(c.fileName), PublicRead, c.fileName !in svc.rejected)] else [])
  }

  /** The conversion results are the per-quality outcomes. */
  lemma ConvertedResults(audioFile: string, disk: DiskState, faults: DiskFaults)
    ensures var results := Converted0(audioFile, disk, faults).results;
            && WellKeyed(Qualities, results, Stem(audioFile))
            && forall q :: q in Qualities ==> Lookup(results, q.name) == ConvOutcome(q, disk.outputs, audioFile, Stem(audioFile), faults.encodeFails)
  {
    QualitiesDistinct();
    ConvRunResults(Qualities, ConvState(map[], disk.outputs, disk.encodes), audioFile, Stem(audioFile), faults.encodeFails);
  }

  lemma PubStepExtends(st: PubState, name: string, c: Conversion, svc: Service, publicUrl: string)
    requires ValidService(svc)
    ensures Extends(st.store, PubStep(st, name, c, svc, publicUrl).store)
  {
    if st.error.None? && c.Converted? && FileExists(Head(st.store.objects, svc, c.fileName)) == Success(false) {
      NotFoundMeansAbsent(st.store.objects, svc, c.fileName);
      PutExtends(st.store, svc, c.fileName);
    } else {
      ExtendsRefl(st.store);
    }
  }

  lemma {:induction false} PubRunExtends(qs: seq<Quality>, results: map<string, Conversion>, st0: PubState, svc: Service, publicUrl: string)
    requires ValidService(svc)
    ensures Extends(st0.store, PubRun(qs, results, st0, svc, publicUrl).store)
    decreases |qs|
  {
    if qs == [] {
      ExtendsRefl(st0.store);
    } else {
      var p, q := qs[..|qs| - 1], qs[|qs| - 1];
      var mid := PubRun(p, results, st0, svc, publicUrl);
      PubRunExtends(p, results, st0, svc, publicUrl);
      PubStepExtends(mid, q.name, Lookup(results, q.name), svc, publicUrl);
      ExtendsTrans(st0.store, mid.store, PubRun(qs, results, st0, svc, publicUrl).store);
    }
  }

  lemma CoverStepExtends(st: PubState, cover: Option<string>, svc: Service)
    requires ValidService(svc)
    ensures Extends(st.store, CoverStep(st, cover, svc).store)
  {
    if st.error.None? && cover.Some? && FileExists(Head(st.store.objects, svc, cover.value)) == Success(false) {
      NotFoundMeansAbsent(st.store.objects, svc, cover.value);
      PutExtends(st.store, svc, cover.value);
    } else {
      ExtendsRefl(st.store);
    }
  }

  /** The loop only adds objects, and only under the variant keys of its
      qualities. */
  lemma {:induction false} PubRunObjects(qs: seq<Quality>, results: map<string, Conversion>, st0: PubState, svc: Service, publicUrl: string, base: string)
    requires WellKeyed(qs, results, base)
    ensures var st := PubRun(qs, results, st0, svc, publicUrl);
            && st0.store.objects.Keys <= st.store.objects.Keys
            && forall k :: k in st.store.objects && k !in st0.store.objects ==>
                 exists i :: 0 <= i < |qs| && k == VariantKey(base, qs[i].name)
    decreases |qs|
  {
    if qs != [] {
      var p, q := qs[..|qs| - 1], qs[|qs| - 1];
      assert WellKeyed(p, results, base) by {
        forall q' | q' in p ensures q' in qs {
          var i :| 0 <= i < |p| && p[i] == q';
          assert qs[i] == q';
        }
      }
      PubRunObjects(p, results, st0, svc, publicUrl, base);
      var st := PubRun(qs, results, st0, svc, publicUrl);
      forall k | k in st.store.objects && k !in st0.store.objects
        ensures exists i :: 0 <= i < |qs| && k == VariantKey(base, qs[i].name)
      {
        if k in PubRun(p, results, st0, svc, publicUrl).store.objects {
          var i :| 0 <= i < |p| && k == VariantKey(base, p[i].name);
          assert qs[i] == p[i];
        } else {
          assert k == VariantKey(base, qs[|qs| - 1].name);
        }
      }
    }
  }

  /** A key that is no variant of the loop's qualities is present after the
      loop exactly when it was present before. */
  lemma OtherKeysUntouched(qs: seq<Quality>, results: map<string, Conversion>, st0: PubState, svc: Service, publicUrl: string, base: string, k: string)
    requires WellKeyed(qs, results, base)
    requires forall i :: 0 <= i < |qs| ==> k != VariantKey(base, qs[i].name)
    ensures k in PubRun(qs, results, st0, svc, publicUrl).store.objects <==> k in st0.store.objects
  {
    PubRunObjects(qs, results, st0, svc, publicUrl, base);
  }

  /** An error, once recorded, survives every later step. */
  lemma ErrorSticks(qs: seq<Quality>, results: map<string, Conversion>, st0: PubState, svc: Service, publicUrl: string)
    requires qs != [] && PubRun(qs, results, st0, svc, publicUrl).error.None?
    ensures PubRun(qs[..|qs| - 1], results, st0, svc, publicUrl).error.None?
  {
  }

  /** One step of the loop, when it records no error: a converted variant
      gets its expected outcome and at most its one upload request. */
  lemma PubStepOutcome(mid: PubState, name: string, c: Conversion, svc: Service, publicUrl: string, objects0: map<string, string>)
    requires ValidService(svc) && mid.error.None? && c.Converted?
    requires c.fileName in mid.store.objects <==> c.fileName in objects0
    requires PubStep(mid, name, c, svc, publicUrl).error.None?
    ensures var st := PubStep(mid, name, c, svc, publicUrl);
            && st.uploads == mid.uploads[name := Expected(c, objects0, svc, publicUrl)]
            && st.store.puts == mid.store.puts
                 + (if c.fileName !in objects0 then [PutRecord(c.fileName, ContentType(c.fileName), PublicRead, c.fileName !in svc.rejected)] else [])
  {
    NotFoundMeansAbsent(mid.store.objects, svc, c.fileName);
  }

  /** The loop records outcomes only under its qualities' names. */
  lemma {:induction false} PubRunUploadKeys(qs: seq<Quality>, results: map<string, Conversion>, st0: PubState, svc: Service, publicUrl: string)
    requires st0.uploads == map[]
    ensures PubRun(qs, results, st0, svc, publicUrl).uploads.Keys <= NameSet(qs)
    decreases |qs|
  {
    if qs != [] {
      var p, q := qs[..|qs| - 1], qs[|qs| - 1];
      assert qs == p + [q];
      assert NameSet(qs) == NameSet(p) + {q.name};
      PubRunUploadKeys(p, results, st0, svc, publicUrl);
    }
  }

  /** The last quality's name is not among the earlier ones. */
  lemma LastNameFresh(qs: seq<Quality>)
    requires NamesDistinct(qs) && qs != []
    ensures qs[|qs| - 1].name !in NameSet(qs[..|qs| - 1])
  {
  }

  /** The last quality's key is present before its step exactly when it was
      present before the loop. */
  lemma LastKeyUntouched(qs: seq<Quality>, results: map<string, Conversion>, st0: PubState, svc: Service, publicUrl: string, base: string)
    requires NamesDistinct(qs) && WellKeyed(qs, results, base) && qs != []
    requires Lookup(results, qs[|qs| - 1].name).Converted?
    ensures var k := Lookup(results, qs[|qs| - 1].name).fileName;
            k in PubRun(qs[..|qs| - 1], results, st0, svc, publicUrl).store.objects <==> k in st0.store.objects
  {
    var p, q := qs[..|qs| - 1], qs[|qs| - 1];
    var k := Lookup(results, q.name).fileName;
    assert WellKeyed(p, results, base);
    forall i | 0 <= i < |p| ensures k != VariantKey(base, p[i].name) {
      assert qs[i] == p[i];
      VariantKeyDeterminesQuality(base, p[i].name, q.name);
    }
    OtherKeysUntouched(p, results, st0, svc, publicUrl, base, k);
  }

  /** One step of the upload loop appends the request `ExpectedPuts` adds for
      that quality. */
  lemma PubStepPuts(mid: PubState, name: string, c: Conversion, svc: Service, publicUrl: string,
                    objects0: map<string, string>, puts0: seq<PutRecord>, prefix: seq<PutRecord>)
    requires ValidService(svc) && mid.error.None? && mid.store.puts == puts0 + prefix
    requires c.Converted? ==> (c.fileName in mid.store.objects <==> c.fileName in objects0)
    requires PubStep(mid, name, c, svc, publicUrl).error.None?
    ensures PubStep(mid, name, c, svc, publicUrl).store.puts == puts0 + (prefix +
              if c.Converted? && c.fileName !in objects0
              then [PutRecord(c.fileName, ContentType(c.fileName), PublicRead, c.fileName !in svc.rejected)] else [])
  {
    if c.Converted? {
      PubStepOutcome(mid, name, c, svc, publicUrl, objects0);
    }
  }

  /** Without a failed check the upload log grows by exactly the uploads of
      the converted variants that were absent before the file. */
  lemma {:induction false} PubRunPuts(qs: seq<Quality>, results: map<string, Conversion>, st0: PubState, svc: Service, publicUrl: string, base: string)
    requires ValidService(svc) && NamesDistinct(qs) && WellKeyed(qs, results, base) && st0.error.None?
    requires PubRun(qs, results, st0, svc, publicUrl).error.None?
    ensures PubRun(qs, results, st0, svc, publicUrl).store.puts == st0.store.puts + ExpectedPuts(qs, results, st0.store.objects, svc)
    decreases |qs|
  {
    if qs == [] {
      assert st0.store.puts + [] == st0.store.puts;
    } else {
      var p, q := qs[..|qs| - 1], qs[|qs| - 1];
      var c := Lookup(results, q.name);
      ErrorSticks(qs, results, st0, svc, publicUrl);
      assert NamesDistinct(p);
      assert WellKeyed(p, results, base);
      PubRunPuts(p, results, st0, svc, publicUrl, base);
      if c.Converted? {
        LastKeyUntouched(qs, results, st0, svc, publicUrl, base);
      }
      PubStepPuts(PubRun(p, results, st0, svc, publicUrl), q.name, c, svc, publicUrl,
                  st0.store.objects, st0.store.puts, ExpectedPuts(p, results, st0.store.objects, svc));
    }
  }

  /** Without a failed check: an errored variant gets no outcome; a converted
      one that existed is recorded with its public URL, one that did not with
      its upload's outcome. */
  lemma {:induction false} PubRunOutcomes(qs: seq<Quality>, results: map<string, Conversion>, st0: PubState, svc: Service, publicUrl: string, base: string)
    requires ValidService(svc) && NamesDistinct(qs) && WellKeyed(qs, results, base)
    requires st0.uploads == map[] && st0.error.None?
    requires PubRun(qs, results, st0, svc, publicUrl).error.None?
    ensures var st := PubRun(qs, results, st0, svc, publicUrl);
            forall q :: q in qs ==>
              (Lookup(results, q.name).ConvError? ==> q.name !in st.uploads)
              && (Lookup(results, q.name).Converted? ==>
                    q.name in st.uploads && st.uploads[q.name] == Expected(Lookup(results, q.name), st0.store.objects, svc, publicUrl))
    decreases |qs|
  {
    if qs != [] {
      var p, q := qs[..|qs| - 1], qs[|qs| - 1];
      var mid := PubRun(p, results, st0, svc, publicUrl);
      var st := PubRun(qs, results, st0, svc, publicUrl);
      var c := Lookup(results, q.name);
      ErrorSticks(qs, results, st0, svc, publicUrl);
      assert NamesDistinct(p);
      assert WellKeyed(p, results, base);
      PubRunOutcomes(p, results, st0, svc, publicUrl, base);
      if c.Converted? {
        LastKeyUntouched(qs, results, st0, svc, publicUrl, base);
        PubStepOutcome(mid, q.name, c, svc, publicUrl, st0.store.objects);
      } else {
        PubRunUploadKeys(p, results, st0, svc, publicUrl);
        LastNameFresh(qs);
      }
      forall q' | q' in qs
        ensures (Lookup(results, q'.name).ConvError? ==> q'.name !in st.uploads)
                && (Lookup(results, q'.name).Converted? ==>
                      q'.name in st.uploads && st.uploads[q'.name] == Expected(Lookup(results, q'.name), st0.store.objects, svc, publicUrl))
      {
        if q' != q {
          var i :| 0 <= i < |qs| && qs[i] == q';
          assert i < |p| && p[i] == q';
          assert q'.name != q.name;
        }
      }
    }
  }

  /** Under a valid service the loop stops exactly when a converted variant's
      existence check fails. */
  lemma {:induction false} PubRunFails(qs: seq<Quality>, results: map<string, Conversion>, st0: PubState, svc: Service, publicUrl: string)
    requires ValidService(svc) && st0.error.None?
    ensures PubRun(qs, results, st0, svc, publicUrl).error.None? <==>
            forall q :: q in qs && Lookup(results, q.name).Converted? ==> Lookup(results, q.name).fileName !in svc.headFaults
    decreases |qs|
  {
    if qs != [] {
      var p, q := qs[..|qs| - 1], qs[|qs| - 1];
      assert qs == p + [q];
      PubRunFails(p, results, st0, svc, publicUrl);
      var mid := PubRun(p, results, st0, svc, publicUrl);
      if Lookup(results, q.name).Converted? {
        NotFoundMeansAbsent(mid.store.objects, svc, Lookup(results, q.name).fileName);
      }
    }
  }

  // ---------------------------------------------------------------------------
  // One file, end to end

  /** The keys whose existence `processAudioFile` checks: each converted
      variant, then the saved cover. */
  function CheckedKeys(audioFile: string, disk: DiskState, tagsOf: map<string, CommonTags>, faults: DiskFaults): set<string> {
    var base := Stem(audioFile);
    var meta := ExtractMetadata(ParsedTags(tagsOf, audioFile), audioFile);
    var cover := SavedCover(meta, disk.covers, faults, base).0;
    (set q | q in Qualities && ConvOutcome(q, disk.outputs, audioFile, base, faults.encodeFails).Converted? :: VariantKey(base, q.name))
      + (if cover.Some? then {cover.value} else {})
  }

  /** The bucket after a file extends the bucket before it: no request for a
      key that already existed, at most one successful upload per key. */
  lemma ProcessExtends(audioFile: string, disk: DiskState, tagsOf: map<string, CommonTags>, faults: DiskFaults,
                       store: Store, svc: Service, publicUrl: string)
    requires ValidService(svc)
    ensures Extends(store, Process(audioFile, disk, tagsOf, faults, store, svc, publicUrl).store)
  {
    var base := Stem(audioFile);
    var meta := ExtractMetadata(ParsedTags(tagsOf, audioFile), audioFile);
    var saved := SavedCover(meta, disk.covers, faults, base);
    var conv := Converted0(audioFile, disk, faults);
    var st0 := PubState(map[], store, None);
    var mid := PubRun(Qualities, conv.results, st0, svc, publicUrl);
    PubRunExtends(Qualities, conv.results, st0, svc, publicUrl);
    CoverStepExtends(mid, saved.0, svc);
    ExtendsTrans(store, mid.store, CoverStep(mid, saved.0, svc).store);
  }

  /** A file fails exactly when the existence check of one of its checked
      keys fails. */
  lemma ProcessFails(audioFile: string, disk: DiskState, tagsOf: map<string, CommonTags>, faults: DiskFaults,
                     store: Store, svc: Service, publicUrl: string)
    requires ValidService(svc)
    ensures Process(audioFile, disk, tagsOf, faults, store, svc, publicUrl).result.Success? <==>
            CheckedKeys(audioFile, disk, tagsOf, faults) !! svc.headFaults.Keys
  {
    var base := Stem(audioFile);
    var meta := ExtractMetadata(ParsedTags(tagsOf, audioFile), audioFile);
    var saved := SavedCover(meta, disk.covers, faults, base);
    var conv := Converted0(audioFile, disk, faults);
    var st0 := PubState(map[], store, None);
    var mid := PubRun(Qualities, conv.results, st0, svc, publicUrl);
    var variants := set q | q in Qualities && ConvOutcome(q, disk.outputs, audioFile, base, faults.encodeFails).Converted? :: VariantKey(base, q.name);
    VariantChecksFail(audioFile, disk, faults, store, svc, publicUrl);
    assert mid.error.None? <==> variants !! svc.headFaults.Keys;
    if saved.0.Some? {
      NotFoundMeansAbsent(mid.store.objects, svc, saved.0.value);
    }
    assert CheckedKeys(audioFile, disk, tagsOf, faults) == variants + (if saved.0.Some? then {saved.0.value} else {});
  }

  /** The upload loop of a file aborts iff one of its converted variants'
      checks fails. */
  lemma VariantChecksFail(audioFile: string, disk: DiskState, faults: DiskFaults, store: Store, svc: Service, publicUrl: string)
    requires ValidService(svc)
    ensures var base := Stem(audioFile);
            var variants := set q | q in Qualities && ConvOutcome(q, disk.outputs, audioFile, base, faults.encodeFails).Converted? :: VariantKey(base, q.name);
            var mid := PubRun(Qualities, Converted0(audioFile, disk, faults).results, PubState(map[], store, None), svc, publicUrl);
            mid.error.None? <==> variants !! svc.headFaults.Keys
  {
    var base := Stem(audioFile);
    var conv := Converted0(audioFile, disk, faults);
    ConvertedResults(audioFile, disk, faults);
    PubRunFails(Qualities, conv.results, PubState(map[], store, None), svc, publicUrl);
  }

  /** The upload request for the saved cover: made only when it was absent
      before the file. */
  function CoverPut(cover: Option<string>, objects0: map<string, string>, svc: Service): seq<PutRecord> {
    if cover.Some? && cover.value !in objects0
    then [PutRecord(cover.value, ContentType(cover.value), PublicRead, cover.value !in svc.rejected)]
    else []
  }

  /** A file that succeeds records, per configured quality, no outcome for a
      failed conversion, the public URL for a variant already in the bucket,
      and the upload's outcome for one that was not. */
  lemma ProcessOutcomes(audioFile: string, disk: DiskState, tagsOf: map<string, CommonTags>, faults: DiskFaults,
                        store: Store, svc: Service, publicUrl: string)
    requires ValidService(svc)
    ensures var o := Process(audioFile, disk, tagsOf, faults, store, svc, publicUrl);
            o.result.Success? ==>
              forall q :: q in Qualities ==>
                var c := ConvOutcome(q, disk.outputs, audioFile, Stem(audioFile), faults.encodeFails);
                && (c.ConvError? ==> q.name !in o.result.value.qualities)
                && (c.Converted? ==> q.name in o.result.value.qualities
                                     && o.result.value.qualities[q.name] == Expected(c, store.objects, svc, publicUrl))
  {
    var conv := Converted0(audioFile, disk, faults);
    var st0 := PubState(map[], store, None);
    ConvertedResults(audioFile, disk, faults);
    QualitiesDistinct();
    if PubRun(Qualities, conv.results, st0, svc, publicUrl).error.None? {
      PubRunOutcomes(Qualities, conv.results, st0, svc, publicUrl, Stem(audioFile));
    }
  }

  /** A file that succeeds makes exactly these upload requests: one per
      converted variant absent from the bucket, then one for the saved cover
      if it was absent. */
  lemma ProcessPuts(audioFile: string, disk: DiskState, tagsOf: map<string, CommonTags>, faults: DiskFaults,
                    store: Store, svc: Service, publicUrl: string)
    requires ValidService(svc)
    ensures var o := Process(audioFile, disk, tagsOf, faults, store, svc, publicUrl);
            o.result.Success? ==>
              o.store.puts == store.puts + ExpectedPuts(Qualities, Converted0(audioFile, disk, faults).results, store.objects, svc)
                                         + CoverPut(o.result.value.coverArtFileName, store.objects, svc)
  {
    var base := Stem(audioFile);
    var meta := ExtractMetadata(ParsedTags(tagsOf, audioFile), audioFile);
    var saved := SavedCover(meta, disk.covers, faults, base);
    var conv := Converted0(audioFile, disk, faults);
    var st0 := PubState(map[], store, None);
    var mid := PubRun(Qualities, conv.results, st0, svc, publicUrl);
    ConvertedResults(audioFile, disk, faults);
    QualitiesDistinct();
    if CoverStep(mid, saved.0, svc).error.None? {
      PubRunPuts(Qualities, conv.results, st0, svc, publicUrl, base);
      if saved.0.Some? {
        var k := saved.0.value;
        forall i | 0 <= i < |Qualities| ensures k != VariantKey(base, Qualities[i].name) {
          CoverKeyNotVariant(base, base, Qualities[i].name);
        }
        OtherKeysUntouched(Qualities, conv.results, st0, svc, publicUrl, base, k);
        NotFoundMeansAbsent(mid.store.objects, svc, k);
      }
    }
  }

  /** What a file does to the disk, success or not: the conversions' outputs
      and encoder runs, the saved cover; `tracks.json` is untouched. */
  lemma ProcessDisk(audioFile: string, disk: DiskState, tagsOf: map<string, CommonTags>, faults: DiskFaults,
                    store: Store, svc: Service, publicUrl: string)
    ensures var o := Process(audioFile, disk, tagsOf, faults, store, svc, publicUrl);
            var base := Stem(audioFile);
            && o.disk.outputs == disk.outputs + Created(Qualities, disk.outputs, audioFile, base, faults.encodeFails)
            && o.disk.encodes == disk.encodes + EncoderCalls(Qualities, disk.outputs, audioFile, base)
            && o.disk.manifest == disk.manifest
            && (o.result.Success? ==> o.result.value.filename == base)
  {
    QualitiesDistinct();
    ConvRunEffects(Qualities, ConvState(map[], disk.outputs, disk.encodes), audioFile, Stem(audioFile), faults.encodeFails);
  }
}
