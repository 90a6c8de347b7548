/** `convertAudio`: one encoder run per configured quality, skipping a
    quality whose output file already exists and recording a failed run as an
    error for that quality only. */
module Transcode {
  import opened Wrappers
  import opened MediaPaths
  import opened LocalDisk

  datatype Quality = Quality(name: string, bitrate: string)

  /** `CONFIG.qualities`, in its insertion order. */
  const Qualities: seq<Quality> := [Quality("low", "64k"), Quality("medium", "128k")]

  /** One entry of `results`: the output file (skipped when it already
      existed), or an error. */
  datatype Conversion = Converted(fileName: string, skipped: bool) | ConvError

  /** The loop's state: the results so far, the output directory and the
      encoder log. */
  datatype ConvState = ConvState(results: map<string, Conversion>, outputs: set<string>, encodes: seq<EncodeRun>)

  /** One iteration of the `forEach` over the qualities. */
  function ConvStep(st: ConvState, q: Quality, input: string, base: string, fails: set<(string, string)>): ConvState {
    var key := VariantKey(base, q.name);
    if key in st.outputs then st.(results := st.results[q.name := Converted(key, true)])
    else
      var encodes := st.encodes + [EncodeRun(input, q.bitrate, key)];
      if (input, q.bitrate) in fails then ConvState(st.results[q.name := ConvError], st.outputs, encodes)
      else ConvState(st.results[q.name := Converted(key, false)], st.outputs + {key}, encodes)
  }

  /** The loop over `qs`, as a fold. */
  function ConvRun(qs: seq<Quality>, st0: ConvState, input: string, base: string, fails: set<(string, string)>): ConvState
    decreases |qs|
  {
    if qs == [] then st0
    else ConvStep(ConvRun(qs[..|qs| - 1], st0, input, base, fails), qs[|qs| - 1], input, base, fails)
  }

  method ConvertAudio(disk: Disk, inputFile: string, base: string) returns (results: map<string, Conversion>)
    modifies disk
    ensures var st := ConvRun(Qualities, ConvState(map[], old(disk.outputs), old(disk.encodes)), inputFile, base, disk.faults.encodeFails);
            results == st.results && disk.outputs == st.outputs && disk.encodes == st.encodes
    ensures disk.covers == old(disk.covers) && disk.manifest == old(disk.manifest)
  {
    results := map[];
    ghost var st0 := ConvState(map[], disk.outputs, disk.encodes);
    for i := 0 to |Qualities|
      invariant ConvState(results, disk.outputs, disk.encodes) == ConvRun(Qualities[..i], st0, inputFile, base, disk.faults.encodeFails)
      invariant disk.covers == old(disk.covers) && disk.manifest == old(disk.manifest)
    {
      var q := Qualities[i];
      var key := VariantKey(base, q.name);
      assert Qualities[..i + 1][..i] == Qualities[..i];
      if key in disk.outputs {
        results := results[q.name := Converted(key, true)];
      } else {
        var ok := disk.RunEncoder(inputFile, q.bitrate, key);
        results := results[q.name := if ok then Converted(key, false) else ConvError];
      }
    }
    assert Qualities[..|Qualities|] == Qualities;
  }

  // ---------------------------------------------------------------------------
  // The loop's effect quality by quality

  /** The result for one quality, decided by the output directory at the
      start: skipped if its file existed, else an error if the encoder fails,
      else converted. */
  function ConvOutcome(q: Quality, outputs0: set<string>, input: string, base: string, fails: set<(string, string)>): Conversion {
    var key := VariantKey(base, q.name);
    if key in outputs0 then Converted(key, true)
    else if (input, q.bitrate) in fails then ConvError
    else Converted(key, false)
  }

  /** The encoder runs: one per quality whose file did not exist, in order. */
  function EncoderCalls(qs: seq<Quality>, outputs0: set<string>, input: string, base: string): seq<EncodeRun>
    decreases |qs|
  {
    if qs == [] then []
    else
      var q := qs[|qs| - 1];
      var key := VariantKey(base, q.name);
      EncoderCalls(qs[..|qs| - 1], outputs0, input, base) + (if key in outputs0 then [] else [EncodeRun(input, q.bitrate, key)])
  }

  /** The files the loop creates. */
  function Created(qs: seq<Quality>, outputs0: set<string>, input: string, base: string, fails: set<(string, string)>): set<string>
    decreases |qs|
  {
    if qs == [] then {}
    else
      var q := qs[|qs| - 1];
      Created(qs[..|qs| - 1], outputs0, input, base, fails)
        + (if ConvOutcome(q, outputs0, input, base, fails) == Converted(VariantKey(base, q.name), false)
           then {VariantKey(base, q.name)} else {})
  }

  function NameSet(qs: seq<Quality>): set<string> {
    set q | q in qs :: q.name
  }

  predicate NamesDistinct(qs: seq<Quality>) {
    forall i, j :: 0 <= i < j < |qs| ==> qs[i].name != qs[j].name
  }

  lemma QualitiesDistinct()
    ensures NamesDistinct(Qualities)
    ensures NameSet(Qualities) == {"low", "medium"}
  {
    assert Qualities[0].name == "low" && Qualities[1].name == "medium";
    assert NameSet(Qualities) == {Qualities[0].name, Qualities[1].name};
  }

  /** Every created file is the variant key of one of the qualities. */
  lemma {:induction false} CreatedKeys(qs: seq<Quality>, outputs0: set<string>, input: string, base: string, fails: set<(string, string)>)
    ensures forall k :: k in Created(qs, outputs0, input, base, fails) ==>
              exists i :: 0 <= i < |qs| && k == VariantKey(base, qs[i].name)
    decreases |qs|
  {
    if qs != [] {
      var p := qs[..|qs| - 1];
      CreatedKeys(p, outputs0, input, base, fails);
      forall k | k in Created(qs, outputs0, input, base, fails)
        ensures exists i :: 0 <= i < |qs| && k == VariantKey(base, qs[i].name)
      {
        if k in Created(p, outputs0, input, base, fails) {
          var i :| 0 <= i < |p| && k == VariantKey(base, p[i].name);
          assert qs[i] == p[i];
        } else {
          assert k == VariantKey(base, qs[|qs| - 1].name);
        }
      }
    }
  }

  lemma NameSetSnoc(p: seq<Quality>, q: Quality)
    ensures NameSet(p + [q]) == NameSet(p) + {q.name}
  {
    forall x | x in NameSet(p + [q]) ensures x in NameSet(p) + {q.name} {
      var r :| r in p + [q] && r.name == x;
      if r != q {
        assert r in p;
      }
    }
    forall x | x in NameSet(p) ensures x in NameSet(p + [q]) {
      var r :| r in p && r.name == x;
      assert r in p + [q];
    }
  }

  /** One step records exactly its quality's name. */
  lemma ConvStepKeys(st: ConvState, q: Quality, input: string, base: string, fails: set<(string, string)>)
    ensures ConvStep(st, q, input, base, fails).results.Keys == st.results.Keys + {q.name}
  {
  }

  /** The loop yields one result per configured quality name. */
  lemma {:induction false} ConvRunKeys(qs: seq<Quality>, st0: ConvState, input: string, base: string, fails: set<(string, string)>)
    ensures ConvRun(qs, st0, input, base, fails).results.Keys == st0.results.Keys + NameSet(qs)
    decreases |qs|
  {
    if qs == [] {
      assert NameSet(qs) == {};
    } else {
      var p, q := qs[..|qs| - 1], qs[|qs| - 1];
      assert qs == p + [q];
      NameSetSnoc(p, q);
      ConvRunKeys(p, st0, input, base, fails);
      ConvStepKeys(ConvRun(p, st0, input, base, fails), q, input, base, fails);
    }
  }

  /** A quality's key is not among the files created for the qualities
      before it. */
  lemma NotCreatedBefore(qs: seq<Quality>, outputs0: set<string>, input: string, base: string, fails: set<(string, string)>)
    requires NamesDistinct(qs) && qs != []
    ensures VariantKey(base, qs[|qs| - 1].name) !in Created(qs[..|qs| - 1], outputs0, input, base, fails)
  {
    var p, q := qs[..|qs| - 1], qs[|qs| - 1];
    var key := VariantKey(base, q.name);
    CreatedKeys(p, outputs0, input, base, fails);
    if key in Created(p, outputs0, input, base, fails) {
      var i :| 0 <= i < |p| && key == VariantKey(base, p[i].name);
      VariantKeyDeterminesQuality(base, p[i].name, q.name);
      assert false;
    }
  }

  /** The files the loop creates and the encoder runs it makes are those the
      per-quality outcomes call for. */
  lemma {:induction false} ConvRunEffects(qs: seq<Quality>, st0: ConvState, input: string, base: string, fails: set<(string, string)>)
    requires NamesDistinct(qs)
    ensures var st := ConvRun(qs, st0, input, base, fails);
            && st.outputs == st0.outputs + Created(qs, st0.outputs, input, base, fails)
            && st.encodes == st0.encodes + EncoderCalls(qs, st0.outputs, input, base)
    decreases |qs|
  {
    if qs == [] {
      assert st0.encodes + [] == st0.encodes;
    } else {
      var p := qs[..|qs| - 1];
      ConvRunEffects(p, st0, input, base, fails);
      NotCreatedBefore(qs, st0.outputs, input, base, fails);
    }
  }

  /** One step records its quality's outcome, decided by whether its file
      existed at the start. */
  lemma ConvStepResult(st: ConvState, q: Quality, outputs0: set<string>, input: string, base: string, fails: set<(string, string)>)
    requires VariantKey(base, q.name) in st.outputs <==> VariantKey(base, q.name) in outputs0
    ensures ConvStep(st, q, input, base, fails).results == st.results[q.name := ConvOutcome(q, outputs0, input, base, fails)]
  {
  }

  /** Each quality's result is decided by the initial output directory alone,
      so a failure in one quality does not affect the others; names outside
      the configuration keep their results. */
  lemma {:induction false} ConvRunResults(qs: seq<Quality>, st0: ConvState, input: string, base: string, fails: set<(string, string)>)
    requires NamesDistinct(qs)
    ensures var st := ConvRun(qs, st0, input, base, fails);
            && (forall q :: q in qs ==> q.name in st.results && st.results[q.name] == ConvOutcome(q, st0.outputs, input, base, fails))
            && (forall n :: n in st0.results && n !in NameSet(qs) ==> n in st.results && st.results[n] == st0.results[n])
    decreases |qs|
  {
    if qs != [] {
      var p, q := qs[..|qs| - 1], qs[|qs| - 1];
      assert qs == p + [q];
      NameSetSnoc(p, q);
      assert NamesDistinct(p);
      ConvRunResults(p, st0, input, base, fails);
      ConvRunEffects(p, st0, input, base, fails);
      NotCreatedBefore(qs, st0.outputs, input, base, fails);
      var mid := ConvRun(p, st0, input, base, fails);
      ConvStepResult(mid, q, st0.outputs, input, base, fails);
      var st := ConvRun(qs, st0, input, base, fails);
      assert st.results == mid.results[q.name := ConvOutcome(q, st0.outputs, input, base, fails)];
      forall q' | q' in qs
        ensures q'.name in st.results && st.results[q'.name] == ConvOutcome(q', st0.outputs, input, base, fails)
      {
        if q' != q {
          var i :| 0 <= i < |qs| && qs[i] == q';
          assert i < |p| && p[i] == q';
          assert q'.name != q.name;
        }
      }
    }
  }

  /** The encoder never runs for an output that already existed, and runs
      once for each quality whose output did not. */
  lemma {:induction false} EncoderCallsSpec(qs: seq<Quality>, outputs0: set<string>, input: string, base: string)
    ensures var calls := EncoderCalls(qs, outputs0, input, base);
            && |calls| <= |qs|
            && (forall i :: 0 <= i < |calls| ==> calls[i].output !in outputs0 && calls[i].input == input)
            && (forall q :: q in qs && VariantKey(base, q.name) !in outputs0 ==>
                  EncodeRun(input, q.bitrate, VariantKey(base, q.name)) in calls)
    decreases |qs|
  {
    if qs != [] {
      var p := qs[..|qs| - 1];
      EncoderCallsSpec(p, outputs0, input, base);
      assert qs == p + [qs[|qs| - 1]];
    }
  }
}
