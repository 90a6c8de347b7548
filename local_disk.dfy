/** The local side of the sync tool: the input directory (read only), the
    converted-output directory, the cover-art directory, the encoder and the
    `tracks.json` file. The input listing, the tag parser and every failure
    are fixed oracles. */
module LocalDisk {
  import opened Wrappers
  import opened Metadata
  import opened TracksJson
  import MediaPaths

  /** One `ffmpeg` invocation: input file, bitrate, output file. */
  datatype EncodeRun = EncodeRun(input: string, bitrate: string, output: string)

  /** The mutable part of the disk as a value. */
  datatype DiskState = DiskState(
    outputs: set<string>,
    covers: map<string, seq<bv8>>,
    encodes: seq<EncodeRun>,
    manifest: Option<Manifest>)

  /** Which encoder runs fail (by input file and bitrate), which cover files
      cannot be written, and whether writing `tracks.json` fails. */
  datatype DiskFaults = DiskFaults(
    encodeFails: set<(string, string)>,
    coverWriteFails: set<string>,
    manifestWriteFails: bool)

  /** `saveCoverArt`: write the picture under `${base}_cover.jpg` and return
      that name, or `null` when the write fails. */
  function SaveCover(covers: map<string, seq<bv8>>, fails: set<string>, pic: Picture, base: string)
    : (r: (Option<string>, map<string, seq<bv8>>))
    ensures r.0.Some? ==> r.0.value == MediaPaths.CoverKey(base) && r.1 == covers[r.0.value := pic.data]
    ensures r.0.None? <==> MediaPaths.CoverKey(base) in fails
    ensures r.0.None? ==> r.1 == covers
  {
    var key := MediaPaths.CoverKey(base);
    if key in fails then (None, covers) else (Some(key), covers[key := pic.data])
  }

  class Disk {
    var outputs: set<string>
    var covers: map<string, seq<bv8>>
    var encodes: seq<EncodeRun>
    var manifest: Option<Manifest>
    /** What the input path holds. */
    const inputDir: MediaPaths.InputDir
    /** What the tag parser reports per input file; a missing file name is a
        parser failure. */
    const tagsOf: map<string, CommonTags>
    const faults: DiskFaults

    function State(): DiskState
      reads this
    {
      DiskState(outputs, covers, encodes, manifest)
    }

    constructor (state: DiskState, inputDir: MediaPaths.InputDir, tagsOf: map<string, CommonTags>, faults: DiskFaults)
      ensures State() == state
      ensures this.inputDir == inputDir && this.tagsOf == tagsOf && this.faults == faults
    {
      outputs := state.outputs;
      covers := state.covers;
      encodes := state.encodes;
      manifest := state.manifest;
      this.inputDir := inputDir;
      this.tagsOf := tagsOf;
      this.faults := faults;
    }

    /** The tag parser on one input file. */
    method ParseFile(audioFile: string) returns (r: Option<CommonTags>)
      ensures r.Some? <==> audioFile in tagsOf
      ensures r.Some? ==> r.value == tagsOf[audioFile]
    {
      if audioFile in tagsOf {
        r := Some(tagsOf[audioFile]);
      } else {
        r := None;
      }
    }

    /** `ffmpeg -i input -b:a bitrate output`: logged; on success the output
        exists afterwards, and a failed run is taken to leave no output. */
    method RunEncoder(input: string, bitrate: string, output: string) returns (ok: bool)
      modifies this
      ensures ok <==> (input, bitrate) !in faults.encodeFails
      ensures encodes == old(encodes) + [EncodeRun(input, bitrate, output)]
      ensures outputs == if ok then old(outputs) + {output} else old(outputs)
      ensures covers == old(covers) && manifest == old(manifest)
    {
      encodes := encodes + [EncodeRun(input, bitrate, output)];
      ok := (input, bitrate) !in faults.encodeFails;
      if ok {
        outputs := outputs + {output};
      }
    }

    method SaveCoverArt(pic: Picture, base: string) returns (r: Option<string>)
      modifies this
      ensures (r, covers) == SaveCover(old(covers), faults.coverWriteFails, pic, base)
      ensures outputs == old(outputs) && encodes == old(encodes) && manifest == old(manifest)
    {
      var key := MediaPaths.CoverKey(base);
      if key in faults.coverWriteFails {
        r := None;
      } else {
        covers := covers[key := pic.data];
        r := Some(key);
      }
    }

    /** Writing `tracks.json`. */
    method WriteManifest(m: Manifest) returns (ok: bool)
      modifies this
      ensures ok <==> !faults.manifestWriteFails
      ensures manifest == if ok then Some(m) else old(manifest)
      ensures outputs == old(outputs) && covers == old(covers) && encodes == old(encodes)
    {
      ok := !faults.manifestWriteFails;
      if ok {
        manifest := Some(m);
      }
    }
  }
}
