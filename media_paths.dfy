/** File naming in the sync tool: which directory entries count as audio,
    the content type sent with each upload, and the deterministic keys of the
    converted variants and of the extracted cover art. Names here are the
    base names that `readdirSync` returns, so they hold no `/`. */
module MediaPaths {
  import opened Wrappers
  import opened Text
  import opened Seqs
  import TrackListing

  const AudioFileExtensions: seq<string> := [".mp3", ".wav", ".flac", ".m4a", ".aac", ".ogg"]

  /** `path.extname` of a base name: from the last dot to the end, except that
      a name with no dot, a name whose only dot is its first character, and
      `..` have no extension. */
  function ExtName(name: string): (r: string)
    ensures r == [] || (r[0] == '.' && '.' !in r[1..])
    ensures |r| <= |name| && r == name[|name| - |r|..]
  {
    var d := LastIndexOf(name, '.');
    if d <= 0 || name == ".." then []
    else name[d..]
  }

  /** `path.parse(name).name`: the name without its extension. */
  function Stem(name: string): (r: string)
    ensures r + ExtName(name) == name
  {
    name[..|name| - |ExtName(name)|]
  }

  /** A name made of a non-empty stem, a dot and a non-empty dot-free tail has
      the extension `.tail` and the stem `stem`. */
  lemma ExtNameOfSuffix(stem: string, tail: string)
    requires stem != [] && tail != [] && '.' !in tail
    ensures ExtName(stem + ['.'] + tail) == ['.'] + tail
    ensures Stem(stem + ['.'] + tail) == stem
  {
    var name := stem + ['.'] + tail;
    LastIndexOfBefore(stem, '.', tail);
    assert name[|stem|..] == ['.'] + tail;
    assert |name| >= 3;
  }

  /** A name starting with its only dot (a hidden file such as `.mp3`) has no
      extension, so its stem is the whole name. */
  lemma HiddenNameHasNoExtension(tail: string)
    requires '.' !in tail
    ensures ExtName(['.'] + tail) == []
    ensures Stem(['.'] + tail) == ['.'] + tail
  {
    LastIndexOfBefore([], '.', tail);
    assert [] + ['.'] + tail == ['.'] + tail;
  }

  // ---------------------------------------------------------------------------
  // Input discovery

  /** The `getAudioFiles` test: the lowered extension is one of the six. */
  predicate IsAudioFile(name: string) {
    Lower(ExtName(name)) in AudioFileExtensions
  }

  /** What the input path holds: nothing, something `readdirSync` cannot
      list (a regular file, a directory without read permission), or a
      directory's entries in `readdirSync` order. */
  datatype InputDir = Missing | Unlistable | Listed(entries: seq<string>)

  /** `getAudioFiles`: a missing directory gives no files, an unlistable one
      makes `readdirSync` throw (`None`), and otherwise the audio entries are
      kept in order. */
  function GetAudioFiles(dir: InputDir): (r: Option<seq<string>>)
    ensures r.None? <==> dir.Unlistable?
    ensures dir.Missing? ==> r == Some([])
    ensures dir.Listed? ==>
              (forall f :: f in r.value <==> f in dir.entries && IsAudioFile(f))
              && IsSubsequence(r.value, dir.entries)
  {
    match dir
    case Missing => Some([])
    case Unlistable => None
    case Listed(files) =>
      FilterIsSubsequence(IsAudioFile, files);
      Some(Filter(IsAudioFile, files))
  }

  /** For a name with a stem, the test looks only at the lowered tail: case
      does not matter and the stem does not matter. */
  lemma IsAudioFileOfSuffix(stem: string, tail: string)
    requires stem != [] && tail != [] && '.' !in tail
    ensures IsAudioFile(stem + ['.'] + tail) <==> ['.'] + Lower(tail) in AudioFileExtensions
  {
    ExtNameOfSuffix(stem, tail);
    DotLower(tail);
  }

  lemma DotLower(tail: string)
    ensures Lower(['.'] + tail) == ['.'] + Lower(tail)
  {
    LowerConcat(['.'], tail);
    assert Lower(['.']) == ['.'];
  }

  lemma LowerMP3()
    ensures Lower("MP3") == "mp3"
  {
    var r := Lower("MP3");
    assert r[0] == 'm' && r[1] == 'p' && r[2] == '3';
  }

  /** `Song.MP3` is discovered; the hidden file `.mp3` is not. */
  lemma DiscoveryExamples()
    ensures IsAudioFile("Song.MP3")
    ensures !IsAudioFile(".mp3")
  {
    SongDiscovered();
    HiddenNotDiscovered();
  }

  lemma SongDiscovered()
    ensures IsAudioFile("Song.MP3")
  {
    assert "Song.MP3" == "Song" + ['.'] + "MP3";
    IsAudioFileOfSuffix("Song", "MP3");
    LowerMP3();
    assert ['.'] + Lower("MP3") == AudioFileExtensions[0];
  }

  lemma HiddenNotDiscovered()
    ensures !IsAudioFile(".mp3")
  {
    assert ".mp3" == ['.'] + "mp3";
    HiddenNameHasNoExtension("mp3");
    assert Lower(ExtName(".mp3")) == [];
  }

  // ---------------------------------------------------------------------------
  // Content types

  const ContentTypes: map<string, string> := map[
    ".mp3" := "audio/mpeg", ".wav" := "audio/wav", ".flac" := "audio/flac",
    ".m4a" := "audio/mp4", ".aac" := "audio/aac", ".ogg" := "audio/ogg",
    ".jpg" := "image/jpeg", ".jpeg" := "image/jpeg", ".png" := "image/png"]

  /** `getContentType`: the table entry of the lowered extension, with
      `audio/mpeg` for anything the table does not list. */
  function ContentType(fileName: string): string {
    TypeOfExt(Lower(ExtName(fileName)))
  }

  /** The table lookup for one lowered extension. */
  function TypeOfExt(ext: string): string {
    if ext in ContentTypes then ContentTypes[ext] else "audio/mpeg"
  }

  /** The content type of a name with a stem is looked up by its lowered tail. */
  lemma ContentTypeOfSuffix(stem: string, tail: string)
    requires stem != [] && tail != [] && '.' !in tail
    ensures ContentType(stem + ['.'] + tail) == TypeOfExt(['.'] + Lower(tail))
  {
    ExtNameOfSuffix(stem, tail);
    DotLower(tail);
  }

  /** The content type depends on the extension only up to case. */
  lemma ContentTypeIgnoresCase(stem: string, tail: string)
    requires stem != [] && tail != [] && '.' !in tail
    ensures ContentType(stem + ['.'] + tail) == ContentType(stem + ['.'] + Lower(tail))
  {
    LowerNoNewDots(tail);
    ContentTypeOfSuffix(stem, tail);
    ContentTypeOfSuffix(stem, Lower(tail));
    LowerIdempotent(tail);
  }

  lemma LowerNoNewDots(s: string)
    requires '.' !in s
    ensures '.' !in Lower(s) && Lower(s) != [] <==> s != []
  {
  }

  /** `.flac` in any case is `audio/flac`; an unlisted extension and a name
      without one fall back to `audio/mpeg`. */
  lemma ContentTypeExamples(stem: string)
    requires stem != []
    ensures ContentType(stem + ".FLAC") == "audio/flac"
    ensures ContentType(stem + ".txt") == "audio/mpeg"
    ensures ContentType("README") == "audio/mpeg"
  {
    FlacExample(stem);
    TxtExample(stem);
    ReadmeExample();
  }

  lemma ReadmeExample()
    ensures ContentType("README") == "audio/mpeg"
  {
    var name := "README";
    assert forall i :: 0 <= i < |name| ==> name[i] != '.';
    NoExtensionIsDefault(name);
  }

  lemma FlacExample(stem: string)
    requires stem != []
    ensures ContentType(stem + ".FLAC") == "audio/flac"
  {
    assert ".FLAC" == ['.'] + "FLAC";
    assert stem + ".FLAC" == stem + ['.'] + "FLAC";
    ContentTypeOfSuffix(stem, "FLAC");
    LowerFLAC();
    FlacEntry();
  }

  lemma LowerFLAC()
    ensures ['.'] + Lower("FLAC") == ".flac"
  {
    var l := Lower("FLAC");
    assert l[0] == 'f' && l[1] == 'l' && l[2] == 'a' && l[3] == 'c';
  }

  lemma FlacEntry()
    ensures TypeOfExt(".flac") == "audio/flac"
  {
    var k := ".flac";
    assert k[1] == 'f';
    assert k != ".m4a" && k != ".aac" && k != ".ogg" && k != ".jpg" && k != ".jpeg" && k != ".png" by {
      assert ".m4a"[1] == 'm' && ".aac"[1] == 'a' && ".ogg"[1] == 'o';
      assert ".jpg"[1] == 'j' && ".jpeg"[1] == 'j' && ".png"[1] == 'p';
    }
  }

  lemma TxtNotListed()
    ensures TypeOfExt(".txt") == "audio/mpeg"
  {
    var k := ".txt";
    assert k[1] == 't';
    assert k !in ContentTypes by {
      assert ".mp3"[1] == 'm' && ".wav"[1] == 'w' && ".flac"[1] == 'f' && ".m4a"[1] == 'm' && ".aac"[1] == 'a';
      assert ".ogg"[1] == 'o' && ".jpg"[1] == 'j' && ".jpeg"[1] == 'j' && ".png"[1] == 'p';
    }
  }

  lemma TxtExample(stem: string)
    requires stem != []
    ensures ContentType(stem + ".txt") == "audio/mpeg"
  {
    assert ".txt" == ['.'] + "txt";
    assert stem + ".txt" == stem + ['.'] + "txt";
    ContentTypeOfSuffix(stem, "txt");
    LowerTxt();
    TxtNotListed();
  }

  lemma LowerTxt()
    ensures ['.'] + Lower("txt") == ".txt"
  {
    LowerNoCapitals("txt");
  }

  /** A name without a dot has no extension and gets the default type. */
  lemma NoExtensionIsDefault(name: string)
    requires '.' !in name
    ensures ContentType(name) == "audio/mpeg"
  {
    assert LastIndexOf(name, '.') == -1;
    assert Lower([]) == [];
    assert [] !in ContentTypes;
  }

  // ---------------------------------------------------------------------------
  // Keys

  /** `${base}_${quality}.mp3`: the converted file and its object key. */
  function VariantKey(base: string, quality: string): string {
    base + "_" + quality + ".mp3"
  }

  /** `${base}_cover.jpg`: the saved cover art and its object key. */
  function CoverKey(base: string): string {
    base + "_cover.jpg"
  }

  /** Variant keys are injective: a key determines its base for a given
      quality, and its quality for a given base. */
  lemma VariantKeyInjective(b1: string, q1: string, b2: string, q2: string)
    requires b1 == b2 || q1 == q2
    ensures VariantKey(b1, q1) == VariantKey(b2, q2) <==> b1 == b2 && q1 == q2
  {
    VariantKeyDeterminesBase(b1, b2, q1);
    VariantKeyDeterminesQuality(b1, q1, q2);
  }

  lemma VariantKeyDeterminesBase(b1: string, b2: string, q: string)
    ensures VariantKey(b1, q) == VariantKey(b2, q) ==> b1 == b2
  {
    var k1, k2 := VariantKey(b1, q), VariantKey(b2, q);
    if k1 == k2 {
      assert |b1| == |b2|;
      assert b1 == k1[..|b1|] && b2 == k2[..|b2|];
    }
  }

  lemma VariantKeyDeterminesQuality(b: string, q1: string, q2: string)
    ensures VariantKey(b, q1) == VariantKey(b, q2) ==> q1 == q2
  {
    var k1, k2 := VariantKey(b, q1), VariantKey(b, q2);
    if k1 == k2 {
      assert |q1| == |q2|;
      assert q1 == k1[|b| + 1..|k1| - 4] && q2 == k2[|b| + 1..|k2| - 4];
    }
  }

  /** A cover key is never a variant key: they end in `.jpg` and `.mp3`. */
  lemma CoverKeyNotVariant(b1: string, b2: string, q: string)
    ensures CoverKey(b1) != VariantKey(b2, q)
  {
    var c := CoverKey(b1);
    var v := VariantKey(b2, q);
    assert c[|c| - 3] == 'j';
    assert v[|v| - 3] == 'm';
  }

  /** Variants are uploaded as `audio/mpeg`, covers as `image/jpeg`. */
  lemma KeyContentTypes(base: string, quality: string)
    ensures ContentType(VariantKey(base, quality)) == "audio/mpeg"
    ensures ContentType(CoverKey(base)) == "image/jpeg"
  {
    VariantContentType(base, quality);
    CoverContentType(base);
  }

  lemma VariantContentType(base: string, quality: string)
    ensures ContentType(VariantKey(base, quality)) == "audio/mpeg"
  {
    var stem := base + "_" + quality;
    assert ".mp3" == ['.'] + "mp3";
    assert VariantKey(base, quality) == stem + ['.'] + "mp3";
    Mp3Suffix(stem);
  }

  lemma Mp3Suffix(stem: string)
    requires stem != []
    ensures ContentType(stem + ['.'] + "mp3") == "audio/mpeg"
  {
    ContentTypeOfSuffix(stem, "mp3");
    LowerNoCapitals("mp3");
    assert ['.'] + Lower("mp3") == ".mp3";
    Mp3Entry();
  }

  lemma CoverContentType(base: string)
    ensures ContentType(CoverKey(base)) == "image/jpeg"
  {
    var stem := base + "_cover";
    assert "_cover.jpg" == "_cover" + ['.'] + "jpg";
    assert CoverKey(base) == stem + ['.'] + "jpg";
    JpgSuffix(stem);
  }

  lemma JpgSuffix(stem: string)
    requires stem != []
    ensures ContentType(stem + ['.'] + "jpg") == "image/jpeg"
  {
    ContentTypeOfSuffix(stem, "jpg");
    LowerNoCapitals("jpg");
    assert ['.'] + Lower("jpg") == ".jpg";
    JpgEntry();
  }

  lemma Mp3Entry()
    ensures TypeOfExt(".mp3") == "audio/mpeg"
  {
    var k := ".mp3";
    assert k[1] == 'm' && k[2] == 'p';
    assert k != ".wav" && k != ".flac" && k != ".m4a" && k != ".aac" && k != ".ogg"
        && k != ".jpg" && k != ".jpeg" && k != ".png" by {
      assert ".wav"[1] == 'w' && ".flac"[1] == 'f' && ".m4a"[2] == '4' && ".aac"[1] == 'a' && ".ogg"[1] == 'o';
      assert ".jpg"[1] == 'j' && ".jpeg"[1] == 'j' && ".png"[1] == 'p' && ".png"[2] == 'n';
    }
  }

  lemma JpgEntry()
    ensures TypeOfExt(".jpg") == "image/jpeg"
  {
    var k := ".jpg";
    assert k[1] == 'j' && |k| == 4;
    assert k != ".jpeg" && k != ".png" by {
      assert |".jpeg"| == 5 && ".png"[1] == 'p';
    }
  }

  /** What the listing endpoint makes of the published keys: every variant is
      listed, under the title `base_quality`, and no cover is listed. */
  lemma PublishedKeysInListing(base: string, quality: string)
    ensures TrackListing.IsListedAudio(VariantKey(base, quality))
    ensures TrackListing.StripExtension(VariantKey(base, quality)) == base + "_" + quality
    ensures !TrackListing.IsListedAudio(CoverKey(base))
  {
    assert VariantKey(base, quality) == (base + "_" + quality) + ".mp3";
    TrackListing.ExactAudioExtensionPasses(base + "_" + quality, ".mp3");
    assert VariantKey(base, quality) == (base + "_" + quality) + ['.'] + "mp3";
    TrackListing.StripExtensionOfSuffix(base + "_" + quality, "mp3");
    assert CoverKey(base) == (base + "_cover") + ".jpg";
    TrackListing.ImageKeyDropped(base + "_cover");
  }
}
