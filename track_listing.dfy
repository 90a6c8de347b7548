/** The track-listing endpoint: it lists the bucket, keeps the keys that look
    like audio, turns each into a track entry (title and artist parsed from
    `"Artist - Title"`), numbers the entries and sorts them by title.
    The bucket listing, `encodeURIComponent` and `localeCompare` are
    parameters: the listing result, an encoding function and a three-way
    comparison. */
module TrackListing {
  import opened Wrappers
  import opened Text
  import opened Seqs

  const AudioExtensions: seq<string> := [".mp3", ".wav", ".flac", ".m4a", ".aac", ".ogg"]

  /** An entry of `result.Contents`; only its key matters here. */
  datatype ListedObject = ListedObject(key: Option<string>)

  /** What `listObjectsV2` gives: an error, or a listing whose `Contents` may be absent. */
  datatype ListResult = ListFailed | Listed(contents: Option<seq<ListedObject>>)

  datatype TrackEntry = TrackEntry(id: nat, title: string, artist: string, filename: string, src: string)

  /** The JSON responses: the 500 error, `{tracks: []}`, or `{totalFiles, tracks}`. */
  datatype Response =
    | ServerError(status: nat, message: string)
    | NoContents
    | TrackList(totalFiles: nat, tracks: seq<TrackEntry>)

  // ---------------------------------------------------------------------------
  // Extension filter

  /** `key.toLowerCase().split('.').pop()`: the text after the last dot, or the
      whole lowered key when it has no dot. */
  function KeyExtension(key: string): string {
    Last(Split(Lower(key), "."))
  }

  /** The filter: a non-empty key passes when its extension is a SUBSTRING of one
      of the listed extensions (`audioExt.includes(ext)`), not when it equals one. */
  predicate IsListedAudio(key: string) {
    key != [] && exists e :: e in AudioExtensions && Contains(e, KeyExtension(key))
  }

  predicate Keeps(o: ListedObject) {
    o.key.Some? && IsListedAudio(o.key.value)
  }

  /** The extension is what follows the last dot of the lowered key. */
  lemma KeyExtensionAfterLastDot(key: string)
    ensures '.' !in KeyExtension(key)
    ensures var d := LastIndexOf(Lower(key), '.');
            KeyExtension(key) == Lower(key)[d + 1..]
  {
    var l := Lower(key);
    var d := LastIndexOf(l, '.');
    assert "." == ['.'];
    if d < 0 {
      SplitNoSeparator(l, '.');
      assert l[0..] == l;
    } else {
      assert l == l[..d] + ['.'] + l[d + 1..];
      SplitLast(l[..d], l[d + 1..], '.');
    }
  }

  /** Every key whose lowered extension equals a listed extension passes. */
  lemma ExactAudioExtensionPasses(stem: string, e: string)
    requires e in AudioExtensions && stem != []
    ensures IsListedAudio(stem + e)
  {
    assert "." == ['.'];
    var u := e[1..];
    assert e == ['.'] + u;
    assert '.' !in u;
    LowerNoCapitals(e);
    LowerConcat(stem, e);
    assert Lower(stem + e) == Lower(stem) + ['.'] + u;
    SplitLast(Lower(stem), u, '.');
    assert KeyExtension(stem + e) == u;
    assert e[1..1 + |u|] == u;
    ContainsAt(e, u, 1);
  }

  /** The substring test lets through names that are not audio files: a
      truncated extension (`x.mp` passes since `".mp3".includes("mp")`). */
  lemma TruncatedExtensionPasses()
    ensures IsListedAudio("x.mp")
  {
    assert "." == ['.'];
    LowerNoCapitals("x.mp");
    assert "x.mp" == "x" + ['.'] + "mp";
    SplitLast("x", "mp", '.');
    ContainsAt(".mp3", "mp", 1);
    assert ".mp3" in AudioExtensions;
  }

  /** A trailing dot leaves the empty extension, which every extension contains. */
  lemma TrailingDotPasses()
    ensures IsListedAudio("x.")
  {
    assert "." == ['.'];
    LowerNoCapitals("x.");
    assert "x." == "x" + ['.'] + "";
    SplitLast("x", "", '.');
    ContainsAt(".mp3", "", 0);
    assert ".mp3" in AudioExtensions;
  }

  /** A key without any dot is its own extension: `mp3` passes. */
  lemma ExtensionlessKeyPasses()
    ensures IsListedAudio("mp3")
  {
    assert "." == ['.'];
    LowerNoCapitals("mp3");
    SplitNoSeparator("mp3", '.');
    ContainsAt(".mp3", "mp3", 1);
    assert ".mp3" in AudioExtensions;
  }

  /** A real non-audio extension is dropped: cover images are not listed. */
  lemma ImageKeyDropped(stem: string)
    ensures !IsListedAudio(stem + ".jpg")
  {
    assert "." == ['.'];
    LowerNoCapitals(".jpg");
    LowerConcat(stem, ".jpg");
    assert Lower(stem + ".jpg") == Lower(stem) + ['.'] + "jpg";
    SplitLast(Lower(stem), "jpg", '.');
    forall e | e in AudioExtensions ensures !Contains(e, "jpg") {
      ContainsFirstChar(e, "jpg");
    }
  }

  // ---------------------------------------------------------------------------
  // Name parsing

  /** `filename.replace(/\.[^/.]+$/, '')`. */
  function StripExtension(filename: string): string {
    var d := LastIndexOf(filename, '.');
    if d >= 0 && d + 1 < |filename| && '/' !in filename[d + 1..] then filename[..d] else filename
  }

  /** The regular expression matches at `d`: a dot followed by one or more
      characters, none of them `/` or `.`, up to the end of the name. */
  predicate ExtensionMatchAt(filename: string, d: int) {
    0 <= d && d + 1 < |filename| && filename[d] == '.'
    && forall j :: d < j < |filename| ==> filename[j] != '/' && filename[j] != '.'
  }

  /** When the pattern matches, exactly the match is removed; otherwise the
      name is returned unchanged. */
  lemma StripExtensionSpec(filename: string)
    ensures (exists d :: ExtensionMatchAt(filename, d)) ==>
              ExtensionMatchAt(filename, |StripExtension(filename)|)
              && StripExtension(filename) == filename[..|StripExtension(filename)|]
    ensures !(exists d :: ExtensionMatchAt(filename, d)) ==> StripExtension(filename) == filename
  {
    var d := LastIndexOf(filename, '.');
    if exists d' :: ExtensionMatchAt(filename, d') {
      var d' :| ExtensionMatchAt(filename, d');
      MatchIsLastDot(filename, d');
      NoSlashAfter(filename, d);
    } else if d >= 0 && d + 1 < |filename| && '/' !in filename[d + 1..] {
      SlashFreeMatch(filename, d);
    }
  }

  lemma MatchIsLastDot(filename: string, d: int)
    requires ExtensionMatchAt(filename, d)
    ensures LastIndexOf(filename, '.') == d
  {
    var r := LastIndexOf(filename, '.');
  }

  lemma NoSlashAfter(filename: string, d: int)
    requires ExtensionMatchAt(filename, d)
    ensures '/' !in filename[d + 1..]
  {
    var t := filename[d + 1..];
    forall j | 0 <= j < |t| ensures t[j] != '/' {
      assert t[j] == filename[d + 1 + j];
    }
  }

  lemma SlashFreeMatch(filename: string, d: int)
    requires 0 <= d && d + 1 < |filename| && '/' !in filename[d + 1..]
    requires LastIndexOf(filename, '.') == d
    ensures ExtensionMatchAt(filename, d)
  {
    var t := filename[d + 1..];
    forall j | d < j < |filename| ensures filename[j] != '/' {
      assert filename[j] == t[j - d - 1];
    }
  }

  /** `"Artist - Title"` parsing: split on `" - "`; with more than one piece the
      first is the artist and the rest, rejoined, the title; otherwise the
      artist is `'Unknown Artist'` and the title the whole name. */
  function ParseName(name: string): (string, string) {
    var parts := Split(name, " - ");
    if |parts| > 1 then (parts[0], Join(parts[1..], " - ")) else ("Unknown Artist", name)
  }

  /** Parsing splits the name at its FIRST `" - "`: the artist is the text
      before it and the title everything after it; without one, the artist is
      the placeholder and the title the whole name. */
  lemma ParseNameSpec(name: string)
    ensures var i := IndexOf(name, " - ");
            i >= 0 ==> ParseName(name) == (name[..i], name[i + 3..])
    ensures IndexOf(name, " - ") < 0 ==> ParseName(name) == ("Unknown Artist", name)
  {
    var parts := Split(name, " - ");
    var i := IndexOf(name, " - ");
    SplitPieces(name, " - ");
    IndexOfContains(name, " - ");
    if i >= 0 {
      SplitFirst(name, " - ");
      JoinSplit(name, " - ");
      assert Join(parts, " - ") == parts[0] + " - " + Join(parts[1..], " - ");
      var title := Join(parts[1..], " - ");
      assert name == name[..i] + " - " + title;
      assert name[i + 3..] == title;
    }
  }

  /** With a separator present, artist and title rebuild the name. */
  lemma ParseNameRoundTrip(name: string)
    requires Contains(name, " - ")
    ensures ParseName(name).0 + " - " + ParseName(name).1 == name
  {
    ParseNameSpec(name);
    IndexOfContains(name, " - ");
    var i := IndexOf(name, " - ");
    var (artist, title) := ParseName(name);
    assert artist == name[..i] && title == name[i + 3..];
    Regroup(name, i, " - ");
  }

  /** Cutting a text around an occurrence of `sep` and gluing it back. */
  lemma Regroup(s: string, i: int, sep: string)
    requires OccursAt(s, sep, i)
    ensures s[..i] + sep + s[i + |sep|..] == s
  {
    assert s[i..i + |sep|] == sep;
    assert s == s[..i] + s[i..i + |sep|] + s[i + |sep|..];
  }

  // ---------------------------------------------------------------------------
  // Entries, ids and ordering

  function MakeEntry(id: nat, filename: string, encode: string -> string): TrackEntry {
    var (artist, title) := ParseName(StripExtension(filename));
    TrackEntry(id, title, artist, filename, "/api/stream/" + encode(filename))
  }

  /** The `map((obj, index) => ...)` step: entry `i` gets id `i + 1`. */
  function MakeEntries(keys: seq<string>, encode: string -> string): (r: seq<TrackEntry>)
    ensures |r| == |keys|
    ensures forall i :: 0 <= i < |keys| ==> r[i] == MakeEntry(i + 1, keys[i], encode)
  {
    seq(|keys|, i requires 0 <= i < |keys| => MakeEntry(i + 1, keys[i], encode))
  }

  /** The kept keys, in listing order. */
  function ListedKeys(objects: seq<ListedObject>): (r: seq<string>)
    ensures |r| <= |objects|
    ensures forall k :: k in r <==> ListedObject(Some(k)) in objects && IsListedAudio(k)
    decreases |objects|
  {
    if objects == [] then []
    else if Keeps(objects[0]) then [objects[0].key.value] + ListedKeys(objects[1..])
    else ListedKeys(objects[1..])
  }

  /** Insertion into a title-sorted sequence, in front of the first entry
      whose title the new one does not compare greater than. */
  function InsertByTitle(e: TrackEntry, sorted: seq<TrackEntry>, cmp: (string, string) -> int): seq<TrackEntry>
    decreases |sorted|
  {
    if sorted == [] then [e]
    else if cmp(e.title, sorted[0].title) <= 0 then [e] + sorted
    else [sorted[0]] + InsertByTitle(e, sorted[1..], cmp)
  }

  /** `sort((a, b) => a.title.localeCompare(b.title))`. */
  function SortByTitle(entries: seq<TrackEntry>, cmp: (string, string) -> int): seq<TrackEntry>
    decreases |entries|
  {
    if entries == [] then [] else InsertByTitle(entries[0], SortByTitle(entries[1..], cmp), cmp)
  }

  /** The whole endpoint. */
  function ListTracks(result: ListResult, encode: string -> string, cmp: (string, string) -> int): (r: Response)
    ensures result.ListFailed? <==> r == ServerError(500, "Failed to list tracks")
    ensures r == NoContents <==> result == Listed(None)
    ensures r.TrackList? ==> r.totalFiles == |r.tracks| && |r.tracks| == |ListedKeys(result.contents.value)|
  {
    match result
    case ListFailed => ServerError(500, "Failed to list tracks")
    case Listed(None) => NoContents
    case Listed(Some(objects)) =>
      var tracks := SortByTitle(MakeEntries(ListedKeys(objects), encode), cmp);
      SortLength(MakeEntries(ListedKeys(objects), encode), cmp);
      TrackList(|tracks|, tracks)
  }

  function Ids(entries: seq<TrackEntry>): seq<nat>
    decreases |entries|
  {
    if entries == [] then [] else [entries[0].id] + Ids(entries[1..])
  }

  /** 1, 2, ..., n. */
  function OneTo(n: nat): seq<nat>
    decreases n
  {
    if n == 0 then [] else OneTo(n - 1) + [n]
  }

  lemma {:induction false} InsertPermutes(e: TrackEntry, sorted: seq<TrackEntry>, cmp: (string, string) -> int)
    ensures multiset(InsertByTitle(e, sorted, cmp)) == multiset{e} + multiset(sorted)
    decreases |sorted|
  {
    if sorted != [] && cmp(e.title, sorted[0].title) > 0 {
      var rest := InsertByTitle(e, sorted[1..], cmp);
      InsertPermutes(e, sorted[1..], cmp);
      assert InsertByTitle(e, sorted, cmp) == [sorted[0]] + rest;
      assert multiset([sorted[0]] + rest) == multiset{sorted[0]} + multiset(rest);
      assert sorted == [sorted[0]] + sorted[1..];
      assert multiset(sorted) == multiset{sorted[0]} + multiset(sorted[1..]);
    }
  }

  lemma {:induction false} InsertIds(e: TrackEntry, sorted: seq<TrackEntry>, cmp: (string, string) -> int)
    ensures multiset(Ids(InsertByTitle(e, sorted, cmp))) == multiset{e.id} + multiset(Ids(sorted))
    decreases |sorted|
  {
    if sorted == [] {
      assert Ids([e]) == [e.id];
    } else if cmp(e.title, sorted[0].title) <= 0 {
      IdsCons(e, sorted);
    } else {
      var h, t := sorted[0], sorted[1..];
      var rest := InsertByTitle(e, t, cmp);
      InsertIds(e, t, cmp);
      assert InsertByTitle(e, sorted, cmp) == [h] + rest;
      assert sorted == [h] + t;
      IdsBehind(e, h, t, rest);
    }
  }

  /** Putting the same head before both sides keeps an equation between id
      multisets. */
  lemma IdsBehind(e: TrackEntry, h: TrackEntry, t: seq<TrackEntry>, rest: seq<TrackEntry>)
    requires multiset(Ids(rest)) == multiset{e.id} + multiset(Ids(t))
    ensures multiset(Ids([h] + rest)) == multiset{e.id} + multiset(Ids([h] + t))
  {
    IdsCons(h, rest);
    IdsCons(h, t);
    assert multiset([h.id] + Ids(rest)) == multiset{h.id} + multiset(Ids(rest));
    assert multiset([h.id] + Ids(t)) == multiset{h.id} + multiset(Ids(t));
  }

  lemma IdsCons(e: TrackEntry, entries: seq<TrackEntry>)
    ensures Ids([e] + entries) == [e.id] + Ids(entries)
  {
    assert ([e] + entries)[1..] == entries;
  }

  /** Sorting only reorders: the same entries, hence the same ids. */
  lemma {:induction false} SortPermutes(entries: seq<TrackEntry>, cmp: (string, string) -> int)
    ensures multiset(SortByTitle(entries, cmp)) == multiset(entries)
    ensures multiset(Ids(SortByTitle(entries, cmp))) == multiset(Ids(entries))
    decreases |entries|
  {
    if entries != [] {
      SortPermutes(entries[1..], cmp);
      InsertPermutes(entries[0], SortByTitle(entries[1..], cmp), cmp);
      InsertIds(entries[0], SortByTitle(entries[1..], cmp), cmp);
      IdsCons(entries[0], entries[1..]);
      assert entries == [entries[0]] + entries[1..];
    }
  }

  lemma SortLength(entries: seq<TrackEntry>, cmp: (string, string) -> int)
    ensures |SortByTitle(entries, cmp)| == |entries|
  {
    SortPermutes(entries, cmp);
    assert |multiset(SortByTitle(entries, cmp))| == |multiset(entries)|;
  }

  /** `localeCompare` as a total preorder on titles. */
  ghost predicate TotalPreorder(cmp: (string, string) -> int) {
    (forall a, b :: cmp(a, b) <= 0 || cmp(b, a) <= 0)
    && (forall a, b, c :: cmp(a, b) <= 0 && cmp(b, c) <= 0 ==> cmp(a, c) <= 0)
  }

  ghost predicate SortedByTitle(entries: seq<TrackEntry>, cmp: (string, string) -> int) {
    forall i, j :: 0 <= i < j < |entries| ==> cmp(entries[i].title, entries[j].title) <= 0
  }

  lemma {:induction false} InsertSorted(e: TrackEntry, sorted: seq<TrackEntry>, cmp: (string, string) -> int)
    requires TotalPreorder(cmp) && SortedByTitle(sorted, cmp)
    ensures SortedByTitle(InsertByTitle(e, sorted, cmp), cmp)
    decreases |sorted|
  {
    if sorted == [] {
    } else if cmp(e.title, sorted[0].title) <= 0 {
      InsertFront(e, sorted, cmp);
    } else {
      InsertSorted(e, sorted[1..], cmp);
      InsertPermutes(e, sorted[1..], cmp);
      InsertBehind(e, sorted, InsertByTitle(e, sorted[1..], cmp), cmp);
    }
  }

  lemma InsertFront(e: TrackEntry, sorted: seq<TrackEntry>, cmp: (string, string) -> int)
    requires TotalPreorder(cmp) && SortedByTitle(sorted, cmp)
    requires sorted != [] && cmp(e.title, sorted[0].title) <= 0
    ensures SortedByTitle([e] + sorted, cmp)
  {
    var r := [e] + sorted;
    forall i, j | 0 <= i < j < |r| ensures cmp(r[i].title, r[j].title) <= 0 {
      if i == 0 && j > 1 {
        assert cmp(sorted[0].title, sorted[j - 1].title) <= 0;
      }
    }
  }

  lemma InsertBehind(e: TrackEntry, sorted: seq<TrackEntry>, rest: seq<TrackEntry>, cmp: (string, string) -> int)
    requires TotalPreorder(cmp) && SortedByTitle(sorted, cmp) && SortedByTitle(rest, cmp)
    requires sorted != [] && cmp(e.title, sorted[0].title) > 0
    requires multiset(rest) == multiset{e} + multiset(sorted[1..])
    ensures SortedByTitle([sorted[0]] + rest, cmp)
  {
    assert cmp(sorted[0].title, e.title) <= 0;
    HeadBeforeRest(e, sorted, rest, cmp);
    ConsSorted(sorted[0], rest, cmp);
  }

  /** The head of `sorted` precedes every entry of `rest`, which holds `e`
      and the tail of `sorted`. */
  lemma HeadBeforeRest(e: TrackEntry, sorted: seq<TrackEntry>, rest: seq<TrackEntry>, cmp: (string, string) -> int)
    requires SortedByTitle(sorted, cmp) && sorted != [] && cmp(sorted[0].title, e.title) <= 0
    requires multiset(rest) == multiset{e} + multiset(sorted[1..])
    ensures forall j :: 0 <= j < |rest| ==> cmp(sorted[0].title, rest[j].title) <= 0
  {
    forall j | 0 <= j < |rest| ensures cmp(sorted[0].title, rest[j].title) <= 0 {
      var x := rest[j];
      assert x in multiset(rest);
      if x != e {
        assert x in multiset(sorted[1..]);
        HeadPrecedes(sorted, x, cmp);
      }
    }
  }

  lemma ConsSorted(h: TrackEntry, rest: seq<TrackEntry>, cmp: (string, string) -> int)
    requires SortedByTitle(rest, cmp)
    requires forall j :: 0 <= j < |rest| ==> cmp(h.title, rest[j].title) <= 0
    ensures SortedByTitle([h] + rest, cmp)
  {
    var r := [h] + rest;
    forall i, j | 0 <= i < j < |r| ensures cmp(r[i].title, r[j].title) <= 0 {
      if i == 0 {
        assert r[j] == rest[j - 1];
      } else {
        assert r[i] == rest[i - 1] && r[j] == rest[j - 1];
      }
    }
  }

  lemma HeadPrecedes(sorted: seq<TrackEntry>, x: TrackEntry, cmp: (string, string) -> int)
    requires SortedByTitle(sorted, cmp) && sorted != [] && x in sorted[1..]
    ensures cmp(sorted[0].title, x.title) <= 0
  {
    var k :| 0 <= k < |sorted[1..]| && sorted[1..][k] == x;
    assert sorted[k + 1] == x;
  }

  /** For a comparison that is a total preorder the result is sorted by title. */
  lemma {:induction false} SortSorts(entries: seq<TrackEntry>, cmp: (string, string) -> int)
    requires TotalPreorder(cmp)
    ensures SortedByTitle(SortByTitle(entries, cmp), cmp)
    decreases |entries|
  {
    if entries != [] {
      SortSorts(entries[1..], cmp);
      InsertSorted(entries[0], SortByTitle(entries[1..], cmp), cmp);
    }
  }

  lemma {:induction false} IdsOfEntries(keys: seq<string>, encode: string -> string)
    ensures Ids(MakeEntries(keys, encode)) == OneTo(|keys|)
  {
    var entries := MakeEntries(keys, encode);
    IdsIndex(entries);
    OneToIndex(|keys|);
    forall i | 0 <= i < |keys| ensures Ids(entries)[i] == OneTo(|keys|)[i] {
      assert entries[i].id == i + 1;
    }
  }

  /** The ids, position by position. */
  lemma {:induction false} IdsIndex(entries: seq<TrackEntry>)
    ensures |Ids(entries)| == |entries|
    ensures forall i :: 0 <= i < |entries| ==> Ids(entries)[i] == entries[i].id
    decreases |entries|
  {
    if entries != [] {
      IdsIndex(entries[1..]);
    }
  }

  lemma {:induction false} OneToIndex(n: nat)
    ensures |OneTo(n)| == n
    ensures forall i :: 0 <= i < n ==> OneTo(n)[i] == i + 1
    decreases n
  {
    if n > 0 {
      OneToIndex(n - 1);
    }
  }

  /** The listing response: one entry per kept key; the ids are a permutation
      of 1..k, assigned in listing order BEFORE the sort; every entry's file
      name is a kept key, with title and artist parsed from it; and for a total
      preorder the entries are sorted by title. */
  lemma ListTracksSpec(objects: seq<ListedObject>, encode: string -> string, cmp: (string, string) -> int)
    ensures var r := ListTracks(Listed(Some(objects)), encode, cmp);
            && r.TrackList?
            && multiset(Ids(r.tracks)) == multiset(OneTo(|ListedKeys(objects)|))
            && (forall t :: t in r.tracks ==>
                  t.filename in ListedKeys(objects)
                  && (t.artist, t.title) == ParseName(StripExtension(t.filename))
                  && t.src == "/api/stream/" + encode(t.filename))
            && (TotalPreorder(cmp) ==> SortedByTitle(r.tracks, cmp))
  {
    var keys := ListedKeys(objects);
    var entries := MakeEntries(keys, encode);
    var r := ListTracks(Listed(Some(objects)), encode, cmp);
    SortPermutes(entries, cmp);
    IdsOfEntries(keys, encode);
    forall t | t in r.tracks
      ensures t.filename in keys && (t.artist, t.title) == ParseName(StripExtension(t.filename))
              && t.src == "/api/stream/" + encode(t.filename)
    {
      assert t in multiset(entries);
      var i :| 0 <= i < |entries| && entries[i] == t;
    }
    if TotalPreorder(cmp) {
      SortSorts(entries, cmp);
    }
  }

  /** Removing an audio extension: a stem followed by a dot and a non-empty
      tail with no dot and no slash loses exactly that suffix. */
  lemma StripExtensionOfSuffix(stem: string, tail: string)
    requires tail != [] && '.' !in tail && '/' !in tail
    ensures StripExtension(stem + ['.'] + tail) == stem
  {
    var f := stem + ['.'] + tail;
    var d := LastIndexOf(f, '.');
    assert f[|stem|] == '.';
    assert forall j :: |stem| < j < |f| ==> f[j] == tail[j - |stem| - 1];
    assert d == |stem|;
    assert f[d + 1..] == tail;
    assert f[..d] == stem;
  }

  /** A name without `" - "` parses to the placeholder artist. */
  lemma ParseNameWithoutSeparator(name: string)
    requires !Contains(name, " - ")
    ensures ParseName(name) == ("Unknown Artist", name)
  {
    SplitPieces(name, " - ");
  }

  /** A comparison on titles for the example below: `"a"` first. */
  function ExampleCompare(x: string, y: string): int {
    if x == y then 0 else if x == "a" then -1 else 1
  }

  const ExampleListing: seq<ListedObject> := [ListedObject(Some("b.mp3")), ListedObject(Some("a.mp3"))]

  lemma ExampleKeys()
    ensures ListedKeys(ExampleListing) == ["b.mp3", "a.mp3"]
  {
    ExactAudioExtensionPasses("b", ".mp3");
    ExactAudioExtensionPasses("a", ".mp3");
    assert "b.mp3" == "b" + ".mp3" && "a.mp3" == "a" + ".mp3";
    assert ExampleListing[1..][1..] == [];
  }

  lemma ExampleEntries(encode: string -> string)
    ensures var e := MakeEntries(["b.mp3", "a.mp3"], encode);
            |e| == 2 && e[0].id == 1 && e[0].title == "b" && e[1].id == 2 && e[1].title == "a"
  {
    assert "b.mp3" == "b" + ['.'] + "mp3" && "a.mp3" == "a" + ['.'] + "mp3";
    StripExtensionOfSuffix("b", "mp3");
    StripExtensionOfSuffix("a", "mp3");
    ParseNameWithoutSeparator("b");
    ParseNameWithoutSeparator("a");
  }

  /** Sorting the two example entries puts `a` first. */
  lemma ExampleSort(e0: TrackEntry, e1: TrackEntry)
    requires e0.title == "b" && e1.title == "a"
    ensures SortByTitle([e0, e1], ExampleCompare) == [e1, e0]
  {
    assert [e0, e1][1..] == [e1] && [e1][1..] == [];
    assert SortByTitle([e1], ExampleCompare) == [e1];
    assert ExampleCompare(e0.title, e1.title) == 1;
    assert InsertByTitle(e0, [e1], ExampleCompare) == [e1] + InsertByTitle(e0, [], ExampleCompare);
  }

  /** The response to a listing with contents, spelled out. */
  lemma ListTracksListed(objects: seq<ListedObject>, encode: string -> string, cmp: (string, string) -> int)
    ensures ListTracks(Listed(Some(objects)), encode, cmp).tracks == SortByTitle(MakeEntries(ListedKeys(objects), encode), cmp)
  {
  }

  /** Ids follow listing order, not title order: for keys listed as `b.mp3`
      then `a.mp3`, the response lists `a` (id 2) before `b` (id 1). */
  lemma IdsNotAscending(encode: string -> string)
    ensures var r := ListTracks(Listed(Some(ExampleListing)), encode, ExampleCompare);
            r.TrackList? && Ids(r.tracks) == [2, 1]
  {
    ExampleKeys();
    ListTracksListed(ExampleListing, encode, ExampleCompare);
    var entries := MakeEntries(["b.mp3", "a.mp3"], encode);
    ExampleEntries(encode);
    var e0, e1 := entries[0], entries[1];
    assert entries == [e0, e1];
    ExampleSort(e0, e1);
    var r := ListTracks(Listed(Some(ExampleListing)), encode, ExampleCompare);
    assert r.tracks == [e1, e0];
    TwoIds(e1, e0);
  }

  lemma TwoIds(a: TrackEntry, b: TrackEntry)
    ensures Ids([a, b]) == [a.id, b.id]
  {
    assert [a, b] == [a] + [b] && [b] == [b] + [];
    IdsCons(a, [b]);
    IdsCons(b, []);
  }
}
