# Music sync and player core, modelled in Dafny

This project models the core logic of a small music system:

- **The sync tool** (`external-scripts/music-sync.js`). It takes the audio files in an input directory. It reads their tags, saves the cover art, and encodes each file at every configured quality (`low` 64k, `medium` 128k). Each encoded variant and each cover is published to an R2 bucket, with an existence check before every upload. Finally it writes a `tracks.json` manifest of the files that succeeded.
- **The track-listing endpoint** (`src/app/api/tracks/route.ts`). It lists the bucket, keeps keys that look like audio, parses `"Artist - Title"` names, numbers the entries and sorts them by title.
- **The player's transport rules** (`src/app/page.tsx`). These are play/pause, next/prev, loop and shuffle, the track-ended rule, the `canplay` gate on the latest request, the placeholder track and `formatTime`.
- **The `.env` generator** (`external-scripts/sync-env.js`). It filters the lines of `env.txt`.

The outside world is modelled as values and fixed oracles:

- The converted-output directory is a set of file names. The cover-art directory is a map, and the encoder runs form a log (`LocalDisk.Disk`).
- The bucket is a map from key to content type plus a log of upload requests (`ObjectStore.Bucket`).
- Oracles are constants of those objects:
  - which encoder runs fail;
  - which cover writes fail;
  - what the tag parser reports;
  - which HEAD requests fail with which status;
  - which uploads fail.
- The stateful code is written as methods that change these objects: `convertAudio`, `processAudioFile`, `main`, and the player's handlers. Each method is proved equal to a pure function of the old state (`Transcode.ConvRun`, `Publisher.Process`, `SyncDriver.Sync`, `Player.Ended`, …). The properties the code promises are then proved as lemmas about those functions.

Modules follow the program:

- `Wrappers`, `Seqs`, `Text`: Option/Result types, order-preserving filtering, and the JavaScript string operations used (toLowerCase, trim, split, join, includes, number-to-string).
- `MediaPaths`: `path.extname`, input discovery, content types, object keys.
- `Metadata`: tag extraction with its fallbacks.
- `ObjectStore`: HEAD and upload, and how a run may change the bucket.
- `LocalDisk`: the local directories and the encoder.
- `Transcode`, `Publisher`, `SyncDriver`: `convertAudio`, `processAudioFile`, the loop in `main`.
- `TracksJson`: the processed-track record and `generateTracksJson`.
- `TrackListing`: the listing endpoint.
- `Player`: the player rules.
- `EnvSync`: the `.env` generator.

Behaviour kept as the code has it:

- **Existence checks abort the file.** `fileExistsInR2` rethrows every status other than 404 (music-sync.js:210-215). The error passes through `processAudioFile`, so `main` drops that file (360-366): `Publisher.ProcessFails`, `SyncDriver.RunStepFails`.
- **An input path that cannot be listed ends the run.** `readdirSync` throws (music-sync.js:64), `main` rejects, and the handler at 384-387 exits with code 1 before anything is written: the `ListingFailed` outcome.
- **The listing's extension filter uses substring containment.** So `x.mp`, `x.` and the dot-less `mp3` pass.
- **The listing's ids need not ascend.** Ids are assigned before the sort by title, so the returned ids can be out of order.
- **Genre from an empty list.** A tag result whose genre list is empty gives an undefined genre, not `Unknown Genre`.
- **The `.env` count.** It reports 1 when no line is kept.

## Model

| member | source | states |
|---|---|---|
| MediaPaths.ExtName | external-scripts/music-sync.js:66 | `path.extname` of a base name is empty or a dot followed by dot-free text, and is a suffix of the name |
| MediaPaths.Stem | external-scripts/music-sync.js:255 | the base name (`path.parse(f).name`) followed by the extension is the file name |
| MediaPaths.ExtNameOfSuffix | external-scripts/music-sync.js:66 | for `stem.tail` with a non-empty stem and a dot-free tail, the extension is `.tail` and the base name is `stem` |
| MediaPaths.HiddenNameHasNoExtension | external-scripts/music-sync.js:66 | a name whose only dot is its first character has no extension |
| MediaPaths.GetAudioFiles | external-scripts/music-sync.js:59-69 | a missing directory gives no files; a path that cannot be listed is an error (`readdirSync` throws), and only that; otherwise exactly the entries whose lowercased extension is one of the six audio extensions, in directory order (a subsequence) |
| MediaPaths.IsAudioFileOfSuffix | external-scripts/music-sync.js:65-68 | `stem.tail` is an audio file iff `.` plus the lowercased tail is a listed extension |
| MediaPaths.DiscoveryExamples | external-scripts/music-sync.js:65-68 | `Song.MP3` is discovered, the dot-file `.mp3` is not |
| MediaPaths.ContentTypeOfSuffix | external-scripts/music-sync.js:186-200 | the content type is the table entry of the lowercased extension, else `audio/mpeg` |
| MediaPaths.ContentTypeIgnoresCase | external-scripts/music-sync.js:187 | the extension's case does not change the content type |
| MediaPaths.ContentTypeExamples | external-scripts/music-sync.js:186-200 | `.FLAC` maps to `audio/flac`; an unlisted extension and no extension map to `audio/mpeg` |
| MediaPaths.NoExtensionIsDefault | external-scripts/music-sync.js:199 | a dot-free name gets `audio/mpeg` |
| MediaPaths.VariantKeyInjective | external-scripts/music-sync.js:124 | `${base}_${quality}.mp3` determines the base for a quality and the quality for a base |
| MediaPaths.VariantKeyDeterminesBase | external-scripts/music-sync.js:124 | two bases with the same variant key for one quality are equal |
| MediaPaths.VariantKeyDeterminesQuality | external-scripts/music-sync.js:124 | two qualities with the same variant key for one base are equal |
| MediaPaths.CoverKeyNotVariant | external-scripts/music-sync.js:106 | a cover key `${base}_cover.jpg` is never a variant key |
| MediaPaths.KeyContentTypes | external-scripts/music-sync.js:156 | variants are uploaded as `audio/mpeg`, covers as `image/jpeg` |
| MediaPaths.PublishedKeysInListing | src/app/api/tracks/route.ts:31-38 | a published variant is listed by the endpoint with its `.mp3` stripped; a cover key is not listed |
| Metadata.OrElse | external-scripts/music-sync.js:76-78 | `tag \|\| fallback`: a present, non-empty tag wins, otherwise the fallback |
| Metadata.ExtractMetadata | external-scripts/music-sync.js:72-94 | on parser failure, the fallback record; otherwise title as tag or base name, artist and album as tag or placeholder, year and track number passed on; genre is `Unknown Genre` when absent, the first when present, undefined for an empty list; the cover is the first picture |
| Metadata.FailureMatchesEmptyTags | external-scripts/music-sync.js:84-93 | a parser failure gives the same record as a tag set with nothing in it |
| ObjectStore.FileExists | external-scripts/music-sync.js:203-216 | true iff HEAD succeeds, false iff it fails with 404, any other status is returned as an error |
| ObjectStore.NotFoundMeansAbsent | external-scripts/music-sync.js:210-214 | with no HEAD fault of 404, "false" means absent and unfaulted, an error means faulted |
| ObjectStore.ExtendsTrans | external-scripts/music-sync.js:276-298 | two runs that each only extend the bucket compose into one |
| ObjectStore.PutExtends | external-scripts/music-sync.js:153-183 | an upload of an absent key extends the bucket |
| ObjectStore.AtMostOneSuccessfulPut | external-scripts/music-sync.js:276-315 | in an extension, successful uploads have distinct keys, none for a key already there, and each is stored |
| ObjectStore.Bucket.FileExistsInR2 | external-scripts/music-sync.js:203-216 | answers as `FileExists` on the current objects |
| ObjectStore.Bucket.UploadToR2 | external-scripts/music-sync.js:153-183 | appends a public-read request with the key's content type; on success stores the object and returns `location/key` |
| LocalDisk.SaveCover | external-scripts/music-sync.js:98-116 | saves under `${base}_cover.jpg` and returns that name, or returns null and leaves the covers unchanged when the write fails |
| LocalDisk.Disk.ParseFile | external-scripts/music-sync.js:74 | the parser's answer for the file, or failure |
| LocalDisk.Disk.RunEncoder | external-scripts/music-sync.js:135-136 | logs the encoder run; on success the output exists |
| LocalDisk.Disk.SaveCoverArt | external-scripts/music-sync.js:98-116 | changes the covers as `SaveCover`, nothing else |
| LocalDisk.Disk.WriteManifest | external-scripts/music-sync.js:248 | writes `tracks.json` unless the write fails |
| Transcode.ConvertAudio | external-scripts/music-sync.js:119-150 | results, outputs and encoder log are those of the per-quality fold over `{low, medium}`; covers and manifest untouched |
| Transcode.QualitiesDistinct | external-scripts/music-sync.js:31-34 | the configured quality names are distinct and are exactly `low`, `medium` |
| Transcode.ConvRunKeys | external-scripts/music-sync.js:123 | one result per configured quality |
| Transcode.ConvStepKeys | external-scripts/music-sync.js:123-146 | each quality's iteration records a result under its own name |
| Transcode.ConvStepResult | external-scripts/music-sync.js:123-146 | an iteration's result is decided by whether its output file existed at the start |
| Transcode.ConvRunResults | external-scripts/music-sync.js:123-146 | each quality's result is decided by the initial outputs alone: skipped if its key existed, an error if the encoder fails, otherwise converted; one failure does not affect the others |
| Transcode.ConvRunEffects | external-scripts/music-sync.js:128-146 | the run creates exactly the converted keys and makes exactly the encoder calls for absent outputs |
| Transcode.EncoderCallsSpec | external-scripts/music-sync.js:128-136 | the encoder never runs for an existing output and runs once for each absent one |
| Transcode.CreatedKeys | external-scripts/music-sync.js:124 | every created file is a variant key of a quality |
| Transcode.NotCreatedBefore | external-scripts/music-sync.js:124 | a quality's key is not created by another quality |
| Publisher.ProcessAudioFile | external-scripts/music-sync.js:254-323 | the disk, the bucket and the result are those of `Process`: tags, cover, conversion, upload loop, cover upload, abort on a failed check |
| Publisher.UploadVariants | external-scripts/music-sync.js:277-298 | the upload loop changes the bucket and yields the outcomes and the abort status exactly as `PubRun` over the configured qualities |
| Publisher.UploadCover | external-scripts/music-sync.js:300-315 | the cover check and upload change the bucket as `CoverStep`, keeping the recorded outcomes |
| Publisher.PubRunStops | external-scripts/music-sync.js:281 | after a rethrown check error no further step happens |
| Publisher.ConvertedResults | external-scripts/music-sync.js:123-146 | the results the upload loop sees are the per-quality outcomes and name their variant keys |
| Publisher.PubStepExtends | external-scripts/music-sync.js:280-297 | one upload-loop step extends the bucket |
| Publisher.PubRunExtends | external-scripts/music-sync.js:277-298 | the upload loop extends the bucket |
| Publisher.CoverStepExtends | external-scripts/music-sync.js:300-315 | the cover step extends the bucket |
| Publisher.PubRunObjects | external-scripts/music-sync.js:277-298 | the loop only adds objects, and only under its qualities' variant keys |
| Publisher.OtherKeysUntouched | external-scripts/music-sync.js:277-298 | a key that is not one of the loop's variants is present after it iff before |
| Publisher.PubStepOutcome | external-scripts/music-sync.js:280-297 | an existing variant is recorded with `publicUrl/key` and not uploaded; an absent one is uploaded once and recorded with the upload's outcome |
| Publisher.PubRunUploadKeys | external-scripts/music-sync.js:277 | outcomes are recorded only under quality names |
| Publisher.LastKeyUntouched | external-scripts/music-sync.js:280 | a variant's existence is checked against the bucket as it was before the file |
| Publisher.PubRunPuts | external-scripts/music-sync.js:277-298 | the upload log grows by exactly one request per converted variant absent before the file, in order |
| Publisher.PubRunOutcomes | external-scripts/music-sync.js:277-298 | an errored variant gets no outcome and no upload; a converted one gets the expected outcome |
| Publisher.PubRunFails | external-scripts/music-sync.js:280 | the loop aborts iff a converted variant's check fails |
| Publisher.VariantChecksFail | external-scripts/music-sync.js:277-298 | a file's upload loop aborts iff the check of one of its converted variant keys fails |
| Publisher.PubStepPuts | external-scripts/music-sync.js:280-297 | one loop step appends exactly the upload request for its variant when absent before the file, and none otherwise |
| Publisher.ProcessExtends | external-scripts/music-sync.js:254-323 | processing a file never requests a key already in the bucket and uploads each key at most once successfully |
| Publisher.ProcessFails | external-scripts/music-sync.js:277-315 | a file fails iff the check of one of its converted variants or of its saved cover fails |
| Publisher.ProcessOutcomes | external-scripts/music-sync.js:277-322 | a successful file records, per quality, nothing for a failed conversion, the public URL for an existing variant, the upload's outcome otherwise |
| Publisher.ProcessPuts | external-scripts/music-sync.js:277-315 | a successful file makes exactly the variant uploads for absent keys, then the cover upload only if the cover was saved and absent |
| Publisher.ProcessDisk | external-scripts/music-sync.js:255-270 | the outputs and encoder log grow as the conversion says; `tracks.json` is untouched; the record carries the base name |
| TracksJson.StreamUrl | external-scripts/music-sync.js:222 | medium's URL if truthy, else low's, else high's, else null; never a falsy URL |
| TracksJson.BuildManifest | external-scripts/music-sync.js:219-251 | one entry per track in order, ids 1..n, `totalTracks` is n; each entry carries the track's title, artist, album, genre, year, track number, file name and cover, the `low`/`medium`/`high` URLs as each quality's `?.url`, and the stream URL chosen by `StreamUrl` |
| TracksJson.ManifestIdsIncreasing | external-scripts/music-sync.js:224 | manifest ids strictly increase |
| TracksJson.StreamUrlWithoutHigh | external-scripts/music-sync.js:222 | with only `low` and `medium` configured there is no `high` URL and the stream URL falls back medium to low |
| TracksJson.FailedMediumFallsBackToLow | external-scripts/music-sync.js:222 | a failed medium upload leaves no URL, so the low URL streams |
| SyncDriver.RunSync | external-scripts/music-sync.js:326-387 | the disk, bucket and outcome are those of `Sync`: stop without the encoder, on an input path that cannot be listed, or without audio files; process each file; write the manifest iff a track succeeded |
| SyncDriver.ProcessFiles | external-scripts/music-sync.js:358-367 | the loop over the audio files changes disk and bucket and collects tracks and failures exactly as `RunFiles` |
| SyncDriver.RunStepAccounts | external-scripts/music-sync.js:359-366 | the file goes to the failures iff its processing fails; on success exactly its track (carrying its base name) is appended and the failures are unchanged; on failure the tracks are unchanged; later files see the disk and bucket this file left |
| SyncDriver.RunStepFails | external-scripts/music-sync.js:359-366 | the file goes to the failures iff the existence check of one of its checked keys (converted variants, saved cover) fails |
| SyncDriver.RunFilesAccounts | external-scripts/music-sync.js:358-367 | the tracks are exactly the records of the files whose processing succeeded, and the failures exactly the files whose processing failed, both in input order (`Results`); every file is one or the other; each track carries an input's base name |
| SyncDriver.TrackNamesGrow | external-scripts/music-sync.js:359-366 | adding at most one track named after the newest file keeps every track named after an input file |
| SyncDriver.RunFilesExtends | external-scripts/music-sync.js:358-367 | across all files the bucket only extends: at most one successful upload per key per run |
| SyncDriver.RunFilesKeepsManifest | external-scripts/music-sync.js:358-367 | the loop never writes `tracks.json` |
| SyncDriver.SyncManifest | external-scripts/music-sync.js:370-372 | `tracks.json` holds the manifest of the tracks iff the run completed with at least one; otherwise it is unchanged |
| SyncDriver.SyncOutcomes | external-scripts/music-sync.js:330-387 | no encoder, an unlistable input path or no audio files leave everything untouched, each exactly in its case; a write failure needs tracks |
| SyncDriver.SyncTracks | external-scripts/music-sync.js:358-367 | a run that gets through the files reports the records of the successful files and the failing files, in input order, and accounts for every file |
| SyncDriver.SyncExtends | external-scripts/music-sync.js:326-382 | the bucket after a run extends the bucket before it |
| SyncDriver.RerunUploadsNothingTwice | external-scripts/music-sync.js:280-288 | a later run never re-requests a key an earlier run uploaded successfully |
| TrackListing.KeyExtensionAfterLastDot | src/app/api/tracks/route.ts:33 | the key's extension is the dot-free text after the last dot of the lowercased key |
| TrackListing.ExactAudioExtensionPasses | src/app/api/tracks/route.ts:33-34 | a key ending in a listed extension passes |
| TrackListing.TruncatedExtensionPasses | src/app/api/tracks/route.ts:34 | `x.mp` passes, as `.mp3` contains `mp` |
| TrackListing.TrailingDotPasses | src/app/api/tracks/route.ts:34 | `x.` passes, as every extension contains the empty string |
| TrackListing.ExtensionlessKeyPasses | src/app/api/tracks/route.ts:33-34 | a dot-free key `mp3` passes, its whole name being its extension |
| TrackListing.ImageKeyDropped | src/app/api/tracks/route.ts:33-34 | a `.jpg` key is dropped |
| TrackListing.StripExtensionSpec | src/app/api/tracks/route.ts:38 | removes exactly the final `.ext` when one exists whose text has no `/` or `.`; otherwise returns the name unchanged |
| TrackListing.MatchIsLastDot | src/app/api/tracks/route.ts:38 | a strippable extension starts at the last dot |
| TrackListing.NoSlashAfter | src/app/api/tracks/route.ts:38 | a strippable extension has no `/` |
| TrackListing.SlashFreeMatch | src/app/api/tracks/route.ts:38 | a non-empty, slash-free text after the last dot is strippable |
| TrackListing.StripExtensionOfSuffix | src/app/api/tracks/route.ts:38 | `stem.tail` with a non-empty tail free of `.` and `/` strips to `stem` |
| TrackListing.ParseNameSpec | src/app/api/tracks/route.ts:42-44 | with a `" - "`, the artist is before the first one and the title is the rest; otherwise the artist is `Unknown Artist` and the title is the whole name |
| TrackListing.ParseNameRoundTrip | src/app/api/tracks/route.ts:42-44 | with a separator, artist, `" - "` and title rebuild the name |
| TrackListing.ParseNameWithoutSeparator | src/app/api/tracks/route.ts:43-44 | without a separator, `Unknown Artist` and the whole name |
| TrackListing.MakeEntries | src/app/api/tracks/route.ts:36-54 | one entry per kept key, in order, with id i+1 |
| TrackListing.ListedKeys | src/app/api/tracks/route.ts:31-35 | exactly the present keys that pass the filter (membership both ways) |
| TrackListing.ListTracks | src/app/api/tracks/route.ts:21-69 | a listing failure is the 500 error; absent `Contents` is `{tracks: []}`; otherwise `totalFiles` is the number of tracks, one per kept key |
| TrackListing.InsertPermutes | src/app/api/tracks/route.ts:56 | inserting into the sorted prefix loses and adds no entry |
| TrackListing.InsertIds | src/app/api/tracks/route.ts:56 | inserting keeps the multiset of ids |
| TrackListing.SortPermutes | src/app/api/tracks/route.ts:56 | the sort is a permutation of entries and of ids |
| TrackListing.SortLength | src/app/api/tracks/route.ts:56 | the sort keeps the length |
| TrackListing.InsertSorted | src/app/api/tracks/route.ts:56 | inserting into a sorted list keeps it sorted under a total preorder |
| TrackListing.InsertFront | src/app/api/tracks/route.ts:56 | an entry not after the head can go in front |
| TrackListing.InsertBehind | src/app/api/tracks/route.ts:56 | an entry after the head goes behind it |
| TrackListing.HeadPrecedes | src/app/api/tracks/route.ts:56 | the head of a sorted list precedes every later entry |
| TrackListing.SortSorts | src/app/api/tracks/route.ts:56 | under a total preorder the result is sorted by title |
| TrackListing.IdsOfEntries | src/app/api/tracks/route.ts:36-47 | ids before the sort are 1..k |
| TrackListing.ListTracksSpec | src/app/api/tracks/route.ts:30-61 | ids are a permutation of 1..k; each track comes from a kept key, with artist and title parsed from its stripped name and `src` its stream path; sorted by title |
| TrackListing.ExampleKeys | src/app/api/tracks/route.ts:31-35 | the listing `b.mp3`, `a.mp3` keeps both, in order |
| TrackListing.ExampleEntries | src/app/api/tracks/route.ts:36-54 | they get ids 1 and 2 and titles `b`, `a` |
| TrackListing.IdsNotAscending | src/app/api/tracks/route.ts:36-56 | after the sort their ids are 2, 1: ids need not ascend |
| EnvSync.SyncEnvFile | external-scripts/sync-env.js:8-40 | a missing `env.txt` skips; a failed read or write fails; otherwise the filtered text is written and its line count reported |
| EnvSync.KeepLineIff | external-scripts/sync-env.js:22-25 | a line is kept iff its first non-whitespace character exists and is not `#`, and it contains `=` |
| EnvSync.KeptLinesSpec | external-scripts/sync-env.js:20-25 | kept lines are exactly the input lines passing the test, in order (a subsequence) |
| EnvSync.KeptLinesNewlineFree | external-scripts/sync-env.js:21 | kept lines hold no newline |
| EnvSync.WrittenLines | external-scripts/sync-env.js:20-26 | splitting the written text gives back the kept lines untrimmed, or one empty line when none is kept |
| EnvSync.FilterEnvIdempotent | external-scripts/sync-env.js:20-26 | filtering the written text again writes the same text |
| EnvSync.ReportedCountQuirk | external-scripts/sync-env.js:32 | the reported count is the number of kept lines, except 1 when none is kept |
| EnvSync.CommentOnlyReportsOne | external-scripts/sync-env.js:20-32 | a comment-only `env.txt` writes an empty `.env` and reports 1 |
| Text.Lower | external-scripts/music-sync.js:66 | `toLowerCase` maps each character, keeping the length |
| Text.LowerIdempotent | src/app/api/tracks/route.ts:33 | lowering twice is lowering once |
| Text.TrimFacts | external-scripts/sync-env.js:23 | `trim` gives a whitespace-bounded infix of the line |
| Text.ContainsIff | src/app/api/tracks/route.ts:34 | `includes` holds iff the text occurs at some position |
| Text.LastIndexOf | src/app/api/tracks/route.ts:33 | the last position of a character, or -1 |
| Text.JoinSplit | external-scripts/sync-env.js:20-26 | joining the pieces of a split with the separator gives back the text |
| Text.SplitJoin | external-scripts/sync-env.js:20-26 | splitting a join of separator-free pieces gives back the pieces |
| Text.SplitPieces | src/app/api/tracks/route.ts:42-43 | a split has more than one piece iff the separator occurs |
| Text.SplitFirst | src/app/api/tracks/route.ts:43 | the first piece is the text up to the first separator |
| Text.SplitLast | src/app/api/tracks/route.ts:33 | the last piece is the text after the last separator |
| Text.NatToStringRoundTrip | src/app/page.tsx:865 | decimal rendering is digits that read back as the number |
| Player.PickShuffleIndex | src/app/page.tsx:239-243 | the re-draw loop stops at the first draw different from the current index; with more than one track the result differs from the current index and is in range |
| Player.MusicPlayer.constructor | src/app/page.tsx:39-63 | paused at index 0, loop off, no shuffle, no tracks |
| Player.MusicPlayer.SetTracks | src/app/page.tsx:77-94 | the fetched tracks replace the list; the transport is unchanged |
| Player.MusicPlayer.HandlePlayPause | src/app/page.tsx:105-113 | the transport changes as `PlayPause` |
| Player.MusicPlayer.HandleNext | src/app/page.tsx:200-208 | the transport changes as `Next` |
| Player.MusicPlayer.HandlePrev | src/app/page.tsx:210-218 | the transport changes as `Prev` |
| Player.MusicPlayer.HandleLoopToggle | src/app/page.tsx:220-222 | only the loop mode changes, to the next in the cycle |
| Player.MusicPlayer.HandleShuffleToggle | src/app/page.tsx:223-225 | only shuffle changes, negated |
| Player.MusicPlayer.HandleEnded | src/app/page.tsx:228-260 | the transport changes as `Ended` for the given draws |
| Player.MusicPlayer.HandleCanPlay | src/app/page.tsx:268-284 | the transport changes as `CanPlay` |
| Player.MusicPlayer.HandleTrackChange | src/app/page.tsx:286-293 | a track change while playing becomes a new loading request |
| Player.PlaceholderOutOfRange | src/app/page.tsx:66-72 | an out-of-range index shows the placeholder, which has no playable source |
| Player.NextIndexSpec | src/app/page.tsx:204 | next is in range, moves one forward, and wraps from the last index to 0 |
| Player.PrevIndexSpec | src/app/page.tsx:214 | prev is in range, moves one back, and wraps from 0 to the last index |
| Player.PrevNextInverse | src/app/page.tsx:200-218 | on valid indices prev undoes next and next undoes prev |
| Player.LoopCycle | src/app/page.tsx:220-222 | off goes to all, all to one, one to off; three toggles are the identity, one or two are not |
| Player.ShuffleInvolution | src/app/page.tsx:223-225 | two shuffle toggles restore the transport, one changes it |
| Player.PlayPauseRules | src/app/page.tsx:105-113 | no change while loading or without a source; playing pauses; otherwise loading with the current index as latest request |
| Player.CanPlayGate | src/app/page.tsx:274-279 | playing afterwards iff already playing or loading the latest request of a playable track; a stale request changes nothing |
| Player.PlayThenCanPlay | src/app/page.tsx:274-279 | play on a paused playable track followed by `canplay` plays it |
| Player.StepThenCanPlay | src/app/page.tsx:200-218 | after next or prev the new track is the latest request, so its `canplay` starts it |
| Player.FirstOtherSpec | src/app/page.tsx:241-243 | when some draw differs from the current index, the chosen one is such a draw |
| Player.FirstOtherIsDraw | src/app/page.tsx:241-243 | the chosen index is the current one or one of the draws |
| Player.EndedRules | src/app/page.tsx:232-260 | loop one restarts the track; shuffle with several tracks picks a different index and plays; loop all at the end goes to 0 and plays; loop off at the end pauses in place; otherwise next |
| Player.IndexStaysValid | src/app/page.tsx:200-293 | every transition keeps a valid index valid |
| Player.SecondsField | src/app/page.tsx:864-865 | seconds below 60 are shown as two digits reading back as the value |
| Player.FormatTimeZero | src/app/page.tsx:862 | zero and NaN show as `0:00` |
| Player.FormatTimeRoundTrip | src/app/page.tsx:861-865 | a non-negative time is shown as `m:ss` that reads back as the time |
| Player.FormatTimeNegative | src/app/page.tsx:863-865 | -5 seconds shows as `-1:-5`, by floor division and sign-keeping remainder |

## Left out

- Sizes (`toFixed`, MB arithmetic) and timestamps (`Date`, `toISOString`, `uploadedAt`, `generatedAt`, the run's timing) are floating point and clock readings. They are not modelled.
- Logging (`chalk`, `console`), `process.exit` codes other than the outcome they stand for, and directory creation (`mkdirSync`) are not modelled. A `mkdirSync` that throws is not an outcome of the model.
- The encoder check (`checkFFmpeg`) is a boolean parameter. A missing encoder is the `FfmpegMissing` outcome.
- File contents are not modelled. An upload whose local file cannot be read counts as a failed upload of that key, in the service's rejected set.
- The tag parser, `listObjectsV2`, `headObject` and `upload` are oracles. So are `encodeURIComponent` (an encoding function parameter) and `localeCompare` (a comparison parameter). Sortedness is proved for any total preorder.
- MediaPaths.ExtName: models `path.extname` on base names only (directory entries). Paths containing `/` are not modelled.
- LocalDisk.Disk.RunEncoder: a failed encoder run is taken to leave no output file. In the source, `ffmpeg -y` writes the output as it goes and nothing deletes it when `execSync` throws (music-sync.js:135-146), so a partial file can remain; a later run would then mark it skipped and upload it. The model has no such state, and `Transcode.ConvertAudio`, `Transcode.ConvRunEffects` and `Publisher.ProcessDisk` rest on this assumption.
- Transcode.ConvertAudio: fixed to the configured qualities `low` and `medium`. Another configuration would only change `Qualities`.
- Metadata.ExtractMetadata: a track number of `null` and a missing one are both `None`. Tag values are taken as strings and integers as given.
- Text.Lower: lowercases ASCII letters only. Strings are sequences of characters, with no UTF-16 detail.
- Player: rendering, seeking, volume, the toast, `audio.play`/`pause` calls and event wiring are not modelled, nor is the audio position beyond its reset to 0 on loop one. `Math.random` becomes a finite stream of draws. The track-change effect is its own handler, `HandleTrackChange`.
- Player.MusicPlayer.HandleEnded: requires the stream of draws to hold an index different from the current one when shuffle would re-draw. The source's loop would otherwise not end.
- Player.FormatTime: whole seconds only. Fractional seconds and `Infinity` are not modelled.
- TrackListing.ListTracks: the `size` field and the other listing fields are not modelled. The listing's 1000-key page limit is not modelled either.
- AtMostOneSuccessfulPut and the other bucket statements assume no HEAD fault with status 404 (`ObjectStore.ValidService`): a 404 means the key is absent.
- The diagnostic scripts (`test-r2-connection.js`, `test-specific-bucket.js`, `test-key-format.js`) are not part of this model.
