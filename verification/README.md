# A verified model of climp

climp is a music player daemon. This project models its track shuffler and playlist, the player that
drives the audio engine, the reference-counted media they share, playlist files, the wire format and
the segmentation of command lines, and the directory walk of `climp-discoverer`.

Code that changes things in place is a class or a method here (`Kfy`, `TagReader`, `Playlist`,
`GstEngine`, `AudioPlayer`, `Discoverer`, the loops over arrays and buffers). Each method is proved
equal to a function on values, and what the program promises over whole runs is proved about those
functions, or kept as an invariant by every method.

| file | what it holds |
|---|---|
| `Words.dfy` | `unsigned int` and `int` arithmetic, duplicate-free sequences |
| `Shuffling.dfy`, `Kfy.dfy` | the shuffler: as functions, and as a resizable buffer that keeps its own history |
| `Uri.dfy` | the URI tests and the URI constructor |
| `PlaylistText.dfy`, `Loading.dfy` | playlist files: lines, saving, loading with every kind of failure |
| `PlaylistModel.dfy`, `BatchRemoval.dfy`, `Playlist.dfy` | the playlist: as functions, removal of several tracks, and the class |
| `Cycles.dfy` | what the removal of tracks leaves of a shuffled cycle |
| `Media.dfy`, `TagReader.dfy` | media objects, the account of their references, the pending-tag map |
| `Player.dfy`, `Session.dfy` | the engine's state, the player, whole runs of the daemon |
| `Ipc.dfy`, `ArgumentParser.dfy` | argument lists on the wire, and their segmentation into commands |
| `Discoverer.dfy` | the directory walk over one shared path buffer |

## Main results

- **The shuffle is fair.** From a fresh cycle over n tracks, the shuffler maps the admissible
  sequences of random numbers one-to-one onto the permutations of the tracks.
- **Cycles partition the tracks**, through any interleaving of draws, additions and resets, and of
  removals before the first draw of a cycle or of all tracks; the invariant is part of `Kfy.Valid`, so
  it holds of the real buffer.
- **A removal in mid-cycle can break the cycle**, because it renumbers the residue and shifts the
  tracks. Exactly when is stated for the tracks: the rest of the cycle repeats no drawn track if and
  only if each one that is left ends up at or above the shortened residue, and skips no other track if
  and only if each of those ends up below it. Removing a track that was drawn already, such as the one
  that plays, always skips another, unless the cycle is finished. From a whole cycle, what is left
  brings exactly the tracks not drawn if and only if there are none, or no drawn track was removed and
  none is repeated; then the cycle is whole again. This is proved for one removal and for any batch; for
  a load that is rolled back, repeating none and skipping none coincide. The assumptions (no track comes
  twice, drawn and remaining positions partition the tracks) hold in every state the daemon reaches while
  its cycle is whole.
- **Growing and shrinking cannot thrash**: at most four elements are moved per track added or removed,
  plus the initial capacity. The buffer counts what it moves.
- **Playback over whole runs**, shuffled and sequential, with and without repeat, from any point of a
  cycle and from any current index, stale ones included.
- **Removing several tracks is a filter**, except for indices in a band below `-size` that the code
  resolves twice; the band is given exactly.
- **Saving and loading**, allocations succeeding, gives the same URIs if and only if all URIs are clean:
  no newline or NUL, no white space at the ends, no leading comment sign. A URI with a leading blank
  comes back without it; one with a newline may make the whole file unreadable. A load that fails is
  rolled back.
- **What a playlist file means**, line by line: which lines are skipped, what an entry becomes, what
  ends the load.
- **Any run of commands** does to the player what a step relation on values says, in order; it has the
  playlist, the engine, the active track, the pending tags and the borrowed references.
- **References are conserved** through every operation and every failure, so each media is freed
  exactly once; the engine never plays anything but the live active track.
- **The wire format round-trips** exactly for 1 to ARG_MAX strings, and leaves the following bytes alone.
- **Segmentation of a command line** is the only lossless one that is proper.
- **The directory walk** in its shared buffer prints what a plain listing would, if and only if no
  directory that fails to open hides a wanted file, in it or behind it; pruning long paths loses nothing.

## How outside effects appear

Outcomes of allocations, of engine transitions, of the discovery of tags, of opening a file, of
`realpath` and of the random number generator are parameters, so a contract holds for all of them. The
constructors have no such parameter: they stand for initialisations that succeed (see "Left out").
`random_uint_range(0, end)` is taken to include both ends, `map_insert` to refuse a key it has, and
`path_is_absolute` to test for a leading slash; libvci is not part of this model.

The reference counts are proved against an account, the ghost object `Arena`: a multiset `held` of all
references in the process. `Balanced(arena, others)` says that every one of them is either one of
`others` or held by the object it is said of, so a method that keeps it neither leaks nor
over-releases anything.

## Model

| member | source | states |
|---|---|---|
| Shuffling.CapacityIsLeast | src/climpd/core/playlist/kfy.c:29-37 | the capacity chosen for a size is the least of 8, 16, 32, ... strictly above it, and at most twice the size once that is 8 or more |
| Shuffling.NextPow2Terminates | src/climpd/core/playlist/kfy.c:29-37 | in wrapping 32-bit arithmetic the doubling loop reaches its exit exactly for arguments below 2^31 |
| KfyBuffer.NextPow2 | src/climpd/core/playlist/kfy.c:29-37 | the loop computes that capacity without wrapping |
| Shuffling.ResetKeepsValid | src/climpd/core/playlist/kfy.c:73-93 | a reset keeps the shuffler valid, and whenever it shrinks the new capacity is below half the old one (the assertion in the code) |
| Shuffling.ResetIs | src/climpd/core/playlist/kfy.c:73-93 | a reset puts all indices back in order; from 8 tracks on the buffer is then less than four times as long as needed, and otherwise it is left alone |
| Shuffling.AddKeepsValid | src/climpd/core/playlist/kfy.c:112-146 | additions keep the residue duplicate-free and in range, and growing at least doubles the capacity (the assertion in the code) |
| Shuffling.AddIs | src/climpd/core/playlist/kfy.c:112-146 | an addition fails exactly if the buffer is too short and cannot grow; the new indices come last |
| Shuffling.AddOneMore | src/climpd/core/playlist/kfy.c:112-146 | tracks added one by one are as good as added at once |
| Shuffling.DrawKeepsValid | src/climpd/core/playlist/kfy.c:95-110 | a draw keeps the shuffler valid and yields an index of a track |
| Shuffling.DrawIs | src/climpd/core/playlist/kfy.c:95-110 | a draw from a finished cycle comes after a reset; any other leaves the buffer as long as it is |
| Shuffling.TakeOutIs | src/climpd/core/playlist/kfy.c:105-107 | the last element takes the place of the one drawn, the others stay |
| Shuffling.ChoicesOfDraws | src/climpd/core/playlist/kfy.c:95-110 | the random numbers can be read back from the order in which a pool came out |
| Shuffling.DrawsOfChoices | src/climpd/core/playlist/kfy.c:95-110 | every order of a pool comes out for the random numbers read back from it |
| Shuffling.FairShuffle | src/climpd/core/playlist/kfy.c:89-110 | running the shuffler through a fresh cycle is a bijection between admissible random numbers and permutations |
| Shuffling.CyclePartition | src/climpd/core/playlist/kfy.c:73-159 | over every run, drawn and remaining indices partition the tracks unless some, but not all, were removed after the first draw of the cycle; so a finished cycle drew each track once |
| Shuffling.PartitionSplits | src/climpd/core/playlist/kfy.c:95-110 | in a whole cycle an index is drawn if and only if it is in range and not left: the assumption of the results on removals |
| Shuffling.ReallocationIsAmortised | src/climpd/core/playlist/kfy.c:73-146 | over every run the elements moved are at most four per track added or removed plus the initial capacity |
| KfyBuffer.Kfy.constructor | src/climpd/core/playlist/kfy.c:39-65 | a new buffer is a fresh cycle over its tracks, with an empty history |
| KfyBuffer.Kfy.Reset | src/climpd/core/playlist/kfy.c:73-93 | in place, what the function on values says, and one reset step of the history whose partition and cost invariants `Valid` holds |
| KfyBuffer.Kfy.Shuffle | src/climpd/core/playlist/kfy.c:95-110 | in place: the value at the random position of the residue (or of all tracks after a finished cycle), one draw step of the history |
| KfyBuffer.Kfy.Add | src/climpd/core/playlist/kfy.c:112-146 | in place: the new indices join the residue, or nothing changes when growing fails |
| KfyBuffer.Kfy.Remove | src/climpd/core/playlist/kfy.c:148-159 | in place: the residue shrinks and becomes 0, 1, ... |
| Uris.StrStr | src/climpd/media/uri.c:62-77 | the first occurrence of a pattern, or -1 exactly if there is none |
| Uris.OkHasAuthority | src/climpd/media/uri.c:62-82 | an accepted URI contains "://", so its hierarchical part exists |
| Uris.FileUri | src/climpd/media/uri.c:40-77 | a file URI made from an absolute path is accepted and gives the path back |
| Uris.NewIsOk | src/climpd/media/uri.c:30-56 | the constructor has a result exactly if memory suffices and its argument is a URI or `realpath` answers: the argument, or the answer behind "file://"; every stored URI is accepted by the test |
| Uris.OkIs | src/climpd/media/uri.c:62-77 | the tests in terms of occurrences: http:// or https:// anywhere, or an absolute path behind the first file:// |
| Uris.HierarchicalIs | src/climpd/media/uri.c:62-66 | the hierarchical part is what follows the first "://" |
| PlaylistText.TrimLine | src/climpd/core/playlist/playlist.c:80-97 | the pointer loops over a line find the trimmed entry, or skip comments and entries shorter than two characters |
| PlaylistText.LoadsNothing | src/climpd/core/playlist/playlist.c:80-97 | a line adds nothing if and only if it is white space, a comment, or a single character in white space |
| PlaylistText.LoadSkips | src/climpd/core/playlist/playlist.c:80-97 | such a line anywhere in front of a file does not change what the rest loads as |
| PlaylistText.HeaderExample | src/climpd/core/playlist/playlist.c:86-87 | the header "#EXTM3U" is skipped |
| PlaylistText.LoadTakes | src/climpd/core/playlist/playlist.c:80-107 | any other line is its text between white space, up to a NUL: a URI stays as it is, an absolute path becomes the file URI of what `realpath` answers, anything else ends the load |
| PlaylistText.LoadLocalFile | src/climpd/core/playlist/playlist.c:99-107 | the same for a line with a clean absolute path |
| PlaylistText.LoadLastLine | src/climpd/core/playlist/playlist.c:72-95 | the last line needs no newline |
| PlaylistText.SaveIs | src/climpd/core/playlist/playlist.c:318-321 | what is saved is the URIs in order, each followed by a newline |
| PlaylistText.SaveLoadRoundTrip | src/climpd/core/playlist/playlist.c:59-108 | the text written for accepted URIs loads as the same URIs if and only if all of them are clean, whatever absolute paths `realpath` answers |
| PlaylistText.BlankIsLost | src/climpd/core/playlist/playlist.c:80-97 | an accepted URI with a blank put before it comes back without the blank |
| PlaylistText.BlankExample | src/climpd/media/uri.c:62-82 | " http://a" is accepted and does not come back |
| PlaylistText.NewlineFails | src/climpd/core/playlist/playlist.c:99-108 | a written URI of a local file with a newline whose second line is neither a path nor a URI makes the load fail |
| PlaylistText.NewlineExample | src/climpd/media/uri.c:62-82 | "file:///a\nbc" is accepted, and the playlist that holds it does not load |
| Loading.RunIsLoad | src/climpd/core/playlist/playlist.c:59-112 | with allocations succeeding, loading succeeds exactly for acceptable files and adds the URIs they name |
| Loading.RunIsPrefix | src/climpd/core/playlist/playlist.c:77-112 | whatever fails, the tracks added before are the first ones of the file, and loading succeeds exactly if they are all |
| Loading.AddedIs | src/climpd/core/playlist/playlist.c:193-244 | an entry is added exactly if every step of it succeeds |
| Loading.SavedRunRoundTrip | src/climpd/core/playlist/playlist.c:305-325 | the same if-and-only-if for the loader with all its outcomes, allocations succeeding |
| PlaylistModel.ResolveIs | src/climpd/core/playlist/playlist.c:53-57 | signed indices modulo 2^32: both ways of counting name the same track, anything else lands outside |
| PlaylistModel.NextIsValid | src/climpd/core/playlist/playlist.c:423-453 | the next index is "none" or one of a track, whatever the current index is |
| PlaylistModel.NextSetsIndex | src/climpd/core/playlist/playlist.c:423-453 | the answer becomes the current index, except at the end of a shuffled cycle; tracks and modes stay |
| PlaylistModel.StaleNext | src/climpd/core/playlist/playlist.c:441-450 | from a stale index sequential playback answers "none", or 0 with repeat |
| PlaylistModel.StaleIndex | src/climpd/core/playlist/playlist.c:342-354 | after a removal the current index still denotes its track if and only if the removed one came later |
| Cycles.BatchStaleIndex | src/climpd/core/playlist/playlist.c:356-374 | after any batch removal the current index still denotes its track if and only if every removed one came later |
| Cycles.CycleSurvives | src/climpd/core/playlist/kfy.c:148-159 | any removal from a whole cycle: if the rest skips no track that was not drawn, it repeats none; and it skips none if and only if no such track stays, or no drawn track was removed and none is repeated |
| Cycles.CycleIsWhole | src/climpd/core/playlist/kfy.c:148-159 | after any removal from a whole cycle, the new positions of the drawn tracks and the residue partition the tracks if and only if nothing is skipped; so the results apply to the next removal |
| Cycles.RemovalRepeats | src/climpd/core/playlist/playlist.c:342-354 | after the removal of a track the rest of the cycle repeats no drawn track if and only if each one left, at its shifted position, lies at or above the shortened residue, and skips no other if and only if each of those lies below it |
| Cycles.RemovingDrawnSkips | src/climpd/core/playlist/playlist.c:342-354 | removing a track that was drawn already always skips one that was not, unless the cycle is finished |
| Cycles.RemovalKeepsCycle | src/climpd/core/playlist/playlist.c:342-354 | from a whole cycle: the exact condition, in positions, under which one removal leaves just the tracks not drawn, and so a whole cycle |
| Cycles.RemovalRepeatsExample | src/climpd/core/playlist/playlist.c:342-354 | drawing and removing among three tracks: two runs that bring the drawn track again, and one whose next draw does not |
| Cycles.RemovalSkipsExample | src/climpd/core/playlist/playlist.c:342-354 | drawing and removing among three tracks: a run that ends without track 2, and one that leaves exactly the undrawn track |
| PlaylistModel.ReachableStatesAgree | src/climpd/core/playlist/playlist.c:181-226 | in every reachable state shuffler and vector agree in size, the residue is duplicate-free and in range, and the next index is sound |
| PlaylistModel.SequentialPlayback | src/climpd/core/playlist/playlist.c:441-452 | from any current index, stale ones included: with repeat the answers count modulo n, and without it they cycle through 0 to n-1 and "none" |
| PlaylistModel.StartsOver | src/climpd/core/playlist/playlist.c:124-191 | a new, a cleared and a sorted playlist have no current track and a whole cycle in order; clearing and sorting keep the modes |
| PlaylistModel.PlaybackFromStart | src/climpd/core/playlist/playlist.c:423-471 | after starting over and filling the playlist, sequential playback begins with track 0 and shuffled playback with a permutation of all tracks |
| PlaylistModel.ShuffledPlayback | src/climpd/core/playlist/playlist.c:423-439 | from any point of a cycle the answers are blocks of permutations, separated by one "none" unless repeat is on |
| BatchRemoval.NormaliseInPlace | src/climpd/core/playlist/playlist.c:363-364 | the caller's array is normalised through `unsigned int` and back |
| BatchRemoval.SortIsPermutation | src/climpd/core/playlist/playlist.c:366 | the sort is descending and a permutation |
| BatchRemoval.RemoveRestIs | src/climpd/core/playlist/playlist.c:370-373 | from any point of the loop on: the pending positions are dropped if no entry aliases, and otherwise strictly more tracks go |
| BatchRemoval.BatchRemovalIsFilter | src/climpd/core/playlist/playlist.c:356-374 | exactly the denoted positions disappear if and only if no index lies in the aliasing band; then the shuffler is as after one removal of that many |
| BatchRemoval.RemoveArrayOutcome | src/climpd/core/playlist/playlist.c:356-374 | any batch, aliasing entries included, removes a set of positions in order and leaves the shuffler as after one removal of that many |
| BatchRemoval.GoneIsDenoted | src/climpd/core/playlist/playlist.c:356-374 | that set is the denoted positions if and only if no index lies in the aliasing band |
| BatchRemoval.AliasExample | src/climpd/core/playlist/playlist.c:356-374 | with three tracks, index -4 removes the last one |
| Cycles.BatchRemovalRepeats | src/climpd/core/playlist/playlist.c:356-374 | after any batch that removes something: what the rest of the cycle repeats and what it skips, by the positions where the tracks that stay end up |
| Cycles.BatchRemovalKeepsCycle | src/climpd/core/playlist/playlist.c:356-374 | from a whole cycle: the exact condition under which any batch removal leaves just the tracks not drawn, and so a whole cycle |
| MediaObjects.New | src/climpd/media/media.c:36-72 | a new media with one reference, owned by the caller, parsed from the start exactly if it is on the web, or no change at all |
| MediaObjects.Ref | src/climpd/media/media.c:74-78 | one more reference to a live object |
| MediaObjects.Unref | src/climpd/media/media.c:80-86 | one reference less; the object is freed with the last, never before and never again |
| TagReading.TagReader.ReadAsync | src/climpd/core/playlist/tag-reader.c:223-251 | the map owns one reference more exactly if the media is filed and its discovery started |
| TagReading.TagReader.OnDiscovered | src/climpd/core/playlist/tag-reader.c:108-148 | the entry of the URI, and with it its reference, is given up; its media, and no other, becomes parsed, on success |
| TagReading.TagReader.Destroy | src/climpd/core/playlist/tag-reader.c:213-221 | all references of the map are given up and no others |
| Playlists.Playlist.constructor | src/climpd/core/playlist/playlist.c:124-170 | an empty, valid playlist that holds no reference |
| Playlists.Playlist.AddMedia | src/climpd/core/playlist/playlist.c:193-226 | a track is appended to vector and shuffler, or to neither; references are conserved on all four outcomes; unless it is parsed, it is filed for its tags |
| Playlists.Playlist.Add | src/climpd/core/playlist/playlist.c:228-244 | a track with the constructed URI is appended, exactly if all steps succeed, and the creator's reference is given up; its URI is filed for tags unless it is on the web |
| Playlists.Playlist.LoadFile | src/climpd/core/playlist/playlist.c:59-122 | all entries are added in order and filed for their tags, or everything is rolled back: tracks, index and modes as before, the shuffler with its old size and residue length, its residue renumbered exactly if a track had been added |
| Playlists.RollBackRepeats | src/climpd/core/playlist/playlist.c:114-116 | after a load that failed past its first track, the rest of the cycle avoids what was drawn if and only if all of it lies at or above the residue, and brings the others if and only if all of those lie below it |
| Playlists.RollBackKeepsCycle | src/climpd/core/playlist/playlist.c:114-116 | the two coincide if the cycle was whole before |
| Playlists.Playlist.Save | src/climpd/core/playlist/playlist.c:305-325 | the text of the stored URIs, one a line, if the file can be opened |
| Playlists.Playlist.Remove | src/climpd/core/playlist/playlist.c:342-354 | in place, the function on values; the vector's reference is given up |
| Playlists.Playlist.RemoveArray | src/climpd/core/playlist/playlist.c:356-374 | in place, the removal that `BatchRemovalIsFilter` characterises |
| Playlists.Playlist.Clear | src/climpd/core/playlist/playlist.c:181-191 | all tracks and their references go, the index becomes "none" |
| Playlists.Playlist.SetIndex | src/climpd/core/playlist/playlist.c:381-384 | the index is resolved and stored |
| Playlists.Playlist.At | src/climpd/core/playlist/playlist.c:386-401 | the track at a signed index with a reference for the caller, or none |
| Playlists.Playlist.Next | src/climpd/core/playlist/playlist.c:423-453 | in place, the function that the playback results are about |
| Playlists.Playlist.Sort | src/climpd/core/playlist/playlist.c:465-471 | any permutation of the tracks, a fresh cycle, no current index |
| Playlists.Playlist.Destroy | src/climpd/core/playlist/playlist.c:172-179 | afterwards the references left are exactly those of others |
| Players.GstEngine.SetState | src/climpd/core/audio-player/gst-engine.c:94-108 | a transition to the present state succeeds, any other as the engine decides; a failure changes nothing |
| Players.GstEngine.Pause | src/climpd/core/audio-player/gst-engine.c:275-287 | a stopped engine cannot be paused |
| Players.AudioPlayer.constructor | src/climpd/core/audio-player/audio-player.c:58-83 | a stopped player with an empty playlist that holds no reference |
| Players.AudioPlayer.ActiveIsAlive | src/climpd/core/audio-player/audio-player.c:126-163 | whenever the engine plays or is paused there is an active track, it is not freed, and its URI is the one last set |
| Players.AudioPlayer.ReferenceCount | src/climpd/media/media.c:64-86 | every count is occurrences in the vector plus pending entry plus active slot plus outside references; freed once exactly at zero |
| Players.AudioPlayer.PlayTrack | src/climpd/core/audio-player/audio-player.c:126-163 | success means that the playlist entry at the current index is the active track and plays; failure leaves track and index alone, with the engine stopped exactly if it was or could be |
| Players.AudioPlayer.PlayNext | src/climpd/core/audio-player/audio-player.c:165-181 | the end-of-stream call-back and the command: one step of the playlist, whatever the engine does; the next track plays, or at the end of the playlist the engine is left as it is; a failed start leaves the active track alone |
| Players.AudioPlayer.Play | src/climpd/core/audio-player/audio-player.c:96-114 | resumes when paused, does nothing when playing, otherwise plays the next track, with the status for each outcome and for an empty playlist |
| Players.AudioPlayer.Pause | src/climpd/core/audio-player/audio-player.c:116-119 | keeps engine and active track in agreement |
| Players.AudioPlayer.Stop | src/climpd/core/audio-player/audio-player.c:121-124 | keeps engine and active track in agreement |
| Players.AudioPlayer.Destroy | src/climpd/core/audio-player/audio-player.c:85-94 | afterwards the references left are exactly those of others |
| Sessions.Run | src/climpd/main.c:1111-1113 | every command does to playlist, engine, active track, pending tags and borrowed references what `Changes` says on values, in order and with any outcomes; references are conserved, engine and active track agree, and no media comes into the playlist twice |
| Sessions.Session | src/climpd/main.c:1111-1133 | once the daemon has shut down, every media that ever existed has been freed exactly once |
| Sessions.Reach | src/climpd/main.c:1035-1113 | the daemon from its start, after any commands: the above, and what the results on removals assume of playlist and shuffler |
| Sessions.Daemon | src/climpd/main.c:1035-1133 | the same from the creation of the player on |
| Ipc.BytesRoundTrip | src/shared/ipc.c:186-187 | an integer that fits is read back from its bytes |
| Ipc.WalkStrings | src/shared/ipc.c:239-240 | the pointer walk visits exactly the starts of the strings and ends at the end of the buffer |
| Ipc.WireRoundTrip | src/shared/ipc.c:169-243 | the receiver, memory sufficing, gets the sender's list, and leaves what follows unread, if and only if it has 1 to ARG_MAX strings; the errors otherwise |
| Ipc.WireLayout | src/shared/ipc.c:176-193 | four bytes of count, eight bytes that hold the length of the whole message, then the strings in order with their terminators |
| Ipc.ClosedEarly | src/shared/ipc.c:207-213 | a connection closed before or between the two numbers is an input error |
| Ipc.SendArgv | src/shared/ipc.c:169-199 | the two loops build the message, if the buffer can be allocated, and its declared length is the number of bytes sent |
| Ipc.RecvArgv | src/shared/ipc.c:201-243 | the reads, the checks, the allocation and the walk compute the decoding that the round trip is about |
| ArgumentParsing.Init | src/climpd/core/argument-parser.c:32-82 | succeeds exactly if no two long or short names are equal and the map has room for each; then exactly the names that are not empty are keys, each bound to the command that bears it |
| ArgumentParsing.Run | src/climpd/core/argument-parser.c:90-129 | the nested loops end with the trace of the segmentation, and the default handler, if set, gets its stray items |
| ArgumentParsing.SegmentIsProper | src/climpd/core/argument-parser.c:90-129 | the segmentation loses nothing, keeps the order, and leaves no key among a command's arguments |
| ArgumentParsing.ProperIsSegment | src/climpd/core/argument-parser.c:90-129 | any proper trace is the segmentation of what it concatenates to |
| ArgumentParsing.Segmentation | src/climpd/core/argument-parser.c:90-129 | a trace is the segmentation if and only if it concatenates to the arguments and is proper: stray items first, no key among a command's arguments |
| ArgumentParsing.StraysArePrefix | src/climpd/core/argument-parser.c:100-107 | the stray items are exactly those before the first command name |
| Discovering.Discoverer.SetUri | src/climp-discoverer/main.c:41-54 | the URI buffer holds scheme, path and name, exactly if they fit |
| Discovering.Discoverer.ScanHere | src/climp-discoverer/main.c:99-192 | the nested walk prints what the walk on values lists and leaves the caller's path in the buffer |
| Discovering.Discoverer.ScanOne | src/climp-discoverer/main.c:146-185 | one entry: the path is extended, walked and cut back; a subdirectory that fails stops the loop |
| Discovering.Discoverer.ScanPath | src/climp-discoverer/main.c:99-192 | the walk of a path from the command line, absolute or resolved |
| Discovering.NothingFits | src/climp-discoverer/main.c:163-168 | below a path that is pruned for its length no file's URI would fit |
| Discovering.ScanIsFilter | src/climp-discoverer/main.c:135-186 | the loop lists the wanted files among all files below if nothing is hidden by a directory that fails to open, and strictly fewer otherwise |
| Discovering.ListingConcat | src/climp-discoverer/main.c:135-186 | the plain listing goes through a directory in order |
| Discovering.ListingOne | src/climp-discoverer/main.c:146-185 | it names a file by its URI and a directory by its contents, and leaves out . and .. and other kinds |
| Discovering.FilterIs | src/climp-discoverer/main.c:41-54 | wanted are the playable URIs of at most 4102 characters |
| Discovering.EntersIs | src/climp-discoverer/main.c:163-168 | a subdirectory is entered exactly if its path fits |
| Discovering.ScanFails | src/climp-discoverer/main.c:99-133 | a walk fails exactly if its path is too long or its root does not open, and prints nothing then |
| Discovering.ListedUntil | src/climp-discoverer/main.c:170-182 | what comes before a subdirectory that fails is listed |
| Discovering.NothingBehind | src/climp-discoverer/main.c:170-182 | what comes behind it is not |
| Discovering.OpenIsComplete | src/climp-discoverer/main.c:163-182 | nothing is hidden when every directory the walk enters opens; those pruned or named . or .. need not |
| Discovering.WalkIsListing | src/climp-discoverer/main.c:99-192 | the walk lists exactly the playable files whose URI fits, in the order of a plain recursive listing, if and only if its root opens and no directory that fails to open hides one |
| Discovering.HiddenExample | src/climp-discoverer/main.c:170-182 | a subdirectory that fails to open hides the file behind it: nothing is printed |

## Left out

- KfyBuffer.Kfy.constructor: a random source or a buffer that cannot be made; the buffer exists only once its initialisation has succeeded.
- Playlists.Playlist.constructor: a vector, tag reader or shuffler that cannot be made; the daemon does not start then.
- Players.AudioPlayer.constructor: an engine or playlist that cannot be made; the daemon does not start then.
- Ipc.SendArgv: the transmission of the message, which may fail; it is input and output.
- KfyBuffer.Kfy.Shuffle: the quality of the random numbers; any number in range may come.
- KfyBuffer.NextPow2: sizes of 2^31 and more, for which the loop in the code does not end.
- Playlists.Playlist.AddMedia: playlists of 2^31 tracks and more, where growing the shuffler does not end. A caller other than `playlist_add` could add a media twice; the program has none.
- Playlists.Playlist.LoadFile: the file handle, which the code closes twice when a load fails (playlist.c:119 and 260); the text is given as a whole, and no more entries than 2^31 tracks allow.
- Playlists.Playlist.Sort: the order itself, which `strverscmp` decides.
- Ipc.RecvArgv: negative counts, lengths below the header, strings without terminator and reads that end early lead the code outside its buffers; they are one error here.
- Discovering.Discoverer.ScanHere: a read error ends a listing like the end of the directory, as in the code; its message is not modelled.
- GStreamer pipelines, pads, tags, pitch, speed and volume: foreign calls and floating point; only success or failure of transitions and discoveries remains.
- Sockets, descriptor passing, daemonising, signals, logging and the command line client: input and output.
- Configuration, string conversion and the printing in the command handlers: they would add only easy members.
- `playlist_index_of`, `media_path_compare` and the media loader: thin, or dependent on the file system.
- Concurrency on the reference count: one main loop drives the player.
