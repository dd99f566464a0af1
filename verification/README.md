# Solstein, verified

A Dafny model of the parts of Solstein whose correctness is decided by code
rather than by configuration: the comparison that finds the ads in a podcast
download and cuts them out, the VPN tunnels the downloads go through, the
pipeline that prepares episodes, and the order they are published in.

`dafny verify dfyconfig.toml` checks everything. Each file is one module.

**Files and frames** (`mp3/mp3.go`). `Mp3` parses a file into frames. `HeaderBits`
says what a header and the side information are as numbers spelled by the bits, read
with the project's own bit reader; `Tags` what the tags around the audio are, as they
are written; `Scanning` what the parser makes of junk, frames and half frames.

**The frame diff and the cutter** (`modules/regiondiff/diff.go`). `Runs`, `Alignment`
and `Boundaries` find what two downloads share; `Repeats` and `Markers` take repeated
ads and break markers out of it, and `CleanMarkers` says where a marker can begin and
end; `RepeatCuts` and `MarkerCuts` say of single frames and their bytes what is taken and
what is left; `Reservoir`, `FewestCarriers`, `Cut`, `Division`, `RoundTrip` and `Misread`
write the cut file and show what a player makes of it; `FrameDiff` is the whole, from two
files to the outcome, and `DiffCuts` puts its stages in seconds. `Splices` and
`InsertedAds` show that it does what it is for: of two downloads that differ at one
place, what either host inserted there is removed and nothing else. `Gaps` is the
arithmetic of what a list of runs leaves bare.
Hashes are arbitrary functions throughout: everything but `Splices` and `InsertedAds`,
which say what is found when none collide, holds under every collision. The bit
reservoir is the standard's continuous stream of main data
(ISO/IEC 11172-3, section 2.4.2.7, `main_data_begin`), over the frames of the
file; an info frame is not among them.

**The audio comparison's integer part** (`modules/regiondiff/audio.go`):
`AudioRuns`, which takes the matched runs as given, `Unmatched`, which says what its
cuts and counts come to, and `AudioCut`, which goes on to the cut file.

**The tunnels** (`modules/exits`). `Tunnels` has one tunnel's life, as a class
and as a machine in which the mutex sections of any number of goroutines
interleave; `Pools` has the pool, every method of which runs under its mutex;
`PoolRuns` takes the pool's sections apart, with its users' steps in between.

**The episode pipeline** (`episodes`, `database`, `feeds`). `Claims` is the table
and its transactions, `Flights` the single flight over every interleaving, `Served` what
comes of a request, `Writers` what else writes an episode's row, `Retries` the two retry
schedules, `Publishing` the order of publication.

**Two readers.** `Resuming` is the download that carries on where its connection
broke, `BitReader` the word-wise bit reader.

Six findings where the code does something other than one might assume:

- What a feed shows does not only grow as episodes are prepared. An episode
  standing in for an empty feed goes again when an older withheld one succeeds
  (`Publishing.StandInGivesWay`). `Publishing.ShrinksExactly` says exactly when
  something shown disappears.
- A cut file does not always parse back. `RoundTrip.CutReadsBack` says exactly
  when it does: its first frame must not look like an info frame, and if the
  file has no ID3v1 tag its last 128 bytes must not look like one.
  `Misread.KeptInfoFrame` and `Misread.KeptTagTail` say so of files of any length
  (`Misread.InfoFileExists` and `Misread.TagFileExists` make some), and
  `Misread.TailBeforeWriting` tells the second kind from the last kept frame.
- A new episode can have two claimers, by two kinds of write. Changed settings
  restart a failed episode unless it is in flight (`episodes/reconcile.go:80-92`); one
  that a worker has leased but not yet put in flight is restarted too, and may then
  be claimed as new besides (`Flights.RestartWhileLeased`). And a row saved whole
  as it was read, its state with it (`database/episode.go:117-130`), may put a
  state back that a claim has changed since: a copy cached while being streamed is
  recorded minutes after the episode was read (`episodes/serve.go:445-461`), and
  makes an episode new again that a worker has (`Writers.StreamedOverClaim`), or
  ready (`Writers.StreamedOverRestart`). Every other write is safe
  (`Writers.WritingsKeepClaims`); `Writers.RestartKeepsClaims` and
  `Writers.LateSaveKeepsClaims` say exactly when these are. The two claimers never
  prepare it at once: `Flights.OneFlightEach` holds whatever is written. Saved late as
  acquiring, an episode stays so with nobody who has it until the program starts
  again (`Writers.StreamedStrands`, `Writers.StrandedStays`).
- The audio comparison may cut what is not a long unmatched stretch: a run that
  extending has left without a step, and out of order, does not stop a cut
  (`Unmatched.EmptyRunReachesBack`). `Unmatched.CutsExactly` says exactly when the
  cuts are those stretches.
- It may also count an ad break of the other download that none of its long
  stretches bears out, where runs overlap by the slack
  (`Unmatched.OverlapIsCounted`), so that downloads it cuts nothing from are not called
  identical. `Unmatched.OwnExactly` says exactly when the sum and the number are right.
- A resumed download may go on in another file. The rest is taken if its length
  fits and its ETag is not a different one, so a file that changed is noticed when both
  answers have an ETag (`Resuming.TaggedIsSame`), and otherwise only if the source heeds
  If-Range: without one of them the rest of any file of the same length is taken
  (`Resuming.UntaggedMayChange`).

## Model

| member | source | states |
|---|---|---|
| Runs.SearchPile | modules/regiondiff/diff.go:396-405 | The binary search gives the one place in the increasing tails where the value belongs: all before it are smaller, none from it on is |
| Runs.NoLongerChain | modules/regiondiff/diff.go:392-417 | Piles of anchors bound every chain: none drawn from the anchors, rising in both downloads, is longer than there are tails |
| Runs.InOrder | modules/regiondiff/diff.go:392-417 | The anchors kept are drawn from those given, rise in both downloads when home positions are distinct, and no chain of anchors that does is longer |
| Alignment.OnceByCount | modules/regiondiff/diff.go:317-342 | Counting finds what occurs once: a value's count is 1 exactly when it is nowhere else |
| Alignment.FindAnchors | modules/regiondiff/diff.go:317-342 | The anchors are exactly the pairs of positions whose 16-frame hash occurs once in each download and is the same, in home order |
| Alignment.GrowRuns | modules/regiondiff/diff.go:344-371 | Runs grown from anchors stay ordered and disjoint in both downloads, each as long as equal hashes and the run before allow; taken in turn, an anchor gives the next run unless the runs so far cover it |
| Alignment.Align | modules/regiondiff/diff.go:317-371 | The aligned runs are those grown in turn from some longest chain of anchors, in order and disjoint in both downloads, for every hash |
| Splices.AnchorMeans | modules/regiondiff/diff.go:317-387 | Where the group hashes tell apart, an anchor is a group of sixteen frame hashes both downloads have at those positions and nowhere else |
| Splices.SharedIsFound | modules/regiondiff/diff.go:317-371 | If there is such a group, the chain and the runs are not empty |
| Splices.GrownAreEqual | modules/regiondiff/diff.go:344-371 | Along every run the two downloads' frame hashes are equal, anchor and extension alike |
| Splices.SharedExactly | modules/regiondiff/diff.go:317-371 | Two sequences spliced at one place: the runs are exactly what comes before the splice and what comes after it |
| Boundaries.Verify | modules/regiondiff/diff.go:421-436 | In place, the list becomes each run cut at its first differing byte, empty ones dropped |
| Boundaries.VerifiedIsSound | modules/regiondiff/diff.go:421-436 | Whatever the hashes said, afterwards the runs are ordered, disjoint in both downloads and byte for byte equal |
| Boundaries.ToSegmentBoundaries | modules/regiondiff/diff.go:454-487 | The run becomes the part between its first and last splice point, or is dropped, by a declarative definition of both |
| Boundaries.TrimmedEdges | modules/regiondiff/diff.go:440-487 | Each edge of a trimmed run is a splice point, or the run's own edge with no splice point within the unanchored minimum of it |
| Boundaries.TrimsUnique | modules/regiondiff/diff.go:454-487 | The definition of the trim allows one result |
| Boundaries.TrimsLittle | modules/regiondiff/diff.go:440-487 | The trim takes fewer frames off either end than count as show, none a splice point but where it cuts; a run dropped altogether has one splice point at most |
| Repeats.CollectAds | modules/regiondiff/diff.go:506-548 | The hash index holds only uncovered pieces of either download, and all of those long enough |
| Repeats.LookupIsExact | modules/regiondiff/diff.go:518-566 | Looking a piece up by hash and comparing bytes finds it exactly when it copies an uncovered stretch, for every hash |
| Repeats.RemoveRepeats | modules/regiondiff/diff.go:506-583 | What stays and what is removed is exactly what a brute-force definition says, each list in home order without overlap; what stays is still byte-equal |
| Repeats.EveryFrameAccounted | modules/regiondiff/diff.go:550-583 | Every kept frame stays, or is in a removed copy of an ad, or in a leftover shorter than the minimum |
| RepeatCuts.RemovedExactly | modules/regiondiff/diff.go:506-583 | Frames are removed as a repeat exactly when they lie in a kept run from one splice point to the next, are enough, and have the bytes of such frames of either download that no kept run reaches |
| RepeatCuts.LeftExactly | modules/regiondiff/diff.go:550-583 | What is left of a run is all of it if nothing repeats, and otherwise each part between repeats that is long enough, paired as before |
| RepeatCuts.RemovedAreGone | modules/regiondiff/diff.go:550-583 | No frame removed as a repeat is left in any run |
| Markers.FindMarkers | modules/regiondiff/diff.go:604-681 | The pieces to remove are exactly the candidates with a byte-identical candidate elsewhere, and the open edges with the bytes of one of those |
| CleanMarkers.TrimmedIsEdged | modules/regiondiff/diff.go:440-487 | Each edge of a trimmed run is a splice point, or has none within the unanchored minimum inside it, and the run is at least that long |
| CleanMarkers.UnrepeatedIsEdged | modules/regiondiff/diff.go:549-583 | Taking repeats out keeps such edges |
| CleanMarkers.CandidateIsClean | modules/regiondiff/diff.go:586-627 | At such edges a candidate shorter than the unanchored minimum starts and ends at a splice point |
| CleanMarkers.ScannedMarkersAreClean | modules/regiondiff/diff.go:586-627 | In the diff, every marker found by scanning starts and ends at a splice point |
| CleanMarkers.DurationIsShort | mp3/mp3.go:124-138 | Every frame is shorter than a marker may be |
| Markers.MarkersHaveTwins | modules/regiondiff/diff.go:629-681 | Every marker has a marker at another position as its twin |
| Markers.ConsecutiveTile | modules/regiondiff/diff.go:683-705 | Pieces cut one after another hold every frame between their ends exactly once |
| Markers.TrimRun | modules/regiondiff/diff.go:683-705 | For every order of the map, a run is tiled by markers off its front, what survives, and markers off its back, and an edge nothing is cut from has no marker at it |
| Markers.SurvivorsSound | modules/regiondiff/diff.go:683-713 | What survives of sound runs is sound: their home and other frames stay paired |
| Markers.TrimMarkers | modules/regiondiff/diff.go:604-715 | Every run is tiled by its survivor and markers by the definition above, survivors stay sound, and the markers reported are those cut, by position: what that does to frames is below |
| MarkerCuts.EveryFrameAccounted | modules/regiondiff/diff.go:683-715 | Every frame of a kept run stays, paired as it was, or is in a marker reported |
| MarkerCuts.NotBoth | modules/regiondiff/diff.go:683-715 | And not both |
| MarkerCuts.MarkersAreCopies | modules/regiondiff/diff.go:629-681 | Every marker has the bytes, frame by frame, of a marker at another position |
| MarkerCuts.LikeChimeIsMarker | modules/regiondiff/diff.go:604-681 | A chime is a short piece at an edge nothing is kept beyond, up to the nearest splice point; with another of the same bytes it is a marker, and so is whatever has its bytes at such an edge |
| MarkerCuts.MarkerIsLikeChime | modules/regiondiff/diff.go:604-681 | Nothing else is a marker |
| MarkerCuts.ChimesAreCut | modules/regiondiff/diff.go:604-715 | No such piece is left whole, and of one a run begins with the first frame goes |
| FrameDiff.Segments | modules/regiondiff/diff.go:718-739 | Kept segments are the runs' home frames; kept and removed, each in order, together tile the home file; nothing is removed exactly when the runs leave no gap |
| FrameDiff.TilesHold | modules/regiondiff/diff.go:718-739 | Every home frame is in exactly one tile |
| FrameDiff.KeptOrRemoved | modules/regiondiff/diff.go:718-739 | Every home frame is in a kept segment or in a removed one, and not both |
| FrameDiff.PartsAreSpans | modules/regiondiff/diff.go:718-739 | Every kept and removed segment has frames, and lasts what they play |
| FrameDiff.PartsPlayAll | modules/regiondiff/diff.go:718-739 | Kept and removed durations add up to the home file's |
| FrameDiff.OtherGaps | modules/regiondiff/diff.go:291-303 | The sum over the other download's gaps long enough to be ads, and their number |
| FrameDiff.OtherExtraIsUncovered | modules/regiondiff/diff.go:288-303 | That sum is what the frames last that lie in long stretches of the other download no kept run reaches into, and the number is that of those stretches, each taken as wide as it goes |
| Gaps.GapsExactly | modules/regiondiff/diff.go:291-303 | For spans that overlap their neighbours by no more than a slack, the long gaps between neighbours last at least what the steps in long bare stretches do, and number at least those stretches: exactly that if and only if every long gap is bare, exactly as many if and only if each holds one |
| FrameDiff.IdenticalMeansEqual | modules/regiondiff/diff.go:234-246 | When nothing of home is removed and as much of other is shared as there is, the two have the same frames, byte for byte |
| FrameDiff.CommonSubsequence | modules/regiondiff/diff.go:214-286 | Each kept frame equals its partner in the other download, and partners rise as the frames do |
| FrameDiff.FramesFit | modules/regiondiff/diff.go:222-227 | As many frames as fit in a time, and the fewest that last the shortest run that counts, one at least |
| FrameDiff.PassesExactly | modules/regiondiff/diff.go:742-765 | A result passes the sanity checks exactly when it keeps something, removes no more than that share of the home file, and plays long enough for the home file or for what the feed says |
| FrameDiff.PiecesLast | modules/regiondiff/diff.go:247-253 | The segments reported as repeats and markers last what their frames play, where all frames last as long |
| FrameDiff.Diff | modules/regiondiff/diff.go:214-286 | Which of the four outcomes comes when, and every field of its result, as one predicate of the runs after each stage: identical only for files with the same frames, byte for byte; else each stage's runs, repeats and markers by its own definition, segments, durations, the other's own time, and the output |
| DiffCuts.ShownInSeconds | modules/regiondiff/diff.go:222-232 | A run that counts as show is a shared one less under thirty seconds at either end without a splice point, and lasts as long as it must |
| DiffCuts.RepeatsInSeconds | modules/regiondiff/diff.go:254-260 | What is removed as a repeat, in frames of the home file, bytes and seconds: exactly that |
| DiffCuts.RepeatsAreGone | modules/regiondiff/diff.go:254-260 | None of it is left |
| DiffCuts.MarkersInSeconds | modules/regiondiff/diff.go:261-265 | A marker removed lasts five seconds at most, and the home file has its bytes a second time |
| InsertedAds.AlignedAreEqual | modules/regiondiff/diff.go:214-223 | When no frame hashes collide the byte check takes nothing away |
| InsertedAds.SharedAudioIsFound | modules/regiondiff/diff.go:214-223 | Sixteen frames with the same bytes, once in each file: the diff does not say that no frames are shared |
| InsertedAds.SplicePoint | modules/regiondiff/diff.go:440-452 | A splice point inside a file is a frame that is not Layer III, or whose first bits after header and CRC spell zero |
| InsertedAds.SharedIsShow | modules/regiondiff/diff.go:214-223 | For downloads that differ at one place, the runs shared are the audio before it and after it |
| InsertedAds.SameOrSpliced | modules/regiondiff/diff.go:214-246 | Such downloads are called identical exactly when neither has anything of its own at that place, and never said to share nothing |
| InsertedAds.EqualIsIdentical | modules/regiondiff/diff.go:214-246 | Files with the same frames, long enough and with a group that occurs once, are called identical |
| InsertedAds.InsertedIsRemoved | modules/regiondiff/diff.go:214-303 | Without marker trimming, the frames kept are exactly those outside the place, those removed exactly those in it, and the other download's extra audio is what it has there, if that lasts five seconds |
| FrameDiff.DeliveredIsCut | modules/regiondiff/diff.go:274-286 | A result with anything removed is a cut file of ordered segments with the duration reported |
| FrameDiff.DeliveredReadsBack | modules/regiondiff/diff.go:274-286 | A delivered cut file that reads back plays exactly as long as the result reports |
| Reservoir.Carriers | modules/regiondiff/diff.go:802-817 | The carriers hold the bytes the next frame borrows, or are all the removed frames; with any one fewer they would not |
| FewestCarriers.FewestThatDo | modules/regiondiff/diff.go:802-817 | With carriers left out, the frame after the cut finds what it borrowed in every file of such frames if and only if those left out carry nothing |
| Reservoir.PlanCovers | modules/regiondiff/diff.go:777-817 | After any list of segments the output ends in an unbroken stretch of home frames that no later frame reaches back beyond |
| Reservoir.PlanCopiesKept | modules/regiondiff/diff.go:777-817 | What is written is in the order of the file; what is copied is exactly the kept frames, and the carriers are removed ones |
| Reservoir.BorrowedBytesSurvive | modules/regiondiff/diff.go:777-817 | A kept frame whose borrowed bytes the home stream holds has exactly those bytes right before it in the output's stream |
| Cut.Crc16 | mp3/mp3.go:236-249 | The bitwise loop computes the CRC of the data, polynomial 0x8005 from 0xFFFF |
| Cut.CrcChecks | mp3/mp3.go:236-249 | Data followed by its own CRC leaves a decoder's register at zero |
| Division.CrcIsRemainder | mp3/mp3.go:236-249 | The CRC is the remainder of long division by x^16 + x^15 + x^2 + 1 of the data's bits and sixteen zeros, the first sixteen inverted |
| Cut.SilentFrame | mp3/mp3.go:218-232 | The silent frame is the frame with its side information cleared and, if protected, its CRC written anew |
| Cut.SilentKeepsData | mp3/mp3.go:211-232 | It keeps its header and every byte after the side information, which is all zeros; so it borrows nothing |
| Cut.SilentCrcChecks | mp3/mp3.go:218-232 | The two CRC bytes of a protected silent frame leave a decoder's register at zero after header bytes 2 and 3 and the side information |
| Cut.Write | modules/regiondiff/diff.go:777-800 | The output is the ID3v2 tag, each segment's frames after the carriers it needs, and the ID3v1 tag; the silence is what the carriers play |
| RoundTrip.ScanFindsParts | mp3/mp3.go:266-332 | Frames of one stream laid end to end are found one by one, with nothing skipped or cut off |
| RoundTrip.ParsedIsWellFormed | mp3/mp3.go:266-332 | Whatever the parser accepts is fit to be cut |
| RoundTrip.CutReadsBack | modules/regiondiff/diff.go:777-800 | A cut file parses back to the same tags and exactly the planned frames, none skipped or truncated, if and only if its first frame is not info-like and its tail not tag-like |
| RoundTrip.FrameReadBack | modules/regiondiff/diff.go:777-800 | Each frame read back has the header, size and bytes planned: a copy all of the home frame's, a carrier all but those between header and audio data; and carriers borrow nothing |
| RoundTrip.PartIsCopy | mp3/mp3.go:211-232 | A copy is the home frame's bytes; a carrier's are too, before and after its CRC and side information |
| RoundTrip.BorrowsWhatItSpells | mp3/mp3.go:312-315 | A Layer III frame of a file borrows the number of bytes its bits spell |
| Misread.TailBeforeWriting | modules/regiondiff/diff.go:777-800 | Without an ID3v1 tag, the output ends like one exactly when the last kept frame, if as long as a tag, does |
| Misread.KeptInfoFrame | modules/regiondiff/diff.go:777-800 | However long the file: a cut that begins with a frame that looks like an info frame and borrows nothing does not read back |
| Misread.KeptTagTail | modules/regiondiff/diff.go:777-800 | However long the file: a cut whose last frame is as long as an ID3v1 tag and ends like one does not read back |
| Misread.InfoFileExists | mp3/mp3.go:266-332 | There are such files, with any number of frames before the one that looks like an info frame, and after it |
| Misread.TagFileExists | mp3/mp3.go:266-332 | The same of the other kind |
| RoundTrip.CutDecodes | modules/regiondiff/diff.go:777-817 | From parsed file to parsed output: each kept frame borrows as many bytes as the bits of its home frame spell, and finds the very bytes it found at home |
| RoundTrip.DurationReadBack | modules/regiondiff/diff.go:777-800 | The cut file plays what its segments play plus the silence |
| Mp3.FramesHoldTheirHeaders | mp3/mp3.go:107-134 | Every size a header can state is large enough for the header, CRC and side information, so scanning always advances |
| HeaderBits.HeaderFields | mp3/mp3.go:69-100 | Which four bytes are a header, and every field of it, by the numbers their bits spell |
| HeaderBits.Rates | mp3/mp3.go:49-66 | The tables of bit rates and sample rates, by the laws they follow |
| HeaderBits.BackPointer | mp3/mp3.go:365-378 | The back pointer is the number spelled by the first 9 bits after header and CRC, 8 in MPEG-2 |
| HeaderBits.SideInfoIsItsFields | mp3/mp3.go:142-156 | The side information is as long as the fields the decoder reads from it, in bits |
| HeaderBits.SizeFollowsTime | mp3/mp3.go:107-121 | A frame has the bytes its bit rate gives in the time it plays, rounded down to slots, and one slot more if padded |
| HeaderBits.TimeIsItsSamples | mp3/mp3.go:124-139 | It plays its samples at its sample rate |
| Tags.TagIsFound | mp3/mp3.go:345-363 | An ID3v2 tag, as it is written, is found whole |
| Tags.FoundIsTag | mp3/mp3.go:345-363 | And what is found is such a tag |
| Tags.TagsAreSkipped | mp3/mp3.go:345-363 | Tags one after another are taken off, and nothing more |
| Tags.InfoFrameSays | mp3/mp3.go:380-394 | An info frame is a Layer III frame that says Xing or Info where its audio data would begin, or VBRI at byte 36 |
| Tags.AudioEndsBeforeTag | mp3/mp3.go:271-274 | The audio ends 128 bytes before the file does if those begin with TAG, else where the file does |
| Mp3.Parse | mp3/mp3.go:266-332 | The loop over positions finds what the specification of the scan finds |
| Mp3.ScannedInFile | mp3/mp3.go:279-332 | Frames found are disjoint, rising, inside the file, of one stream, and after every gap begin with a confirmed header; they, what was skipped and what was cut off make up the audio |
| Scanning.NoFrameAlone | mp3/mp3.go:279-342 | Every frame found follows directly on the one before it or on the place the scan is in sync at, or ends the audio, or is followed directly by another |
| Scanning.ParsedStandTogether | mp3/mp3.go:266-342 | So in a parsed file every frame has a neighbour it touches, or ends the audio |
| Scanning.FilesAreOneStream | mp3/mp3.go:158-160 | All frames of a file have one version, layer and sample rate |
| Scanning.JunkIsSkipped | mp3/mp3.go:285-296 | Bytes that no header begins with are skipped, one by one |
| Scanning.HalfFrameIsCut | mp3/mp3.go:298-304 | In sync, a frame that goes on past the end is cut off |
| Scanning.JunkFramesAndHalf | mp3/mp3.go:266-332 | Junk, then whole frames of one stream, then half a frame: the junk is skipped, exactly those frames are found, the half frame is cut off |
| Mp3.EveryByteCounted | mp3/mp3.go:266-332 | ID3v2, info frame, frames, skipped, truncated and ID3v1 add up to the length of any file the parser accepts |
| AudioRuns.NoHeavierChain | modules/regiondiff/audio.go:262-274 | No chain of runs ending at a run has more audio than its entry in the table |
| AudioRuns.PathIsBest | modules/regiondiff/audio.go:262-284 | The back pointers spell out a chain with exactly the audio of the entry |
| AudioRuns.FollowsMeans | modules/regiondiff/audio.go:259-262 | A run may follow another if it begins at most five seconds before that one ends, in either download |
| AudioRuns.MergeInPlace | modules/regiondiff/audio.go:284-293 | Over one array, the merged runs are those of the chain as it was: no run is overwritten before it is read |
| AudioRuns.MergeKeepsRuns | modules/regiondiff/audio.go:284-293 | Every chosen run is covered by a merged one, merged runs begin and end where runs do, and neighbours differ in offset |
| AudioRuns.InOrderRuns | modules/regiondiff/audio.go:254-294 | The runs are those of a chain with the most audio of all chains under the slack-tolerant order, merged |
| AudioRuns.Cuts | modules/regiondiff/audio.go:107-129 | It fails exactly when two neighbours overlap too far in the other download; else the cuts are the long stretches before each run and after the last, in order and apart, and the other's long gaps are added up |
| AudioRuns.LinesUpMeans | modules/regiondiff/audio.go:114-117 | It fails when a run begins more than a second before the one before it ends, in the other download |
| Unmatched.UnmatchedIsCut | modules/regiondiff/audio.go:107-125 | Whatever the order of the runs, a step in a stretch of five seconds or more that no run reaches into is cut |
| Unmatched.CutsExactly | modules/regiondiff/audio.go:107-125 | Whatever the runs, exactly the steps in such stretches are cut if and only if, of every stretch cut, no later run that has steps meets it, and later runs without steps part it into pieces of five seconds or more |
| Unmatched.ByHomeLeftAlone | modules/regiondiff/audio.go:107-125 | Runs in home order meet that |
| Unmatched.EmptyRunReachesBack | modules/regiondiff/audio.go:380 | Two runs in order in the other download, the second without a step, that do not |
| Unmatched.OwnExactly | modules/regiondiff/audio.go:110-129 | Whenever the comparison does not fail, the sum is at least the other download's steps in long stretches no run reaches into, and the number at least that of those stretches: exactly those steps if and only if every long gap is bare, exactly that number if and only if each holds such a stretch |
| Unmatched.OverlapIsCounted | modules/regiondiff/audio.go:110-129 | Three runs that overlap by the slack: nothing is cut, nothing long of the other download is bare, and a break is counted |
| AudioRuns.FrameSegments | modules/regiondiff/audio.go:388-426 | Kept and removed segments, each in order, tile the home frames, each of one kind only |
| AudioRuns.MiddleDecides | modules/regiondiff/audio.go:385-426 | A frame is removed exactly when its middle falls in a cut, kept exactly when it does not, and durations add up |
| AudioRuns.MiddleIsIn | modules/regiondiff/audio.go:388-400 | That middle is the instant halfway through the frame, and a cut lasts ten milliseconds a step |
| AudioCut.SortedMayBeWritten | modules/regiondiff/audio.go:131-147 | What is kept and removed is in order, and each segment lasts what its frames play, as writing the cut file asks |
| AudioCut.CutByAudio | modules/regiondiff/audio.go:131-150 | Which outcome comes when; the output is the home file when nothing is cut, else its cut file, with what it plays |
| AudioCut.IdenticalLeavesNothing | modules/regiondiff/audio.go:135-137 | Identical means that no frame's middle is cut and no long stretch of the other download is bare |
| AudioCut.AudioCutReadsBack | modules/regiondiff/audio.go:131-150 | Where that cut file reads back it plays what is reported, and each kept frame finds in it the bytes it borrowed at home |
| Tunnels.Tunnel.Use | modules/exits/tunnel.go:291-300 | A use starts unless the tunnel is shut |
| Tunnels.Tunnel.Release | modules/exits/tunnel.go:302-311 | One user fewer; the device is closed if that was the last of a shut tunnel |
| Tunnels.Tunnel.Close | modules/exits/tunnel.go:427-439 | The tunnel is shut, and its device closed at once if it was open and unused |
| Tunnels.Tunnel.CloseDevice | modules/exits/tunnel.go:441-454 | The device is closed if it was not, and only then |
| Tunnels.Tunnel.IdleFor | modules/exits/tunnel.go:320-330 | Zero while in use, else the time since the last use |
| Tunnels.TrackedConn.Close | modules/exits/tunnel.go:464-474 | The use is given back once, however often the connection is closed |
| Tunnels.EveryRunIsSafe | modules/exits/tunnel.go:291-454 | Over every interleaving: active counts the uses; the device is closed at most once, and never before the tunnel is shut and unused; then it is closed or someone is about to |
| Tunnels.QuietMeansSettled | modules/exits/tunnel.go:427-454 | With nothing left to do, the device has been closed once if the tunnel is shut and unused, and not otherwise |
| Tunnels.ShutTakesNobody | modules/exits/tunnel.go:291-300 | However a run goes on after the tunnel is shut, it has no user it did not have |
| Tunnels.InvariantIsRight | modules/exits/tunnel.go:291-454 | At every moment of every interleaving the tunnel's own fields are as its methods need them |
| Tunnels.IdleStaysIdle | modules/exits/pool.go:137-154 | What the pool finds unused stays unused, whatever others do, until someone comes in through the pool |
| PoolRuns.NobodyIsCutOff | modules/exits/pool.go:129-154 | With counting, measuring and shutting steps of their own and users' steps in between: when an eviction or a reaping shuts a tunnel, nobody uses it |
| PoolRuns.EveryRunHolds | modules/exits/pool.go:129-250 | What a section has found unused is unused until the section is over |
| PoolRuns.TunnelsStayRight | modules/exits/pool.go:102-117 | In every such run every tunnel's fields are as the pool's methods need them |
| Pools.FreeKey | modules/exits/pool.go:199-238 | With fewer tunnels than keys some key is unused |
| Pools.BooksWithout | modules/exits/pool.go:252-268 | Removing a tunnel and counting its key down keeps the books |
| Pools.BooksWith | modules/exits/pool.go:157-179 | Opening below the limit on a least used key keeps the books: the limit, the count per key, and one tunnel a key while keys suffice |
| Pools.Pool.OneTunnelPerKey | modules/exits/setup.go:52-57 | With at least as many keys as tunnels allowed, no two pooled tunnels share a key |
| Pools.Pool.PickKey | modules/exits/pool.go:199-238 | The key has the best rank of all, fewest uses, then class, then longest ago, and is the first of those that do |
| Pools.BestIsWellPicked | modules/exits/pool.go:199-238 | No key has fewer uses than the best; of those with as many it was last on this server if one was, else unused or quiet for three minutes if one is; and none alike in that left its server earlier |
| Pools.Pool.PickVictim | modules/exits/pool.go:137-150 | For every order of the map, the tunnel longest unused, but for as long as looking took, the clock being read for each; none exactly when all are in use |
| Pools.Pool.Open | modules/exits/pool.go:157-179 | A new tunnel in use on the key ranked best at the time, counted and noted; nothing if opening fails |
| Pools.Pool.TryGet | modules/exits/pool.go:129-179 | An open tunnel is shared; else a new one is opened, the server's own shut one making way, or at the limit the longest unused, never one in use; no room exactly when full with all in use. The clock is read anew each time, and may go on |
| Pools.Pool.Remove | modules/exits/pool.go:252-268 | The tunnel leaves the pool and is shut, its key is free again, and no other is touched |
| Pools.Pool.Reap | modules/exits/pool.go:241-250 | The tunnels idle for the idle time when it begins go, and none that is not by its end |
| Pools.Pool.StaleIsUnused | modules/exits/pool.go:241-250 | With an idle time above zero, none of those is in use |
| Pools.Pool.Forget | modules/exits/pool.go:270-275 | One tunnel goes |
| Pools.Pool.CloseAll | modules/exits/pool.go:276-282 | All tunnels go and are shut |
| Pools.Pool.UsersKeepValid | modules/exits/pool.go:102-117 | Whatever steps any goroutines take on its tunnels between the pool's sections, and whatever they are in the middle of, the pool stays right, and no tunnel was used later than the clock says |
| Claims.First | database/pipeline.go:27-59 | The candidate taken is first in the order asked for |
| Claims.OldestFirst | database/pipeline.go:33 | The order asked for is by time of publication, undated last, then by when the episode was found |
| Claims.LongestQueuedFirst | database/pipeline.go:98 | The order of the queue: longest due, then latest published, undated last, then latest found |
| Claims.Store.ClaimNextEpisode | database/pipeline.go:27-59 | Of the waiting episodes of the prepared feeds the one published earliest becomes acquiring, undated ones last, found earlier first; no worker may take it then; none exactly when none is waiting |
| Claims.Store.ClaimQueuedEpisode | database/pipeline.go:92-125 | The episode due longest is leased, the newest of those: its state is kept and it is due again when the lease ends, not before; none exactly when none is due |
| Claims.FirstFew | database/pipeline.go:134-155 | The batch is the first of the feed's due episodes, each once, and all of them if it is not full |
| Claims.Store.ClaimQueuedEpisodesForFeed | database/pipeline.go:134-173 | Exactly the batch is leased |
| Claims.Store.ClaimEpisode | database/pipeline.go:180-202 | The episode becomes acquiring exactly when it was waiting |
| Claims.Store.ResetInterruptedEpisodes | database/pipeline.go:206-214 | Exactly the acquiring episodes are waiting again |
| Claims.RetryWaits | episodes/pipeline.go:53-66 | After an attempt no worker takes the episode before its time: one, five, fifteen, sixty, a hundred and eighty minutes for a claim; one, six, then twenty-four hours for a withheld one; never when it is ready or published as failed |
| Claims.RetryComes | episodes/pipeline.go:53-66 | When that time has come a worker may take it |
| Flights.Pipeline.StartFlight | episodes/pipeline.go:406-417 | An episode gets a flight with a new channel unless it has one |
| Flights.Pipeline.EndFlight | episodes/pipeline.go:427-434 | The flight is over if it is this one, and its channel, open until now, is closed |
| Flights.Pipeline.Prepare | episodes/pipeline.go:350-404 | A request joins the flight there is, or starts one for a ready episode or one it could claim, or is turned away |
| Flights.StepKeeps | episodes/pipeline.go:246-340 | Every step of every worker, batch and request keeps flights and channels paired with jobs |
| Flights.OneFlightEach | episodes/pipeline.go:246-434 | Over every interleaving, and whatever else writes the table, no episode is being prepared twice at once |
| Flights.EveryWaiterWakes | episodes/pipeline.go:350-434 | No channel is closed twice; every client waiting on one has been woken or a job that will close it is under way |
| Served.RequestIsServed | episodes/pipeline.go:350-404 | A request is turned away only when nothing prepares the episode and the pipeline has stopped or the episode is not as the client saw it; one that starts a flight puts it on the board and claims what waited |
| Served.LaunchFlies | episodes/pipeline.go:406-417 | A claimed episode nobody prepares takes off |
| Served.EveryWaiterCanWake | episodes/pipeline.go:406-434 | From every moment of every run the jobs under way can all end, and then every client has been woken and no flight is left |
| Flights.OneClaimer | database/pipeline.go:27-59 | Over every interleaving, with whatever tame writes besides, a job that made an episode acquiring has it to itself until it records an outcome, and the row stays acquiring |
| Flights.TameExactly | database/pipeline.go:27-59 | One claimer each survives any write of an episode's row, whatever tame steps follow, if and only if it is tame: it keeps the state, or makes it acquiring, or makes it new and finds the episode unheld, or makes it anything else and finds no claimer |
| Flights.RestartWhileLeased | episodes/reconcile.go:80-92 | A run in which changed settings restart a leased episode and two jobs have it |
| Writers.WritingsKeepClaims | database/feed_rule.go:97-134 | Polls, rules, queueing, forgetting a cache file and recording one keep one claimer each, so long as a row saved whole is in the state it was read in still |
| Writers.RestartKeepsClaims | episodes/reconcile.go:161-173 | A restart does if and only if the episode is published as it is, or nobody holds it |
| Writers.LateSaveKeepsClaims | database/episode.go:117-130 | A row saved late does if and only if its state is the one found, or acquiring, or new with the episode unheld, or another with no claimer |
| Writers.StreamedOverClaim | episodes/serve.go:445-461 | From any uncached new episode, a run in which its streamed copy is recorded after a worker has claimed it, and another claims it too |
| Writers.StreamedOverRestart | episodes/serve.go:445-461 | From any uncached failed one, a run in which it is restarted and claimed, and then recorded as ready |
| Writers.StreamedStrands | episodes/serve.go:445-461 | A run that ends with an episode acquiring and nobody who has it |
| Writers.StrandedStays | database/pipeline.go:206-214 | Nothing the pipeline does then prepares it |
| Retries.Episode.RecordOutcome | episodes/pipeline.go:466-538 | The row after each kind of outcome, both delay tables indexed in range |
| Retries.OutcomesMean | episodes/pipeline.go:466-538 | Success readies the episode, ends its withholding and clears schedule and failures; a failure never readies it, gives up by the limits, and withholds only by a policy that hides |
| Retries.NothingForgotten | episodes/pipeline.go:59-66 | Through any attempts of workers, an episode withheld has failed, and has a slow retry coming or has had all eight |
| Retries.AttemptUsesUp | episodes/pipeline.go:475-537 | Every attempt a worker makes runs down the attempts left, slow ones the slow retries |
| Retries.WorkEnds | episodes/pipeline.go:56-66 | Left alone, no row gets more first attempts or slow retries than it has left |
| Retries.NewEpisodeIsDone | episodes/pipeline.go:56-66 | A new episode gets at most six attempts on the claim schedule and eight slow retries |
| Retries.NoneAfterFourteen | episodes/pipeline.go:56-66 | After fourteen attempts no worker may take the episode |
| Retries.LeftMeansClaimable | database/pipeline.go:27-106 | A row has attempts left exactly when a worker may claim it |
| Retries.AllFourteen | episodes/pipeline.go:466-538 | The bound is met: an episode that always fails gets all fourteen |
| Publishing.PublishedEpisodes | feeds/publish.go:43-69 | Exactly the episodes a declarative rule shows, or the one standing in, and never none of some |
| Publishing.NoGaps | feeds/publish.go:43-60 | An episode published in its turn has every earlier one that waits its turn published |
| Publishing.OutOfTheFeed | feeds/publish.go:43-69 | Nothing withheld or hidden is shown while there is anything else; with nothing prepared, all else is |
| Publishing.HeldBackIsPrepared | feeds/publish.go:20-60 | What holds an episode back is one not done that a worker may claim as soon as it is due, or has |
| Publishing.ClaimableHoldsBack | database/pipeline.go:17-59 | And what a worker may claim as new holds back all after it but those published whatever their state |
| Publishing.OutcomesPrepare | episodes/pipeline.go:475-537 | Claims and outcomes never take an episode back from done, and end its withholding only by finishing it |
| Publishing.ShrinksExactly | feeds/publish.go:43-69 | Preparing an episode makes something shown disappear if and only if a shown one becomes withheld with another to show instead, or an unwithheld one takes the stand-in's place |
| Publishing.OnlyGrows | feeds/publish.go:43-69 | While nothing starts or stops being withheld, the published episodes only grow |
| Publishing.StandInGivesWay | feeds/publish.go:60-68 | A feed in which a success makes a shown episode disappear |
| Resuming.FormattedValue | episodes/resume.go:121 | The decimal digits written for a number have its value |
| Resuming.CutAt | episodes/resume.go:160-177 | Cutting at a separator undoes joining with it |
| Resuming.RangeReadBack | episodes/resume.go:154-177 | The start and total of a Content-Range are read as they were written |
| Resuming.RangeIsWritten | episodes/resume.go:154-177 | Nothing is read from a header that is not written like that |
| Resuming.TaggedIsSame | episodes/resume.go:138-152 | The rest taken is of the same file when both answers have an ETag and the source gives one to one file only |
| Resuming.UntaggedMayChange | episodes/resume.go:138-152 | When either has none, the rest of another file of the same length is taken |
| Resuming.ResumingBody.CheckRest | episodes/resume.go:138-152 | A response is accepted exactly when its status is 206, it has no other ETag, and its range starts where reading stopped in a file as long |
| Resuming.ResumingBody.Resume | episodes/resume.go:95-136 | After a successful resume the connection stands where reading stopped, in the same file or in one an answer without an ETag let in; at most three in all |
| Resuming.ResumingBody.Read | episodes/resume.go:65-86 | However the network breaks, what is handed over is the next bytes of the file, unless it changed and an answer had no ETag; and reading ends |
| Resuming.Fetch | episodes/pipeline.go:684-697 | A download that passes the length check against a known total is the whole file, if it did not change or every answer had an ETag |
| BitReader.BitByBitIs | mp3/spectrum/internal/bits/bits.go:36-46 | Reading bit by bit gives the number the bits spell, zeros past the end, and stops at the end |
| BitReader.WordIs | mp3/spectrum/internal/bits/bits.go:56-58 | The four bytes put together are the 32 bits from there |
| BitReader.ShiftedIs | mp3/spectrum/internal/bits/bits.go:59-60 | The two shifts leave the bits asked for, or what the word has of them followed by zeros |
| BitReader.ReachesExactly | mp3/spectrum/internal/bits/bits.go:48-64 | For up to 32 bits the word gives the right number exactly when the bits lie in its four bytes or those that do not are zero |
| BitReader.Reader.Bit | mp3/spectrum/internal/bits/bits.go:36-46 | The bit at the position, which moves on unless it is at the end |
| BitReader.Reader.Bits | mp3/spectrum/internal/bits/bits.go:48-64 | For up to 25 bits from anywhere, the number that many single bits give; the same end position while they lie in the buffer |
| BitReader.Reader.SetPos | mp3/spectrum/internal/bits/bits.go:70-73 | The position is the one given |

## Left out

- The HTTP clients, the server, the web interface, settings, sign-in, housekeeping, rules and the rewriting of RSS: plumbing and presentation.
- WireGuard, netstack and DNS: only the use and close bookkeeping is here; opening a tunnel succeeds or fails as it likes.
- maphash and the 64-bit fold of frame hashes: arbitrary functions, so nothing depends on them.
- The correlation search, the refining and extending of audio runs, and a run's level difference (`bias`): floating point; `AudioRuns` takes the runs as given.
- audioDiff's search for runs and its error wrapping.
- FrameDiff.Diff: the sanity checks are in exact arithmetic rather than floating point, and a result's segments are counted anew even when no repeat or marker was removed, which changes nothing.
- Resuming.ResumingBody.Resume: If-Range is taken not to help, as for a source that ignores it; a source that heeds it answers with the same file.
- Resuming.Fetch: a writer is a list of read sizes; the idle timer and progress log are not modelled.
- InsertedAds.InsertedIsRemoved: one place at which the downloads differ, between splice points, and no marker trimming, which may take matching chimes off the show's edges; several places go through the same stages.
- Pools.Pool.TryGet: users' steps in between its own are not in it; `PoolRuns` has them. The wait and retry around it are a sequence of such attempts.
- Deleting an episode: its row is never gone while a job has it.
- SQL, migrations and GORM: each transaction is one step on a map of episodes.
- Which of several waiting goroutines runs next: every order is allowed, and nothing is said of how soon.
- 64-bit overflow of positions, durations and counters: numbers are unbounded, except where a Content-Range is parsed.
- The spectrum decoder around the bit reader: tables and floating point.
