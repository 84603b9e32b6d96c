# Panesmith, verified

Panesmith runs terminal programs in panes: it reads a pseudo-terminal in frames of arbitrary bytes, keeps a
transcript, mirrors the terminal's modes, hands the real terminal over during an attach, and hands it back. Its hard
part is that none of this may depend on how the bytes were cut into frames, that bounded stores lose as little as
they can and say exactly what they lost, and that an attach gives the terminal back whatever fails.

The modules follow the program's files. A function or datatype states an operation's effect; the methods that work
step by step in the program are methods over fields, arrays of bytes held as sequences, and loops here, each proved to
have that effect; lemmas prove what the effect means.

| module | models |
|---|---|
| `Bytes`, `Utf8`, `Scalars` | byte sequences; lossy UTF-8 decoding and the hold-back check for a cut code point, against the encoding itself (RFC 3629, section 3) |
| `EscapeScan`, `StripAnsi`, `SplitSafety`, `Sequences` | the two scanners over control sequences and control strings, the streams on which they agree, and what they make of sequences written down byte by byte (ECMA-48, sections 5.4 and 5.6) |
| `Retention`, `Transcript`, `TranscriptRuns`, `Shelf`, `CharBoundaries`, `TornCuts`, `HeldPrefixes` | the bounded transcript: its effect, its methods, its runs, the same as a plain list of recordings, where its text is cut, and what it holds back |
| `ModeOverlay`, `OverlayChunks`, `OverlayLosses`, `ModeMeanings`, `Replay` | the terminal-mode overlay, when it depends on chunking, what its modes mean, and the replay of repro dumps |
| `DetachEncoding`, `DetachSpellings`, `DetachMatcher`, `MatcherRuns`, `MatcherSlices`, `MatcherTimes` | the detach chord: its encodings, its online matcher, and the matcher under the clock |
| `FrameQueue`, `QueueRuns`, `QueueOrder`, `PtyWriter`, `InputTransaction`, `Encoder`, `ViewportControls` | the PTY's output queue, its retrying writer, input transactions, pasted text and mouse reports, scroll keys |
| `AttachBridge`, `AttachSession` | the blocking attach session and its environment |
| `PaneLifecycle`, `PaneManager`, `PaneTexts`, `PaneNews`, `ReplayOrder`, `ManagerAttach` | the panes of a manager, their events and texts, and the output of an attach through it |

Bytes are integers below 256, text is its UTF-8 bytes, time and counters are naturals. The environment (PTY, terminal,
surface, clock, spawner) answers through arbitrary functions of the number of the call, so a proof covers every pattern
of replies and failures. A surface is whatever satisfies `Replay.Lawful`: feeding distributes over concatenation, and a
blank surface that is resized equals one created at that size.

Where the code and a natural reading of its promises differ, the code was followed:

- Cutting a stream into frames can change its text. `SplitSafety.SplitSafe` runs the two scanners side by side, and
  `SafeExactlyWhenCutsAgree` shows that the streams on which the runs never part are exactly those on which no cut
  ever shows; `OrderlyIsInStep` names a simple class of them.
- A forced flush of an overlong held prefix adds text that no counter covers
  (`crates/panesmith-core/src/transcript.rs:145-152`): `ExactExactlyWhenQuiet` shows over every run that the accounts
  are exact if and only if no forced flush has yielded text, and `ForcedFlushHappens` gives runs in which one does.
- After such a flush the limits cut text at the wrong place, and the program panics when that is inside a character
  (`crates/panesmith-core/src/transcript.rs:262-266`). `CutsAreCleanExactlyWhen` shows over every run that the next
  operation cannot do that, whatever it is, if and only if no forced flush has yielded text or there is no limit;
  `TwoFramesTear` gives two frames that do it: `ESC P ESC [ ESC \` with more than 1018 bytes of `é` behind it, and
  then one letter, with a limit of one byte.
- A mode sequence longer than 65 bytes can be missed by the overlay when it is cut:
  `CutsAgreeExactlyWhenLossesDoNotShow` says for every stream when that shows, `PaddedSequenceIsLost` gives streams
  on which it does.
- During an attach with delayed replay an exit flushes what was held back before the attach, ahead of the replay.
  `ExitShowsExactlyWhen` shows that the text is still the same, whatever the output, if and only if nothing was held
  or bytes that are no escape and that no byte can continue (such as a lone 0xC0); `ExitCanSplitASequence` gives a
  sequence that becomes text this way.
- A mouse report's one-based coordinate wraps to 0 at 65535 (a build with overflow checks stops there instead).
- `feed_bytes` and byte-by-byte feeding part for chords that are one Ctrl letter and for a zero timeout:
  `SlicesAgreeExactlyWhen`.

## Model

| member | source | states |
|---|---|---|
| Utf8.FindTailHold | crates/panesmith-core/src/transcript.rs:474-498 | the backward search holds back exactly a cut-off code point, as the bit pattern of its lead byte announces it |
| Utf8.DecodeSplits | crates/panesmith-core/src/transcript.rs:474-498 | cutting where the hold-back check says is a decoding boundary: the two parts decode to what the whole decodes to |
| Scalars.CharacterIsRead | crates/panesmith-core/src/transcript.rs:515 | every encoded scalar value is read as one unit with its own bytes as text, whatever follows |
| Scalars.UnitIsMaximal | crates/panesmith-core/src/transcript.rs:515 | a unit is a whole character, or the longest beginning of one or a single byte, and then shows as U+FFFD |
| Scalars.EncodedTextIsKept | crates/panesmith-core/src/transcript.rs:474-498 | encoded text decodes to itself and leaves nothing held back |
| Scalars.TailHoldIsCutOff | crates/panesmith-core/src/transcript.rs:474-498 | the bytes held back are exactly a lead byte and fewer continuation bytes than its pattern announces |
| EscapeScan.SkipToFinal | crates/panesmith-core/src/transcript.rs:361-371 | the search for a final byte stops where the sequence closes, and otherwise at the end with the sequence open |
| EscapeScan.SkipControlString | crates/panesmith-core/src/transcript.rs:373-438 | the search for a string's terminator stops where the string closes, and otherwise at the end with it open |
| EscapeScan.TrailingIncompleteBytes | crates/panesmith-core/src/transcript.rs:329-499 | the index loops hold back exactly from the start of the sequence left open, or else a cut-off code point |
| StripAnsi.SkipCsi | crates/panesmith-core/src/transcript.rs:523-532 | what remains to be stripped after a control sequence is skipped is what the one-pass automaton strips |
| StripAnsi.SkipString | crates/panesmith-core/src/transcript.rs:533-569 | the same after a control string |
| StripAnsi.SkipEscape | crates/panesmith-core/src/transcript.rs:521-590 | the same after everything that belongs to a known escape |
| StripAnsi.StripText | crates/panesmith-core/src/transcript.rs:514-596 | the iterator loops strip what the one-pass automaton over decoded units strips |
| SplitSafety.CutIsTransparent | crates/panesmith-core/src/transcript.rs:116-141 | on a safe stream, stripping up to the hold-back cut and then the rest from scratch is stripping the whole |
| SplitSafety.SplitIndependence | crates/panesmith-core/src/transcript.rs:116-141 | every cut of a safe stream into frames gives, with the flush, the stripped form of the whole stream |
| SplitSafety.HoldBackIsLossless | crates/panesmith-core/src/transcript.rs:474-498 | for every escape-free stream and cut the text is the lossy decoding of the whole stream |
| SplitSafety.NextIsBytewise | crates/panesmith-core/src/transcript.rs:514-596 | the stripper, which reads characters, can be followed byte by byte |
| SplitSafety.CutThatShows | crates/panesmith-core/src/transcript.rs:391-463 | wherever the two scanners part, a cut right before or behind the byte shows in the text |
| SplitSafety.SafeExactlyWhenCutsAgree | crates/panesmith-core/src/transcript.rs:116-141 | every cut of every prefix of a stream gives the stripped prefix if and only if the scanners, run side by side, never part |
| SplitSafety.OrderlyIsInStep | crates/panesmith-core/src/transcript.rs:391-463 | streams without a doubled ESC, an ESC or BEL in an unfinished OSC terminator, or a lead byte as charset parameter are safe |
| SplitSafety.DoubleEscapeIsSafe | crates/panesmith-core/src/transcript.rs:459-463 | two ESCs are safe exactly before a byte that makes no sequence of the second, and never orderly |
| Sequences.SequenceSkips | crates/panesmith-core/src/transcript.rs:521-590 | every control sequence, command, control string, designation and short escape, over literal byte ranges, is read by both scanners from ground to ground without text |
| Sequences.StreamIsStripped | crates/panesmith-core/src/transcript.rs:514-596 | a stream of text and such sequences strips to its decoded text and lone ESCs in order, and nothing of a sequence is held back at its end |
| Sequences.CutStreamShowsItsText | crates/panesmith-core/src/transcript.rs:116-141 | the same however the stream is cut into frames |
| Sequences.TranscriptShowsItsText | crates/panesmith-core/src/transcript.rs:96-152 | and in the transcript, up to what the limits retain |
| Sequences.UnfinishedIsHeld | crates/panesmith-core/src/transcript.rs:329-499 | every proper beginning of such a sequence is held back whole and alone; flushed, it shows nothing but a lone ESC |
| Sequences.StringIsHeld | crates/panesmith-core/src/transcript.rs:373-438 | a string is held back whole as long as nothing ends it, whatever sequences and ESCs it contains |
| Sequences.StringEnds | crates/panesmith-core/src/transcript.rs:373-438 | so is one whose terminator or nested sequence has begun; with its terminator nothing is |
| Retention.LeastIsUnique | crates/panesmith-core/src/transcript.rs:228-282 | there is one least number of oldest chunks to drop |
| Retention.WithoutKeepsAccounts | crates/panesmith-core/src/transcript.rs:262-282 | dropping chunks keeps byte, text and line counts in step with the chunks left |
| Retention.EnforceMeetsLimits | crates/panesmith-core/src/transcript.rs:228-282 | after enforcement both limits hold |
| Retention.EnforceDropsFewest | crates/panesmith-core/src/transcript.rs:228-282 | no smaller number of dropped oldest chunks meets the limits |
| Retention.RotationCountsTheLoss | crates/panesmith-core/src/transcript.rs:262-282 | a rotation reports exactly the chunks and bytes taken away, and none is reported when nothing was |
| Transcript.Transcript.Record | crates/panesmith-core/src/transcript.rs:96-189 | the whole new state, the offset and the rotation of one recorded frame |
| Transcript.Transcript.AppendPlain | crates/panesmith-core/src/transcript.rs:114-168 | the text added is the stripped held prefix and frame up to the hold-back cut, the rest is held, an overlong rest is flushed |
| Transcript.Transcript.EnforceLimits | crates/panesmith-core/src/transcript.rs:228-282 | the loop drops the least number of oldest chunks, and reports what it dropped |
| Transcript.Transcript.FlushPending | crates/panesmith-core/src/transcript.rs:295-314 | the held prefix becomes text and is enforced |
| TranscriptRuns.RawIsSuffix | crates/panesmith-core/src/transcript.rs:96-221 | after every run the raw buffer is the suffix of all bytes recorded from its reported start offset |
| TranscriptRuns.PlainIsSuffix | crates/panesmith-core/src/transcript.rs:96-221 | after every run without text from a forced flush, the text is the suffix of all text from its reported start, within the limits |
| TranscriptRuns.FrameIsAtItsOffset | crates/panesmith-core/src/transcript.rs:164-189 | a frame still retained is found at the offset its recording reported |
| TranscriptRuns.TextIsAtItsOffset | crates/panesmith-core/src/transcript.rs:164-189 | where only text is recorded, a frame's text still retained is found at the offset its recording reported |
| Shelf.CountIsExact | crates/panesmith-core/src/transcript.rs:317-319 | the count of newlines is the number of LFs |
| Shelf.TranscriptKeepsTheShelf | crates/panesmith-core/src/transcript.rs:96-314 | in every run without text from a forced flush the transcript is a plain list of recordings, trimmed from the old end until the rest fits: contents, chunk sizes, line counts and held prefix |
| Shelf.LimitsBoundWhatIsKept | crates/panesmith-core/src/transcript.rs:228-282 | the limits bound the bytes and the LFs really retained; the line count is their number, or with both forms recorded no smaller than either's |
| TranscriptRuns.RecordDropsFewest | crates/panesmith-core/src/transcript.rs:228-282 | a recording leaves both limits met, drops fewest, and its rotation counts what was dropped |
| TranscriptRuns.FlushDropsFewest | crates/panesmith-core/src/transcript.rs:295-314 | the same for the flush |
| TranscriptRuns.ForcedFlushBreaksLedger | crates/panesmith-core/src/transcript.rs:145-152 | after a step the accounts are exact if and only if they were and the step forced no text |
| TranscriptRuns.ExactExactlyWhenQuiet | crates/panesmith-core/src/transcript.rs:145-152 | over every run the accounts are exact if and only if no forced flush yielded text |
| TranscriptRuns.RawRunsAreQuiet | crates/panesmith-core/src/transcript.rs:106-168 | where no text is recorded there is no forced flush |
| TranscriptRuns.ForcedFlushHappens | crates/panesmith-core/src/transcript.rs:145-152 | for every escape-free text long enough, a frame whose forced flush yields exactly that text and breaks the accounts |
| TranscriptRuns.TextIsSplitIndependent | crates/panesmith-core/src/transcript.rs:96-152 | the transcript's text after the final flush is the stripped stream, or its retained suffix, however the stream was cut |
| TranscriptRuns.TextIsStrippedExactlyWhen | crates/panesmith-core/src/transcript.rs:96-152 | every cut within the bound leaves the stripped prefix as the transcript's text if and only if the stream is safe |
| TranscriptRuns.EscapeFreeTextIsDecoded | crates/panesmith-core/src/transcript.rs:295-314 | an escape-free stream leaves the lossy decoding of the whole as the transcript's text, however it was cut |
| CharBoundaries.StrippedStarts | crates/panesmith-core/src/transcript.rs:514-596 | stripped text starts a character |
| CharBoundaries.CutsFallBetweenCharacters | crates/panesmith-core/src/transcript.rs:262-282 | in every run without forced text, every cut the limits make, now or with any next operation, falls between two characters |
| CharBoundaries.UnlimitedStarts | crates/panesmith-core/src/transcript.rs:228-231 | without limits the text starts a character in every run, whatever was forced |
| TornCuts.CutsAreCleanExactlyWhen | crates/panesmith-core/src/transcript.rs:262-266 | over every run, whatever comes next cuts between two characters if and only if no forced flush has yielded text or there is no limit |
| TornCuts.TornCut | crates/panesmith-core/src/transcript.rs:145-152 | whenever the accounts fall short of the text under a limit, a frame that forces nothing itself and whose recording cuts inside a character |
| TornCuts.TwoFramesTear | crates/panesmith-core/src/transcript.rs:262-266 | two frames, from an empty transcript, of which the second drops the first half of a character |
| HeldPrefixes.HeldIsHeld | crates/panesmith-core/src/transcript.rs:129-141 | what is held back of any input would be held back, all of it, on its own |
| HeldPrefixes.PendingIsHeld | crates/panesmith-core/src/transcript.rs:129-152 | in every run the pending bytes are such |
| HeldPrefixes.GrowsExactlyWhen | crates/panesmith-core/src/transcript.rs:474-498 | held bytes of a character can go on if and only if some byte makes a longer part of a character of them |
| HeldPrefixes.FlushDoesNotShow | crates/panesmith-core/src/transcript.rs:295-314 | flushing nothing, or bytes that no byte can continue, ahead of any output leaves the text as it would have been |
| HeldPrefixes.FlushShows | crates/panesmith-core/src/transcript.rs:295-314 | for everything else that can be held, an output on which the early flush shows |
| ModeOverlay.ParsePrivateMode | crates/panesmith-core/src/mode_overlay.rs:148-155 | the checked 16-bit parse, with the empty field as zero |
| ModeOverlay.ApplyParams | crates/panesmith-core/src/mode_overlay.rs:137-142 | all parameters of a sequence are applied in order, unparsable ones skipped |
| ModeOverlay.ReadSequence | crates/panesmith-core/src/mode_overlay.rs:97-144 | the effect of the sequence at an ESC, and a next position that skips no ESC |
| ModeOverlay.ApplyTerminalModeSequences | crates/panesmith-core/src/mode_overlay.rs:90-146 | the loop applies the effect of every ESC in order |
| ModeOverlay.TerminalModeOverlay.UpdateFromOutput | crates/panesmith-core/src/mode_overlay.rs:20-31 | the new modes and tail, and whether the modes changed |
| OverlayChunks.PassWrites | crates/panesmith-core/src/mode_overlay.rs:61-146 | a pass over a stream is one assignment of flags, whatever the state before |
| OverlayChunks.FeedExtendsPass | crates/panesmith-core/src/mode_overlay.rs:20-31 | one update, re-reading the tail, leads from one pass over the old stream to one pass over the longer one |
| OverlayChunks.ChunkIndependence | crates/panesmith-core/src/mode_overlay.rs:20-31 | if no sequence is longer than 65 bytes, every cut gives the modes of one pass |
| OverlayLosses.FeedKeeps | crates/panesmith-core/src/mode_overlay.rs:20-31 | one update applies every sequence that starts in the tail or behind it and no other |
| OverlayLosses.FeedsKeep | crates/panesmith-core/src/mode_overlay.rs:20-31 | however a stream is cut, all its short sequences and some of its long ones have been applied |
| OverlayLosses.CutsAgreeExactlyWhenLossesDoNotShow | crates/panesmith-core/src/mode_overlay.rs:20-31 | every cut of a stream gives the modes and mouse flags of one pass if and only if each flag a long sequence writes is written again by a later short one or has the value the short ones give it |
| OverlayLosses.LongSequenceIsLost | crates/panesmith-core/src/mode_overlay.rs:20-31 | a longer sequence cut before its last byte has no effect |
| OverlayLosses.SingleSequenceBound | crates/panesmith-core/src/mode_overlay.rs:20-31 | every cut of one sequence keeps its effect if and only if it has at most 65 bytes or no effect |
| OverlayLosses.PaddedSequenceIsLost | crates/panesmith-core/src/mode_overlay.rs:20-31 | zero-padded sequences that set a mode in one pass and not when cut |
| ModeMeanings.PatchIsSwitch | crates/panesmith-core/src/mode_overlay.rs:97-181 | what is read at a position sets or resets a flag exactly when one of its codes is spelled there, in literal bytes |
| ModeMeanings.ModesMean | crates/panesmith-core/src/mode_overlay.rs:61-181 | after every stream each mode is on exactly when the stream sets one of its codes and resets none behind that; the mouse mode is the first enabled of 1006, 1003, 1002, 1000 and 9 |
| ModeMeanings.OverlayModesMean | crates/panesmith-core/src/mode_overlay.rs:20-31 | the same of the overlay after any cut of a stream on which no loss shows |
| ModeMeanings.MergedModesMean | crates/panesmith-core/src/mode_overlay.rs:34-46 | merged with a surface's, a mode is on if either says so, and a tracked mouse mode wins |
| ModeMeanings.LastSetIsOn | crates/panesmith-core/src/mode_overlay.rs:97-144 | a set at the end of a stream is on, whatever came before |
| OverlayLosses.ShortHasNoLosses | crates/panesmith-core/src/mode_overlay.rs:20-31 | without a sequence longer than 65 bytes there is no loss to show |
| Replay.SortKeepsSorted | crates/panesmith-core/src/repro.rs:167-188 | a history in order is left as it is by the stable sort |
| Replay.SortKeepsAll | crates/panesmith-core/src/repro.rs:167-188 | sorting the size history keeps every entry |
| Replay.EntriesAt | crates/panesmith-core/src/repro.rs:269-275 | the leading entries at or before an offset |
| Replay.ComputeFinalSurface | crates/panesmith-core/src/repro.rs:190-240 | the replay loop computes the stages of the size history in turn |
| Replay.ReplayHistory | crates/panesmith-core/src/repro.rs:213-239 | the loop over the size history reaches the last stage |
| Replay.ReplayEntry | crates/panesmith-core/src/repro.rs:214-228 | one entry takes effect behind everything before it |
| Replay.FeedChunk | crates/panesmith-core/src/repro.rs:221-235 | overlay and surface are fed the same chunk, once |
| Replay.LiveShows | crates/panesmith-core/src/manager.rs:2349-2360 | the live surface is the one that saw the whole stream, resized where the size history says |
| Replay.ReplayRefinesLive | crates/panesmith-core/src/repro.rs:167-240 | an unrotated dump replays to the live surface and the live merged modes, for every run of output, resizes and final flushes on whose output no cut can show in the modes |
| Replay.RotatedIsRefused | crates/panesmith-core/src/repro.rs:127-150 | a dump replays if and only if raw bytes are recorded and none was dropped |
| DetachSpellings.EncodingStandsAlone | crates/panesmith-core/src/detach_encoding.rs:19-28 | an encoding is read from its own bytes: not from fewer, and whatever follows makes no difference |
| DetachSpellings.KittyIsReadExactlyWhen | crates/panesmith-core/src/detach_encoding.rs:67-87 | for every key code and modifier parameter, the CSI-u encoding is read as the chord, whole, exactly when it is the control byte or the letter with Control |
| DetachSpellings.XtermIsReadExactlyWhen | crates/panesmith-core/src/detach_encoding.rs:89-118 | the same for the modifyOtherKeys encoding, exactly for the letter with Control |
| DetachSpellings.ControlIsBitFour | crates/panesmith-core/src/detach_encoding.rs:145-148 | the modifier parameter is one more than a sum of bits, and Control is the bit of value 4 |
| DetachSpellings.LettersOfControl | crates/panesmith-core/src/detach_encoding.rs:132-136 | the codes of a control byte are itself and the letter with its low five bits, in either case |
| DetachEncoding.NextKey | crates/panesmith-core/src/detach_encoding.rs:30-45 | a key is an encoded chord or the byte itself |
| DetachEncoding.NormalizeAttachDetachInput | crates/panesmith-core/src/detach_encoding.rs:30-45 | the loop normalises key by key |
| DetachMatcher.DetachMatcher.FeedByte | crates/panesmith-attach/src/detach.rs:87-107 | timeout release and byte, as state and result; held bytes and their times stay aligned and sorted |
| DetachMatcher.DetachMatcher.FeedByteInner | crates/panesmith-attach/src/detach.rs:109-177 | the byte's effect: the longest beginning of the chord is held, the rest let go, or the chord is complete |
| DetachMatcher.DetachMatcher.FindOverlap | crates/panesmith-attach/src/detach.rs:141-168 | the search for an overlap finds the longest suffix that begins the chord |
| DetachMatcher.DetachMatcher.FeedBytes | crates/panesmith-attach/src/detach.rs:187-223 | a slice's effect, up to the detach and with what remains behind it |
| DetachMatcher.DetachMatcher.CheckTimeout | crates/panesmith-attach/src/detach.rs:228-249 | held bytes are released together once the oldest has waited long enough |
| DetachMatcher.FedByteKeepsValid | crates/panesmith-attach/src/detach.rs:109-177 | one byte keeps the matcher valid and is either let go, held, or completes the chord |
| MatcherRuns.BeginningIsLongest | crates/panesmith-attach/src/detach.rs:141-168 | what is held is the longest suffix that is a proper beginning of the chord |
| MatcherRuns.ByteExtends | crates/panesmith-attach/src/detach.rs:109-177 | the held bytes are all the matcher must remember: with the next byte they decide chord and new held bytes |
| MatcherRuns.SearchIsExact | crates/panesmith-attach/src/detach.rs:109-177 | without timeouts the detach falls exactly at the chord's first occurrence, and forwarded and held bytes are the input |
| MatcherRuns.ReleaseKeepsBytes | crates/panesmith-attach/src/detach.rs:228-249 | a timeout neither loses nor reorders a byte |
| MatcherRuns.TimedDetachIsWhole | crates/panesmith-attach/src/detach.rs:87-107 | a detach under the clock completes a chord none of whose bytes was released |
| MatcherRuns.ManyConserves | crates/panesmith-attach/src/detach.rs:187-223 | a slice is forwarded, held, or left behind the chord, byte by byte in order |
| MatcherRuns.CallsConserve | crates/panesmith-attach/src/detach.rs:87-249 | in any detach-free mix of calls with a clock that does not run back, forwarded and held bytes are all bytes fed |
| MatcherSlices.SlicesAgree | crates/panesmith-attach/src/detach.rs:187-223 | a slice does what its bytes do one at a time at the same instant, up to the first detach |
| MatcherSlices.SlicesAgreeExactlyWhen | crates/panesmith-attach/src/detach.rs:187-223 | that holds if and only if the chord is not one Ctrl letter and the timeout is positive or the chord at most one byte |
| MatcherSlices.EncodedChordAgrees | crates/panesmith-attach/src/detach.rs:187-223 | for a Ctrl-letter chord a chunk detaches if and only if its normal form holds the chord, and splits it there |
| MatcherSlices.RemainingIsTheEnd | crates/panesmith-attach/src/detach.rs:207-213 | what remains behind a detach is the end of the slice |
| MatcherTimes.HeldBytesAreYoung | crates/panesmith-attach/src/detach.rs:87-249 | in any detach-free mix of calls held bytes carry the times at which they were read, and the first of them was read less than the timeout ago |
| MatcherTimes.PollReleasesExactlyWhenOld | crates/panesmith-attach/src/detach.rs:228-249 | a look at the clock releases held bytes exactly when the first of them was read the timeout or longer ago |
| MatcherTimes.ChordTypedInTimeDetaches | crates/panesmith-attach/src/detach.rs:87-177 | a chord typed within the timeout of its first byte is found at its last, and nothing of it is forwarded |
| FrameQueue.PtyFrameQueueState.Push | crates/panesmith-core/src/pty.rs:577-582 | the queue after any frame |
| FrameQueue.PtyFrameQueueState.PushOutput | crates/panesmith-core/src/pty.rs:584-593 | an output frame is queued, or dropped once a summary is queued or the capacity reached |
| FrameQueue.PtyFrameQueueState.RecordOutputOverflow | crates/panesmith-core/src/pty.rs:595-621 | a drop grows the queued summary or queues one |
| FrameQueue.PtyFrameQueueState.TryRecv | crates/panesmith-core/src/pty.rs:623-646 | the oldest entry is delivered, with the counter and the flag it held |
| QueueRuns.LossIsExact | crates/panesmith-core/src/pty.rs:577-646 | in every run the delivered and queued entries, with each summary expanded into its run of drops, are the pushed output; summaries and totals count it exactly; the queued count is true and bounded |
| QueueRuns.OverflowSpacing | crates/panesmith-core/src/pty.rs:584-646 | between two delivered summaries lie at least as many output frames as the capacity |
| QueueRuns.AfterNoticeOutputIsAccepted | crates/panesmith-core/src/pty.rs:623-646 | when a summary is delivered no output is queued, and the next output is accepted |
| QueueOrder.OthersAreDelivered | crates/panesmith-core/src/pty.rs:577-646 | in every run exits, errors and requests come out, all of them, in order and once, as the consumer gets them |
| QueueOrder.DeliveryKeepsOrder | crates/panesmith-core/src/pty.rs:577-646 | what comes out keeps the order of the pushes, each notice in the place of the first output it stands for; only outputs are missing |
| QueueOrder.OutputsAreTold | crates/panesmith-core/src/pty.rs:577-646 | the frames returned, with each notice's run in its place, are the outputs pushed; every notice gives first number, time, frames and bytes of its run |
| PtyWriter.WriteBytesRetrying | crates/panesmith-core/src/pty.rs:160-210 | the PTY has accepted exactly the prefix counted; success means all of it and a flush; a failure means, within the call, a fatal reply, a zero-length write, or one transient reply more than allowed in a row; behind as many no further write or flush is tried |
| PtyWriter.RetryFlush | crates/panesmith-core/src/pty.rs:989-1012 | fails exactly when the last reply of the call was no success: a fatal one, or the last of one transient reply more than allowed, all of them in this call; behind as many it does not try again |
| InputTransaction.TextInputSteps | crates/panesmith-core/src/manager.rs:2588-2626 | the steps' bytes are the encoded text and the enter key; chunks keep their size; the submitting step is last |
| InputTransaction.ChunksKeepBytes | crates/panesmith-core/src/manager.rs:2588-2626 | chunking loses nothing |
| InputTransaction.Pane.VerifyEcho | crates/panesmith-core/src/manager.rs:1875-1919 | the last look at the screen during the call decides: the echo if it was there, else the exit if the child is gone, else a timeout, for which the whole time has passed |
| InputTransaction.Pane.WriteStep | crates/panesmith-core/src/manager.rs:1813-1873 | the PTY has accepted exactly the bytes a step reports sent |
| InputTransaction.Pane.SendTransaction | crates/panesmith-core/src/manager.rs:1678-1744 | the PTY has accepted a prefix of the plan as long as reported; submitted means all of it, and a requested echo on the screen, at a look made in this transaction, when all but the submitting step was sent; a timeout or exit is reported only when there was one |
| Encoder.TwoPassesAreOne | crates/panesmith-core/src/encoder.rs:213-229 | replacing CR LF and then the other newline is one universal-newline scan |
| Encoder.NewlinePolicies | crates/panesmith-core/src/encoder.rs:213-229 | each CR LF, CR or LF becomes one target newline, idempotently; normalising again to the other newline is normalising to it directly |
| Encoder.WriteU16 | crates/panesmith-core/src/encoder.rs:379-391 | digits pushed backwards and reversed in place are the decimal number |
| Encoder.DecimalParses | crates/panesmith-core/src/encoder.rs:379-391 | the number written reads back |
| Encoder.NoLeadingZero | crates/panesmith-core/src/encoder.rs:379-391 | numbers are written without leading zeros |
| Encoder.PasteIsBracketed | crates/panesmith-core/src/encoder.rs:213-229 | a bracketed paste is the text between the two literal markers |
| Encoder.EncodeMouse | crates/panesmith-core/src/encoder.rs:247-316 | the report of every event, and when there is none |
| Encoder.MouseReportParses | crates/panesmith-core/src/encoder.rs:247-316 | a report's fields read back as code and one-based position, for every position but the last |
| Encoder.ButtonCodeIsFaithful | crates/panesmith-core/src/encoder.rs:351-377 | the code tells kind, button and modifiers apart |
| Encoder.ButtonCodeBits | crates/panesmith-core/src/encoder.rs:351-377 | the bits of the code: button in the low two, modifiers 4, 8 and 16, motion 32, wheel 64 |
| ViewportControls.SplitAttachViewportControls | crates/panesmith-core/src/manager/attach_support.rs:371-387 | the loop forwards the typed bytes and collects the actions of the pieces |
| ViewportControls.PiecesAreTheInput | crates/panesmith-core/src/manager/attach_support.rs:371-408 | typed bytes and taken controls, put together, are the input |
| ViewportControls.ForwardsAllOrActs | crates/panesmith-core/src/manager/attach_support.rs:371-387 | all is forwarded if and only if there is no action |
| ViewportControls.TextPasses | crates/panesmith-core/src/manager/attach_support.rs:371-408 | input without ESC is forwarded as it is |
| ViewportControls.WheelReportsScroll | crates/panesmith-core/src/manager/attach_support.rs:410-440 | a mouse report as the encoder writes it is taken, whole, if and only if it is an unmodified wheel |
| ViewportControls.KeysAreTaken | crates/panesmith-core/src/manager/attach_support.rs:389-408 | exactly the listed keys are taken, for their actions, and nothing else but wheel reports, which scroll three rows |
| AttachBridge.AttachBridge.BeginAttach | crates/panesmith-attach/src/attach.rs:306-313 | only from embedded, to attaching |
| AttachBridge.AttachBridge.ConfirmAttached | crates/panesmith-attach/src/attach.rs:320-327 | only from attaching, to attached |
| AttachBridge.AttachBridge.BeginDetach | crates/panesmith-attach/src/attach.rs:334-341 | only from attached, to detaching |
| AttachBridge.AttachBridge.ConfirmDetached | crates/panesmith-attach/src/attach.rs:348-355 | only from detaching, to embedded |
| AttachBridge.AttachGuard.Detach | crates/panesmith-attach/src/attach.rs:219-226 | one restore for a token held, which is kept if it fails; nothing without one |
| AttachBridge.AttachGuard.Drop | crates/panesmith-attach/src/attach.rs:253-261 | one restore for a token still held, none otherwise |
| AttachSession.BlockingAttachSession.PushEvent | crates/panesmith-attach/src/session.rs:738-746 | sequence numbers without a gap; an end only after a start |
| AttachSession.BlockingAttachSession.PollStdin | crates/panesmith-attach/src/session.rs:425-500 | what was read is what was sent, what is held, and, after a detach, the chord in any encoding and what remains; what was sent of the last chunk is free of a Ctrl-letter chord |
| AttachSession.BlockingAttachSession.DrainOutput | crates/panesmith-attach/src/session.rs:502-560 | output received is on stdout, and on the surface or in the replay buffer; the first exit code told is on record; as many frames as allowed are taken, or all there are |
| AttachSession.BlockingAttachSession.DrainDetachingOutput | crates/panesmith-attach/src/session.rs:623-652 | the last drain ends, conserves the output, and ends before two seconds only if the PTY was quiet for 200 ms |
| AttachSession.BlockingAttachSession.FinishDetach | crates/panesmith-attach/src/session.rs:562-621 | success: size back, replay done, terminal restored at the first attempt, session ended; failure: still detaching, token kept |
| AttachSession.BlockingAttachSession.FollowTerminalSize | crates/panesmith-attach/src/session.rs:379-398 | the size on record is the one just read, and PTY and surface follow it if asked to |
| AttachSession.BlockingAttachSession.Tick | crates/panesmith-attach/src/session.rs:376-422 | a round keeps the loop's invariant or detaches |
| AttachSession.BlockingAttachSession.RunAttached | crates/panesmith-attach/src/session.rs:348-423 | an outcome with the terminal restored once, or a failure with the token kept and the bridge not embedded |
| AttachSession.BlockingAttachSession.ResizeBack | crates/panesmith-attach/src/session.rs:664-682 | the embedded size is restored, or the failure reported |
| AttachSession.BlockingAttachSession.BestEffortAbort | crates/panesmith-attach/src/session.rs:654-706 | at most two more restores and at most one success, one end event, an embedded bridge, and the embedded size restored or the failure reported, whatever fails |
| AttachSession.BlockingAttachSession.RunSuspended | crates/panesmith-attach/src/session.rs:307-346 | from suspension on: one start, one end, nothing of the kind between; restore attempts bounded; on success the output and input balances |
| AttachSession.BlockingAttachSession.Run | crates/panesmith-attach/src/session.rs:266-346 | under every pattern of failures: no bridge assertion fires, a finished run is embedded, a start has exactly one end, at most three restore attempts and one success, none from the drop; without a resize policy no resize; it fails if and only if a host call failed, with the first failure, which is among the events |
| AttachSession.BlockingAttachSession.SessionCompleted | crates/panesmith-attach/src/session.rs:502-592 | on success what was received, written to stdout and fed to the surface is one sequence, and stdin is what was sent, the chord and the rest; the exit code is the first a frame of this run told, and the terminal size the last one read |
| PaneLifecycle.FrameKeeps | crates/panesmith-core/src/manager.rs:2313-2500 | every frame keeps state, exit, exit observation, events and transcript consistent, and ends a live pane as it says |
| PaneLifecycle.FirstEndDecides | crates/panesmith-core/src/manager.rs:2216-2532 | over every run of frames the first ending frame decides a live pane's state, and a terminal pane's state and exit never change |
| PaneLifecycle.LiveMeansUnflushed | crates/panesmith-core/src/manager.rs:634-663 | as long as a pane lives its transcript is fed its output frames and nothing else |
| PaneLifecycle.EveryOutputIsRecorded | crates/panesmith-core/src/manager.rs:2349-2422 | every output byte is recorded in order, whether the surface takes it or not and in every state |
| PaneLifecycle.FinalPaneIsComplete | crates/panesmith-core/src/manager.rs:2277-2311 | a terminal pane leaves with its exit, an exit event among its events and no text held back |
| PaneLifecycle.EndKeeps | crates/panesmith-core/src/manager.rs:2520-2532 | the exit stored when a live pane ends is the one that goes with its state |
| PaneTexts.RemovedPaneLeavesItsText | crates/panesmith-core/src/manager.rs:2277-2532 | a removed pane whose output came before its end leaves the stripped form of all of it, however it was cut |
| ReplayOrder.ExitOrders | crates/panesmith-core/src/manager.rs:1217-1222 | the transcript when an exit comes before the replay of held output, and when all is in order |
| ReplayOrder.ExitAheadOfReplay | crates/panesmith-core/src/manager.rs:1306-1311 | both texts, for every output |
| ReplayOrder.OrderShowsExactlyWhen | crates/panesmith-core/src/manager.rs:1306-1311 | they are the same for every output if and only if nothing was held back, or bytes that are no escape and that no byte can continue |
| ReplayOrder.ExitShowsExactlyWhen | crates/panesmith-core/src/manager.rs:1217-1222 | the same of every consistent pane, as the manager handles exit and output |
| ReplayOrder.ExitCanSplitASequence | crates/panesmith-core/src/manager.rs:1306-1311 | with an ESC held back, an output that becomes text where it would have been part of a sequence |
| PaneLifecycle.ChainIsUnbroken | crates/panesmith-core/src/manager.rs:1529-1547 | each change of state takes up where the one before left off, and that was not the end |
| PaneLifecycle.FirstChangeLeavesStarting | crates/panesmith-core/src/manager.rs:571-621 | the first change of state leaves Starting |
| PaneLifecycle.TerminalIsLast | crates/panesmith-core/src/manager.rs:1529-1547 | no change of state follows a terminal one |
| PaneNews.FramesShow | crates/panesmith-core/src/manager.rs:2349-2422 | over every run of frames the overlay has seen all output, and surface and generation are those of the outputs the surface took |
| PaneNews.PaneModesMean | crates/panesmith-core/src/manager.rs:2349-2360 | a new pane's tracked modes are those its output has set and not reset, if no loss shows |
| PaneNews.EveryFrameIsTold | crates/panesmith-core/src/manager.rs:2313-2500 | over every run each frame has exactly its events, in order: lengths, escapes, generations, losses, errors and exits |
| PaneNews.LastNews | crates/panesmith-core/src/manager.rs:2277-2311 | a pane that goes tells of late frames, and of an exit nobody saw only if it was killed or failed |
| PaneNews.OffsetIsPlace | crates/panesmith-core/src/manager.rs:2349-2422 | the place told with an output: none without a transcript, the bytes recorded before where bytes are recorded |
| PaneNews.EveryLossIsTold | crates/panesmith-core/src/manager.rs:2349-2422 | what is kept and what the rotation events say was dropped are all bytes recorded |
| PaneManager.RetainEventLog | crates/panesmith-core/src/manager.rs:2553-2574 | the log is the last events the policy keeps, and kept and dropped events are all events |
| PaneManager.PaneManager.PushEvent | crates/panesmith-core/src/manager.rs:1504-1527 | the event gets the pane's next number and is appended to log and queue, and to nothing else; what was emitted of every pane stays its history, numbered from 1 |
| PaneManager.PaneManager.TransitionState | crates/panesmith-core/src/manager.rs:1529-1547 | state and event, or nothing if the state is the same |
| PaneManager.PaneManager.SetExitIfNotKilledOrFailed | crates/panesmith-core/src/manager.rs:2520-2532 | a kill or a failure on record is kept |
| PaneManager.PaneManager.FailPane | crates/panesmith-core/src/manager.rs:2460-2500 | flush, error event, and the end of a live pane |
| PaneManager.PaneManager.HandleExitFrame | crates/panesmith-core/src/manager.rs:2424-2458 | observation, flush, exit event, and the end of a live pane |
| PaneManager.PaneManager.HandleOutputFrame | crates/panesmith-core/src/manager.rs:2343-2422 | transcript and overlay first, then the surface, with the events of each outcome |
| PaneManager.PaneManager.HandlePtyFrame | crates/panesmith-core/src/manager.rs:2313-2341 | the effect of each frame on its pane, and on no other |
| PaneManager.PaneManager.DrainAllPaneFrames | crates/panesmith-core/src/manager.rs:2216-2233 | all queued frames take effect in order; a pane that still lives was not flushed |
| PaneManager.PaneManager.PollPanes | crates/panesmith-core/src/manager.rs:2190-2214 | each pane has up to the bounded number of frames handled |
| PaneManager.PaneManager.DrainEvents | crates/panesmith-core/src/manager.rs:2145-2148 | handed over are the events that waited, then those of the poll: every event emitted and not handed over before, in order, once |
| PaneManager.PaneManager.Spawn | crates/panesmith-core/src/manager.rs:571-621 | exactly when it succeeds, the new pane's number, state and events; a refusal changes no pane |
| PaneManager.SpawnTells | crates/panesmith-core/src/manager.rs:571-621 | what a new pane is, and its first two events |
| PaneManager.PaneManager.Kill | crates/panesmith-core/src/manager.rs:680-702 | exactly when it succeeds; the pane stays, killed; a refusal changes nothing |
| PaneManager.KillTells | crates/panesmith-core/src/manager.rs:680-702 | a kill changes state and exit, tells of the change, and nothing else |
| PaneManager.PaneManager.Remove | crates/panesmith-core/src/manager.rs:634-663 | a live pane is refused and never flushed; a terminal one goes with its exit, its exit event emitted and its numbers complete |
| PaneManager.PaneManager.KillAndRemove | crates/panesmith-core/src/manager.rs:718-725 | success returns the kill, and only the kill can fail |
| PaneManager.PaneManager.FlushTerminalPaneBeforeRemove | crates/panesmith-core/src/manager.rs:2277-2311 | late frames, the pending text, and a synthetic exit event if none was seen |
| ManagerAttach.AttachOutputDrain.DeliverOutput | crates/panesmith-core/src/manager.rs:1193-1216 | an output frame is on stdout only at the tail, and in pane or buffer in any case |
| ManagerAttach.AttachOutputDrain.DrainAttachOutput | crates/panesmith-core/src/manager.rs:1180-1251 | the frames taken are the front of the queue, their output conserved, and an exit among them is told |
| ManagerAttach.AttachOutputDrain.FinishOutput | crates/panesmith-core/src/manager.rs:1293-1317 | the last drain and the replay leave nothing waiting |
| ManagerAttach.ShownAllOrNothing | crates/panesmith-core/src/manager.rs:1199-1204 | of the output stdout is forwarded all with the viewport always at the tail, and nothing with it never there |
| ManagerAttach.AttachOutputDrain.AttachedRounds | crates/panesmith-core/src/manager.rs:869-988 | the rounds up to the first exit: what each took, what of it was shown, and what is left in the queue |
| ManagerAttach.AttachOutputDrain.AttachedOutput | crates/panesmith-core/src/manager.rs:869-988 | surface and transcript get every byte taken from the PTY, which is the front of what was queued and arrived in the rounds that took place, even while the viewport is scrolled away; stdout is forwarded what was taken at the tail; the rounds end with the first exit; a failure has a failed write, a refused feed or an error frame behind it |

## Left out

- The terminal parser behind a surface, cells, styles, scrollback and their snapshots: an external crate; a surface is an abstract machine with the laws of `Replay.Lawful`, and in the manager the bytes it accepted.
- Process spawning, child environments, signals, the reader thread, mutex poisoning, subscriber channels, event sinks, logging and wall-clock stamps of events.
- The rest of the attach through the manager (its interaction modes, guard, restore and abort). It follows the blocking session's protocol with two differences: it also detaches when the child exits (`crates/panesmith-core/src/manager.rs:963-979`), and its abort always gives an error as the reason. Its output, up to that exit, and its scroll keys are modelled.
- The manager's copy of the detach matcher: the same algorithm as `DetachMatcher` without `feed_byte`.
- Rendering and arithmetic of the attach viewport: whether it is at the tail is a parameter of each round, and stdout here is the output forwarded to it, without the viewport's own drawing. That it stays anchored after output is not claimed.
- Resizing through the manager, and its size history: `Replay` models the live pane's resizes.
- Key encoding tables, focus events, echo text extraction, crossterm, raw stdin, configuration builders, serde and error texts.
- Integer widths of counters and offsets, which are unbounded here; 16-bit parsing is modelled where it rejects input.
- What happens behind a panic: a transcript's text is its bytes here, so a run goes on behind a cut inside a character.
- AttachSession.BlockingAttachSession.Run: the attached loop, which waits for the user without a bound, is cut after a given number of rounds; a run cut there says so, and every clause about finished runs holds for every such number.
- AttachSession.BlockingAttachSession.PollStdin: capture times of stdin chunks are taken not to run back.
- TranscriptRuns.PlainIsSuffix: assumes that no forced flush yields text, which is exactly when the accounts hold.
- TranscriptRuns.TextIsSplitIndependent: assumes that the held prefix stays within its 1024 bytes; beyond them the program flushes early.
