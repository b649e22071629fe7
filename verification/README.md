# A verified model of the server's text, framing and lifecycle cores

The server edits files, runs commands in long-lived shells and keeps background jobs on behalf
of a remote client. Under the wire layer sit a few algorithms and protocols that everything else
trusts: diffs that must turn one text into another, a scanner that must find the end of a
command's output in whatever pieces the terminal delivers it, counters that must not lose a
session, a wake-up that must not get lost. This project models those and proves what they keep,
for all inputs and all runs. Where the code falls short of what its comments or documentation
say, the shortfall is stated as a theorem: a concrete witness, and the exact condition under
which the promise holds.

Strings are byte strings, one `char` per byte. Code that works by changing things step by step
is a method or a class here, proved against a function on values; the theorems are about those
functions, or about every run of a step system.

| module | what it models |
|---|---|
| `Text`, `Lines` | byte-string helpers; texts as lines that keep their newlines |
| `Patch`, `Diff`, `RoundTrip`, `Parsing`, `Applying`, `Reversal` | the unified-diff printer, the patch parser and applier, how they undo one another, what is read as a patch, and when it applies |
| `LineEdit` | the one-pass line editor and the diff made from its windows |
| `Framing` | the bounded buffer and the two scanners of a persistent shell's terminal |
| `Quoting` | shell input quoting, and the argument strings of the policy engine |
| `JobOutput` | chunks, bounded lines, ring, snapshot and byte-limited tail of a job's output |
| `ShellPool` | pools of persistent shells: checkout, return, process death, close |
| `Drain` | request counting, draining and closing of a runtime, one atomic operation per step |
| `Jobs` | the job registry, the life of a job, cancellation and pruning |
| `Markdown` | headings, section ranges and section replacement |
| `LogRotation` | the rotating log file and its numbered backups |
| `JsonPointer` | JSON Pointer (RFC 6901), the outline and the search of a document |
| `FileTail` | the last lines of a file, read backwards in chunks |

## What the proofs found

- A frame that is complete is not always seen: the scan resumes past an echoed `SENTINEL:`, and
  past a sentinel that shares bytes with the one before it. "The first sentinel followed by digits
  ends the command" holds exactly when no sentinel the scan looks at before resumes past the frame
  (`Framing.FirstFrameIsSeenExactly`). Where sentinels do not overlap, that means that no echo
  precedes the frame on its line (`Framing.FirstFrameWinsExactly`); where they do, a frame can be
  missed without any echo (`Framing.OverlapIsMissed`). The frame the staged script prints is on a
  line of its own, and is always seen (`Framing.CommandCompletes`).
- A printed diff restores the new text exactly when every printed line had its newline and no
  deleted line starts with `-- ` (`RoundTrip.DiffRestores`); it names its own file exactly when
  the path has no blank, no quote at its ends and no leading `a/` or `b/`
  (`RoundTrip.DiffNamesItsFile`).
- A deletion that carries content is reported as unchanged, and dropped, exactly when the content
  is the deleted text (`LineEdit.ChangedIsHonestExactly`).
- The short flag of a job's output line is wrong exactly for a line of the allowed length that
  arrived as one piece (`JobOutput.ShortFlagIsHonestExactly`, `JobOutput.ShortFlagDependsOnChunks`);
  the flag of the whole output likewise (`JobOutput.LineFlagIsHonestExactly`).
- A release paused between its decrement and its look at `draining` can close `idle` under a
  running request (`Drain.PausedReleaseClosesEarly`, `Drain.UncleanDrainIsUnsafe`). Setting
  draining is safe exactly when no release is paused there, or no request is running, at that
  moment (`Drain.DrainIsSafeExactly`).
- The comment that every pooled session is ready is not an invariant: a process may die while
  pooled (`ShellPool.PooledSessionMayBeDead`). What holds is that a pooled session is ready or
  dead (`ShellPool.PooledIsReadyOrDead`), and that a checkout never hands out a dead one.
- Closing the pools keeps their counts right if and only if no caller is inside a call
  (`ShellPool.ClosingIsSafeExactly`): it is not enough that nothing is checked out, since a caller
  may already have found its pool (`ShellPool.ClosingUnderRouteBreaksCounts`).
- A cancellation recorded after the worker has looked for one can still end as exited, exactly
  when the worker has seen neither a cancellation nor a timeout and its context is still live, or
  is about to record an exit (`Jobs.CancelIsHonouredExactly`, `Jobs.LateCancelCanExit`).
- Array indices with a sign or leading zeros are accepted, which RFC 6901 does not allow
  (`JsonPointer.IndexAgreesWithStandard`, `JsonPointer.SpellingsOfIndex`).
- A prefix search reports the keys beside the one the prefix names and, as the prefix is compared
  as a text, what lies under longer names; `JsonPointer.PrefixIsRespectedExactly` says when it
  reports nothing outside. Its `truncated` flag is also set when the last match just fits
  (`JsonPointer.JsonSearch`).
- Replacing the body of a final section whose heading line lacks its newline puts the content right
  behind the heading, and may rename it (`Markdown.SectionReadsBack`,
  `Markdown.GluedContentRenames`).

## Model

| member | source | states |
|---|---|---|
| Framing.LimitBuffer.Write | internal/shell/exec_runner.go:183-195 | The buffer always holds the leading bytes of everything written, up to its limit, and the flag is set exactly when this or an earlier write did not fit or came to a full buffer. |
| Framing.LimitBuffer.Report | internal/shell/exec_runner.go:177-195 | When everything decided was written, the buffer is the allowed part of the text and the flag says whether that is all of it; a limit of zero is off, not truncation. |
| Framing.LimitBuffer.constructor | internal/shell/exec_runner.go:177-181 | A new buffer is empty and its flag is clear. |
| Framing.Emit | internal/shell/persistent_shell.go:698-703 | Output decided on is appended to what the buffer stands for, unless output is switched off. |
| Framing.ConsumePending | internal/shell/persistent_shell.go:727-781 | Working off the pending bytes keeps the scan of the whole stream unchanged: either the frame found is the one the whole stream has, with everything before it written, or what is kept back is exactly an undecided suffix, whatever arrives later. |
| Framing.ReadUntilSentinel | internal/shell/persistent_shell.go:687-801 | For every way of cutting the stream into reads, exit code, output and truncation are those of one left-to-right scan of the whole stream; without a frame the whole stream is output when reading fails or is cancelled, with exit code -1. |
| Framing.ConsumeUntilMarker | internal/shell/persistent_shell.go:396-413 | The same for one look at the pending bytes for the start-up marker. |
| Framing.ReadUntilMarker | internal/shell/persistent_shell.go:363-431 | For every way of cutting the stream into reads the output is what precedes the first occurrence of the marker in the whole stream. |
| Framing.MarkerIsFirst | internal/shell/persistent_shell.go:396-413 | That marker is its first occurrence, and without one no text is a hit. |
| Framing.ReadingIs | internal/shell/persistent_shell.go:687-801 | What counts as read is the data of every round up to the first that fails or is cancelled, a failed read's own data included. |
| Framing.ExitCodeIs | internal/shell/persistent_shell.go:758-774 | A line gives an exit code exactly when it is decimal digits with nothing but white space around them; the code is their value, or -1 when it does not fit an `int`. |
| Text.SpacesAreUnicode | internal/shell/persistent_shell.go:758-758 | What is trimmed as white space is exactly the UTF-8 spelling of a character with the property White_Space of the Unicode standard. |
| Framing.JudgeIsExactly | internal/shell/persistent_shell.go:742-774 | What every text behind a sentinel means, written out: a status is a colon, such a line, and a CR or LF; any other line behind a colon is an echo through its line end; nothing behind the sentinel, or a colon without a line end yet, is undecided; anything else is ordinary output. |
| Framing.ScanIsSound | internal/shell/persistent_shell.go:742-770 | Nothing but a complete frame (sentinel, colon, a line of digits with white space around them at most, line end) ever ends a command, the output is everything before it and the exit code is the one it spells; echoed false hits never end it. |
| Framing.UncoveredFrameIsSeen | internal/shell/persistent_shell.go:727-770 | A complete frame that no earlier sentinel swallows ends the command, unless an earlier frame does. |
| Framing.FrameOnOwnLineWins | internal/shell/persistent_shell.go:727-770 | The first complete frame ends the command whenever it starts a line. |
| Framing.EchoHidesFrame | internal/shell/persistent_shell.go:759-768 | A frame with an echoed `SENTINEL:` further left on its line is swallowed with that echo. |
| Framing.FirstFrameIsSeenExactly | internal/shell/persistent_shell.go:687-801 | For every stream and every sentinel, overlapping ones included: the first complete frame ends the command with what precedes it and its exit code if and only if the scan looks at it, that is, no sentinel it looked at before resumes past it. |
| Framing.FirstFrameWinsExactly | internal/shell/persistent_shell.go:742-770 | Where sentinels do not overlap that is so if and only if no echoed `SENTINEL:` precedes the frame on its line. |
| Framing.OverlapIsMissed | internal/shell/persistent_shell.go:742-750 | For every sentinel of the generated form: of two that share their underscores, the frame of the second is complete, but the scan has already passed its start. |
| Framing.EchoOnLineIsMissed | internal/shell/persistent_shell.go:759-768 | For every such sentinel: a frame behind `SENTINEL:x ` on one line is swallowed with the echo. |
| Framing.CommandCompletes | internal/shell/persistent_shell.go:620-644 | End to end with the frame the staged script prints, with or without CR: a command whose own output completes no frame is reported with exactly its output and exit code. |
| Quoting.QuotedIsRead | internal/shell/persistent_shell.go:59-64 | Any bytes put between single-quotes, with their own quotes replaced, are read back by the rules of sections 2.2.2 and 2.2.3 of POSIX.1-2024 XCU, as a part of the word in progress. |
| Quoting.AnsiBytesAreRead | internal/shell/persistent_shell.go:105-122 | Dollar-single-quoted bytes are read back by the rules of section 2.2.4, byte for byte. |
| Quoting.LineIsReadBack | internal/shell/persistent_shell.go:74-93 | Reading the joined input line back gives exactly the argument vector, for every shell and all NUL-free bytes. |
| Quoting.LineIsClean | internal/shell/persistent_shell.go:74-122 | For bash and zsh the line contains no control byte, whatever the arguments hold. |
| Quoting.PlainQuoteIsSame | internal/shell/persistent_shell.go:74-93 | Without control bytes every shell gets the same single-quoted text. |
| Quoting.QuotedArgIsRead | internal/policy/policy.go:212-220 | A quoted policy argument is read back as a part of the word in progress. |
| Quoting.PlainArgStands | internal/policy/policy.go:212-220 | A non-empty argument without white space, quotes and backslashes stands as it is. |
| Quoting.ArgsAreReadBack | internal/policy/policy.go:204-220 | A small reader recovers every argument list from its policy string, empty and quoted arguments included. |
| Quoting.JoinArgsIsInjective | internal/policy/policy.go:204-220 | Two argument lists have the same policy string if and only if they are the same list. |
| Patch.ParseHunk | internal/fsx/unified_patch.go:215-254 | The loop reads the header's numbers and exactly the body lines up to the next hunk or file, with its error for a header it cannot read. |
| Patch.ParseFileHunks | internal/fsx/unified_patch.go:194-209 | The loop collects the hunks of one file up to the next file. |
| Patch.ParseUnifiedPatch | internal/fsx/unified_patch.go:169-213 | The loop's files are those of the recursive reading of the patch, with the same errors. |
| Parsing.EndsAre | internal/fsx/unified_patch.go:235-238 | A hunk ends before a line that starts with `@@ `, `--- ` or `diff --git `, a file before one of the last two, whatever follows on the line. |
| Parsing.BodyIsExactly | internal/fsx/unified_patch.go:233-253 | The body of a hunk reaches up to the first line that ends it or is neither a body line nor the remark about a missing newline, and says what the lines before that say, remarks skipped. |
| Parsing.PatchesInARow | internal/fsx/unified_patch.go:169-213 | Of two patches in a row, the first terminated and readable, the files of both are read, in order. |
| Parsing.QuotesAreTrimmed | internal/fsx/unified_patch.go:256-260 | All quotes at the ends of a path go, and nothing else. |
| Patch.ApplyHunkLines | internal/fsx/unified_patch.go:288-307 | The loop over a hunk body emits and consumes what the body says, or fails at the first context or deletion that does not match. |
| Patch.ApplyFilePatch | internal/fsx/unified_patch.go:278-312 | The result is that of applying the hunks one after another, with every line outside them copied, or the first error. |
| Applying.BodyAppliesExactly | internal/fsx/unified_patch.go:292-307 | A hunk body applies at a place if and only if the file holds there exactly the lines the body covers; it leaves its context and inserted lines. |
| Applying.HunksApplyExactly | internal/fsx/unified_patch.go:278-312 | The hunks of a file apply if and only if each finds what it covers at the line its header names (0 means the start), not before the end of the one before; the result is the untouched lines and what the hunks leave, in order. |
| Applying.PatchAppliesExactly | internal/fsx/unified_patch.go:278-312 | The same for texts. |
| Applying.NewFileApplies | internal/fsx/unified_patch.go:283-286 | A hunk at old line 0 that only inserts always applies: it makes a new file, and puts its lines in front of one that is there. |
| Applying.HeaderIsReadExactly | internal/fsx/unified_patch.go:215-232 | A line is read as a hunk header if and only if it has the form of one, a missing count being 1 and too large a number the largest `int`. |
| Diff.CommonPrefixLines | internal/fsx/diff.go:86-94 | The longest common prefix. |
| Diff.CommonSuffixLines | internal/fsx/diff.go:96-104 | The longest common suffix. |
| Diff.OutsideRegion | internal/fsx/diff.go:42-53 | Before and after the changed region the two versions agree line by line. |
| Diff.RegionIsExact | internal/fsx/diff.go:42-53 | What is deleted and inserted share neither first nor last line, and on each side the context is the smaller of what is wanted and what is there. |
| Diff.WriteRun | internal/fsx/diff.go:57-83 | A run is written line by line, in full or up to the first line past the byte limit. |
| Diff.FormatSingleRegionUnifiedDiffAt | internal/fsx/diff.go:35-84 | Early exits included, the text is the complete diff cut to the byte limit, and the flag says whether it was cut. |
| Diff.CompactUnifiedDiff | internal/fsx/diff.go:8-18 | Equal texts have no diff; others the limited diff of their lines. |
| RoundTrip.HeaderParses | internal/fsx/unified_patch.go:215-226 | A printed hunk header is read back to its four numbers, up to the largest 64-bit integer. |
| RoundTrip.BodyParses | internal/fsx/unified_patch.go:233-253 | Printed body lines that do not look like the start of a file are read back, kind and text. |
| RoundTrip.DiffParses | internal/fsx/unified_patch.go:169-254 | The printed diff parses to one file with one hunk: the printed one. |
| RoundTrip.CountsAreTruthful | internal/fsx/diff.go:56-56 | The counts in the printed header are the numbers of old and new lines its body covers. |
| RoundTrip.PrintedExample | internal/fsx/diff.go:35-84 | The printed text for one changed line, byte for byte, for all paths, lines and amounts of context. |
| RoundTrip.BodyApplies | internal/fsx/unified_patch.go:288-307 | Applied to the file its window comes from, a printed body emits the window's new lines and consumes its old ones. |
| RoundTrip.HunkApplies | internal/fsx/unified_patch.go:278-312 | The printed hunk replaces its window in the file and touches nothing else. |
| RoundTrip.HunkOutcome | internal/fsx/unified_patch.go:278-312 | What applying the printed hunk gives in every case: it fails if an old line it covers lacked its newline, and adds a newline if a new one did. |
| RoundTrip.DashedDeletionCuts | internal/fsx/unified_patch.go:236-238 | A deleted line that starts with `-- ` ends the hunk: the diff no longer parses to one file. |
| RoundTrip.WindowRestores | internal/fsx/unified_patch.go:278-312 | A diff made from a window of a file, applied to the whole file, gives a text no longer than the spliced file if and only if it is printable and the text is the spliced file. |
| RoundTrip.DiffRestores | internal/fsx/diff.go:8-84 | The round trip, for any two texts, context and strip count: printing, parsing and applying gives one file, one hunk, truthful counts and exactly the new text, if and only if every printed line had its newline and no deleted line starts with `-- `. |
| RoundTrip.DiffRestoresTerminated | internal/fsx/diff.go:127-132 | For texts that are empty or end with a newline only the deleted lines matter. |
| RoundTrip.CleanPathIsPlain | internal/fsx/unified_patch.go:256-276 | Cleaning gives a path back if and only if it is plain. |
| RoundTrip.CleanPathIs | internal/fsx/unified_patch.go:256-276 | Of a path without blanks and without quotes at its ends: the name of no file stays; of any other a leading `a/` or `b/` goes, then the components to be stripped. |
| RoundTrip.StripIs | internal/fsx/unified_patch.go:268-274 | Stripping takes one component after another, and leaves `.` where none is left to take. |
| RoundTrip.DiffNamesItsFile | internal/fsx/unified_patch.go:256-276 | With no components stripped, the parsed diff names the path it was printed for if and only if the path has no blank, no quote or white space at its ends, and no leading `a/` or `b/`. |
| Reversal.BodyReverses | internal/fsx/unified_patch.go:288-307 | Where a hunk body emitted its lines, the body with insertions and deletions exchanged takes them back; lines are gained by insertions less deletions. |
| Reversal.HunksReverse | internal/fsx/unified_patch.go:278-312 | The same for all hunks of a file, with their starts recomputed. |
| Reversal.PatchReverses | internal/fsx/unified_patch.go:278-312 | Whenever a patch of any number of hunks, whose inserted lines are terminated lines, applies to a newline-terminated text, its reverse applies to the result and restores the text, and the line count changed by insertions minus deletions. |
| Reversal.PatchTextReverses | internal/fsx/unified_patch.go:169-312 | So every file parsed from a newline-terminated patch text can be undone wherever it applies to a newline-terminated text. |
| LineEdit.LineBuffer.Add | internal/fsx/line_edit.go:30-48 | The buffer always holds the last lines added. |
| LineEdit.Pass.MakeEdit | internal/fsx/line_edit.go:242-295 | At its line the edit is made, or its range begun, and the pass state stays that of a splice. |
| LineEdit.Pass.Feed | internal/fsx/line_edit.go:217-320 | One more line keeps the pass state; an error is the one the whole edit is refused with. |
| LineEdit.ApplyLineEdit | internal/fsx/line_edit.go:165-379 | Reading the file once with small windows gives the line-sequence splice and the exact windows around it, or the first error in file order: NUL byte, unexpected line start, line or range past the end. |
| LineEdit.CompactLineEditDiff | internal/fsx/line_edit.go:402-406 | The diff is printed from the windows and the base line alone. |
| LineEdit.EditLines | internal/fsx/line_edit.go:50-146 | On the arguments as given: exactly when each error is reported, and for each operation which lines are replaced by what, a missing end line standing for the line itself; the file becomes the staged one exactly when the pass reports a change and it is no dry run. |
| LineEdit.WindowOfFile | internal/fsx/line_edit.go:346-379 | The old window sits in the file at the base line, and replacing it there by the new window is the splice of the whole file. |
| LineEdit.WindowsAreExact | internal/fsx/line_edit.go:346-379 | The windows are the changed lines and, on each side, the smaller of the context wanted and what is there. |
| LineEdit.EditDiffRestores | internal/fsx/line_edit.go:165-406 | The diff made from the windows turns the whole original file into the staged bytes if and only if it is printable and a deletion carries no content. |
| LineEdit.EditDiffRestoresTerminated | internal/fsx/line_edit.go:165-406 | For newline-terminated file and content only deleted lines that start with `-- ` can break it. |
| LineEdit.ChangedIsHonestExactly | internal/fsx/line_edit.go:347-347 | The change flag tells whether the staged file differs, if and only if the edit is not a deletion whose content is the deleted text. |
| JobOutput.AppendKeepsLast | internal/shell/job_output_stream.go:178-193 | Appending keeps the last bytes of the whole line and flags it when bytes are lost, or when one piece alone fills the limit. |
| JobOutput.FedIsExact | internal/shell/job_output_stream.go:178-193 | However a line arrives in pieces, its last bytes are kept, and it is flagged exactly when it is too long or one piece alone has the allowed length. |
| JobOutput.ShortFlagIsHonestExactly | internal/shell/job_output_stream.go:178-193 | The flag of a line says whether bytes are missing if and only if the line is not one of exactly the allowed length that arrived as one piece. |
| JobOutput.ShortFlagDependsOnChunks | internal/shell/job_output_stream.go:182-185 | Two ways to deliver the same line of the allowed length that differ in the flag. |
| JobOutput.OutputLineRing.Add | internal/shell/job_output_stream.go:219-238 | The ring holds the newest lines, and its flags speak of all lines ever added. |
| JobOutput.OutputLineRing.TakeSnapshot | internal/shell/job_output_stream.go:240-251 | A snapshot is the newest lines, oldest first, with those flags. |
| JobOutput.ProcessChunk | internal/shell/job_output_stream.go:150-164 | After a chunk the ring and the partial line stand for the lines taken in so far, each as the pieces it came in, plus the chunk. |
| JobOutput.CutOfCuts | internal/shell/job_output_stream.go:150-164 | The lines that cutting the chunks collects, pieces joined, are the lines of the chunks joined. |
| JobOutput.LinesAreExact | internal/shell/job_output_stream.go:150-164 | The completed lines, each with its newline, and the text after them are the output, and none holds a newline. |
| JobOutput.Publish | internal/shell/job_output_stream.go:166-176 | The published snapshot is the ring's lines and the line in progress. |
| JobOutput.JobOutputStream.Write | internal/shell/job_output_stream.go:84-100 | A chunk is accepted whole or dropped whole and counted, dropped only when the channel is full, and nothing is accepted after closing. |
| JobOutput.JobOutputStream.CloseAndFlush | internal/shell/job_output_stream.go:102-120 | Closing keeps what was accepted. |
| JobOutput.JobOutputStream.Receive | internal/shell/job_output_stream.go:133-148 | The worker takes in the oldest accepted chunk and the snapshot follows. |
| JobOutput.JobOutputStream.Finish | internal/shell/job_output_stream.go:133-148 | At the end everything accepted has been taken in and the last line is a line. |
| JobOutput.JobOutputStream.Tail | internal/shell/job_output_stream.go:122-131 | The tail is that of the newest snapshot, with the number of lines asked for, or 200. |
| JobOutput.JobOutputStream.constructor | internal/shell/job_output_stream.go:56-82 | A new stream is empty, its limits made positive. |
| JobOutput.LinesToLimitedText | internal/shell/job_output_stream.go:278-318 | The loop from the end keeps whole lines while they fit, or the last bytes of a single long one; the flags say whether a line or the text was shortened. |
| JobOutput.TailOutputSnapshot | internal/shell/job_output_stream.go:253-276 | The tail of a snapshot is the limited text of its last lines, with the snapshot's flags. |
| JobOutput.RunningSnapshot | internal/shell/job_output_stream.go:133-176 | While the job runs, the snapshot shows the last lines of the bytes taken in, each cut to its last bytes, however they were split into chunks. |
| JobOutput.FinalSnapshot | internal/shell/job_output_stream.go:133-176 | After the final flush the snapshot shows the last `MaxLines` lines of all accepted chunks, each cut to its last `MaxLineBytes` bytes, and the flag says exactly whether lines were lost. |
| JobOutput.LineFlagIsExact | internal/shell/job_output_stream.go:178-193 | Every line of the output is kept and flagged by itself, from the pieces the accepted chunks cut it into, and the flag of the snapshot is set exactly when one of them is too long or has a piece of the allowed length. |
| JobOutput.LineFlagIsHonestExactly | internal/shell/job_output_stream.go:178-193 | So that flag says whether a line lost bytes if and only if one did, or no line of exactly the allowed length arrived as one piece. |
| JobOutput.ClearFlagsMeanComplete | internal/shell/job_output_stream.go:253-318 | With all flags clear the tail is exactly the last lines of the raw output, and with nothing dropped that is the output the command wrote. |
| JobOutput.TailIsBoundedSuffix | internal/shell/job_output_stream.go:278-318 | With a positive cap the tail is a suffix of the joined lines within the cap, and the flag is set exactly when it is a proper one. |
| JobOutput.TailIsExact | internal/shell/job_output_stream.go:253-318 | What a tail reports, on the snapshot and the wanted number of lines themselves: the text is what the cap lets through of exactly those lines, and what each flag says. |
| JobOutput.CutTailIsLongest | internal/shell/job_output_stream.go:278-318 | A cap that cuts keeps as many whole last lines as fit, or the last bytes of a last line that does not. |
| ShellPool.PersistentShellPool.CheckoutLocked | internal/shell/persistent_shell_runner.go:203-230 | The locked loop is the checkout that the theorems speak of. |
| ShellPool.PersistentShellPool.ReturnLocked | internal/shell/persistent_shell_runner.go:249-278 | The locked section of a return keeps the session, ready, or frees its slot, also when its process dies in between. |
| ShellPool.TakeIs | internal/shell/persistent_shell_runner.go:209-223 | A checkout discards just the sessions before the first ready one, each gives back exactly one slot, and what it hands out was ready. |
| ShellPool.CheckoutIs | internal/shell/persistent_shell_runner.go:203-230 | A ready session, else a new one if a slot is free, else busy, with the pool left behind in each case. |
| ShellPool.HandBackIs | internal/shell/persistent_shell_runner.go:249-285 | A return keeps the session, ready, and the count, exactly if it is ready or in use and its process does not die; else it frees exactly one slot; no other session changes. |
| ShellPool.RunKeepsInv | internal/shell/persistent_shell_runner.go:189-368 | Every interleaving of checkout, use, death and return, with closes only while no caller is inside a call, keeps the books: counts, places, and who knows which pool. |
| ShellPool.CountsAreConserved | internal/shell/persistent_shell_runner.go:203-285 | In every run in which pools are closed only while no caller is inside a call (holding, handing back, or between finding its pool and checking out), each pool's count is its pooled sessions plus those checked out of it, never negative and never above the size. |
| ShellPool.SessionsAreExclusive | internal/shell/persistent_shell_runner.go:203-285 | No session is pooled twice, in two pools, held twice, or both pooled and held. |
| ShellPool.CheckoutIsSound | internal/shell/persistent_shell_runner.go:203-230 | A session handed out is ready or new and nobody else's; a caller is turned away only when every slot is in use. |
| ShellPool.SlotWasTaken | internal/shell/persistent_shell_runner.go:281-285 | The `count > 0` guard of a release never matters. |
| ShellPool.PooledIsReadyOrDead | internal/shell/persistent_shell_runner.go:208-222 | In every run a pooled session is ready if and only if its process has not died. |
| ShellPool.PooledSessionMayBeDead | internal/shell/persistent_shell_runner.go:208-222 | A run that ends with a dead session in a pool: the comment that every pooled session is ready is not an invariant. |
| ShellPool.ClosingUnderHolder | internal/shell/persistent_shell_runner.go:348-368 | From every sound state with a session out, closing leads to a wrong count. |
| ShellPool.ClosingUnderRouted | internal/shell/persistent_shell_runner.go:348-368 | So it does with nothing out but a caller about to check out. |
| ShellPool.ClosingIsSafeExactly | internal/shell/persistent_shell_runner.go:348-368 | In every sound state, closing keeps the counts right from then on, whatever happens, if and only if no caller is inside a call. |
| ShellPool.ClosingEarlyBreaksCounts | internal/shell/persistent_shell_runner.go:348-368 | A run for every pool size: with a session out while pools are closed, its late return is pooled uncounted in the new pool. |
| ShellPool.ClosingUnderRouteBreaksCounts | internal/shell/persistent_shell_runner.go:348-368 | Another: with nothing out but a caller about to check out, a forgotten pool counts a session forever. |
| ShellPool.IdlePoolsCanBeClosed | internal/shell/persistent_shell_runner.go:348-368 | Whenever no caller is inside a call, the pools can be closed and each emptied. |
| Drain.RuntimeState.CloseIdle | cmd/personal-mcp-server/runtime_lifecycle.go:93-97 | Whoever finds the flag unset closes `idle`; nobody else does. |
| Drain.RuntimeState.Release | cmd/personal-mcp-server/runtime_lifecycle.go:74-81 | A release that nothing interrupts is its thread's atomic operations in a row. |
| Drain.RuntimeState.Acquire | cmd/personal-mcp-server/runtime_lifecycle.go:62-72 | So is an acquire, which admits the request exactly when the runtime is not draining and otherwise undoes its count. |
| Drain.RuntimeState.Drain | cmd/personal-mcp-server/runtime_lifecycle.go:83-91 | So is a drain. |
| Drain.RunKeepsInv | cmd/personal-mcp-server/runtime_lifecycle.go:62-118 | Every interleaving of the atomic operations keeps the counts, the order of closing and the wake-up. |
| Drain.ClosesOnce | cmd/personal-mcp-server/runtime_lifecycle.go:93-118 | In every run `idle` is closed at most once and only while draining; resources are torn down at most once and only after. |
| Drain.CloseCannotHang | cmd/personal-mcp-server/runtime_lifecycle.go:74-102 | Once draining is set, whenever no call is midway and no request is admitted `idle` is closed already, so every waiting `Close` goes on. |
| Drain.CloseWaitsAndTearsDown | cmd/personal-mcp-server/runtime_lifecycle.go:99-118 | In every run, a `Close` that has begun is not over while `idle` is open, and when it is over `idle` has been closed and the resources are torn down, once. |
| Drain.NoRequestAfterIdle | cmd/personal-mcp-server/runtime_lifecycle.go:62-97 | In every run in which no release was paused at zero when draining was set, no admitted request runs once `idle` is closed. |
| Drain.DrainIsSafeExactly | cmd/personal-mcp-server/runtime_lifecycle.go:74-91 | At the step that sets draining: along every continuation no admitted request runs once `idle` is closed, if and only if no release is paused at zero then, or no request is running then. |
| Drain.DrainingIsSafeExactly | cmd/personal-mcp-server/runtime_lifecycle.go:62-97 | The same for every sound draining state: if and only if no request is running, or `idle` is open and no thread is committed to closing it. |
| Drain.UndrainedGoesWrong | cmd/personal-mcp-server/runtime_lifecycle.go:62-97 | From every sound state before draining some continuation closes `idle` under a running request. |
| Drain.SafeFromExactly | cmd/personal-mcp-server/runtime_lifecycle.go:62-97 | So a sound state is safe for good if and only if draining is set in it and one of those two holds. |
| Drain.DrainingAdmitsNobody | cmd/personal-mcp-server/runtime_lifecycle.go:62-72 | A draining runtime stays so and admits nobody. |
| Drain.PausedReleaseClosesEarly | cmd/personal-mcp-server/runtime_lifecycle.go:78-80 | From every state with a release paused at zero before draining, `idle` can be closed while a later-admitted request runs. |
| Drain.UncleanDrainIsUnsafe | cmd/personal-mcp-server/runtime_lifecycle.go:74-97 | A run from the start that closes `idle` while a request is running. |
| Jobs.CommandJob.FinishLocked | internal/shell/jobs.go:468-486 | The locked section is the recording step of the model: a recorded cancellation turns a failure or a timeout into a cancellation. |
| Jobs.CommandJob.RequestCancelLocked | internal/shell/jobs.go:488-499 | A finished job is left alone; any other is marked. |
| Jobs.Registry.RegisterLocked | internal/shell/jobs.go:205-221 | A job is taken exactly when there is room, and the count follows. |
| Jobs.Registry.RemoveFinishedLocked | internal/shell/jobs.go:242-251 | A worker leaves the count; the job stays in the map. |
| Jobs.Registry.RemoveExpiredLocked | internal/shell/jobs.go:253-264 | The loop drops exactly the jobs that still are the ones found expired. |
| Jobs.Registry.PruneFinishedJobs | internal/shell/jobs.go:382-395 | A pruning pass that nothing interrupts drops exactly the expired jobs. |
| Jobs.ExpiredByKey | internal/shell/jobs.go:253-264 | With fresh ids that is dropping the expired ids, the step of the model. |
| Jobs.RunKeepsInv | internal/shell/jobs.go:138-264 | Every interleaving of registering, running, cancelling, expiring, finishing and pruning keeps the registry and every job sound. |
| Jobs.ActiveCountIsExact | internal/shell/jobs.go:205-251 | The count of active jobs is the number of workers not yet deregistered, between 0 and 16. |
| Jobs.UnfinishedJobsStayFindable | internal/shell/jobs.go:253-264 | However pruning interleaves, an unfinished job can be looked up. |
| Jobs.FinishedJobsCanBePruned | internal/shell/jobs.go:242-264 | From every state a recorded job can leave the count and a pruning pass follow; it drops the job if and only if it has been finished for more than an hour. |
| Jobs.FinishedJobsReportTruly | internal/shell/jobs.go:468-486 | A finished job's result says timed out exactly when its status does, and a job with a recorded cancellation ended as cancelled or exited. |
| Jobs.OutcomeIs | internal/shell/jobs.go:180-203 | What a worker's choice and record come to, for every job it can choose for. |
| Jobs.FailedStartIs | internal/shell/jobs.go:138-158 | The same for a process that could not be started. |
| Jobs.TimeoutIsReported | internal/shell/jobs.go:189-203 | Along every continuation a job whose deadline passed before its worker chose ends as timed out, and its result says so, unless a cancellation was recorded. |
| Jobs.ContextEndsOnce | internal/shell/jobs.go:160-167 | The context of a job ends by the cancellation or by the deadline, whichever comes first. |
| Jobs.JobCanTimeOut | internal/shell/jobs.go:138-203 | A run from the start in which a job ends as timed out. |
| Jobs.OutcomeIsFinal | internal/shell/jobs.go:488-499 | Once finished, status, finishing time and result never change. |
| Jobs.CancelIsHonouredExactly | internal/shell/jobs.go:160-203 | In every sound state, a recorded cancellation makes the job end as cancelled along every continuation if and only if its worker has yet to look, has seen a cancellation, a timeout or a context that is done, or is recording anything but an exit. |
| Jobs.EscapesCancel | internal/shell/jobs.go:160-203 | In all other states at most two steps of the worker lead to a job that ended as exited. |
| Jobs.CancelInTimeIsHonoured | internal/shell/jobs.go:160-203 | In particular in every run in which it was recorded before the worker looked. |
| Jobs.LateCancelCanExit | internal/shell/jobs.go:160-203 | A run from the start in which a cancellation is recorded just after the look and the job ends as exited. |
| Markdown.MarkdownHeadings | internal/fsx/markdown.go:72-106 | The loop over fence state finds the headings outside fences, each at its line. |
| Markdown.HeadingsAreUnfenced | internal/fsx/markdown.go:81-93 | Every heading is a heading line with no fence open before it. |
| Markdown.UnfencedAreHeadings | internal/fsx/markdown.go:81-104 | Conversely every heading line with no fence open before it is a heading. |
| Markdown.FenceIsOpen | internal/fsx/markdown.go:81-93 | A fence is open exactly if a line opened it, with no other open, and none since carried its marker. |
| Markdown.SectionRanges | internal/fsx/markdown.go:45-70 | Every section ends before the next heading that is not deeper, or with the document. |
| Markdown.SectionEndIs | internal/fsx/markdown.go:52-68 | Every section ends just before the next heading of at most its level, or with the document if there is none; the headings inside are deeper. |
| Markdown.SectionsAreLaminar | internal/fsx/markdown.go:52-68 | Two sections are disjoint or nested, and a nested one is strictly deeper. |
| Markdown.HeadingsOfSum | internal/fsx/markdown.go:72-106 | The headings of a document are those of its parts, given the fence the first part leaves open. |
| Markdown.HeadingsMove | internal/fsx/markdown.go:72-106 | Moving a text moves its headings and changes nothing else about them. |
| Markdown.MarkdownReplaceSection | internal/fsx/tools.go:1668-1676 | The new text is the lines before, the content byte for byte, a newline exactly if there is content that does not end with one, and the lines after. |
| Markdown.ReplaceSplits | internal/fsx/markdown.go:159-168 | Split again, the new text has the old lines around the lines of the content. |
| Markdown.ReplacingKeepsOthers | internal/fsx/tools.go:1668-1676 | After replacing a section or its body, every heading outside is there in title, level and order, those after it moved by the change in length, if and only if the content leaves no fence open before what follows. |
| Markdown.NewEnd | internal/fsx/markdown.go:55-66 | The re-parsed section ends right after its new body if and only if that has only deeper headings and leaves no fence open before what follows. |
| Markdown.SectionReadsBack | internal/fsx/tools.go:1629-1629 | For every document: after replacing a body the section is there under its heading and reads as its heading line and the content with its final newline, if and only if the content has only deeper headings, leaves no fence open before what follows, and, behind a heading line without a newline, leaves that heading as it is. |
| Markdown.GluedContentRenames | internal/fsx/tools.go:1673-1674 | Replacing the body of an unterminated final `# A` by `b` leaves a section called `Ab`. |
| LogRotation.ShiftBackups | internal/logwriter/writer.go:184-195 | Renaming from the highest number down moves every backup up by one and loses only the oldest. |
| LogRotation.RotatingFile.constructor | internal/logwriter/writer.go:135-154 | The file is taken over as it is, with the default size limit where none is given. |
| LogRotation.RotatingFile.RotateIfNeeded | internal/logwriter/writer.go:174-203 | The log rotates exactly when the entry would not fit. |
| LogRotation.RotatingFile.Write | internal/logwriter/writer.go:156-163 | The entry is appended after that rotation. |
| LogRotation.RotationLosesOldest | internal/logwriter/writer.go:174-203 | A rotation loses exactly the oldest backup when all numbers are in use (without backups, the live file), keeps the rest in order, and leaves an empty live file. |
| LogRotation.WriteKeepsSuffix | internal/logwriter/writer.go:156-163 | After a write the kept data is a suffix of what was kept plus the entry. |
| LogRotation.KeepsTheNewest | internal/logwriter/writer.go:156-203 | After any writes the backups from the highest number down and then the live file are a suffix of everything written, with at most `maxBackups` backups. |
| LogRotation.WriteStaysModest | internal/logwriter/writer.go:156-203 | A write keeps every file created in the run modest and puts the entry at the end of the live file. |
| LogRotation.FilesStayModest | internal/logwriter/writer.go:156-203 | After any writes each file created in the run is within the limit or holds exactly one entry. |
| JsonPointer.UnescapeToken | internal/fsx/json_nav.go:312-333 | The loop decodes the token, or reports the first bad escape. |
| JsonPointer.UnescapeEscape | internal/fsx/json_nav.go:312-337 | Unescaping undoes escaping, and an escaped token holds no slash. |
| JsonPointer.EscapeUnescape | internal/fsx/json_nav.go:312-337 | Escaping undoes unescaping: every token has one spelling. |
| JsonPointer.ResolveJSONPointer | internal/fsx/json_nav.go:276-310 | The loop descends token by token, with the error of the first token that fails. |
| JsonPointer.JoinedPointerIsOneStep | internal/fsx/json_nav.go:339-344 | Resolving a joined pointer is one child step from what the base resolves to, and fails as the base does, for every base and token. |
| JsonPointer.PlainIsItoa | internal/fsx/json_nav.go:296-303 | The indices section 4 of RFC 6901 allows are the decimal renderings. |
| JsonPointer.SpellingsOfIndex | internal/fsx/json_nav.go:296-303 | The tokens read as an index are its decimal rendering after any number of zeros and an optional sign, a minus only for zero. |
| JsonPointer.IndexAgreesWithStandard | internal/fsx/json_nav.go:296-303 | An array token is read as RFC 6901 has it if and only if it has no sign and no leading zero, or spells no index of the array. |
| JsonPointer.LooseIndexIsAccepted | internal/fsx/json_nav.go:296-303 | `-00` is accepted as index 0. |
| JsonPointer.LookupMisses | internal/fsx/json_nav.go:290-294 | A key is not found exactly when no member has it. |
| JsonPointer.ChildIsExactly | internal/fsx/json_nav.go:288-306 | A token leads to a child if and only if it is the key of that member, or spells the index of that element; at a scalar none does. |
| JsonPointer.UnrootedIsRefused | internal/fsx/json_nav.go:276-282 | A pointer that is not empty and does not start with a slash is an error. |
| JsonPointer.ChildPointerResolves | internal/fsx/json_nav.go:339-344 | The pointer made for a child resolves to that child. |
| JsonPointer.OutlineDescribes | internal/fsx/json_nav.go:346-386 | Every node of an outline, at every depth, has a pointer that resolves to a value of its type with as many children as it says; it lists, in order, the smaller of their number and `maxChildren`, and none from `maxDepth` on, and is marked truncated exactly when some are missing. |
| JsonPointer.Search | internal/fsx/json_nav.go:193-257 | The limited walk adds the first matches of the unlimited depth-first one, up to the limit. |
| JsonPointer.JsonSearch | internal/fsx/json_nav.go:165-262 | A limited search returns the first `limit` matches of the unlimited one; the flag is set when there are at least as many, so it says whether something is missing if and only if their number is not exactly the limit. |
| JsonPointer.SearchIsExact | internal/fsx/json_nav.go:193-257 | The walk reports exactly the matching scalars at allowed pointers and the matching keys of objects at allowed pointers, wherever they are in the document. |
| JsonPointer.SearchPointersResolve | internal/fsx/json_nav.go:193-257 | Every reported pointer resolves to the very node it was reported for. |
| JsonPointer.PrefixIsRespectedExactly | internal/fsx/json_nav.go:201-256 | A search reports nothing outside its prefix, as texts or as pointers, if and only if no node it visits outside the prefix is a matching scalar or has a matching key that leads outside. |
| JsonPointer.AllowedIs | internal/fsx/json_nav.go:204-206 | A node is visited if and only if its pointer starts with the prefix, or the prefix with it. |
| JsonPointer.PrefixLetsSiblingsThrough | internal/fsx/json_nav.go:201-216 | A search below `/a` that reports the key `/b`. |
| JsonPointer.PrefixLetsLongerNamesThrough | internal/fsx/json_nav.go:204-206 | A search below `/a` that reports the value at `/ab`. |
| FileTail.CountLinesIsExact | internal/fsx/read_tools.go:328-337 | Counting newlines, and a last line without one, counts the lines. |
| FileTail.LastLinesOfSuffix | internal/fsx/read_tools.go:303-307 | A suffix with more lines than wanted has the last lines of the whole file. |
| FileTail.PartsAreLines | internal/fsx/read_tools.go:313-316 | Splitting at newlines and dropping the empty end gives the lines, less their newlines. |
| FileTail.TailTextFile | internal/fsx/read_tools.go:261-326 | For every chunk size the text is the last lines of the part of the file the byte cap allows, all terminated; the flag is set exactly when part of the file is missing; bytes read never exceed the cap; the file is refused exactly when a byte read is NUL. |
| FileTail.TailLinesAre | internal/fsx/read_tools.go:261-326 | Those lines written out: of the last `maxBytes` bytes, if there is a cap, the last `lines` lines. |
| FileTail.TerminatedTailIsVerbatim | internal/fsx/read_tools.go:261-326 | Of a file that ends with a newline the tail is a verbatim suffix. |

## Left out

- Framing: what the scanners do once the compinit prompt appears is modelled, but the theorem about cutting only speaks of streams without that text, since the check looks at the pending bytes alone.
- FirstFrameWinsExactly: speaks of streams in which no two occurrences of the sentinel share bytes; `FirstFrameIsSeenExactly` speaks of all. A generated sentinel is fixed text and random hex digits, and can overlap another only in its underscores.
- ReadUntilSentinel: timers, sleeping between reads and killing the shell are not modelled; a round of reading is some bytes with an outcome, or a cancelled context.
- The start-up probing with repeated random markers (`readUntilLatestReadyMarker`) and the wait for quiescence are driven by time.
- Quoting: whether a shell is bash or zsh is decided from its file name in the source, and is a case of a datatype here. NUL bytes, which no argument of a process can hold, are excluded. The reader covers what quoted arguments use; unquoted special characters, expansions and the other escapes of section 2.2.4 are refused by it.
- Patch: the hunk header is read by a hand-written parser instead of Go's regular expressions, and path separators are those of Unix.
- DiffRestores: texts have fewer lines than the largest 64-bit integer, the path is one line, and the byte limit does not cut the diff; a cut diff ends in a remark the parser skips or trips over.
- DiffNamesItsFile: is about a strip count of zero; with more, components are removed on purpose.
- PatchReverses: inserted lines are taken to be terminated lines; `PatchTextReverses` shows it of every patch text that ends with a newline. A patch text that does not may insert a last line without one.
- LineEdit: the staged file, backup, rename and sync are a value here; a failing file system and a negative number of context lines are not modelled.
- JobOutput: the counter of dropped chunks is unbounded here and 64-bit in the source; the bounded wait of `CloseAndFlush` for the worker is not modelled, so a snapshot read after it may be a running one.
- ShellPool, Drain and Jobs: interleavings are runs of a step system on values, in which each locked section or atomic operation is one step; the classes beside it are the code of those steps. `Close` of a runtime, which blocks, is only in the step system. Processes, signals and timers are environment steps; what a session does while held is any change of its state.
- CountsAreConserved: pools are closed only while no caller is inside a call; `ClosingIsSafeExactly` shows that this is needed, in every state.
- NoRequestAfterIdle: assumes that no release was paused at zero when draining was set; `DrainIsSafeExactly` says exactly when draining is safe.
- Jobs: job ids are fresh, times are integers, and the listing and formatting of jobs is not modelled.
- Markdown: what a single line is (heading, fence, neither) is a parameter, so the two patterns are not modelled; nor are section ids, slugs, the choice of a section by name and the extra checks on content that brings its own heading.
- LogRotation: renames succeed, writes are complete, and no backup with a number above `maxBackups` is there at the start. The asynchronous queue in front of the file is not modelled.
- JsonPointer: an object is the list of its members in key order; duplicate keys, number formats, previews and the matching of texts are outside, the last as a parameter. The paging of keys and array slices is not modelled.
- FileTail: errors of the file system and of a cancelled context are not modelled; the number of lines wanted is not negative, as the caller makes sure.
- The HTTP server, the protocol library, command-line handling, configuration, approvals, catalogs and JSONL filters are not modelled: they pass requests and settings on to the parts above.
