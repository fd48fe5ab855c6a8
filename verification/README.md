# aisuclean core, modelled in Dafny

aisuclean takes a list of root directories. It either scans them to add up
their size or "nukes" them, which deletes every plain file under them. It
runs one thread per root. Each thread walks its tree, classifies every
entry, and sends one message per counted entry over a shared channel. One
aggregator drains the channel, keeps a progress position, a byte total and
an error count, and returns the final summary. Before any of this,
`validate` checks the configured roots: it drops missing paths, collapses
repeats, and rejects nested roots.

This project models three sequential pieces of that core as pure Dafny
functions over sequences:

- **Root validation** (`validate.dfy`, module `Validate`). A path is a
  `seq<string>` of components. `Path::starts_with` is sequence prefix.
  Whether a path exists is an input predicate `present`.
  `Validate.Validate` follows the source's two nested loops, including the
  early `return Err` and the `break` on a repeat. It is proved to succeed
  exactly when no two different existing inputs are nested. On success it
  returns the existing inputs in first-occurrence order, without repeats.
  On failure it reports exactly one pair: the first existing input that
  nests with a path kept before it, and the first such kept path.
- **One worker** (`walk.dfy`, module `Walk`). The walk is an input: a
  sequence of items, each either a walk error or an entry. An entry carries
  its name, its metadata (or the text of the metadata error) and the
  outcome `remove_file` would have. `ScanDir` and `NukeDir` are left folds
  whose state is the messages sent so far and the three counters. Their
  steps follow the source's match arms.
- **Aggregation** (`aggregate.dfy`, module `Aggregate`). The receive loop
  is a fold over the delivered messages. The progress bar is reduced to its
  position and its optional length. `make_pb` gives a hidden bar with no
  length when quiet and a bar of length `0x7ffffff` otherwise.
  `finish_and_clear` moves a bar with a length to that length, so the save
  and restore around the error print matters.
- **Cross-check** (`totals.dfy`, module `Totals`). For every order in which
  the channel delivers the workers' messages, the aggregator's summary
  equals the `+=` sum of the workers' own summaries. It also equals the
  totals the walks call for.

Shared types are in `utils.dfy` (module `Utils`: `DirData`, `AppError`,
`Result`) and `messages.dfy` (module `Messages`: the channel item and
`Tally`, what a sequence of messages adds up to).

Details the model keeps from the code:

- The subdirectory sentinel is compared by text (`e != SubDirError()` on a
  derived `PartialEq`). So a metadata error whose text happens to be
  "is subdirectory or symlink" is skipped silently, like a directory.
- `scan_dir` reports a walk error under the root's path, not under an
  entry's name.
- `nuke_dir` calls `.expect` on walk errors. A walk error therefore panics
  the worker; it is not reported as a failure. The model returns
  `Exit.Panicked` with the state reached so far. The messages sent before
  the panic still reach the aggregator, because the join result is
  discarded.
- A failed `try_exists` counts as "does not exist" (`if let Ok(true)`).
  This is folded into the `present` predicate.

## Model

| member | source | states |
|---|---|---|
| Utils.From | src/utils.rs:16-22 | `DirData::from` stores size, completed and error unchanged |
| Utils.AddAssign | src/utils.rs:24-33 | `acc += other` leaves each of the three fields holding the sum of the two fields |
| Utils.AddAssignMonoid | src/utils.rs:24-33 | field-wise `+=` is commutative and associative, and `Zero` (the value of `from(0,0,0)`) is its identity on both sides |
| Utils.SubDirError | src/utils.rs:34-37 | the sentinel's text is "is subdirectory or symlink"; an error equals the sentinel exactly when it carries that text |
| Utils.AppErrorEquality | src/utils.rs:38-39 | derived equality: two `AppError`s are equal iff their texts are equal |
| Utils.Display | src/utils.rs:40-44 | formatting writes the message followed by exactly one line break |
| Utils.DisplayInjective | src/utils.rs:40-44 | two errors format the same iff they are equal; dropping the final line break gives back the message |
| Messages.Contribution | src/dir.rs:110-128 | a message counts as exactly one item: a success adds its bytes and one completed item, a failure adds one failed item |
| Messages.Tally | src/dir.rs:110-137 | a message sequence adds up to completed + failed = its length |
| Messages.TallyAppend | src/utils.rs:24-33 | the tally of a concatenation is the `+=` of the two tallies |
| Messages.TallyPermutation | src/dir.rs:110-129 | any rearrangement of the same messages has the same tally |
| Walk.ScanFile | src/dir.rs:13-23 | `Ok(len)` iff metadata is readable and the entry is a file and not a link; the sentinel iff the entry is skipped; otherwise the converted metadata error |
| Walk.Trichotomy | src/dir.rs:13-23 | every entry is exactly one of eligible, skipped and unreadable |
| Walk.ScanStep | src/dir.rs:29-54 | one iteration of the `scan_dir` loop only appends to what was sent, at most one message, counts each message it sends once as completed or as an error, and never lowers the size |
| Walk.ScanDir | src/dir.rs:24-57 | `scan_dir` sends at most one message per item, and completed + error equals the number of messages sent |
| Walk.ScanStepEffect | src/dir.rs:29-52 | one scan iteration sends exactly the report owed to the item and moves each counter by the item's class; a skipped entry sends nothing |
| Walk.ScanDirSummary | src/dir.rs:24-57 | completed = eligible entries, size = their bytes, error = walk errors + unreadable entries; messages = the reports owed in walk order; messages number completed + error and add up to the returned `DirData` |
| Walk.ScanReportTally | src/dir.rs:29-52 | the message owed to an item adds up to what the item adds to the scan counters: bytes and one completed item for an eligible entry, one error for a walk error or an unreadable entry, nothing for a skipped entry |
| Walk.ScanStepTally | src/dir.rs:29-52 | each scan iteration raises the counters by exactly the tally of the message it sends, so the counters and the sent messages stay in step |
| Walk.NukeStep | src/dir.rs:62-85 | one iteration of the `nuke_dir` loop: a walk error panics with the state untouched; otherwise it only appends to what was sent, at most one message, each counted once, and never lowers the size |
| Walk.NukeDir | src/dir.rs:58-88 | `nuke_dir` sends at most one message per item, and completed + error equals the number of messages sent, whether it returns or panics |
| Walk.NukeStepEffect | src/dir.rs:62-83 | one nuke iteration: a walk error panics with nothing changed; a removed file is completed; a failed removal or unreadable entry is one error; each sends exactly its report |
| Walk.NukeReportTally | src/dir.rs:65-82 | the message owed to an entry in nuke mode adds up to what the entry adds to the nuke counters: bytes and one completed item for a deleted file, one error for a failed removal or an unreadable entry, nothing for a skipped entry |
| Walk.NukeStepTally | src/dir.rs:65-82 | each nuke iteration over an entry raises the counters by exactly the tally of the message it sends |
| Walk.NukeDirSummary | src/dir.rs:58-88 | panics iff the walk has a walk error; otherwise completed/size count the deleted files, error counts failed removals and unreadable entries, messages are the reports owed; sent messages always add up to the counters |
| Walk.NukeAccountsEligibleOnce | src/dir.rs:65-76 | each eligible entry is counted once in nuke mode, as deleted or as failed, never both |
| Walk.ScanSkipInvisible | src/dir.rs:46-51 | removing a skipped entry from the walk changes neither the messages nor the summary of `scan_dir` |
| Walk.NukeStopsAtFirstWalkError | src/dir.rs:62-63 | at the first walk error the nuke worker panics with exactly what the entries before it produced |
| Aggregate.MakeBar | src/utils.rs:55-60 | `make_pb(quiet)` starts at position 0; it has a length exactly when not quiet, and that length is `0x7ffffff` |
| Aggregate.Inc | src/dir.rs:111 | `pb.inc(1)` raises the position by the increment and keeps the length |
| Aggregate.FinishAndClear | src/dir.rs:123 | `finish_and_clear` moves a bar with a length to that length and leaves a bar without one as it is; the length stays |
| Aggregate.SetPosition | src/dir.rs:126 | `set_position(tmp_pos)` sets the position and keeps the length |
| Aggregate.RestoreAfterFinish | src/dir.rs:122-126 | restoring the saved position after `finish_and_clear` leaves no trace of the finish, with or without a length |
| Aggregate.Receive | src/dir.rs:110-128 | each message raises the position by exactly 1, even though the error path finishes the bar, which can move the position; a success adds its bytes, a failure adds one error |
| Aggregate.Drain | src/dir.rs:108-129 | after the loop, position = number of messages, total = bytes of successes, error = number of failures |
| Aggregate.ThreadingTemplate | src/dir.rs:108-137 | the returned `(total_size, position - error, error)` is the tally of the delivered messages, and the subtraction cannot underflow |
| Aggregate.ThreadingTemplatePermutation | src/dir.rs:105-137 | the returned summary is the same for every arrival order of the messages |
| Aggregate.QuietIrrelevant | src/utils.rs:55-60 | the summary is the same for the hidden and the visible bar |
| Aggregate.ErrorLine | src/dir.rs:124 | the diagnostic is `Error processing '`, the entry's name, `': `, then the error as `Display` writes it, so it ends the line |
| Aggregate.ErrorLineInjective | src/dir.rs:124 | after the name and separator the diagnostic carries the error's message, so for one name distinct errors give distinct lines |
| Aggregate.Failures | src/dir.rs:110-121 | every message it lists took the error branch and is one of the received messages; it keeps their arrival order and is the reference `Diagnostics` is stated against |
| Aggregate.Diagnostics | src/dir.rs:110-129 | the i-th diagnostic printed reports the i-th failed message under its name with its error; their number is the error count, and each ends its own line |
| Validate.Existing | src/dir.rs:165-174 | the loop keeps at most as many paths as it is given; which ones is `ExistingMembers` |
| Validate.ExistingMembers | src/dir.rs:165-174 | the kept candidates are exactly the inputs that exist |
| Validate.FirstOccurrences | src/dir.rs:176-194 | de-duplication keeps exactly the input paths, each once |
| Validate.KeepNew | src/dir.rs:184-194 | a path that is neither equal to nor nested with a kept path is appended, and the kept paths stay pairwise not nested |
| Validate.KeepDuplicate | src/dir.rs:176-183 | a repeat of a kept path leaves the kept list unchanged |
| Validate.RejectNested | src/dir.rs:184-190 | a new path nested with a different kept path is a nesting between two different existing inputs |
| Validate.Validate | src/dir.rs:163-197 | `Ok` iff no two different existing inputs are nested; on `Ok`, the existing inputs in first-occurrence order without repeats, pairwise different and not nested; on `Err`, two different nested existing inputs, namely the first existing input whose arrival nests with a kept path and the first kept path, in kept order, nested with it |
| Validate.FirstConflictUnique | src/dir.rs:176-190 | the reported pair is determined by the existing inputs: at most one pair is the first conflict |
| Validate.MissingPathIgnored | src/dir.rs:168-174 | a non-existent path never affects the result |
| Validate.DuplicateIgnored | src/dir.rs:176-183 | a repeat of an earlier path never causes `Err` by itself and changes neither the returned paths nor the reported pair |
| Validate.RepeatSameConflict | src/dir.rs:176-183 | among the existing paths, inserting a repeat of an earlier one does not change which pair is the first conflict |
| Validate.NestedRootsRejected | src/dir.rs:184-190 | `/tmp/a` with `/tmp/a/sub` is rejected |
| Validate.SiblingRootsAccepted | src/dir.rs:184 | `/tmp/a` with `/tmp/ab` is accepted: nesting is by component, not by string prefix |
| Totals.ScanSentAddsUp | src/dir.rs:28-56 | all messages of all scan workers add up to the `+=` sum of their returned summaries |
| Totals.ScanSumCounts | src/dir.rs:28-56 | the summed scan summaries count the eligible files, their bytes and the failures of all roots |
| Totals.NukeSentAddsUp | src/dir.rs:62-87 | all messages of all nuke workers, panicked ones included, add up to the `+=` sum of their counters |
| Totals.NukeSumCounts | src/dir.rs:62-87 | without walk errors, the summed nuke counters count the deleted files, their bytes and the failures of all roots |
| Totals.ScanTotals | src/dir.rs:89-137 | scan: for every delivery order, the aggregator's summary equals the `+=` sum of the workers' summaries, that is, the eligible bytes, the file count and the failure count |
| Totals.NukeTotals | src/dir.rs:89-137 | nuke: for every delivery order, the aggregator's summary equals the `+=` sum of the workers' counters; without walk errors, the deleted bytes, the deleted count and the failure count |

## Left out

- Thread spawning, channel creation and cloning, and `join` (src/dir.rs:94-107). This is concurrency. Every message is in the channel before the loop drains it. The model therefore takes the delivered messages as any permutation of the workers' streams.
- Progress-bar styling, `set_message`, `finish_with_message` and `HumanBytes` rendering. These are UI. Only the bar's position and optional length are kept; `make_pb` is modelled as `MakeBar`.
- `WalkDir`, `entry.metadata()`, `remove_file`, `try_resolve` and `try_exists`. These are filesystem I/O. They become inputs: the item sequence, the metadata or error text per entry, the removal outcome per entry, and the `present` predicate over resolved paths. A panic of `try_resolve().unwrap()` is not modelled.
- `From<io::Error>` and `From<walkdir::Error>` are foreign `to_string` calls. The model represents each foreign error by its text, so the conversion keeps that text.
- The progress bar's own code (indicatif) is not part of this model. `FinishAndClear` assumes that finishing sets the position to the bar's length when it has one and leaves it otherwise. `Receive` restores the position right after, so its contract does not depend on this choice.
- `open_config` (src/dir.rs:139-162). It is file reading and line splitting, and it panics on unreadable lines.
- src/main.rs: argument parsing and running scan, then nuke. This is CLI plumbing.
- `eq` (src/utils.rs:61-64). It prints and exits the process.
- The text of the nesting error and the skip and duplicate notices. These use path display, a foreign call. `Validate` returns the two paths instead of the formatted string.
- The `u64` counters and `u64` sizes are modelled as unbounded naturals, so overflow on `size += len` is not modelled.
- `OsString::to_str().unwrap()` in the error print panics on names that are not UTF-8. Names are Dafny strings here, so this panic is not modelled.
