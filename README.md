# mostcomm, modelled in Dafny

mostcomm finds runs of identical lines shared between text files. It
reads every file, splits it into lines and digests each line. Every line
goes into an index keyed by its digest. One file at a time, the detector
walks the lines in order with a list of live candidates. A candidate is
a run of the scanned file together with the line of another file it has
matched so far. At each line the detector opens fresh candidates from
the index bucket of the line's digest. It extends the candidates whose
counterpart continues with the same digest and closes the others. A
closed run either joins the group with the same running hash key or
starts a new one when the caller's filter accepts it. A fan-out filter
(`DeleteMatchMax`) then removes, in place, every group that touches more
than a given number of files.

The model has seven modules:

- `Reader`: bytes, digests and the line splitter. It covers the byte loop
  of `File.Read` and the properties of the split.
- `Index`: the content index and what `Data.Add` does to it.
- `Ranges`: `FilePosition` and `Duplicate`, with line counts, percentages
  (Go's truncating division), totals, distinct files and average
  coverage.
- `Detect`: candidates, the group table and the steps of the scan of one
  file, for `mostcomm.go`.
- `Mostcomm`: the class `Data`, with its files and index fields and the
  methods `Read`, `Add`, `TotalLines` and `DetectDuplicates`.
- `FanOut`: `DeleteMatchMax` on an array with a length. This is the Go
  slice, changed in place.
- `Cmd`: the older detector of `cmd/mostcomm/main.go`. It has no filter
  and no seen-positions guard, and it collapses the candidates closed at
  one line through a map keyed by file.

Representation choices:

- A file's `Head`/`Tail`/`Next`/`Prev` list is a sequence: its digests by
  position.
- A `Line` is a value: its file, its position and its digest.
- A line's md5 digest is the identity on the bytes it is computed from.
- The running hash of a candidate is the sequence of digests written into
  it.
- Go map iteration (over `d.Files`, over `missedLines`, over
  `missedMatches`, in `TotalLines`) is an arbitrary choice (`:|`). Nothing
  is proved about the order it produces.

## Model

| member | source | states |
|---|---|---|
| Reader.SegmentsCount | mostcomm.go:36-67 | A file has one line per `\n` byte plus one: the end of input closes a last line |
| Reader.SegmentsHaveNoNewline | mostcomm.go:41-66 | No line contains a `\n` byte |
| Reader.JoinSegments | mostcomm.go:36-67 | Splitting loses nothing: the lines, glued back with `\n`, give the file's bytes |
| Reader.SegmentsOfJoin | mostcomm.go:36-67 | Splitting inverts gluing: `\n`-free lines glued with `\n` split back into the same lines |
| Reader.TrimCRShape | mostcomm.go:41-65 | The hashed part of a line is a prefix of it, does not end in `\r`, and only `\r` bytes were dropped; interior `\r`s stay |
| Reader.LaterLineInput | mostcomm.go:44-63 | Every line after the first is digested from its bytes up to its last byte that is not `\r` |
| Reader.EmptyFirstLineQuirk | mostcomm.go:36-48 | A file starting with `\n` gives its empty first line the digest of the byte `\n`, while later empty lines get the digest of nothing |
| Reader.FileDigests | mostcomm.go:36-67 | Defines the digests of a non-empty file: the split of the bytes with the end of input as a final `\n`, each line hashed without its trailing `\r`s, the first line from position 0 |
| Reader.ScanOk | mostcomm.go:36-66 | Before every byte, the loop's `first`, `last` and finished digests are those of the prefix read so far |
| Reader.ScanComplete | mostcomm.go:36-67 | Once the end of input is read as a `\n`, the digests collected are exactly the file's digests |
| Reader.ReadStep | mostcomm.go:36-66 | Each step of the loop (a `\r`, a `\n` or the end of input, any other byte) keeps the loop state that the bytes read so far determine |
| Index.AddAllBucket | mostcomm.go:88-94 | Adding a batch appends to each bucket exactly the batch's lines with that digest, in order, and leaves the other buckets as they were |
| Index.AddAllConcat | mostcomm.go:56-69 | Adding lines in several batches gives the same index as adding them at once |
| Index.MatchingMember | mostcomm.go:91-93 | A line is added to bucket h exactly when it is in the batch and its digest is h |
| Index.AddFileKeepsIndexOk | mostcomm.go:56-69 | Adding every line of a new file keeps the index exact: every entry is a real line of its bucket's digest, and every line is in its bucket |
| Index.BucketEntry | mostcomm.go:204-207 | An entry of a bucket is a real line of the corpus that carries the bucket's digest |
| Mostcomm.Data.constructor | mostcomm.go:80-86 | A fresh Data has no files and an empty index, which is exact |
| Mostcomm.Data.Add | mostcomm.go:88-94 | Each line of the batch is appended, in order, to its digest's bucket; the files are unchanged (cmd/mostcomm/main.go has the same code at 94-100) |
| Mostcomm.Data.Append | mostcomm.go:56-60 | The new line joins the pending lines; a batch that reaches 1024 lines is handed to Add and the pending lines start over; the lines added so far plus the pending ones are the file's lines so far |
| Mostcomm.Data.Read | mostcomm.go:24-70 | The file gets the digests FileDigests(b); line k of the file has position k and the k-th digest FileDigests(b)[k]; the index gains exactly those lines, each once and in order, in batches of 1024 with a shorter last batch; the index stays exact (cmd/mostcomm/main.go has the same code at 30-76) |
| Mostcomm.Data.TotalLines | mostcomm.go:96-102 | The result is the sum of every file's line count, whatever the order of the map (cmd/mostcomm/main.go has the same code at 102-108) |
| Mostcomm.SumCountsRemove | mostcomm.go:96-102 | The total does not depend on which file is counted first |
| Mostcomm.TotalAfterRead | mostcomm.go:36-67 | Reading a new file adds one line per `\n` of its contents, plus one, to the total |
| Mostcomm.Data.DetectDuplicates | mostcomm.go:194-274 | Every group is well formed: its runs lie in their files, occur digest for digest in another file and share the group's key, and its first run passed the filter. No two groups share a key, and no run appears twice. The groups are what finalizing the candidates of the returned log gives, in order. Each of these candidates is valid and cannot grow at either end: its run ends its file or the counterpart does not go on with the next line's digest, and its run starts its file, or the counterpart run starts its own, or the lines before the two differ. Each one the filter accepts is reported. Every line whose digest occurs in another file lies in the run of one of them |
| Mostcomm.DetectStep | mostcomm.go:197-272 | Scanning one more file extends the detector's log by that file's log and keeps every earlier candidate recorded and every earlier shared line spanned |
| Ranges.GoDiv | mostcomm.go:135-136 | Division truncates toward zero, as Go's does: the remainder a - q*b has the sign of a (or is 0) and is smaller in size than b |
| Ranges.Lines | mostcomm.go:130-132 | Defines the number of lines of a run, End minus Start plus one |
| Ranges.Positions | mostcomm.go:126-128 | Defines the (Start, End) pair of positions a run is known by |
| Ranges.Percent | mostcomm.go:134-138 | Defines the share of its file a run covers: Lines*10000 divided by the file's Count, then by 100, both divisions truncating |
| Ranges.LinesCountsRun | mostcomm.go:130-132 | Lines is the number of lines of the run, between 1 and its file's count |
| Ranges.PercentIsTruncatedShare | mostcomm.go:134-138 | Scaling by 10000 and then dividing by 100 gives the truncated percentage Lines*100/Count |
| Ranges.PercentBounds | mostcomm.go:134-138 | A run that fits in its file covers 0 to 100 percent of it |
| Ranges.SumLinesAppend | mostcomm.go:154-159 | A group's total line count is additive over its runs |
| Ranges.TotalLines | mostcomm.go:154-159 | Defines the lines of a group: the sum of its runs' Lines |
| Ranges.TotalLinesAtLeastRuns | mostcomm.go:154-159 | A group's total is at least its number of runs |
| Ranges.DistinctFiles | mostcomm.go:180-186 | Files lists every participating file exactly once, and no other file |
| Ranges.Files | mostcomm.go:180-186 | Defines the files of a group: each file of one of its runs, once |
| Ranges.ToDuplicate | mostcomm.go:118-124 | The group made from a single run has that run's lines, only that run's file, and the digests of its first and last line as Head and Tail (cmd/mostcomm/main.go has the same code at 127-133) |
| Ranges.AverageCoveragePercent | mostcomm.go:161-178 | Defines the average coverage: for each file of the group, its runs' lines times 10000 over the file's Count; the sum, divided by 100 times the number of files; every division truncating |
| Ranges.AverageOfOneRun | mostcomm.go:161-178 | A group of one run has that run's Percent as its average coverage |
| Ranges.OneFileAverage | mostcomm.go:161-178 | Coverage is averaged over files, not runs: when every run is in one file, the runs' lines are added up first and then the share is taken |
| Ranges.AverageBounds | mostcomm.go:161-178 | When no file contributes more lines than it has, the average coverage is between 0 and 100. Groups the detector builds can break that premise with overlapping runs of one file, and then exceed 100 |
| Ranges.CoverageSumBounds | mostcomm.go:173-175 | Each file adds between 0 and 10000 to the sum of coverages |
| Detect.HashKeySkipsFirstLine | mostcomm.go:214-217 | A candidate's key is the digests of its lines after the first, because opening writes nothing into the hasher (Key in cmd/mostcomm/main.go, lines 119-125, copies the same running hash) |
| Detect.OneLineKeysCollide | mostcomm.go:214-217 | Every one-line candidate, whatever its line, has the empty key |
| Detect.OpenOk | mostcomm.go:204-218 | A candidate opened at line p for a line of another file with p's digest satisfies the candidate invariant and ends at p |
| Detect.NextOk | mostcomm.go:276-280 | Extending a candidate at the next line keeps the invariant: its run and the counterpart's run agree digest for digest and are equally long, and End is p (cmd/mostcomm/main.go has the same code at 220-224) |
| Detect.CandidateShared | mostcomm.go:208-226 | A candidate's run occurs in another file |
| Detect.HashKey | mostcomm.go:113-116 | Defines a candidate's key: the digests written into its running hash |
| Detect.Open | mostcomm.go:208-217 | Defines the candidate opened at line p for a line l of another file: Start and End are p, With is l, and nothing is written into the hash |
| Detect.Next | mostcomm.go:276-280 | Defines the extension of a candidate to line p: End becomes p, With its successor, and p's digest is written into the hash |
| Detect.Finalize | mostcomm.go:239-251 | Defines the finalization of a closed candidate: it joins the group with its key if there is one; otherwise it starts a group when the filter accepts it, and is dropped when not |
| Detect.OpenCandidates | mostcomm.go:204-219 | Exactly one fresh candidate per occurrence of p's digest in another file, keyed by that occurrence; occurrences in the scanned file are skipped (cmd/mostcomm/main.go has the same code at 164-179) |
| Detect.CloseOrExtend | mostcomm.go:220-235 | The extended, closed and remaining fresh candidates are the lists that AdvancedOk, ClosedOk and UndroppedOk describe, and every closed position is recorded as seen |
| Detect.AdvancedOk | mostcomm.go:220-227 | A candidate is extended exactly when its counterpart's successor has p's digest, and each extended one is a valid candidate ending at p |
| Detect.StoppedOk | mostcomm.go:220-235 | The candidates not extended are exactly the live ones whose counterpart does not continue with p's digest |
| Detect.UnseenOk | mostcomm.go:229-234 | The guard keeps only candidates with a fresh (start, end), each kept (start, end) is different, and afterwards every one is recorded |
| Detect.ClosedOk | mostcomm.go:220-235 | A closed candidate is a live one that was not extended and whose (start, end) was not seen; closed candidates have pairwise different (start, end) |
| Detect.UndroppedOk | mostcomm.go:221-222 | A fresh candidate survives exactly when no live candidate's counterpart successor is its line, and it survives unchanged |
| Detect.AppendValues | mostcomm.go:236-238 | The next live list is the extended candidates, in order, followed by each surviving fresh candidate, and by nothing else |
| Detect.FinalizeFilter | mostcomm.go:239-251 | A run whose key has a group joins it whatever the filter says; the filter only decides whether a new group is made |
| Detect.FinalizeOk | mostcomm.go:239-251 | Finalizing a valid candidate keeps every group well formed and keeps one group per key |
| Detect.FinalizeDistinct | mostcomm.go:229-251 | Finalizing a run of the scanned file that is not yet recorded never adds a run twice |
| Detect.FinalizeGrows | mostcomm.go:239-251 | The table only grows, and a candidate accepted by the filter ends up in the group of its key |
| Detect.GroupKeysDistinct | mostcomm.go:240-250 | Two different groups have different keys |
| Detect.NoGroupsOk | mostcomm.go:195-196 | The empty table is well formed |
| Detect.FinalizeAll | mostcomm.go:239-251 | Finalizing the closed candidates in order keeps the table well formed, adds no run twice, and records each candidate |
| Detect.Flush | mostcomm.go:254-271 | At the end of the file, every live candidate whose (start, end) is unseen is finalized in order; the table stays well formed, adds no run twice and holds runs of scanned files only |
| Detect.ScanFile | mostcomm.go:197-272 | Scanning one file keeps the table well formed and free of repeated runs, and adds runs of that file only. The table is the old one with the candidates of the returned log finalized in order. Each of them is a valid candidate of the file that cannot grow at either end (forward: its run ends the file or its counterpart does not go on; backward: its run or the counterpart run starts its file, or the lines before them differ), and is recorded. No (start, end) is finalized twice. Every line of the file whose digest occurs in another file lies in the run of one of them |
| Detect.FinalizeSeqConcat | mostcomm.go:239-251 | Finalizing two lists of candidates one after the other is finalizing them joined |
| Detect.LiveCovered | mostcomm.go:220-235 | A line already spanned by a live candidate stays spanned at the next line: by the extended candidate, or by the finalized candidate with the same (start, end), as the guard records every closed one |
| Detect.FreshCovered | mostcomm.go:204-238 | A line whose digest occurs in another file is spanned once read: by the fresh candidate for that occurrence, or, when that one is dropped, by the live candidate extended onto the occurrence |
| Detect.CoverStep | mostcomm.go:200-252 | After line k, every shared line up to k is spanned by a finalized candidate or by a live candidate for the next line |
| Detect.ScanLine | mostcomm.go:201-252 | One line of the scan keeps the scan's invariant (the live candidates are valid, cannot grow backwards and have pairwise distinct counterpart lines; the finalized ones are recorded; every shared line read is spanned) and adds exactly the closed candidates to the log |
| Detect.OpensNext | mostcomm.go:276-280 | Extending a candidate that cannot grow backwards keeps it so: its run and its counterpart run start where they did |
| Detect.OpensFresh | mostcomm.go:204-238 | A fresh candidate that survives cannot grow backwards: had the lines before it and before its counterpart had the same digest, the live candidate ending on the earlier line would have dropped it |
| Detect.WithsStep | mostcomm.go:204-238 | After a line, every occurrence of its digest in another file is the counterpart line of a live candidate for the next line |
| Detect.StartedWith | mostcomm.go:204-238 | Each such occurrence is the counterpart line of its own fresh candidate or, when that one was dropped, of the live candidate extended onto it; either one ends at the line just read |
| Detect.AdvancedWiths | mostcomm.go:220-227 | Extension keeps the counterpart lines pairwise distinct, as distinct lines have distinct successors |
| Detect.NextWiths | mostcomm.go:220-238 | No two live candidates for the next line share a counterpart line: the extended ones have distinct successors, and a surviving fresh one's counterpart line is no live candidate's successor, which would have dropped it |
| Detect.LiveStep | mostcomm.go:200-252 | One line on, the live candidates are valid, end at the line read, cannot grow backwards, have as counterpart lines every occurrence elsewhere of its digest, and have no counterpart line twice |
| Detect.FlushLog | mostcomm.go:254-271 | At the end of the file, the flushed candidates join the log, and every shared line of the file is spanned by a finalized candidate |
| FanOut.KeepFanOutDisabled | util.go:9-10 | With the cap off (mm <= 0), no group is removed |
| FanOut.KeepFanOutMember | util.go:9-20 | A group is kept exactly when it is in the input and does not span more than mm files |
| FanOut.KeepFanOutConcat | util.go:7-23 | Filtering works piecewise, so the kept groups stay in input order |
| FanOut.KeepFanOutShorter | util.go:15-22 | The result is never longer than the input |
| FanOut.Delete | util.go:15 | slices.Delete: the new length is j - i shorter, and the new prefix is the old elements before i followed by the old ones from j |
| FanOut.ProgressDelete | util.go:14-17 | Deleting the pending run removes only groups over the cap, and the scan resumes at its start with the settled prefix unchanged |
| FanOut.KeepDroppedRun | util.go:10-16 | Prefixes that differ only by groups over the cap filter alike |
| FanOut.ProgressEnd | util.go:21-24 | With the scan done and no run pending, the array prefix is the filtered input |
| FanOut.DeleteRun | util.go:15-16 | Deleting the pending run leaves no run pending and keeps the scan's invariant |
| FanOut.Visit | util.go:8-19 | One loop step keeps the invariant (the settled prefix is the filtered input, the pending run is all over the cap) and decreases the measure (remaining, pending) lexicographically |
| FanOut.DeleteMatchMax | util.go:5-25 | The result is the input with exactly the groups over the cap removed, in input order |
| FanOut.FilesDup1 | util_test.go:23-28 | The test's dup1 spans two files |
| FanOut.TableCases | util_test.go:40-78 | The table tests: the cap off or above two keeps dup1, a cap of 1 drops it, and [dup1, dup2] with cap 1 leaves [dup2] |
| Cmd.LastStoppedOk | cmd/mostcomm/main.go:180-190 | Nothing is closed exactly when every live candidate extends; otherwise the surviving closed candidate is the last one that does not extend, and every other closed one is lost |
| Cmd.CloseOrExtend | cmd/mostcomm/main.go:180-190 | Extension and the dropping of fresh candidates happen as in mostcomm.go; the map of closed candidates holds at most one entry, for the scanned file, and that entry is the last candidate not extended |
| Cmd.LastStoppedCandidate | cmd/mostcomm/main.go:189 | The surviving closed candidate is a valid candidate |
| Cmd.CollapsedOk | cmd/mostcomm/main.go:180-190 | The candidate the collapse keeps at a line is a valid candidate that cannot grow at either end |
| Cmd.FinalizeStep | cmd/mostcomm/main.go:195-202 | With no filter, a run joins its key's group or starts a group; the table stays well formed and records it |
| Cmd.FinalizeAll | cmd/mostcomm/main.go:194-203 | The map, which holds at most the scanned file's entry, has its candidate finalized, if any: the table is the old one with that candidate finalized, stays well formed and records it |
| Cmd.Flush | cmd/mostcomm/main.go:206-215 | At the end of the file, every live candidate is finalized in order, with no (start, end) guard |
| Cmd.ScanFile | cmd/mostcomm/main.go:158-216 | Scanning one file keeps the table well formed, and the table only grows. The table is the old one with the candidates of the returned log finalized in order. Each of them is a valid candidate of the file that cannot grow at either end, and is recorded |
| Cmd.ScanLine | cmd/mostcomm/main.go:160-204 | One line of the older scan adds to the log exactly the last candidate not extended, if any, and keeps the scan's invariant: the live candidates are valid, cannot grow backwards and have pairwise distinct counterpart lines, and the finalized ones cannot grow at either end and are recorded |
| Cmd.Advance | cmd/mostcomm/main.go:161-193 | At one line: one fresh candidate per occurrence of its digest in another file; the next live list is the extended candidates, in order, then each fresh one no live candidate dropped, each once; the map of closed candidates holds at most the scanned file's entry, present exactly when some candidate stopped, and then the last one that stopped |
| Cmd.DetectDuplicates | cmd/mostcomm/main.go:155-218 | Every group is well formed and no two groups share a key. The groups are what finalizing the candidates of the returned log gives, in order. Each of these candidates is valid, cannot grow at either end and is reported |

## Left out

- `Walker`: directory traversal, globbing and the launch of goroutines are I/O and library calls.
- The channel semaphore, `WaitGroup` and `LineMutex`: concurrency. Reading is a sequence of `Data.Read` calls that all finish before detection.
- `fs.ReadFile` and `log.Panic`: I/O. `Data.Read` takes the file's bytes as a parameter.
- md5 and `hash.Hash`: a foreign library. A digest is the bytes it would be computed from, and a running hash is the sequence of digests written into it. Hash collisions are therefore not modelled.
- The `String()` methods and `sort.Strings`: presentation only.
- `main` in cmd/mostcomm/main.go: flag parsing and printing.
- The order of Go map iteration: it is an arbitrary choice, and nothing is proved about the order of groups or of runs within a group.
- The concrete filter passed to `DetectDuplicates`: it is not defined in these files, so it is a parameter, `keep`. It is taken to be a pure function of the candidate. A Go closure could keep state between calls and answer differently for the same candidate; that is not modelled.
- Mostcomm.Data.Read: requires a non-empty file. For an empty file the Go code hashes `b[0:1]`, one byte past the data: it panics, or reads whatever byte lies in the slice's spare capacity.
- Mostcomm.Data.Read: requires a file name not read before. The directory walk visits each path once, and Walker registers it then.
- Mostcomm.Data.Read: the file appears in `files` once it is fully read. In the source the `File` object is filled in line by line, but detection only starts after every read has finished.
- Mostcomm.Data.DetectDuplicates: completeness is stated line by line, not run by run. Every shared line lies in a finalized candidate's run, and every candidate the filter accepts is reported. It does not prove that each maximal shared run is reported whole, and a candidate the filter rejects while its key has no group is not reported.
- Detect.ScanFile: the same line-by-line statement of completeness, for one file.
- FanOut.DeleteMatchMax: what lies in the array past the returned length is not specified; Go leaves it to slices.Delete.
- FanOut.Visit: the loop's `continue` after a deletion is one branch of this method, which is the loop body.
- Cmd.DetectDuplicates: no distinctness of runs is claimed, because this variant has no seen-positions guard and can finalize the same run twice.
- Cmd.DetectDuplicates: no coverage of shared lines is claimed. The collapse loses every closed candidate but the last one at each line, and LastStoppedOk states which.
- Cmd.ScanFile: the same; its log holds the finalized candidates, not the lost ones.
- Cmd.CloseOrExtend: the loss of closed candidates is stated through LastStopped, whose meaning LastStoppedOk proves.
- The `File.Read`, `Data.Add` and `Data.TotalLines` of cmd/mostcomm/main.go are textually the same as those of mostcomm.go, and are modelled by Mostcomm.Data.
- Pointer aliasing of `Line`, `FilePosition` and `FilePositionMatch`: candidates and runs are values. A candidate that is extended is never finalized in the same step, so no group sees a later change to it.
- Ranges.Percent: requires a non-zero Count. Go divides by it at mostcomm.go:135 and panics on zero; every file read has at least one line.
- Ranges.AverageCoveragePercent: requires a non-empty group and no zero Count among its runs. Go divides by `f.Total` and by `100 * len(fm)` at mostcomm.go:174 and 176 and panics on zero; groups are never empty.
- Ranges.Percent and Ranges.AverageCoveragePercent: integers are unbounded, so Go's 64-bit overflow of `Lines * 10000` is not modelled. It needs files of about 10^15 lines.
