/** The corpus object of mostcomm.go: Data holds every file read so far (as
    its digests by position, which is what a File's Head..Tail list and
    Count amount to) and the content index Lines. Reading a file, adding a
    batch of lines, counting lines and detecting duplicates are its
    methods. */
module Mostcomm {
  import opened Reader
  import opened Index
  import opened Ranges
  import opened Detect

  /** The sum of File.Count over a set of files. */
  ghost function SumCounts(files: map<FileId, seq<Digest>>): int
    decreases |files.Keys|
  {
    if files == map[] then 0
    else
      var f :| f in files;
      |files[f]| + SumCounts(files - {f})
  }

  /** Any file may be taken out first: the sum does not depend on the order. */
  lemma {:induction false} SumCountsRemove(files: map<FileId, seq<Digest>>, f: FileId)
    requires f in files
    ensures SumCounts(files) == |files[f]| + SumCounts(files - {f})
    decreases |files.Keys|
  {
    var g :| g in files && SumCounts(files) == |files[g]| + SumCounts(files - {g});
    if g != f {
      var rest := files - {g} - {f};
      assert files - {f} - {g} == rest;
      assert (files - {g})[f] == files[f];
      assert (files - {f})[g] == files[g];
      SumCountsRemove(files - {g}, f);
      SumCountsRemove(files - {f}, g);
    }
  }

  /** Reading a file adds its lines to the total: one per `\n`, plus one. */
  lemma TotalAfterRead(files: map<FileId, seq<Digest>>, name: FileId, b: seq<byte>)
    requires name !in files && |b| > 0
    ensures SumCounts(files[name := FileDigests(b)]) == SumCounts(files) + CountNewlines(b) + 1
  {
    var files' := files[name := FileDigests(b)];
    SumCountsRemove(files', name);
    assert files' - {name} == files;
    SegmentsCount(b);
  }

  /** The batching state of File.Read after the lines of digests ds: the
      batches handed to Add so far (each of BatchSize lines) followed by the
      pending batch are those lines, and the index has gained the added ones. */
  ghost predicate Batched(name: FileId, ds: seq<Digest>, lines: seq<Line>, added: seq<Line>,
                          batches: seq<seq<Line>>, index0: LineIndex, index: LineIndex)
  {
    added + lines == LinesOf(name, ds) && |lines| < BatchSize && Flatten(batches) == added
    && (forall j :: 0 <= j < |batches| ==> |batches[j]| == BatchSize)
    && index == AddAll(index0, added)
  }

  /** The scan after the files of `done`: the table is the empty one with
      the candidates of `log` finalized in order; each of them is a valid
      candidate of a scanned file that cannot grow at either end and is recorded; every
      shared line of a scanned file lies in the run of one of them. */
  ghost predicate Detected(files: Files, keep: FilePositionMatch -> bool, done: set<FileId>,
                           st: Groups, log: seq<FilePositionMatch>)
  {
    TableOk(NoGroups) && st == FinalizeSeq(NoGroups, log, keep)
    && (forall x :: x in log ==>
          x.position.file in done && CandidateOk(files, x.position.file, x)
          && Closes(files, x.position.file, x) && Opens(files, x.position.file, x) && Recorded(st, x, keep))
    && forall g, t :: g in done && SharedLine(files, g, t) ==> Spans(log, g, t)
  }

  /** Scanning one more file extends the log by that file's log. */
  lemma DetectStep(files: Files, keep: FilePositionMatch -> bool, done: set<FileId>, st: Groups,
                   log: seq<FilePositionMatch>, f: FileId, r: Groups, flog: seq<FilePositionMatch>)
    requires Detected(files, keep, done, st, log) && f in files
    requires TableOk(st) && r == FinalizeSeq(st, flog, keep) && Grows(st, r)
    requires forall x :: x in flog ==>
               CandidateOk(files, f, x) && Closes(files, f, x) && Opens(files, f, x) && Recorded(r, x, keep)
    requires forall t :: 0 <= t < |files[f]| && SharedLine(files, f, t) ==> Spans(flog, f, t)
    ensures Detected(files, keep, done + {f}, r, log + flog)
  {
    FinalizeSeqConcat(NoGroups, log, flog, keep);
    forall x | x in log + flog
      ensures x.position.file in done + {f} && CandidateOk(files, x.position.file, x)
              && Closes(files, x.position.file, x) && Opens(files, x.position.file, x) && Recorded(r, x, keep)
    {
      if x in log {
        RecordedGrows(st, r, x, keep);
      }
    }
    forall g, t | g in done + {f} && SharedLine(files, g, t)
      ensures Spans(log + flog, g, t)
    {
      if g in done {
        var x :| x in log && x.position.file == g && x.position.start.position <= t <= x.position.end.position;
        assert x in log + flog;
      } else {
        var x :| x in flog && x.position.file == g && x.position.start.position <= t <= x.position.end.position;
        assert x in log + flog;
      }
    }
  }

  class Data {
    /** Each file read so far: its digests by line position. */
    var files: map<FileId, seq<Digest>>
    /** Data.Lines: for each digest, the lines carrying it. */
    var index: LineIndex

    /** The index is exactly the lines of the files read. */
    ghost predicate Valid()
      reads this
    {
      IndexOk(files, index)
    }

    constructor ()
      ensures files == map[] && index == map[] && Valid()
    {
      files := map[];
      index := map[];
    }

    /** Data.Add: every line of the batch is appended, in order, to the
        bucket of its digest. */
    method Add(batch: seq<Line>)
      modifies this
      ensures files == old(files)
      ensures index == AddAll(old(index), batch)
    {
      var j := 0;
      while j < |batch|
        invariant 0 <= j <= |batch|
        invariant files == old(files) && index == AddAll(old(index), batch[..j])
      {
        var l := batch[j];
        assert batch[..j + 1][..j] == batch[..j];
        index := index[l.hash := Bucket(index, l.hash) + [l]];
        j := j + 1;
      }
      assert batch[..j] == batch;
    }

    /** The batching inside File.Read: the Line for digest h joins the
        pending batch, and a batch that reaches BatchSize lines goes to Add
        and starts over. */
    method Append(name: FileId, ds: seq<Digest>, h: Digest, lines: seq<Line>, ghost added: seq<Line>,
                  ghost batches: seq<seq<Line>>, ghost index0: LineIndex)
      returns (lines': seq<Line>, ghost added': seq<Line>, ghost batches': seq<seq<Line>>)
      requires Batched(name, ds, lines, added, batches, index0, index)
      modifies this
      ensures files == old(files)
      ensures added' + lines' == added + lines + [Line(name, |ds|, h)]
      ensures Batched(name, ds + [h], lines', added', batches', index0, index)
    {
      LinesOfSnoc(name, ds, h);
      lines', added', batches' := lines + [Line(name, |ds|, h)], added, batches;
      if |lines'| >= BatchSize {
        Add(lines');
        AddAllConcat(index0, added, lines');
        added', batches' := added + lines', batches + [lines'];
        lines' := [];
      }
    }

    /** File.Read for file `name` with contents b: one pass over the bytes,
        with the end of input read as a final `\n`; each line gets the digest
        of b[first..last + 1] and the next position; lines go to Data.Add in
        batches of BatchSize, and the rest at the end. Afterwards the file's
        digests are FileDigests(b), the index has gained exactly its lines,
        and the index is still exact. */
    method Read(name: FileId, b: seq<byte>) returns (ghost batches: seq<seq<Line>>)
      requires Valid() && name !in files && |b| > 0
      modifies this
      ensures Valid()
      ensures files == old(files)[name := FileDigests(b)]
      ensures index == AddAll(old(index), LinesOf(name, FileDigests(b)))
      ensures Flatten(batches) == LinesOf(name, FileDigests(b))
      ensures |Flatten(batches)| == |files[name]|
      ensures forall k :: 0 <= k < |files[name]| ==> Flatten(batches)[k] == Line(name, k, files[name][k])
      ensures |batches| >= 1 && |batches[|batches| - 1]| < BatchSize
      ensures forall j :: 0 <= j < |batches| - 1 ==> |batches[j]| == BatchSize
    {
      var digests: seq<Digest> := [];
      var count := 0;
      var lines: seq<Line> := [];
      ghost var added: seq<Line> := [];
      batches := [];
      var i, first, last := 0, 0, 0;
      ReadStart(b);
      while i <= |b|
        invariant ReadAt(b, i, first, last, digests)
        invariant count == |digests|
        invariant files == old(files) && Batched(name, digests, lines, added, batches, old(index), index)
        decreases |b| + 1 - i
      {
        ReadStep(b, i, first, last, digests);
        var r: byte := LF;
        if i < |b| {
          r := b[i];
        }
        if r == CR {
        } else if r == LF {
          var h := b[first..last + 1];
          lines, added, batches := Append(name, digests, h, lines, added, batches, old(index));
          digests := digests + [h];
          count := count + 1;
          first := i + 1;
          last := i;
        } else {
          last := i;
        }
        i := i + 1;
      }
      Add(lines);
      AddAllConcat(old(index), added, lines);
      added, batches := added + lines, batches + [lines];
      AddFileKeepsIndexOk(files, old(index), name, digests);
      files := files[name := digests];
    }

    /** Data.TotalLines: the sum of every file's line count. */
    method TotalLines() returns (r: int)
      ensures r == SumCounts(files)
    {
      r := 0;
      var rest := files;
      while rest != map[]
        invariant r + SumCounts(rest) == SumCounts(files)
        decreases |rest.Keys|
      {
        var f :| f in rest;
        SumCountsRemove(rest, f);
        r := r + |rest[f]|;
        rest := rest - {f};
      }
    }

    /** Data.DetectDuplicates: every file is scanned, in the map's unspecified
        order, against the index. Every group found is well formed (its runs
        lie in their files, occur in another file, share the group's key;
        the first run was accepted by `keep`), no two groups have the same
        key, and no run is reported twice. The groups are those made by
        finalizing the candidates of `log` in order; each of them is a valid
        candidate of its file that cannot grow at either end, each one `keep` accepts is
        reported, and every line whose digest occurs in another file lies in
        the run of one of them. */
    method DetectDuplicates(keep: FilePositionMatch -> bool) returns (dups: seq<Duplicate>, ghost log: seq<FilePositionMatch>)
      requires Valid()
      ensures forall i :: 0 <= i < |dups| ==> GroupOk(files, dups[i], keep)
      ensures forall i, i' :: 0 <= i < i' < |dups| ==>
                GroupOk(files, dups[i], keep) && GroupOk(files, dups[i'], keep)
                && GroupKey(files, dups[i]) != GroupKey(files, dups[i'])
      ensures Distinct(dups)
      ensures TableOk(NoGroups) && dups == FinalizeSeq(NoGroups, log, keep).dups
      ensures forall x :: x in log ==>
                CandidateOk(files, x.position.file, x)
                && Closes(files, x.position.file, x) && Opens(files, x.position.file, x)
      ensures forall x :: x in log && keep(x) ==> exists i :: 0 <= i < |dups| && x.position in dups[i].positions
      ensures forall g, t :: SharedLine(files, g, t) ==> Spans(log, g, t)
    {
      var st := NoGroups;
      NoGroupsOk(files, keep);
      var rest := files.Keys;
      ghost var done: set<FileId> := {};
      log := [];
      while rest != {}
        invariant rest <= files.Keys && done == files.Keys - rest
        invariant GroupsOk(files, st, keep) && Distinct(st.dups) && InFiles(st.dups, done)
        invariant Detected(files, keep, done, st, log)
        decreases |rest|
      {
        var f :| f in rest;
        var st', flog := ScanFile(files, index, f, keep, st, done);
        DetectStep(files, keep, done, st, log, f, st', flog);
        st, log := st', log + flog;
        done := done + {f};
        rest := rest - {f};
      }
      dups := st.dups;
      forall i, i' | 0 <= i < i' < |dups|
        ensures GroupOk(files, dups[i], keep) && GroupOk(files, dups[i'], keep)
                && GroupKey(files, dups[i]) != GroupKey(files, dups[i'])
      {
        GroupKeysDistinct(files, st, keep, i, i');
      }
      forall x | x in log && keep(x)
        ensures exists i :: 0 <= i < |dups| && x.position in dups[i].positions
      {
        assert Recorded(st, x, keep);
      }
    }
  }
}
