/** The duplicate detector of mostcomm.go (Data.DetectDuplicates and
    FilePositionMatch): candidates, the group table, and the steps the scan of
    one file is made of. The corpus is read-only during detection, so every
    step here works on the values `files` (each file's digests by position)
    and `index` (the content index). */
module Detect {
  import opened Reader
  import opened Index
  import opened Ranges

  type Files = map<FileId, seq<Digest>>

  datatype Option<T> = None | Some(value: T)

  /** FilePositionMatch: a run-in-progress in the scanned file, the line of
      another file it has been matched up to (With), and the digests written
      into its running hasher so far. */
  datatype FilePositionMatch = FilePositionMatch(position: FilePosition, with: Line, hasher: seq<Digest>)

  /** FilePositionMatch.HashKey: the sum of the running hasher, abstracted as
      the sequence of digests written into it. */
  function HashKey(m: FilePositionMatch): seq<Digest>
  {
    m.hasher
  }

  /** Line.Next != nil */
  predicate HasNext(files: Files, l: Line)
  {
    l.file in files && l.position + 1 < |files[l.file]|
  }

  /** Line.Next */
  function NextLine(files: Files, l: Line): Line
    requires HasNext(files, l)
  {
    Line(l.file, l.position + 1, files[l.file][l.position + 1])
  }

  /** The candidate opened at line p of file f for occurrence l elsewhere:
      Start = End = p, With = l, and nothing written into the hasher
      (`Hash.Sum(p.Hash[:])` appends to its argument and writes nothing). */
  function Open(files: Files, f: FileId, p: Line, l: Line): FilePositionMatch
    requires f in files
  {
    FilePositionMatch(FilePosition(p, p, f, |files[f]|), l, [])
  }

  /** The candidate's counterpart has a successor whose digest is p's. */
  predicate Extends(files: Files, m: FilePositionMatch, p: Line)
  {
    HasNext(files, m.with) && NextLine(files, m.with).hash == p.hash
  }

  /** FilePositionMatch.Next: End moves to p, With to its successor, and p's
      digest is written into the hasher. */
  function Next(files: Files, m: FilePositionMatch, p: Line): FilePositionMatch
    requires HasNext(files, m.with)
  {
    FilePositionMatch(m.position.(end := p), NextLine(files, m.with), HashKey(m) + [p.hash])
  }

  /** The key a run gets: the digests of its lines after the first. */
  function KeyOf(files: Files, fp: FilePosition): seq<Digest>
    requires RangeIn(files, fp)
  {
    files[fp.file][fp.start.position + 1..fp.end.position + 1]
  }

  /** The candidate invariant: the run lies in the scanned file f; With is a
      real line of another file; the run and the equally long run of that
      file ending at With have the same digests line for line; and the
      hasher holds the digests of the run's lines after the first. */
  predicate CandidateOk(files: Files, f: FileId, m: FilePositionMatch)
  {
    RangeIn(files, m.position) && m.position.file == f
    && InCorpus(files, m.with) && m.with.file != f
    && Lines(m.position) - 1 <= m.with.position
    && files[m.with.file][m.with.position - (Lines(m.position) - 1)..m.with.position + 1]
       == RangeDigests(files, m.position)
    && HashKey(m) == KeyOf(files, m.position)
  }

  /** File g has, ending at position w, a run with fp's digests. */
  predicate CounterpartAt(files: Files, fp: FilePosition, g: FileId, w: int)
  {
    RangeIn(files, fp) && g in files && g != fp.file
    && Lines(fp) - 1 <= w < |files[g]|
    && files[g][w - (Lines(fp) - 1)..w + 1] == RangeDigests(files, fp)
  }

  /** The run occurs, digest for digest, in some other file. */
  ghost predicate Shared(files: Files, fp: FilePosition)
  {
    exists g, w :: CounterpartAt(files, fp, g, w)
  }

  /** What the scan keeps between files: the groups found so far (dups) and
      the table `ranges` from hash key to the group with that key. */
  datatype Groups = Groups(dups: seq<Duplicate>, ranges: map<seq<Digest>, nat>)

  const NoGroups := Groups([], map[])

  function GroupKey(files: Files, d: Duplicate): seq<Digest>
    requires |d.positions| > 0 && RangeIn(files, d.positions[0])
  {
    KeyOf(files, d.positions[0])
  }

  /** A well-formed group: not empty; every run lies in its file, occurs in
      another file and has the key of the group's first run; Head and Tail
      are the digests of the first run's ends; and the first run came from a
      valid candidate that `keep` accepted. */
  ghost predicate GroupOk(files: Files, d: Duplicate, keep: FilePositionMatch -> bool)
  {
    |d.positions| > 0 && RangeIn(files, d.positions[0])
    && (forall j :: 0 <= j < |d.positions| ==>
          RangeIn(files, d.positions[j]) && Shared(files, d.positions[j])
          && KeyOf(files, d.positions[j]) == KeyOf(files, d.positions[0]))
    && d.head == d.positions[0].start.hash && d.tail == d.positions[0].end.hash
    && exists m: FilePositionMatch :: m.position == d.positions[0] && CandidateOk(files, m.position.file, m) && keep(m)
  }

  /** Every group is well formed and is the one `ranges` lists under its key,
      and `ranges` lists nothing else. */
  ghost predicate GroupsOk(files: Files, st: Groups, keep: FilePositionMatch -> bool)
  {
    (forall i :: 0 <= i < |st.dups| ==>
       GroupOk(files, st.dups[i], keep)
       && GroupKey(files, st.dups[i]) in st.ranges
       && st.ranges[GroupKey(files, st.dups[i])] == i)
    && (forall key :: key in st.ranges ==>
          st.ranges[key] < |st.dups| && GroupKey(files, st.dups[st.ranges[key]]) == key)
  }

  /** No run appears twice, in one group or across groups. */
  ghost predicate Distinct(dups: seq<Duplicate>)
  {
    forall i, j, i', j' ::
      0 <= i < |dups| && 0 <= j < |dups[i].positions|
      && 0 <= i' < |dups| && 0 <= j' < |dups[i'].positions|
      && (i != i' || j != j')
      ==> dups[i].positions[j] != dups[i'].positions[j']
  }

  /** Every run found so far is in an already scanned file, or in file f with
      its (start, end) recorded in `seen`. */
  ghost predicate Covered(dups: seq<Duplicate>, done: set<FileId>, f: FileId, seen: set<(int, int)>)
  {
    forall i, j :: 0 <= i < |dups| && 0 <= j < |dups[i].positions| ==>
      dups[i].positions[j].file in done
      || (dups[i].positions[j].file == f && Positions(dups[i].positions[j]) in seen)
  }

  ghost predicate TableOk(st: Groups)
  {
    forall key :: key in st.ranges ==> st.ranges[key] < |st.dups|
  }

  /** Finalizing a closed candidate: when a group with its key exists the run
      is appended to it, without consulting `keep`; otherwise a new group is
      made of it when `keep` accepts it, and else it is dropped. */
  function Finalize(st: Groups, fp: FilePositionMatch, keep: FilePositionMatch -> bool): Groups
    requires TableOk(st)
  {
    if HashKey(fp) in st.ranges then
      var i := st.ranges[HashKey(fp)];
      var d := st.dups[i];
      Groups(st.dups[i := d.(positions := d.positions + [fp.position])], st.ranges)
    else if !keep(fp) then st
    else Groups(st.dups + [ToDuplicate(fp.position)], st.ranges[HashKey(fp) := |st.dups|])
  }

  /** Finalizing candidates one after the other, in order. */
  function FinalizeSeq(st: Groups, ms: seq<FilePositionMatch>, keep: FilePositionMatch -> bool): (r: Groups)
    requires TableOk(st)
    ensures TableOk(r)
  {
    if ms == [] then st
    else
      var st' := FinalizeSeq(st, ms[..|ms| - 1], keep);
      FinalizeTable(st', ms[|ms| - 1], keep);
      Finalize(st', ms[|ms| - 1], keep)
  }

  lemma FinalizeTable(st: Groups, fp: FilePositionMatch, keep: FilePositionMatch -> bool)
    requires TableOk(st)
    ensures TableOk(Finalize(st, fp, keep))
  {
  }

  /** The filter decides only whether a new group is made: a run whose key
      has a group joins it whatever the filter says, and a run the filter
      rejects leaves a table without its key unchanged. */
  lemma FinalizeFilter(st: Groups, fp: FilePositionMatch, keep: FilePositionMatch -> bool,
                       keep': FilePositionMatch -> bool)
    requires TableOk(st)
    ensures HashKey(fp) in st.ranges ==> Finalize(st, fp, keep) == Finalize(st, fp, keep')
    ensures HashKey(fp) in st.ranges ==>
              |Finalize(st, fp, keep).dups| == |st.dups|
              && Finalize(st, fp, keep).dups[st.ranges[HashKey(fp)]].positions
                 == st.dups[st.ranges[HashKey(fp)]].positions + [fp.position]
    ensures HashKey(fp) !in st.ranges && !keep(fp) ==> Finalize(st, fp, keep) == st
    ensures HashKey(fp) !in st.ranges && keep(fp) ==>
              Finalize(st, fp, keep).dups == st.dups + [ToDuplicate(fp.position)]
  {
  }

  // ---------------------------------------------------------------------
  // Candidate lemmas

  /** The HashKey quirk: the key of a candidate is the digests of its lines
      after the first, since opening writes nothing into the hasher and only
      extension does. */
  lemma HashKeySkipsFirstLine(files: Files, f: FileId, m: FilePositionMatch)
    requires CandidateOk(files, f, m)
    ensures HashKey(m) == RangeDigests(files, m.position)[1..]
  {
  }

  /** Consequently every one-line candidate has the same key, whatever its
      line: all one-line runs fall into one group. */
  lemma OneLineKeysCollide(files: Files, f: FileId, g: FileId, m: FilePositionMatch, m': FilePositionMatch)
    requires CandidateOk(files, f, m) && CandidateOk(files, g, m')
    requires Lines(m.position) == 1 && Lines(m'.position) == 1
    ensures HashKey(m) == HashKey(m') == []
  {
  }

  /** A candidate opened at line p for a line l of another file with p's
      digest satisfies the candidate invariant. */
  lemma OpenOk(files: Files, f: FileId, p: Line, l: Line)
    requires f in files
    requires p.file == f && p.position < |files[f]| && p.hash == files[f][p.position]
    requires InCorpus(files, l) && l.hash == p.hash && l.file != f
    ensures CandidateOk(files, f, Open(files, f, p, l))
    ensures Open(files, f, p, l).position.end == p
  {
    var fp := Open(files, f, p, l).position;
    assert files[l.file][l.position..l.position + 1] == [l.hash];
    assert RangeDigests(files, fp) == [p.hash];
  }

  /** Extending a candidate at the next line p of the scanned file keeps the
      candidate invariant, with End at p. */
  lemma NextOk(files: Files, f: FileId, m: FilePositionMatch, p: Line)
    requires CandidateOk(files, f, m) && Extends(files, m, p)
    requires p.file == f && p.position == m.position.end.position + 1
    requires p.position < |files[f]| && p.hash == files[f][p.position]
    ensures CandidateOk(files, f, Next(files, m, p))
    ensures Next(files, m, p).position.end == p
  {
    var m' := Next(files, m, p);
    var s, e := m.position.start.position, m.position.end.position;
    var g, w := m.with.file, m.with.position;
    var n := e - s;
    assert files[f][s..e + 2] == files[f][s..e + 1] + [files[f][e + 1]];
    assert files[g][w - n..w + 2] == files[g][w - n..w + 1] + [files[g][w + 1]];
    assert files[f][s + 1..e + 2] == files[f][s + 1..e + 1] + [files[f][e + 1]];
    assert RangeDigests(files, m'.position) == files[f][s..e + 2];
  }

  /** A candidate's run is shared with the file of its counterpart. */
  lemma CandidateShared(files: Files, f: FileId, m: FilePositionMatch)
    requires CandidateOk(files, f, m)
    ensures Shared(files, m.position)
  {
    assert CounterpartAt(files, m.position, m.with.file, m.with.position);
  }

  // ---------------------------------------------------------------------
  // Group-table lemmas

  lemma NoGroupsOk(files: Files, keep: FilePositionMatch -> bool)
    ensures GroupsOk(files, NoGroups, keep) && Distinct(NoGroups.dups) && TableOk(NoGroups)
  {
  }

  /** Finalizing a candidate keeps the group table well formed: the run joins
      the group of its own key or starts one, and keys stay one per group. */
  lemma FinalizeOk(files: Files, f: FileId, st: Groups, fp: FilePositionMatch, keep: FilePositionMatch -> bool)
    requires GroupsOk(files, st, keep) && CandidateOk(files, f, fp)
    ensures TableOk(st)
    ensures GroupsOk(files, Finalize(st, fp, keep), keep)
  {
    GroupsOkTable(files, st, keep);
    if HashKey(fp) in st.ranges {
      FinalizeJoinOk(files, f, st, fp, keep);
    } else if keep(fp) {
      FinalizeNewOk(files, f, st, fp, keep);
    }
  }

  /** A run with the group's key, lying in its file and shared, keeps the
      group well formed when appended to it, and the key is unchanged. */
  lemma AppendRunOk(files: Files, d: Duplicate, x: FilePosition, keep: FilePositionMatch -> bool)
    requires GroupOk(files, d, keep) && RangeIn(files, x) && Shared(files, x)
    requires KeyOf(files, x) == GroupKey(files, d)
    ensures GroupOk(files, d.(positions := d.positions + [x]), keep)
    ensures GroupKey(files, d.(positions := d.positions + [x])) == GroupKey(files, d)
  {
    var d' := d.(positions := d.positions + [x]);
    assert d'.positions[0] == d.positions[0];
    forall j | 0 <= j < |d'.positions|
      ensures RangeIn(files, d'.positions[j]) && Shared(files, d'.positions[j])
              && KeyOf(files, d'.positions[j]) == KeyOf(files, d'.positions[0])
    {
      if j < |d.positions| {
        assert d'.positions[j] == d.positions[j];
      } else {
        assert d'.positions[j] == x;
      }
    }
    var m: FilePositionMatch :| m.position == d.positions[0] && keep(m);
    assert m.position == d'.positions[0];
  }

  /** Finalize when a group with the candidate's key exists. */
  lemma FinalizeJoinOk(files: Files, f: FileId, st: Groups, fp: FilePositionMatch, keep: FilePositionMatch -> bool)
    requires GroupsOk(files, st, keep) && CandidateOk(files, f, fp) && HashKey(fp) in st.ranges
    requires TableOk(st)
    ensures GroupsOk(files, Finalize(st, fp, keep), keep)
  {
    CandidateShared(files, f, fp);
    var r := Finalize(st, fp, keep);
    var i := st.ranges[HashKey(fp)];
    var d := st.dups[i];
    AppendRunOk(files, d, fp.position, keep);
    assert r.dups == st.dups[i := d.(positions := d.positions + [fp.position])];
    forall i' | 0 <= i' < |r.dups|
      ensures GroupOk(files, r.dups[i'], keep)
              && GroupKey(files, r.dups[i']) in r.ranges
              && r.ranges[GroupKey(files, r.dups[i'])] == i'
    {
      if i' != i {
        assert r.dups[i'] == st.dups[i'];
      }
    }
  }

  /** Finalize when no group has the candidate's key and `keep` accepts it. */
  lemma FinalizeNewOk(files: Files, f: FileId, st: Groups, fp: FilePositionMatch, keep: FilePositionMatch -> bool)
    requires GroupsOk(files, st, keep) && CandidateOk(files, f, fp) && HashKey(fp) !in st.ranges && keep(fp)
    requires TableOk(st)
    ensures GroupsOk(files, Finalize(st, fp, keep), keep)
  {
    CandidateShared(files, f, fp);
    var r := Finalize(st, fp, keep);
    var n := |st.dups|;
    var d := ToDuplicate(fp.position);
    assert r.dups == st.dups + [d];
    assert GroupOk(files, d, keep) by {
      assert d.positions == [fp.position];
      assert fp.position == d.positions[0] && keep(fp);
    }
    assert GroupKey(files, d) == HashKey(fp);
    forall i' | 0 <= i' < |r.dups|
      ensures GroupOk(files, r.dups[i'], keep)
              && GroupKey(files, r.dups[i']) in r.ranges
              && r.ranges[GroupKey(files, r.dups[i'])] == i'
    {
      if i' < n {
        assert r.dups[i'] == st.dups[i'];
        assert GroupKey(files, st.dups[i']) in st.ranges;
      }
    }
  }

  lemma GroupsOkTable(files: Files, st: Groups, keep: FilePositionMatch -> bool)
    requires GroupsOk(files, st, keep)
    ensures TableOk(st)
  {
  }

  /** Finalizing a run that is in the scanned file and not yet recorded in
      `seen` adds nothing twice, and afterwards the run is recorded. */
  lemma FinalizeDistinct(st: Groups, fp: FilePositionMatch, keep: FilePositionMatch -> bool,
                         done: set<FileId>, f: FileId, seen: set<(int, int)>)
    requires TableOk(st) && Distinct(st.dups) && Covered(st.dups, done, f, seen)
    requires fp.position.file == f && f !in done && Positions(fp.position) !in seen
    ensures Distinct(Finalize(st, fp, keep).dups)
    ensures Covered(Finalize(st, fp, keep).dups, done, f, seen + {Positions(fp.position)})
  {
    var r := Finalize(st, fp, keep);
    var x := fp.position;
    if HashKey(fp) in st.ranges {
      var g := st.ranges[HashKey(fp)];
      var n := |st.dups[g].positions|;
      assert r.dups[g].positions == st.dups[g].positions + [x];
      forall i, j | 0 <= i < |st.dups| && 0 <= j < |st.dups[i].positions|
        ensures st.dups[i].positions[j] != x
      {
      }
      forall i, j | 0 <= i < |r.dups| && 0 <= j < |r.dups[i].positions|
        ensures (i, j) == (g, n) || (j < |st.dups[i].positions| && r.dups[i].positions[j] == st.dups[i].positions[j])
        ensures (i, j) == (g, n) ==> r.dups[i].positions[j] == x
      {
      }
    } else if keep(fp) {
      var n := |st.dups|;
      assert r.dups == st.dups + [ToDuplicate(x)];
      forall i, j | 0 <= i < |st.dups| && 0 <= j < |st.dups[i].positions|
        ensures st.dups[i].positions[j] != x
      {
      }
    }
  }

  /** The keys of distinct groups differ: each key's group appears once. */
  lemma GroupKeysDistinct(files: Files, st: Groups, keep: FilePositionMatch -> bool, i: int, i': int)
    requires GroupsOk(files, st, keep)
    requires 0 <= i < i' < |st.dups|
    ensures GroupOk(files, st.dups[i], keep) && GroupOk(files, st.dups[i'], keep)
    ensures GroupKey(files, st.dups[i]) != GroupKey(files, st.dups[i'])
  {
  }

  // ---------------------------------------------------------------------
  // Growth of the group table and the record of finalized candidates

  /** The table only grows: groups keep their place and their runs, and keys
      keep their group. */
  ghost predicate Grows(st: Groups, st': Groups)
  {
    |st.dups| <= |st'.dups|
    && (forall i :: 0 <= i < |st.dups| ==> st.dups[i].positions <= st'.dups[i].positions)
    && (forall key :: key in st.ranges ==> key in st'.ranges && st'.ranges[key] == st.ranges[key])
  }

  /** A finalized candidate that `keep` accepts is in the group of its key. */
  ghost predicate Recorded(st: Groups, m: FilePositionMatch, keep: FilePositionMatch -> bool)
  {
    keep(m) ==>
      HashKey(m) in st.ranges && st.ranges[HashKey(m)] < |st.dups|
      && m.position in st.dups[st.ranges[HashKey(m)]].positions
  }

  lemma GrowsTrans(a: Groups, b: Groups, c: Groups)
    requires Grows(a, b) && Grows(b, c)
    ensures Grows(a, c)
  {
    forall i | 0 <= i < |a.dups|
      ensures a.dups[i].positions <= c.dups[i].positions
    {
      assert a.dups[i].positions <= b.dups[i].positions <= c.dups[i].positions;
    }
  }

  /** Finalizing grows the table and records the candidate. */
  lemma FinalizeGrows(st: Groups, fp: FilePositionMatch, keep: FilePositionMatch -> bool)
    requires TableOk(st)
    ensures Grows(st, Finalize(st, fp, keep))
    ensures Recorded(Finalize(st, fp, keep), fp, keep)
  {
    var r := Finalize(st, fp, keep);
    if HashKey(fp) in st.ranges {
      var i := st.ranges[HashKey(fp)];
      assert r.dups[i].positions == st.dups[i].positions + [fp.position];
      assert r.dups[i].positions[|st.dups[i].positions|] == fp.position;
    } else if keep(fp) {
      assert r.dups[|st.dups|].positions == [fp.position];
    }
  }

  /** A record survives growth of the table. */
  lemma RecordedGrows(st: Groups, st': Groups, m: FilePositionMatch, keep: FilePositionMatch -> bool)
    requires Recorded(st, m, keep) && Grows(st, st')
    ensures Recorded(st', m, keep)
  {
    if keep(m) {
      var i := st.ranges[HashKey(m)];
      assert st.dups[i].positions <= st'.dups[i].positions;
    }
  }

  // ---------------------------------------------------------------------
  // Positions of candidates

  function PosSet(ms: seq<FilePositionMatch>): set<(int, int)>
  {
    set m | m in ms :: Positions(m.position)
  }

  /** No two candidates of the list share (start, end). */
  predicate DistinctPositions(ms: seq<FilePositionMatch>)
  {
    forall i, j :: 0 <= i < j < |ms| ==> Positions(ms[i].position) != Positions(ms[j].position)
  }

  /** l is the successor of some candidate's counterpart line. */
  ghost predicate IsNextOf(files: Files, ms: seq<FilePositionMatch>, l: Line)
  {
    exists m :: m in ms && HasNext(files, m.with) && NextLine(files, m.with) == l
  }

  /** Every run found so far lies in one of the files of `done`. */
  ghost predicate InFiles(dups: seq<Duplicate>, done: set<FileId>)
  {
    forall i, j :: 0 <= i < |dups| && 0 <= j < |dups[i].positions| ==> dups[i].positions[j].file in done
  }

  lemma InFilesCovered(dups: seq<Duplicate>, done: set<FileId>, f: FileId)
    requires InFiles(dups, done)
    ensures Covered(dups, done, f, {})
  {
  }

  lemma CoveredInFiles(dups: seq<Duplicate>, done: set<FileId>, f: FileId, seen: set<(int, int)>)
    requires Covered(dups, done, f, seen)
    ensures InFiles(dups, done + {f})
  {
  }

  // ---------------------------------------------------------------------
  // The steps of the scan of one file

  /** Opening candidates at line p of file f: one per occurrence of p's digest
      in another file, keyed by that occurrence; occurrences in f itself are
      skipped. */
  method OpenCandidates(files: Files, index: LineIndex, f: FileId, p: Line)
    returns (missedLines: map<Line, FilePositionMatch>)
    requires IndexOk(files, index) && f in files
    requires p.file == f && p.position < |files[f]| && p.hash == files[f][p.position]
    ensures forall l :: l in missedLines <==> l in Bucket(index, p.hash) && l.file != f
    ensures forall l :: l in missedLines ==>
              missedLines[l] == Open(files, f, p, l) && CandidateOk(files, f, missedLines[l])
  {
    var bucket := Bucket(index, p.hash);
    missedLines := map[];
    var j := 0;
    while j < |bucket|
      invariant 0 <= j <= |bucket|
      invariant forall l :: l in missedLines <==> l in bucket[..j] && l.file != f
      invariant forall l :: l in missedLines ==>
                  missedLines[l] == Open(files, f, p, l) && CandidateOk(files, f, missedLines[l])
    {
      var l := bucket[j];
      if l.file != f {
        BucketEntry(files, index, p.hash, bucket, j);
        OpenOk(files, f, p, l);
        missedLines := missedLines[l := Open(files, f, p, l)];
      }
      assert bucket[..j + 1] == bucket[..j] + [l];
      j := j + 1;
    }
    assert bucket[..j] == bucket;
  }
  /** The live candidates extended at line p, in order, each advanced. */
  function Advanced(files: Files, ms: seq<FilePositionMatch>, p: Line): seq<FilePositionMatch>
  {
    if ms == [] then []
    else
      var m := ms[|ms| - 1];
      Advanced(files, ms[..|ms| - 1], p) + (if Extends(files, m, p) then [Next(files, m, p)] else [])
  }

  /** The live candidates not extended at line p, in order. */
  function Stopped(files: Files, ms: seq<FilePositionMatch>, p: Line): seq<FilePositionMatch>
  {
    if ms == [] then []
    else
      var m := ms[|ms| - 1];
      Stopped(files, ms[..|ms| - 1], p) + (if Extends(files, m, p) then [] else [m])
  }

  /** The candidates kept by the seen-positions guard, in order: those whose
      (start, end) is neither in `seen` nor taken by an earlier kept one. */
  function Unseen(ms: seq<FilePositionMatch>, seen: set<(int, int)>): seq<FilePositionMatch>
  {
    if ms == [] then []
    else
      var c := Unseen(ms[..|ms| - 1], seen);
      var m := ms[|ms| - 1];
      if Positions(m.position) !in seen + PosSet(c) then c + [m] else c
  }

  /** The live candidates closed at line p. */
  function Closed(files: Files, ms: seq<FilePositionMatch>, p: Line, seen: set<(int, int)>): seq<FilePositionMatch>
  {
    Unseen(Stopped(files, ms, p), seen)
  }

  /** The fresh candidates left once the one keyed by each live candidate's
      counterpart successor is dropped. */
  function Undropped(files: Files, ms: seq<FilePositionMatch>, ml: map<Line, FilePositionMatch>): map<Line, FilePositionMatch>
  {
    if ms == [] then ml
    else
      var d := Undropped(files, ms[..|ms| - 1], ml);
      var m := ms[|ms| - 1];
      if HasNext(files, m.with) then d - {NextLine(files, m.with)} else d
  }

  /** One more live candidate: how the three lists grow. */
  lemma StepSnoc(files: Files, ms: seq<FilePositionMatch>, j: int, p: Line, ml: map<Line, FilePositionMatch>)
    requires 0 <= j < |ms|
    ensures Advanced(files, ms[..j + 1], p)
            == Advanced(files, ms[..j], p) + (if Extends(files, ms[j], p) then [Next(files, ms[j], p)] else [])
    ensures Stopped(files, ms[..j + 1], p)
            == Stopped(files, ms[..j], p) + (if Extends(files, ms[j], p) then [] else [ms[j]])
    ensures Undropped(files, ms[..j + 1], ml)
            == if HasNext(files, ms[j].with) then Undropped(files, ms[..j], ml) - {NextLine(files, ms[j].with)}
               else Undropped(files, ms[..j], ml)
  {
    assert ms[..j + 1][..j] == ms[..j];
  }

  /** Exactly the candidates that extend are advanced, and each advanced
      candidate is a candidate ending at p. */
  lemma {:induction false} AdvancedOk(files: Files, f: FileId, ms: seq<FilePositionMatch>, p: Line)
    requires f in files && p.file == f && p.position < |files[f]| && p.hash == files[f][p.position]
    requires forall m :: m in ms ==> CandidateOk(files, f, m) && m.position.end.position + 1 == p.position
    ensures forall m :: m in ms && Extends(files, m, p) ==> Next(files, m, p) in Advanced(files, ms, p)
    ensures forall x :: x in Advanced(files, ms, p) ==>
              exists m :: m in ms && Extends(files, m, p) && x == Next(files, m, p)
    ensures forall x :: x in Advanced(files, ms, p) ==> CandidateOk(files, f, x) && x.position.end == p
  {
    if ms != [] {
      var init, m := ms[..|ms| - 1], ms[|ms| - 1];
      assert ms == init + [m];
      AdvancedOk(files, f, init, p);
      if Extends(files, m, p) {
        NextOk(files, f, m, p);
      }
    }
  }

  /** The stopped candidates are exactly the live ones that do not extend. */
  lemma {:induction false} StoppedOk(files: Files, ms: seq<FilePositionMatch>, p: Line)
    ensures forall x :: x in Stopped(files, ms, p) <==> x in ms && !Extends(files, x, p)
  {
    if ms != [] {
      var init, m := ms[..|ms| - 1], ms[|ms| - 1];
      assert ms == init + [m];
      StoppedOk(files, init, p);
    }
  }

  /** The guard keeps candidates of the list with fresh, pairwise different
      (start, end), and afterwards every candidate's (start, end) is
      recorded. */
  lemma {:induction false} UnseenOk(ms: seq<FilePositionMatch>, seen: set<(int, int)>)
    ensures forall x :: x in Unseen(ms, seen) ==> x in ms && Positions(x.position) !in seen
    ensures forall m :: m in ms ==> Positions(m.position) in seen + PosSet(Unseen(ms, seen))
    ensures DistinctPositions(Unseen(ms, seen))
  {
    if ms != [] {
      var init, m := ms[..|ms| - 1], ms[|ms| - 1];
      assert ms == init + [m];
      UnseenOk(init, seen);
      PosSetSnoc(Unseen(init, seen), m);
    }
  }

  /** The closed candidates are non-extended live ones with fresh, pairwise
      different (start, end); afterwards every non-extended live candidate's
      (start, end) is recorded. */
  lemma ClosedOk(files: Files, ms: seq<FilePositionMatch>, p: Line, seen: set<(int, int)>)
    ensures forall x :: x in Closed(files, ms, p, seen) ==>
              x in ms && !Extends(files, x, p) && Positions(x.position) !in seen
    ensures forall m :: m in ms && !Extends(files, m, p) ==>
              Positions(m.position) in seen + PosSet(Closed(files, ms, p, seen))
    ensures DistinctPositions(Closed(files, ms, p, seen))
  {
    StoppedOk(files, ms, p);
    UnseenOk(Stopped(files, ms, p), seen);
  }

  /** A fresh candidate survives exactly when no live candidate's counterpart
      successor is its key, and survives unchanged. */
  lemma {:induction false} UndroppedOk(files: Files, ms: seq<FilePositionMatch>, ml: map<Line, FilePositionMatch>)
    ensures forall l :: l in Undropped(files, ms, ml) <==> l in ml && !IsNextOf(files, ms, l)
    ensures forall l :: l in Undropped(files, ms, ml) ==> Undropped(files, ms, ml)[l] == ml[l]
  {
    if ms != [] {
      var init, m := ms[..|ms| - 1], ms[|ms| - 1];
      assert ms == init + [m];
      UndroppedOk(files, init, ml);
      forall l
        ensures IsNextOf(files, ms, l) <==>
                IsNextOf(files, init, l) || (HasNext(files, m.with) && NextLine(files, m.with) == l)
      {
        if IsNextOf(files, ms, l) {
          var m' :| m' in ms && HasNext(files, m'.with) && NextLine(files, m'.with) == l;
          if m' != m {
            assert m' in init;
          }
        }
        if IsNextOf(files, init, l) {
          var m' :| m' in init && HasNext(files, m'.with) && NextLine(files, m'.with) == l;
          assert m' in ms;
        }
        if HasNext(files, m.with) && NextLine(files, m.with) == l {
          assert m in ms;
        }
      }
    }
  }

  lemma PosSetSnoc(ms: seq<FilePositionMatch>, m: FilePositionMatch)
    ensures PosSet(ms + [m]) == PosSet(ms) + {Positions(m.position)}
    ensures forall i :: 0 <= i < |ms| ==> Positions(ms[i].position) in PosSet(ms)
  {
    assert m in ms + [m];
    forall i | 0 <= i < |ms|
      ensures Positions(ms[i].position) in PosSet(ms)
    {
      assert ms[i] in ms;
    }
  }

  /** One more stopped candidate: the guard keeps it exactly when its
      (start, end) is not yet recorded, and then records it. */
  lemma UnseenSnoc(stopped: seq<FilePositionMatch>, m: FilePositionMatch, seen0: set<(int, int)>,
                   missed: seq<FilePositionMatch>, seen: set<(int, int)>)
    requires missed == Unseen(stopped, seen0) && seen == seen0 + PosSet(missed)
    ensures Positions(m.position) !in seen ==>
              Unseen(stopped + [m], seen0) == missed + [m]
              && seen + {Positions(m.position)} == seen0 + PosSet(missed + [m])
    ensures Positions(m.position) in seen ==> Unseen(stopped + [m], seen0) == missed
  {
    UnseenLast(stopped, m, seen0);
    PosSetSnoc(missed, m);
  }

  /** Unseen of a list with one more element, by its definition. */
  lemma UnseenLast(stopped: seq<FilePositionMatch>, m: FilePositionMatch, seen0: set<(int, int)>)
    ensures var c := Unseen(stopped, seen0);
            Unseen(stopped + [m], seen0) == if Positions(m.position) !in seen0 + PosSet(c) then c + [m] else c
  {
    SnocParts(stopped, m);
  }

  /** Advancing the live candidates to line p: a candidate whose counterpart's
      successor has p's digest is extended; the fresh candidate keyed by that
      successor is dropped in any case; every other candidate is closed,
      unless a closed one with the same (start, end) is recorded in `seen`
      already, and its (start, end) is recorded. The lists are the ones
      Advanced, Closed and Undropped describe; AdvancedOk, ClosedOk and
      UndroppedOk say what they hold. */
  method CloseOrExtend(files: Files, matches: seq<FilePositionMatch>, p: Line,
                       missedLines0: map<Line, FilePositionMatch>, seen0: set<(int, int)>)
    returns (extended: seq<FilePositionMatch>, missed: seq<FilePositionMatch>,
             missedLines: map<Line, FilePositionMatch>, seen: set<(int, int)>)
    ensures extended == Advanced(files, matches, p)
    ensures missed == Closed(files, matches, p, seen0)
    ensures missedLines == Undropped(files, matches, missedLines0)
    ensures seen == seen0 + PosSet(missed)
  {
    extended, missed, missedLines, seen := [], [], missedLines0, seen0;
    ghost var stopped: seq<FilePositionMatch> := [];
    var j := 0;
    while j < |matches|
      invariant 0 <= j <= |matches|
      invariant extended == Advanced(files, matches[..j], p)
      invariant stopped == Stopped(files, matches[..j], p)
      invariant missed == Unseen(stopped, seen0)
      invariant missedLines == Undropped(files, matches[..j], missedLines0)
      invariant seen == seen0 + PosSet(missed)
    {
      var fp := matches[j];
      StepSnoc(files, matches, j, p, missedLines0);
      if HasNext(files, fp.with) {
        missedLines := missedLines - {NextLine(files, fp.with)};
      }
      if Extends(files, fp, p) {
        extended := extended + [Next(files, fp, p)];
      } else {
        UnseenSnoc(stopped, fp, seen0, missed, seen);
        if Positions(fp.position) !in seen {
          seen := seen + {Positions(fp.position)};
          missed := missed + [fp];
        }
        stopped := stopped + [fp];
      }
      j := j + 1;
    }
    assert matches[..j] == matches;
  }

  /** r lists, after its first n elements, the values of ml at `keys`, and
      no key twice. */
  ghost predicate ListsValues(r: seq<FilePositionMatch>, n: int, ml: map<Line, FilePositionMatch>, keys: seq<Line>)
  {
    0 <= n <= |r| && |keys| == |r| - n
    && (forall t :: 0 <= t < |keys| ==> keys[t] in ml && r[n + t] == ml[keys[t]])
    && (forall t, t' :: 0 <= t < t' < |keys| ==> keys[t] != keys[t'])
  }

  /** Appending the fresh candidates, in the map's unspecified order, after
      the extended ones: each fresh candidate once, in the order of `keys`. */
  method AppendValues(ms: seq<FilePositionMatch>, ml: map<Line, FilePositionMatch>)
    returns (r: seq<FilePositionMatch>, ghost keys: seq<Line>)
    ensures |r| == |ms| + |ml|
    ensures r[..|ms|] == ms
    ensures forall l :: l in ml ==> ml[l] in r[|ms|..]
    ensures forall x :: x in r[|ms|..] ==> exists l :: l in ml && ml[l] == x
    ensures ListsValues(r, |ms|, ml, keys)
  {
    r := ms;
    var rest := ml.Keys;
    keys := [];
    while rest != {}
      invariant Appending(ms, ml, rest, r, keys)
      decreases |rest|
    {
      var l :| l in rest;
      AppendStep(ms, ml, rest, r, keys, l);
      r, keys := r + [ml[l]], keys + [l];
      rest := rest - {l};
    }
    AppendDone(ms, ml, r, keys);
  }

  /** Once every key is taken, r lists ml's values after ms. */
  lemma AppendDone(ms: seq<FilePositionMatch>, ml: map<Line, FilePositionMatch>, r: seq<FilePositionMatch>,
                   keys: seq<Line>)
    requires Appending(ms, ml, {}, r, keys)
    ensures |r| == |ms| + |ml|
    ensures r[..|ms|] == ms
    ensures forall l :: l in ml ==> ml[l] in r[|ms|..]
    ensures forall x :: x in r[|ms|..] ==> exists l :: l in ml && ml[l] == x
    ensures ListsValues(r, |ms|, ml, keys)
  {
    assert ml.Keys - {} == ml.Keys;
    ValuesListed(ms, ml, r, keys);
  }

  /** The state of AppendValues's loop with the keys of `rest` still to go:
      the values at `keys` follow ms, each key once. */
  ghost predicate Appending(ms: seq<FilePositionMatch>, ml: map<Line, FilePositionMatch>, rest: set<Line>,
                            r: seq<FilePositionMatch>, keys: seq<Line>)
  {
    rest <= ml.Keys
    && |r| == |ms| + |keys| && |keys| == |ml.Keys - rest|
    && r[..|ms|] == ms
    && (forall l :: l in ml && l !in rest ==> l in keys)
    && (forall t :: 0 <= t < |keys| ==> keys[t] in ml && keys[t] !in rest && r[|ms| + t] == ml[keys[t]])
    && (forall t, t' :: 0 <= t < t' < |keys| ==> keys[t] != keys[t'])
  }

  /** Appending the value at one more key keeps the loop's state. */
  lemma AppendStep(ms: seq<FilePositionMatch>, ml: map<Line, FilePositionMatch>, rest: set<Line>,
                   r: seq<FilePositionMatch>, keys: seq<Line>, l: Line)
    requires Appending(ms, ml, rest, r, keys) && l in rest
    ensures Appending(ms, ml, rest - {l}, r + [ml[l]], keys + [l])
  {
    TakeKey(ml.Keys, rest, l);
    assert forall t :: 0 <= t < |keys| ==> keys[t] != l;
    var r', keys' := r + [ml[l]], keys + [l];
    assert r'[..|ms|] == r[..|ms|];
    forall t | 0 <= t < |keys'|
      ensures keys'[t] in ml && keys'[t] !in rest - {l} && r'[|ms| + t] == ml[keys'[t]]
    {
      if t < |keys| {
        assert keys'[t] == keys[t] && r'[|ms| + t] == r[|ms| + t];
      }
    }
  }

  /** Taking key l out of the keys left makes one more key taken. */
  lemma TakeKey<K>(all: set<K>, rest: set<K>, l: K)
    requires rest <= all && l in rest
    ensures |all - (rest - {l})| == |all - rest| + 1
  {
    assert all - (rest - {l}) == (all - rest) + {l};
  }

  /** r lists, after ms, the values of ml at keys, which cover ml. */
  lemma ValuesListed(ms: seq<FilePositionMatch>, ml: map<Line, FilePositionMatch>,
                     r: seq<FilePositionMatch>, keys: seq<Line>)
    requires |r| == |ms| + |keys|
    requires forall l :: l in ml ==> l in keys
    requires forall t :: 0 <= t < |keys| ==> keys[t] in ml && r[|ms| + t] == ml[keys[t]]
    ensures forall l :: l in ml ==> ml[l] in r[|ms|..]
    ensures forall x :: x in r[|ms|..] ==> exists l :: l in ml && ml[l] == x
  {
    forall l | l in ml
      ensures ml[l] in r[|ms|..]
    {
      var t :| 0 <= t < |keys| && keys[t] == l;
      assert r[|ms|..][t] == ml[l];
    }
    forall x | x in r[|ms|..]
      ensures exists l :: l in ml && ml[l] == x
    {
      var t :| 0 <= t < |r| - |ms| && r[|ms|..][t] == x;
      assert r[|ms| + t] == ml[keys[t]];
    }
  }

  /** One finalization inside the scan of file f keeps every invariant. */
  lemma FinalizeStep(files: Files, f: FileId, done: set<FileId>, seen: set<(int, int)>,
                     st0: Groups, st: Groups, fp: FilePositionMatch, keep: FilePositionMatch -> bool)
    requires GroupsOk(files, st, keep) && Distinct(st.dups) && Covered(st.dups, done, f, seen) && f !in done
    requires CandidateOk(files, f, fp) && Positions(fp.position) !in seen
    requires Grows(st0, st)
    ensures TableOk(st)
    ensures GroupsOk(files, Finalize(st, fp, keep), keep)
    ensures Distinct(Finalize(st, fp, keep).dups)
    ensures Covered(Finalize(st, fp, keep).dups, done, f, seen + {Positions(fp.position)})
    ensures Grows(st0, Finalize(st, fp, keep))
    ensures Recorded(Finalize(st, fp, keep), fp, keep)
    ensures forall x :: Recorded(st, x, keep) ==> Recorded(Finalize(st, fp, keep), x, keep)
  {
    FinalizeOk(files, f, st, fp, keep);
    FinalizeDistinct(st, fp, keep, done, f, seen);
    FinalizeGrows(st, fp, keep);
    var r := Finalize(st, fp, keep);
    GrowsTrans(st0, st, r);
    forall x | Recorded(st, x, keep)
      ensures Recorded(r, x, keep)
    {
      RecordedGrows(st, r, x, keep);
    }
  }

  /** One more finalized candidate. */
  lemma FinalizeSeqSnoc(st: Groups, ms: seq<FilePositionMatch>, m: FilePositionMatch, keep: FilePositionMatch -> bool)
    requires TableOk(st)
    ensures FinalizeSeq(st, ms + [m], keep) == Finalize(FinalizeSeq(st, ms, keep), m, keep)
  {
    assert (ms + [m])[..|ms|] == ms;
  }

  /** Finalizing one more element of ms. */
  lemma FinalizeSeqPrefix(st: Groups, ms: seq<FilePositionMatch>, j: int, keep: FilePositionMatch -> bool)
    requires TableOk(st) && 0 <= j < |ms|
    ensures FinalizeSeq(st, ms[..j + 1], keep) == Finalize(FinalizeSeq(st, ms[..j], keep), ms[j], keep)
  {
    assert ms[..j + 1][..j] == ms[..j];
  }

  /** The i-th of pairwise different, unseen positions is unseen by the
      ones before it, and recording it records the first i + 1. */
  lemma PosSetPrefix(ms: seq<FilePositionMatch>, i: int, seen: set<(int, int)>)
    requires DistinctPositions(ms) && 0 <= i < |ms|
    requires forall x :: x in ms ==> Positions(x.position) !in seen
    ensures ms[..i + 1] == ms[..i] + [ms[i]]
    ensures Positions(ms[i].position) !in seen + PosSet(ms[..i])
    ensures seen + PosSet(ms[..i]) + {Positions(ms[i].position)} == seen + PosSet(ms[..i + 1])
  {
    assert ms[..i + 1] == ms[..i] + [ms[i]];
    PosSetSnoc(ms[..i], ms[i]);
    assert ms[i] in ms;
    forall x | x in ms[..i]
      ensures Positions(x.position) != Positions(ms[i].position)
    {
      var t :| 0 <= t < i && ms[..i][t] == x;
      assert ms[t] == x;
    }
  }

  /** Finalizing the candidates closed at one line, in order. */
  method FinalizeAll(ghost files: Files, ghost f: FileId, ghost done: set<FileId>, ghost seen0: set<(int, int)>,
                     st: Groups, missed: seq<FilePositionMatch>, keep: FilePositionMatch -> bool)
    returns (r: Groups)
    requires GroupsOk(files, st, keep) && Distinct(st.dups) && Covered(st.dups, done, f, seen0) && f !in done
    requires forall x :: x in missed ==> CandidateOk(files, f, x) && Positions(x.position) !in seen0
    requires DistinctPositions(missed)
    ensures TableOk(st) && r == FinalizeSeq(st, missed, keep)
    ensures GroupsOk(files, r, keep) && Distinct(r.dups) && Covered(r.dups, done, f, seen0 + PosSet(missed))
    ensures Grows(st, r) && forall t :: 0 <= t < |missed| ==> Recorded(r, missed[t], keep)
  {
    GroupsOkTable(files, st, keep);
    r := st;
    ghost var seen := seen0;
    var i := 0;
    while i < |missed|
      invariant 0 <= i <= |missed|
      invariant r == FinalizeSeq(st, missed[..i], keep) && seen == seen0 + PosSet(missed[..i])
      invariant GroupsOk(files, r, keep) && Distinct(r.dups) && Covered(r.dups, done, f, seen)
      invariant Grows(st, r) && forall t :: 0 <= t < i ==> Recorded(r, missed[t], keep)
    {
      var fp := missed[i];
      assert fp in missed;
      PosSetPrefix(missed, i, seen0);
      FinalizeSeqSnoc(st, missed[..i], fp, keep);
      FinalizeStep(files, f, done, seen, st, r, fp, keep);
      r := Finalize(r, fp, keep);
      seen := seen + {Positions(fp.position)};
      i := i + 1;
    }
    assert missed[..i] == missed;
  }

  /** The state of the flush after the first j live candidates of file f:
      u are those not stopped by the guard, seen has their positions, r is
      st with them finalized and keeps every invariant of the scan, and each
      of them is recorded. */
  ghost predicate Flushing(files: Files, f: FileId, done: set<FileId>, st: Groups, ms: seq<FilePositionMatch>,
                           j: int, seen0: set<(int, int)>, keep: FilePositionMatch -> bool,
                           u: seq<FilePositionMatch>, seen: set<(int, int)>, r: Groups)
  {
    0 <= j <= |ms| && TableOk(st)
    && u == Unseen(ms[..j], seen0) && seen == seen0 + PosSet(u)
    && r == FinalizeSeq(st, u, keep)
    && GroupsOk(files, r, keep) && Distinct(r.dups) && Covered(r.dups, done, f, seen) && Grows(st, r)
    && forall x :: x in u ==> Recorded(r, x, keep)
  }

  /** One live candidate of the flush: unless the guard stops it, it is
      finalized and its position recorded. */
  lemma FlushStep(files: Files, f: FileId, done: set<FileId>, st: Groups, ms: seq<FilePositionMatch>,
                  j: int, seen0: set<(int, int)>, keep: FilePositionMatch -> bool,
                  u: seq<FilePositionMatch>, seen: set<(int, int)>, r: Groups)
    requires Flushing(files, f, done, st, ms, j, seen0, keep, u, seen, r) && j < |ms| && f !in done
    requires CandidateOk(files, f, ms[j])
    ensures TableOk(r)
    ensures Positions(ms[j].position) !in seen ==>
              Flushing(files, f, done, st, ms, j + 1, seen0, keep, u + [ms[j]],
                       seen + {Positions(ms[j].position)}, Finalize(r, ms[j], keep))
    ensures Positions(ms[j].position) in seen ==> Flushing(files, f, done, st, ms, j + 1, seen0, keep, u, seen, r)
  {
    var fp := ms[j];
    assert ms[..j + 1] == ms[..j] + [fp];
    UnseenSnoc(ms[..j], fp, seen0, u, seen);
    GroupsOkTable(files, r, keep);
    if Positions(fp.position) !in seen {
      FinalizeStep(files, f, done, seen, st, r, fp, keep);
      FinalizeSeqSnoc(st, u, fp, keep);
      var r' := Finalize(r, fp, keep);
      forall x | x in u + [fp]
        ensures Recorded(r', x, keep)
      {
        if x != fp {
          assert x in u;
        }
      }
    }
  }

  /** The flush at the end of file f: every live candidate not stopped by the
      seen-positions guard is finalized, in order. */
  method Flush(ghost files: Files, ghost f: FileId, ghost done: set<FileId>,
               st: Groups, matches: seq<FilePositionMatch>, seen0: set<(int, int)>, keep: FilePositionMatch -> bool)
    returns (r: Groups, seen: set<(int, int)>)
    requires GroupsOk(files, st, keep) && Distinct(st.dups) && Covered(st.dups, done, f, seen0) && f !in done
    requires forall m :: m in matches ==> CandidateOk(files, f, m)
    ensures TableOk(st) && r == FinalizeSeq(st, Unseen(matches, seen0), keep)
    ensures GroupsOk(files, r, keep) && Distinct(r.dups) && InFiles(r.dups, done + {f}) && Grows(st, r)
    ensures forall m :: m in matches ==> Positions(m.position) in seen
    ensures forall x :: x in Unseen(matches, seen0) ==> Recorded(r, x, keep)
  {
    GroupsOkTable(files, st, keep);
    r, seen := st, seen0;
    ghost var u: seq<FilePositionMatch> := [];
    var j := 0;
    assert matches[..0] == [];
    while j < |matches|
      invariant Flushing(files, f, done, st, matches, j, seen0, keep, u, seen, r)
    {
      var fp := matches[j];
      assert fp in matches;
      FlushStep(files, f, done, st, matches, j, seen0, keep, u, seen, r);
      if Positions(fp.position) !in seen {
        seen := seen + {Positions(fp.position)};
        r := Finalize(r, fp, keep);
        u := u + [fp];
      }
      j := j + 1;
    }
    assert matches[..j] == matches;
    UnseenOk(matches, seen0);
    CoveredInFiles(r.dups, done, f, seen);
  }

  /** The live candidates for the next line are candidates ending at p. */
  lemma NextMatchesOk(files: Files, f: FileId, p: Line, extended: seq<FilePositionMatch>,
                      kept: map<Line, FilePositionMatch>, next: seq<FilePositionMatch>)
    requires forall x :: x in extended ==> CandidateOk(files, f, x) && x.position.end == p
    requires forall l :: l in kept ==> CandidateOk(files, f, kept[l]) && kept[l].position.end == p
    requires |extended| <= |next| && next[..|extended|] == extended
    requires forall x :: x in next[|extended|..] ==> exists l :: l in kept && kept[l] == x
    ensures forall m :: m in next ==> CandidateOk(files, f, m) && m.position.end == p
  {
    forall m | m in next
      ensures CandidateOk(files, f, m) && m.position.end == p
    {
      var t :| 0 <= t < |next| && next[t] == m;
      if t < |extended| {
        assert m == next[..|extended|][t];
      } else {
        assert m == next[|extended|..][t - |extended|];
        assert m in next[|extended|..];
        var l :| l in kept && kept[l] == m;
      }
    }
  }

  // ---------------------------------------------------------------------
  // What the scan of one file finalizes

  /** Line t of file f carries a digest that some other file has too. */
  ghost predicate SharedLine(files: Files, f: FileId, t: int)
  {
    f in files && 0 <= t < |files[f]|
    && exists g, w :: g in files && g != f && 0 <= w < |files[g]| && files[g][w] == files[f][t]
  }

  /** Some candidate of ms has line t of file f in its run. */
  ghost predicate Spans(ms: seq<FilePositionMatch>, f: FileId, t: int)
  {
    exists m :: m in ms && m.position.file == f && m.position.start.position <= t <= m.position.end.position
  }

  /** Candidate m of file f cannot grow along its counterpart: its run ends
      at the file's last line, or the counterpart does not go on with the
      digest of the line after the run. */
  predicate Closes(files: Files, f: FileId, m: FilePositionMatch)
  {
    f in files && 0 <= m.position.end.position < |files[f]|
    && (m.position.end.position + 1 == |files[f]|
        || !Extends(files, m, Line(f, m.position.end.position + 1, files[f][m.position.end.position + 1])))
  }

  /** Where the counterpart run of candidate m starts: as many lines before
      With as the run has lines after its Start. */
  function CounterStart(m: FilePositionMatch): int
  {
    m.with.position - (Lines(m.position) - 1)
  }

  /** Candidate m of file f cannot grow backwards along its counterpart: its
      run starts the file, or the counterpart run starts its file, or the
      lines before the two differ. */
  predicate Opens(files: Files, f: FileId, m: FilePositionMatch)
  {
    var s, c := m.position.start.position, CounterStart(m);
    f in files && m.with.file in files && s <= |files[f]| && 0 <= c <= |files[m.with.file]|
    && (s == 0 || c == 0 || files[f][s - 1] != files[m.with.file][c - 1])
  }

  /** Before line k of file f: every line of another file carrying the
      digest of line k - 1 is the counterpart line With of a live candidate. */
  ghost predicate WithsCover(files: Files, f: FileId, k: int, ms: seq<FilePositionMatch>)
  {
    f in files && 0 < k <= |files[f]| ==>
      forall g, w :: g in files && g != f && 0 <= w < |files[g]| && files[g][w] == files[f][k - 1] ==>
        exists m :: m in ms && m.with == Line(g, w, files[g][w])
  }

  /** No two live candidates have the same counterpart line With. */
  predicate DistinctWiths(ms: seq<FilePositionMatch>)
  {
    forall i, j :: 0 <= i < j < |ms| ==> ms[i].with != ms[j].with
  }

  /** Each advanced candidate's With is the successor of a live candidate's
      counterpart line. */
  lemma {:induction false} AdvancedNextOf(files: Files, ms: seq<FilePositionMatch>, p: Line)
    ensures forall x :: x in Advanced(files, ms, p) ==> IsNextOf(files, ms, x.with)
  {
    if ms != [] {
      var init, m := ms[..|ms| - 1], ms[|ms| - 1];
      assert ms == init + [m];
      AdvancedNextOf(files, init, p);
      forall x | x in Advanced(files, ms, p)
        ensures IsNextOf(files, ms, x.with)
      {
        if x in Advanced(files, init, p) {
          var m' :| m' in init && HasNext(files, m'.with) && NextLine(files, m'.with) == x.with;
          assert m' in ms;
        } else {
          assert m in ms;
        }
      }
    }
  }

  /** Distinct real lines have distinct successors. */
  lemma NextLineInjective(files: Files, a: Line, b: Line)
    requires InCorpus(files, a) && InCorpus(files, b) && HasNext(files, a) && HasNext(files, b)
    requires NextLine(files, a) == NextLine(files, b)
    ensures a == b
  {
  }

  /** No advanced candidate has the successor of w as With when no live
      candidate has w as With. */
  lemma {:induction false} AdvancedAvoids(files: Files, ms: seq<FilePositionMatch>, p: Line, w: Line)
    requires InCorpus(files, w) && HasNext(files, w)
    requires forall t :: 0 <= t < |ms| ==> ms[t].with != w && InCorpus(files, ms[t].with)
    ensures forall x :: x in Advanced(files, ms, p) ==> x.with != NextLine(files, w)
  {
    if ms != [] {
      var init, m := ms[..|ms| - 1], ms[|ms| - 1];
      assert forall t :: 0 <= t < |init| ==> init[t] == ms[t];
      AdvancedAvoids(files, init, p, w);
      if Extends(files, m, p) && NextLine(files, m.with) == NextLine(files, w) {
        NextLineInjective(files, m.with, w);
      }
    }
  }

  /** Advancing keeps the counterpart lines apart, as distinct lines have
      distinct successors. */
  lemma {:induction false} AdvancedWiths(files: Files, ms: seq<FilePositionMatch>, p: Line)
    requires forall t :: 0 <= t < |ms| ==> InCorpus(files, ms[t].with)
    requires DistinctWiths(ms)
    ensures DistinctWiths(Advanced(files, ms, p))
  {
    if ms != [] {
      var init, m := ms[..|ms| - 1], ms[|ms| - 1];
      assert forall t :: 0 <= t < |init| ==> init[t] == ms[t];
      AdvancedWiths(files, init, p);
      if Extends(files, m, p) {
        var a := Advanced(files, init, p);
        assert Advanced(files, ms, p) == a + [Next(files, m, p)];
        AdvancedAvoids(files, init, p, m.with);
        assert forall i :: 0 <= i < |a| ==> a[i] in a;
      }
    }
  }

  /** A list whose first n elements have pairwise different With, all in S,
      followed by elements whose With are pairwise different keys outside S,
      has no With twice. */
  lemma JoinWiths(files: Files, ms: seq<FilePositionMatch>, next: seq<FilePositionMatch>, n: int, keys: seq<Line>)
    requires 0 <= n <= |next| && |keys| == |next| - n
    requires forall i, j :: 0 <= i < j < n ==> next[i].with != next[j].with
    requires forall i :: 0 <= i < n ==> IsNextOf(files, ms, next[i].with)
    requires forall t :: 0 <= t < |keys| ==> next[n + t].with == keys[t] && !IsNextOf(files, ms, keys[t])
    requires forall t, t' :: 0 <= t < t' < |keys| ==> keys[t] != keys[t']
    ensures DistinctWiths(next)
  {
    forall i, j | 0 <= i < j < |next|
      ensures next[i].with != next[j].with
    {
      if n <= i {
        assert next[n + (i - n)].with == keys[i - n] && next[n + (j - n)].with == keys[j - n];
      } else if n <= j {
        assert next[n + (j - n)].with == keys[j - n];
      }
    }
  }

  /** After line p, no two live candidates for the next line share a
      counterpart line: the extended ones have distinct successors as With,
      each surviving fresh one has its own key as With, and a fresh one whose
      key is a successor was dropped. */
  lemma NextWiths(files: Files, f: FileId, p: Line, matches: seq<FilePositionMatch>,
                  started: map<Line, FilePositionMatch>, next: seq<FilePositionMatch>, keys: seq<Line>)
    requires f in files
    requires forall m :: m in matches ==> CandidateOk(files, f, m)
    requires DistinctWiths(matches)
    requires forall l :: l in started ==> started[l] == Open(files, f, p, l)
    requires |Advanced(files, matches, p)| <= |next| && next[..|Advanced(files, matches, p)|] == Advanced(files, matches, p)
    requires ListsValues(next, |Advanced(files, matches, p)|, Undropped(files, matches, started), keys)
    ensures DistinctWiths(next)
  {
    var ext := Advanced(files, matches, p);
    var n := |ext|;
    assert forall t :: 0 <= t < |matches| ==> matches[t] in matches;
    AdvancedWiths(files, matches, p);
    AdvancedNextOf(files, matches, p);
    FreshWiths(files, f, p, matches, started, next, keys);
    forall i | 0 <= i < n
      ensures IsNextOf(files, matches, next[i].with)
    {
      assert next[..n][i] == next[i] && ext[i] in ext;
    }
    forall i, j | 0 <= i < j < n
      ensures next[i].with != next[j].with
    {
      assert next[..n][i] == next[i] && next[..n][j] == next[j];
    }
    JoinWiths(files, matches, next, n, keys);
  }

  /** Each surviving fresh candidate has its key as With, and that key is no
      live candidate's counterpart successor. */
  lemma FreshWiths(files: Files, f: FileId, p: Line, matches: seq<FilePositionMatch>,
                   started: map<Line, FilePositionMatch>, next: seq<FilePositionMatch>, keys: seq<Line>)
    requires f in files
    requires forall l :: l in started ==> started[l] == Open(files, f, p, l)
    requires ListsValues(next, |Advanced(files, matches, p)|, Undropped(files, matches, started), keys)
    ensures forall t :: 0 <= t < |keys| ==>
              next[|Advanced(files, matches, p)| + t].with == keys[t] && !IsNextOf(files, matches, keys[t])
  {
    var kept := Undropped(files, matches, started);
    UndroppedOk(files, matches, started);
    forall t | 0 <= t < |keys|
      ensures next[|Advanced(files, matches, p)| + t].with == keys[t] && !IsNextOf(files, matches, keys[t])
    {
      assert keys[t] in kept && kept[keys[t]] == started[keys[t]];
    }
  }

  /** Extending a candidate keeps where its run and its counterpart run
      start. */
  lemma OpensNext(files: Files, f: FileId, m: FilePositionMatch, p: Line)
    requires CandidateOk(files, f, m) && Opens(files, f, m) && HasNext(files, m.with)
    requires p.position == m.position.end.position + 1
    ensures Opens(files, f, Next(files, m, p))
  {
  }

  /** A live candidate that extends at line p has its advanced form in
      Advanced. */
  lemma {:induction false} AdvancedHas(files: Files, ms: seq<FilePositionMatch>, p: Line, m: FilePositionMatch)
    requires m in ms && Extends(files, m, p)
    ensures Next(files, m, p) in Advanced(files, ms, p)
  {
    var init := ms[..|ms| - 1];
    if m != ms[|ms| - 1] {
      assert ms == init + [ms[|ms| - 1]];
      AdvancedHas(files, init, p, m);
    }
  }

  /** After line p of file f, every line of another file with p's digest is
      the With of a live candidate for the next line: its fresh candidate, or
      the one extended onto it. */
  lemma WithsStep(files: Files, index: LineIndex, f: FileId, k: int, p: Line, matches: seq<FilePositionMatch>,
                  started: map<Line, FilePositionMatch>, next: seq<FilePositionMatch>)
    requires IndexOk(files, index) && f in files && 0 <= k < |files[f]| && p == Line(f, k, files[f][k])
    requires forall m :: m in matches ==> m.position.file == f && m.position.start.position <= k
    requires forall l :: l in started <==> l in Bucket(index, p.hash) && l.file != f
    requires forall l :: l in started ==> started[l] == Open(files, f, p, l)
    requires |Advanced(files, matches, p)| <= |next| && next[..|Advanced(files, matches, p)|] == Advanced(files, matches, p)
    requires forall l :: l in Undropped(files, matches, started) ==>
               Undropped(files, matches, started)[l] in next[|Advanced(files, matches, p)|..]
    ensures WithsCover(files, f, k + 1, next)
  {
    forall g, w | g in files && g != f && 0 <= w < |files[g]| && files[g][w] == files[f][k]
      ensures exists m :: m in next && m.with == Line(g, w, files[g][w])
    {
      var l := Line(g, w, files[g][w]);
      assert l in started;
      StartedWith(files, f, p, matches, started, next, l);
    }
  }

  /** The occurrence l of p's digest elsewhere is the With of a live
      candidate for the next line, whose run in f ends at p: its fresh one if
      that was not dropped, otherwise the live candidate extended onto l. */
  lemma StartedWith(files: Files, f: FileId, p: Line, matches: seq<FilePositionMatch>,
                    started: map<Line, FilePositionMatch>, next: seq<FilePositionMatch>, l: Line)
    requires f in files && l in started && started[l] == Open(files, f, p, l) && l.hash == p.hash
    requires forall m :: m in matches ==> m.position.file == f && m.position.start.position <= p.position
    requires |Advanced(files, matches, p)| <= |next| && next[..|Advanced(files, matches, p)|] == Advanced(files, matches, p)
    requires forall l :: l in Undropped(files, matches, started) ==>
               Undropped(files, matches, started)[l] in next[|Advanced(files, matches, p)|..]
    ensures exists m :: m in next && m.with == l && m.position.file == f
                        && m.position.start.position <= p.position && m.position.end == p
  {
    UndroppedOk(files, matches, started);
    var kept := Undropped(files, matches, started);
    var n := |Advanced(files, matches, p)|;
    if l in kept {
      var x := kept[l];
      SuffixMember(next, n, x);
      assert x.with == l;
    } else {
      var m :| m in matches && HasNext(files, m.with) && NextLine(files, m.with) == l;
      AdvancedHas(files, matches, p, m);
      var x := Next(files, m, p);
      PrefixMember(next, n, x);
      assert x.with == l && x.position.file == f && x.position.start.position <= p.position;
    }
  }

  /** An element of a suffix is an element of the list. */
  lemma SuffixMember(s: seq<FilePositionMatch>, n: int, x: FilePositionMatch)
    requires 0 <= n <= |s| && x in s[n..]
    ensures x in s
  {
    var t :| 0 <= t < |s| - n && s[n..][t] == x;
    assert s[n + t] == x;
  }

  /** An element of a prefix is an element of the list. */
  lemma PrefixMember(s: seq<FilePositionMatch>, n: int, x: FilePositionMatch)
    requires 0 <= n <= |s| && x in s[..n]
    ensures x in s
  {
    var t :| 0 <= t < n && s[..n][t] == x;
    assert s[t] == x;
  }

  /** A fresh candidate that survives cannot grow backwards: had the lines
      before it and before its counterpart been equal, the live candidate
      ending at the line before its counterpart would have dropped it. */
  lemma OpensFresh(files: Files, f: FileId, k: int, p: Line, matches: seq<FilePositionMatch>,
                   started: map<Line, FilePositionMatch>, l: Line)
    requires f in files && 0 <= k < |files[f]| && p == Line(f, k, files[f][k])
    requires forall m :: m in matches ==> CandidateOk(files, f, m) && m.position.end.position + 1 == k
    requires WithsCover(files, f, k, matches)
    requires l in started && started[l] == Open(files, f, p, l) && CandidateOk(files, f, started[l])
    requires !IsNextOf(files, matches, l)
    ensures Opens(files, f, started[l])
  {
    var x := started[l];
    assert CounterStart(x) == l.position;
    if k > 0 && l.position > 0 && files[f][k - 1] == files[l.file][l.position - 1] {
      assert false;
    }
  }

  /** Finalizing a sequence in two parts. */
  lemma {:induction false} FinalizeSeqConcat(st: Groups, a: seq<FilePositionMatch>, b: seq<FilePositionMatch>,
                                             keep: FilePositionMatch -> bool)
    requires TableOk(st)
    ensures FinalizeSeq(st, a + b, keep) == FinalizeSeq(FinalizeSeq(st, a, keep), b, keep)
    decreases |b|
  {
    if b == [] {
      assert a + b == a;
    } else {
      var b0 := b[..|b| - 1];
      FinalizeSeqConcat(st, a, b0, keep);
      assert (a + b)[..|a + b| - 1] == a + b0;
      assert (a + b)[|a + b| - 1] == b[|b| - 1];
    }
  }

  lemma PosSetConcat(a: seq<FilePositionMatch>, b: seq<FilePositionMatch>)
    ensures PosSet(a + b) == PosSet(a) + PosSet(b)
  {
    forall q | q in PosSet(a + b)
      ensures q in PosSet(a) + PosSet(b)
    {
      var m :| m in a + b && Positions(m.position) == q;
      if m in a {
        assert q in PosSet(a);
      } else {
        assert q in PosSet(b);
      }
    }
    forall q | q in PosSet(a) + PosSet(b)
      ensures q in PosSet(a + b)
    {
      if q in PosSet(a) {
        var m :| m in a && Positions(m.position) == q;
        assert m in a + b;
      } else {
        var m :| m in b && Positions(m.position) == q;
        assert m in a + b;
      }
    }
  }

  /** Two lists with pairwise different positions, none of the second's
      among the first's, have pairwise different positions together. */
  lemma DistinctConcat(a: seq<FilePositionMatch>, b: seq<FilePositionMatch>)
    requires DistinctPositions(a) && DistinctPositions(b)
    requires forall x :: x in b ==> Positions(x.position) !in PosSet(a)
    ensures DistinctPositions(a + b)
  {
    var c := a + b;
    forall i, j | 0 <= i < j < |c|
      ensures Positions(c[i].position) != Positions(c[j].position)
    {
      if j < |a| {
        assert c[i] == a[i] && c[j] == a[j];
      } else if i >= |a| {
        assert c[i] == b[i - |a|] && c[j] == b[j - |a|];
      } else {
        assert c[i] == a[i] && a[i] in a;
        assert c[j] == b[j - |a|] && b[j - |a|] in b;
      }
    }
  }

  /** A run spanned by a candidate whose positions are recorded is spanned
      by the recorded candidate with those positions. */
  lemma SpansBySeen(ms: seq<FilePositionMatch>, log: seq<FilePositionMatch>, f: FileId, t: int)
    requires forall m :: m in ms ==> Positions(m.position) in PosSet(log)
    requires forall x :: x in log ==> x.position.file == f
    requires Spans(ms, f, t)
    ensures Spans(log, f, t)
  {
    var m :| m in ms && m.position.file == f && m.position.start.position <= t <= m.position.end.position;
    var x :| x in log && Positions(x.position) == Positions(m.position);
  }

  /** The candidates closed at line p are valid and cannot grow at either end. */
  lemma ClosedCloses(files: Files, f: FileId, k: int, p: Line, matches: seq<FilePositionMatch>, seen: set<(int, int)>)
    requires f in files && 0 <= k < |files[f]| && p == Line(f, k, files[f][k])
    requires forall m :: m in matches ==>
               CandidateOk(files, f, m) && Opens(files, f, m) && m.position.end.position + 1 == k
    ensures forall x :: x in Closed(files, matches, p, seen) ==>
              x in matches && CandidateOk(files, f, x) && Closes(files, f, x) && Opens(files, f, x)
  {
    ClosedOk(files, matches, p, seen);
  }

  /** A live candidate that extends at line p lives on in the next list. */
  lemma ExtendedSpans(files: Files, f: FileId, p: Line, matches: seq<FilePositionMatch>, m: FilePositionMatch,
                      next: seq<FilePositionMatch>, t: int)
    requires f in files && p.file == f && p.position < |files[f]| && p.hash == files[f][p.position]
    requires forall m :: m in matches ==> CandidateOk(files, f, m) && m.position.end.position + 1 == p.position
    requires m in matches && Extends(files, m, p)
    requires m.position.file == f && m.position.start.position <= t <= m.position.end.position
    requires |Advanced(files, matches, p)| <= |next| && next[..|Advanced(files, matches, p)|] == Advanced(files, matches, p)
    ensures Spans(next, f, t)
  {
    AdvancedOk(files, f, matches, p);
    var ext := Advanced(files, matches, p);
    var x := Next(files, m, p);
    assert x in ext;
    var i :| 0 <= i < |ext| && ext[i] == x;
    assert next[i] == x;
  }

  /** A live candidate closed at line p has its (start, end) among the
      finalized ones. */
  lemma ClosedSpans(files: Files, f: FileId, p: Line, matches: seq<FilePositionMatch>, m: FilePositionMatch,
                    seen: set<(int, int)>, log: seq<FilePositionMatch>, t: int)
    requires forall m :: m in matches ==> m.position.file == f
    requires forall x :: x in log ==> x.position.file == f
    requires seen == PosSet(log)
    requires m in matches && !Extends(files, m, p)
    requires m.position.file == f && m.position.start.position <= t <= m.position.end.position
    ensures Spans(log + Closed(files, matches, p, seen), f, t)
  {
    var missed := Closed(files, matches, p, seen);
    var log' := log + missed;
    ClosedOk(files, matches, p, seen);
    PosSetConcat(log, missed);
    assert Positions(m.position) in PosSet(log');
    var x :| x in log' && Positions(x.position) == Positions(m.position);
    if x !in log {
      assert x in missed;
    }
  }

  /** A line already read stays spanned: by a finalized candidate, by an
      extended one, or by the finalized one with the positions of a closed
      one. */
  lemma LiveCovered(files: Files, f: FileId, k: int, p: Line, matches: seq<FilePositionMatch>,
                    seen: set<(int, int)>, log: seq<FilePositionMatch>, next: seq<FilePositionMatch>, t: int)
    requires f in files && 0 <= t < k < |files[f]| && p == Line(f, k, files[f][k])
    requires forall m :: m in matches ==> CandidateOk(files, f, m) && m.position.end.position + 1 == k
    requires forall x :: x in log ==> x.position.file == f
    requires seen == PosSet(log)
    requires Spans(log, f, t) || Spans(matches, f, t)
    requires |Advanced(files, matches, p)| <= |next| && next[..|Advanced(files, matches, p)|] == Advanced(files, matches, p)
    ensures Spans(log + Closed(files, matches, p, seen), f, t) || Spans(next, f, t)
  {
    if Spans(log, f, t) {
      var x :| x in log && x.position.file == f && x.position.start.position <= t <= x.position.end.position;
      assert x in log + Closed(files, matches, p, seen);
    } else {
      var m :| m in matches && m.position.file == f && m.position.start.position <= t <= m.position.end.position;
      if Extends(files, m, p) {
        ExtendedSpans(files, f, p, matches, m, next, t);
      } else {
        ClosedSpans(files, f, p, matches, m, seen, log, t);
      }
    }
  }

  /** A line whose digest occurs in another file is spanned once it is read:
      by the fresh candidate for that occurrence, or, when that one is
      dropped, by the live candidate extended onto the occurrence. */
  lemma FreshCovered(files: Files, index: LineIndex, f: FileId, k: int, p: Line, matches: seq<FilePositionMatch>,
                     started: map<Line, FilePositionMatch>, next: seq<FilePositionMatch>)
    requires IndexOk(files, index) && f in files && 0 <= k < |files[f]| && p == Line(f, k, files[f][k])
    requires SharedLine(files, f, k)
    requires forall m :: m in matches ==> CandidateOk(files, f, m) && m.position.end.position + 1 == k
    requires forall l :: l in started <==> l in Bucket(index, p.hash) && l.file != f
    requires forall l :: l in started ==> started[l] == Open(files, f, p, l)
    requires |Advanced(files, matches, p)| <= |next| && next[..|Advanced(files, matches, p)|] == Advanced(files, matches, p)
    requires forall l :: l in Undropped(files, matches, started) ==>
               Undropped(files, matches, started)[l] in next[|Advanced(files, matches, p)|..]
    ensures Spans(next, f, k)
  {
    var g, w :| g in files && g != f && 0 <= w < |files[g]| && files[g][w] == files[f][k];
    var l := Line(g, w, files[g][w]);
    assert l in Bucket(index, files[g][w]);
    assert l in started;
    StartedWith(files, f, p, matches, started, next, l);
  }

  /** After line k: shared lines up to k are spanned by the finalized
      candidates or the live ones for the next line. */
  lemma CoverStep(files: Files, index: LineIndex, f: FileId, k: int, p: Line, matches: seq<FilePositionMatch>,
                  started: map<Line, FilePositionMatch>, seen: set<(int, int)>, log: seq<FilePositionMatch>,
                  next: seq<FilePositionMatch>)
    requires IndexOk(files, index) && f in files && 0 <= k < |files[f]| && p == Line(f, k, files[f][k])
    requires forall m :: m in matches ==> CandidateOk(files, f, m) && m.position.end.position + 1 == k
    requires forall x :: x in log ==> x.position.file == f
    requires seen == PosSet(log)
    requires forall t :: 0 <= t < k && SharedLine(files, f, t) ==> Spans(log, f, t) || Spans(matches, f, t)
    requires forall l :: l in started <==> l in Bucket(index, p.hash) && l.file != f
    requires forall l :: l in started ==> started[l] == Open(files, f, p, l)
    requires |Advanced(files, matches, p)| <= |next| && next[..|Advanced(files, matches, p)|] == Advanced(files, matches, p)
    requires forall l :: l in Undropped(files, matches, started) ==>
               Undropped(files, matches, started)[l] in next[|Advanced(files, matches, p)|..]
    ensures forall t :: 0 <= t < k + 1 && SharedLine(files, f, t) ==>
              Spans(log + Closed(files, matches, p, seen), f, t) || Spans(next, f, t)
  {
    forall t | 0 <= t < k + 1 && SharedLine(files, f, t)
      ensures Spans(log + Closed(files, matches, p, seen), f, t) || Spans(next, f, t)
    {
      if t == k {
        FreshCovered(files, index, f, k, p, matches, started, next);
      } else {
        LiveCovered(files, f, k, p, matches, seen, log, next, t);
      }
    }
  }

  /** The finalized candidates of a scan: the table is st with them
      finalized in order; each is a valid candidate of f that cannot grow at either end and
      is recorded; their positions are pairwise different and are `seen`. */
  ghost predicate Logged(files: Files, f: FileId, keep: FilePositionMatch -> bool, st: Groups, seen: set<(int, int)>,
                         r: Groups, log: seq<FilePositionMatch>)
  {
    TableOk(st) && r == FinalizeSeq(st, log, keep)
    && seen == PosSet(log) && DistinctPositions(log)
    && forall x :: x in log ==> CandidateOk(files, f, x) && Closes(files, f, x) && Opens(files, f, x) && Recorded(r, x, keep)
  }

  /** Finalizing more candidates, none of whose positions were seen, extends
      the log. */
  lemma LogStep(files: Files, f: FileId, keep: FilePositionMatch -> bool, st: Groups, seen: set<(int, int)>,
                r: Groups, log: seq<FilePositionMatch>, missed: seq<FilePositionMatch>, r': Groups)
    requires Logged(files, f, keep, st, seen, r, log)
    requires TableOk(r) && r' == FinalizeSeq(r, missed, keep) && Grows(r, r')
    requires DistinctPositions(missed) && forall x :: x in missed ==> Positions(x.position) !in seen
    requires forall x :: x in missed ==> CandidateOk(files, f, x) && Closes(files, f, x) && Opens(files, f, x)
    requires forall t :: 0 <= t < |missed| ==> Recorded(r', missed[t], keep)
    ensures Logged(files, f, keep, st, seen + PosSet(missed), r', log + missed)
  {
    FinalizeSeqConcat(st, log, missed, keep);
    PosSetConcat(log, missed);
    DistinctConcat(log, missed);
    forall x | x in log + missed
      ensures CandidateOk(files, f, x) && Closes(files, f, x) && Opens(files, f, x) && Recorded(r', x, keep)
    {
      if x in log {
        RecordedGrows(r, r', x, keep);
      } else {
        var t :| 0 <= t < |missed| && missed[t] == x;
      }
    }
  }

  /** The state of the scan of file f before line k: the live candidates
      end just before k; the table keeps every invariant; `log` holds the
      finalized candidates; and every shared line before k is spanned by a
      finalized candidate or a live one. */
  ghost predicate AtLine(files: Files, index: LineIndex, f: FileId, done: set<FileId>, keep: FilePositionMatch -> bool,
                         st: Groups, k: int, matches: seq<FilePositionMatch>, seen: set<(int, int)>, r: Groups,
                         log: seq<FilePositionMatch>)
  {
    IndexOk(files, index) && f in files && f !in done && 0 <= k <= |files[f]|
    && Live(files, f, k, matches)
    && GroupsOk(files, r, keep) && Distinct(r.dups) && Covered(r.dups, done, f, seen) && Grows(st, r)
    && Logged(files, f, keep, st, seen, r, log)
    && forall t :: 0 <= t < k && SharedLine(files, f, t) ==> Spans(log, f, t) || Spans(matches, f, t)
  }

  /** The live candidates before line k of file f: each is valid, ends just
      before k and cannot grow backwards; every line of another file with the
      digest of line k - 1 is the With of one of them; and no two share a
      With. */
  ghost predicate Live(files: Files, f: FileId, k: int, ms: seq<FilePositionMatch>)
  {
    (forall m :: m in ms ==> CandidateOk(files, f, m) && Opens(files, f, m) && m.position.end.position + 1 == k)
    && WithsCover(files, f, k, ms) && DistinctWiths(ms)
  }

  /** What opening and advancing at line p of file f give: `started` has one
      fresh candidate per occurrence of p's digest in another file, keyed by
      it; `next` is the extended candidates, in order, then each fresh one
      not dropped, in the order of `keys`. */
  ghost predicate Stepped(files: Files, index: LineIndex, f: FileId, p: Line, matches: seq<FilePositionMatch>,
                          started: map<Line, FilePositionMatch>, next: seq<FilePositionMatch>, keys: seq<Line>)
  {
    f in files
    && (forall l :: l in started <==> l in Bucket(index, p.hash) && l.file != f)
    && (forall l :: l in started ==> started[l] == Open(files, f, p, l) && CandidateOk(files, f, started[l]))
    && |Advanced(files, matches, p)| <= |next|
    && next[..|Advanced(files, matches, p)|] == Advanced(files, matches, p)
    && (forall l :: l in Undropped(files, matches, started) ==>
          Undropped(files, matches, started)[l] in next[|Advanced(files, matches, p)|..])
    && (forall x :: x in next[|Advanced(files, matches, p)|..] ==>
          exists l :: l in Undropped(files, matches, started) && Undropped(files, matches, started)[l] == x)
    && ListsValues(next, |Advanced(files, matches, p)|, Undropped(files, matches, started), keys)
  }

  /** One line on, the live candidates are live for the next line: valid,
      ending at line k, not growable backwards, covering every occurrence
      elsewhere of line k's digest by their With, with no With twice. */
  lemma LiveStep(files: Files, index: LineIndex, f: FileId, k: int, p: Line, matches: seq<FilePositionMatch>,
                 started: map<Line, FilePositionMatch>, next: seq<FilePositionMatch>, keys: seq<Line>)
    requires IndexOk(files, index) && f in files && 0 <= k < |files[f]| && p == Line(f, k, files[f][k])
    requires Live(files, f, k, matches)
    requires Stepped(files, index, f, p, matches, started, next, keys)
    ensures Live(files, f, k + 1, next)
  {
    var ext := Advanced(files, matches, p);
    var kept := Undropped(files, matches, started);
    AdvancedOk(files, f, matches, p);
    UndroppedOk(files, matches, started);
    forall x | x in next
      ensures CandidateOk(files, f, x) && Opens(files, f, x) && x.position.end.position + 1 == k + 1
    {
      var t :| 0 <= t < |next| && next[t] == x;
      if t < |ext| {
        assert x == ext[t] && x in ext;
        var m :| m in matches && Extends(files, m, p) && x == Next(files, m, p);
        OpensNext(files, f, m, p);
      } else {
        assert x == next[|ext|..][t - |ext|] && x in next[|ext|..];
        var l :| l in kept && kept[l] == x;
        OpensFresh(files, f, k, p, matches, started, l);
      }
    }
    WithsStep(files, index, f, k, p, matches, started, next);
    NextWiths(files, f, p, matches, started, next, keys);
  }

  /** What one line of the scan does to its state, step by step: the state
      before line k + 1 follows from the state before line k. */
  lemma ScanLineOk(files: Files, index: LineIndex, f: FileId, done: set<FileId>, keep: FilePositionMatch -> bool,
                   st: Groups, k: int, matches: seq<FilePositionMatch>, seen: set<(int, int)>, r: Groups,
                   log: seq<FilePositionMatch>, started: map<Line, FilePositionMatch>,
                   missed: seq<FilePositionMatch>, seen': set<(int, int)>, next: seq<FilePositionMatch>,
                   keys: seq<Line>, r': Groups)
    requires AtLine(files, index, f, done, keep, st, k, matches, seen, r, log) && k < |files[f]|
    requires Stepped(files, index, f, Line(f, k, files[f][k]), matches, started, next, keys)
    requires missed == Closed(files, matches, Line(f, k, files[f][k]), seen) && seen' == seen + PosSet(missed)
    requires TableOk(r) && r' == FinalizeSeq(r, missed, keep)
    requires GroupsOk(files, r', keep) && Distinct(r'.dups) && Covered(r'.dups, done, f, seen')
    requires Grows(r, r') && forall t :: 0 <= t < |missed| ==> Recorded(r', missed[t], keep)
    ensures AtLine(files, index, f, done, keep, st, k + 1, next, seen', r', log + missed)
  {
    var p := Line(f, k, files[f][k]);
    var extended := Advanced(files, matches, p);
    var kept := Undropped(files, matches, started);
    AdvancedOk(files, f, matches, p);
    ClosedOk(files, matches, p, seen);
    UndroppedOk(files, matches, started);
    ClosedCloses(files, f, k, p, matches, seen);
    GrowsTrans(st, r, r');
    LiveStep(files, index, f, k, p, matches, started, next, keys);
    CoverStep(files, index, f, k, p, matches, started, seen, log, next);
    LogStep(files, f, keep, st, seen, r, log, missed, r');
  }

  /** One line of the scan of file f: open the fresh candidates, advance or
      close the live ones, and finalize the closed ones, which join the log. */
  method ScanLine(files: Files, index: LineIndex, f: FileId, keep: FilePositionMatch -> bool, k: int,
                  matches: seq<FilePositionMatch>, seen: set<(int, int)>, r: Groups,
                  ghost done: set<FileId>, ghost st: Groups, ghost log: seq<FilePositionMatch>)
    returns (matches': seq<FilePositionMatch>, seen': set<(int, int)>, r': Groups, ghost log': seq<FilePositionMatch>)
    requires AtLine(files, index, f, done, keep, st, k, matches, seen, r, log) && k < |files[f]|
    ensures AtLine(files, index, f, done, keep, st, k + 1, matches', seen', r', log')
    ensures log' == log + Closed(files, matches, Line(f, k, files[f][k]), seen)
  {
    var p := Line(f, k, files[f][k]);
    var started := OpenCandidates(files, index, f, p);
    var extended, missed, kept, seen1 := CloseOrExtend(files, matches, p, started, seen);
    ClosedOk(files, matches, p, seen);
    var next, keys := AppendValues(extended, kept);
    r' := FinalizeAll(files, f, done, seen, r, missed, keep);
    ScanLineOk(files, index, f, done, keep, st, k, matches, seen, r, log, started, missed, seen1, next, keys, r');
    matches', seen', log' := next, seen1, log + missed;
  }

  /** The end of the scan of file f: the flushed candidates join the log, and
      every shared line of f is spanned by a finalized candidate. */
  lemma FlushLog(files: Files, index: LineIndex, f: FileId, done: set<FileId>, keep: FilePositionMatch -> bool,
                 st: Groups, matches: seq<FilePositionMatch>, seen: set<(int, int)>, r: Groups,
                 log: seq<FilePositionMatch>, r': Groups)
    requires f in files && AtLine(files, index, f, done, keep, st, |files[f]|, matches, seen, r, log)
    requires TableOk(r) && r' == FinalizeSeq(r, Unseen(matches, seen), keep) && Grows(r, r')
    requires forall x :: x in Unseen(matches, seen) ==> Recorded(r', x, keep)
    ensures Logged(files, f, keep, st, seen + PosSet(Unseen(matches, seen)), r', log + Unseen(matches, seen))
    ensures forall t :: 0 <= t < |files[f]| && SharedLine(files, f, t) ==> Spans(log + Unseen(matches, seen), f, t)
  {
    var u := Unseen(matches, seen);
    UnseenOk(matches, seen);
    forall t | 0 <= t < |u|
      ensures Recorded(r', u[t], keep)
    {
      assert u[t] in u;
    }
    LogStep(files, f, keep, st, seen, r, log, u, r');
    var log' := log + u;
    PosSetConcat(log, u);
    forall t | 0 <= t < |files[f]| && SharedLine(files, f, t)
      ensures Spans(log', f, t)
    {
      if Spans(log, f, t) {
        var x :| x in log && x.position.file == f && x.position.start.position <= t <= x.position.end.position;
        assert x in log';
      } else {
        SpansBySeen(matches, log', f, t);
      }
    }
  }

  /** The scan of one file f: at each line, open the fresh candidates,
      advance or close the live ones, and finalize the closed ones; at the end
      flush. The table stays well formed and free of repeated runs, and gains
      runs of f only. It is st with the candidates of `log` finalized in
      order; each of them is a valid candidate of f that cannot grow at either end and is
      recorded, no (start, end) is finalized twice, and every line of f whose
      digest occurs in another file lies in the run of one of them. */
  method ScanFile(files: Files, index: LineIndex, f: FileId, keep: FilePositionMatch -> bool,
                  st: Groups, ghost done: set<FileId>)
    returns (r: Groups, ghost log: seq<FilePositionMatch>)
    requires IndexOk(files, index) && f in files && f !in done
    requires GroupsOk(files, st, keep) && Distinct(st.dups) && InFiles(st.dups, done)
    ensures GroupsOk(files, r, keep) && Distinct(r.dups) && InFiles(r.dups, done + {f}) && Grows(st, r)
    ensures TableOk(st) && r == FinalizeSeq(st, log, keep)
    ensures forall x :: x in log ==>
              CandidateOk(files, f, x) && Closes(files, f, x) && Opens(files, f, x) && Recorded(r, x, keep)
    ensures DistinctPositions(log)
    ensures forall t :: 0 <= t < |files[f]| && SharedLine(files, f, t) ==> Spans(log, f, t)
  {
    var matches: seq<FilePositionMatch> := [];
    var seen: set<(int, int)> := {};
    InFilesCovered(st.dups, done, f);
    GroupsOkTable(files, st, keep);
    r, log := st, [];
    assert PosSet(log) == {};
    var k := 0;
    while k < |files[f]|
      invariant AtLine(files, index, f, done, keep, st, k, matches, seen, r, log)
      decreases |files[f]| - k
    {
      matches, seen, r, log := ScanLine(files, index, f, keep, k, matches, seen, r, done, st, log);
      k := k + 1;
    }
    var r', seen' := Flush(files, f, done, r, matches, seen, keep);
    GroupsOkTable(files, r, keep);
    FlushLog(files, index, f, done, keep, st, matches, seen, r, log, r');
    GrowsTrans(st, r, r');
    r, log := r', log + Unseen(matches, seen);
  }
}
