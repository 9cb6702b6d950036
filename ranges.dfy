/** Ranges and duplicate groups: FilePosition (a run of lines in one file)
    and Duplicate (the runs that share one content), with the arithmetic the
    source defines on them. Go's `/` truncates toward zero; GoDiv says so. */
module Ranges {
  import opened Reader

  /** A run of lines Start..End of one file; fileCount is that file's Count. */
  datatype FilePosition = FilePosition(start: Line, end: Line, file: FileId, fileCount: int)

  /** A group of runs with identical content; head and tail are the digests
      of the first and last line of the run that created the group. */
  datatype Duplicate = Duplicate(positions: seq<FilePosition>, head: Digest, tail: Digest)

  /** Integer division as Go computes it: truncated toward zero. */
  function GoDiv(a: int, b: int): (q: int)
    requires b != 0
    ensures a >= 0 && b > 0 ==> 0 <= a - q * b < b
    ensures a < 0 && b > 0 ==> -b < a - q * b <= 0
    ensures a >= 0 && b < 0 ==> 0 <= a - q * b < -b
    ensures a < 0 && b < 0 ==> b < a - q * b <= 0
  {
    var n := if a < 0 then -a else a;
    var d := if b < 0 then -b else b;
    if (a < 0) == (b < 0) then n / d else -(n / d)
  }

  /** FilePosition.Lines: number of lines of the run. */
  function Lines(fp: FilePosition): int
  {
    fp.end.position - fp.start.position + 1
  }

  /** FilePosition.Postions: the run's start and end positions. */
  function Positions(fp: FilePosition): (int, int)
  {
    (fp.start.position, fp.end.position)
  }

  /** FilePosition.Percent: the share of its file the run covers, in whole
      percent, computed as Lines*10000/Count/100 with truncating division. */
  function Percent(fp: FilePosition): int
    requires fp.fileCount != 0
  {
    GoDiv(GoDiv(Lines(fp) * 10000, fp.fileCount), 100)
  }

  /** The run lies in file `files[fp.file]` and its Start and End are the
      lines at those places; fileCount is the file's true line count. */
  predicate RangeIn(files: map<FileId, seq<Digest>>, fp: FilePosition)
  {
    fp.file in files && fp.fileCount == |files[fp.file]|
    && 0 <= fp.start.position <= fp.end.position < |files[fp.file]|
    && fp.start == Line(fp.file, fp.start.position, files[fp.file][fp.start.position])
    && fp.end == Line(fp.file, fp.end.position, files[fp.file][fp.end.position])
  }

  /** The digests of the run's lines. */
  function RangeDigests(files: map<FileId, seq<Digest>>, fp: FilePosition): seq<Digest>
    requires RangeIn(files, fp)
  {
    files[fp.file][fp.start.position..fp.end.position + 1]
  }

  /** Lines counts exactly the lines of the run, between 1 and the file's
      count. */
  lemma LinesCountsRun(files: map<FileId, seq<Digest>>, fp: FilePosition)
    requires RangeIn(files, fp)
    ensures Lines(fp) == |RangeDigests(files, fp)|
    ensures 1 <= Lines(fp) <= fp.fileCount
  {
  }

  /** Percent is the truncated percentage Lines*100/Count: dividing by 100
      after scaling by 10000 loses nothing. */
  lemma PercentIsTruncatedShare(fp: FilePosition)
    requires fp.fileCount > 0 && Lines(fp) >= 0
    ensures Percent(fp) == Lines(fp) * 100 / fp.fileCount
  {
    ScaledShare(Lines(fp), fp.fileCount);
  }

  /** (l * 10000 / c) / 100 == l * 100 / c for l >= 0 and c > 0. */
  lemma ScaledShare(l: int, c: int)
    requires l >= 0 && c > 0
    ensures l * 10000 / c / 100 == l * 100 / c
  {
    var q, r := l * 100 / c, l * 100 % c;
    var s, r2 := 100 * r / c, 100 * r % c;
    SmallQuotient(r, c, s);
    Regroup(l, c, q, r, s, r2);
    DivUnique(l * 10000, c, 100 * q + s, r2);
    DivUnique(100 * q + s, 100, q, s);
  }

  /** The quotient of 100 * r by c, for r < c, is below 100. */
  lemma SmallQuotient(r: int, c: int, s: int)
    requires 0 <= r < c && s == 100 * r / c
    ensures 0 <= s < 100
  {
    assert s * c <= 100 * r;
    assert (s - 99) * c == s * c - 99 * c;
    BelowOne(s - 99, c);
  }

  /** l * 10000 divided by c, from the two division steps l * 100 = q * c + r
      and 100 * r = s * c + r2. */
  lemma Regroup(l: int, c: int, q: int, r: int, s: int, r2: int)
    requires l * 100 == q * c + r && 100 * r == s * c + r2
    ensures l * 10000 == (100 * q + s) * c + r2
  {
    assert l * 10000 == 100 * (l * 100);
    assert (100 * q + s) * c == 100 * (q * c) + s * c;
  }

  lemma {:induction false} MulPos(x: int, c: int)
    requires x >= 1 && c > 0
    ensures x * c >= c
  {
    if x > 1 {
      MulPos(x - 1, c);
      assert x * c == (x - 1) * c + c;
    }
  }

  lemma BelowOne(x: int, c: int)
    requires c > 0 && x * c < c
    ensures x < 1
  {
    if x >= 1 {
      MulPos(x, c);
    }
  }

  lemma DivUnique(a: int, c: int, q: int, r: int)
    requires c > 0 && a == q * c + r && 0 <= r < c
    ensures a / c == q
  {
    var q', r' := a / c, a % c;
    assert (q - q') * c == q * c - q' * c == r' - r;
    assert (q' - q) * c == q' * c - q * c == r - r';
    BelowOne(q - q', c);
    BelowOne(q' - q, c);
  }

  lemma DivMonotone(a: int, b: int, c: int)
    requires 0 <= a <= b && c > 0
    ensures a / c <= b / c
  {
    var qa, qb := a / c, b / c;
    assert (qa - qb) * c == qa * c - qb * c == (a - a % c) - (b - b % c);
    BelowOne(qa - qb, c);
  }

  /** A run that fits in its file covers between 0 and 100 percent of it. */
  lemma PercentBounds(fp: FilePosition)
    requires fp.fileCount > 0 && 0 <= Lines(fp) <= fp.fileCount
    ensures 0 <= Percent(fp) <= 100
  {
    PercentIsTruncatedShare(fp);
    var l, c := Lines(fp), fp.fileCount;
    DivMonotone(l * 100, 100 * c, c);
    DivUnique(100 * c, c, 100, 0);
  }

  // ---------------------------------------------------------------------
  // Duplicate: totals, files and coverage

  function SumLines(ps: seq<FilePosition>): int
  {
    if ps == [] then 0 else Lines(ps[0]) + SumLines(ps[1..])
  }

  /** Duplicate.TotalLines: the lines of all its runs together. */
  function TotalLines(d: Duplicate): int
  {
    SumLines(d.positions)
  }

  /** TotalLines is additive: a group that gains a run gains its lines. */
  lemma {:induction false} SumLinesAppend(ps: seq<FilePosition>, qs: seq<FilePosition>)
    ensures SumLines(ps + qs) == SumLines(ps) + SumLines(qs)
  {
    if ps != [] {
      SumLinesAppend(ps[1..], qs);
      assert (ps + qs)[0] == ps[0];
      assert (ps + qs)[1..] == ps[1..] + qs;
    } else {
      assert ps + qs == qs;
    }
  }

  /** Every run has at least one line, so TotalLines is at least the number
      of runs. */
  lemma {:induction false} TotalLinesAtLeastRuns(ps: seq<FilePosition>)
    requires forall j :: 0 <= j < |ps| ==> Lines(ps[j]) >= 1
    ensures SumLines(ps) >= |ps|
  {
    if ps != [] {
      TotalLinesAtLeastRuns(ps[1..]);
    }
  }

  function FileSet(ps: seq<FilePosition>): set<FileId>
  {
    set fp | fp in ps :: fp.file
  }

  function CountSet(ps: seq<FilePosition>): set<int>
  {
    set fp | fp in ps :: fp.fileCount
  }

  predicate NoDup<T(==)>(s: seq<T>)
  {
    forall i, j :: 0 <= i < j < |s| ==> s[i] != s[j]
  }

  /** The distinct files of the runs, each once, in order of first
      appearance. */
  function DistinctFiles(ps: seq<FilePosition>): (r: seq<FileId>)
    ensures NoDup(r)
    ensures forall x :: x in r <==> x in FileSet(ps)
  {
    if ps == [] then []
    else
      var rest := DistinctFiles(ps[..|ps| - 1]);
      assert ps == ps[..|ps| - 1] + [ps[|ps| - 1]];
      if ps[|ps| - 1].file in rest then rest else rest + [ps[|ps| - 1].file]
  }

  /** Duplicate.Files: every participating file exactly once. */
  function Files(d: Duplicate): seq<FileId>
  {
    DistinctFiles(d.positions)
  }

  /** The lines file f contributes to the group. */
  function LinesIn(ps: seq<FilePosition>, f: FileId): int
  {
    if ps == [] then 0
    else LinesIn(ps[..|ps| - 1], f) + (if ps[|ps| - 1].file == f then Lines(ps[|ps| - 1]) else 0)
  }

  /** The Count of file f as last recorded by one of its runs. */
  function LastCount(ps: seq<FilePosition>, f: FileId): (c: int)
    ensures f in FileSet(ps) ==> c in CountSet(ps)
  {
    if ps == [] then 0
    else if ps[|ps| - 1].file == f then ps[|ps| - 1].fileCount
    else
      assert ps == ps[..|ps| - 1] + [ps[|ps| - 1]];
      LastCount(ps[..|ps| - 1], f)
  }

  /** The per-file coverage in hundredths of a percent, summed over fs. */
  function CoverageSum(ps: seq<FilePosition>, fs: seq<FileId>): int
    requires 0 !in CountSet(ps)
    requires forall f :: f in fs ==> f in FileSet(ps)
  {
    if fs == [] then 0
    else
      var f := fs[|fs| - 1];
      CoverageSum(ps, fs[..|fs| - 1]) + GoDiv(LinesIn(ps, f) * 10000, LastCount(ps, f))
  }

  /** Duplicate.AverageCoveragePercent: per participating file, the lines it
      contributes over its Count (in hundredths of a percent, truncated);
      summed, then divided by 100 times the number of files. Go panics on a
      group without runs (division by zero), hence the first requires. */
  function AverageCoveragePercent(d: Duplicate): int
    requires |d.positions| > 0
    requires 0 !in CountSet(d.positions)
  {
    var fs := Files(d);
    assert d.positions[0].file in FileSet(d.positions);
    GoDiv(CoverageSum(d.positions, fs), 100 * |fs|)
  }

  /** FilePosition.Duplicate: the group that a single run starts. */
  function ToDuplicate(fp: FilePosition): (d: Duplicate)
    ensures TotalLines(d) == Lines(fp)
    ensures Files(d) == [fp.file]
    ensures d.head == fp.start.hash && d.tail == fp.end.hash
  {
    assert [fp][..0] == [] && [fp][1..] == [];
    assert SumLines([fp]) == Lines(fp) + SumLines([]);
    assert DistinctFiles([fp]) == DistinctFiles([]) + [fp.file];
    Duplicate([fp], fp.start.hash, fp.end.hash)
  }

  /** A group of one run has that run's Percent as its average coverage. */
  lemma AverageOfOneRun(fp: FilePosition)
    requires fp.fileCount != 0
    ensures AverageCoveragePercent(ToDuplicate(fp)) == Percent(fp)
  {
    var d := ToDuplicate(fp);
    var ps := [fp];
    assert ps[..0] == [];
    assert [fp.file][..0] == [];
    assert LinesIn(ps, fp.file) == Lines(fp);
    assert LastCount(ps, fp.file) == fp.fileCount;
    assert CountSet(ps) == {fp.fileCount};
    assert CoverageSum(ps, [fp.file]) == GoDiv(Lines(fp) * 10000, fp.fileCount);
  }

  /** Coverage is averaged over files, not over runs: when every run is in
      one file, the runs' lines are added up first and the group's coverage
      is that total's share of the file. */
  lemma OneFileAverage(d: Duplicate, f: FileId, c: int)
    requires |d.positions| > 0 && c > 0
    requires forall j :: 0 <= j < |d.positions| ==> d.positions[j].file == f && d.positions[j].fileCount == c
    ensures Files(d) == [f]
    ensures 0 !in CountSet(d.positions)
    ensures AverageCoveragePercent(d) == GoDiv(GoDiv(TotalLines(d) * 10000, c), 100)
  {
    var ps := d.positions;
    assert FileSet(ps) == {f} by {
      assert ps[0] in ps;
    }
    var fs := Files(d);
    OneFileDistinct(ps, f);
    OneFileLinesIn(ps, f);
    OneFileLastCount(ps, f, c);
    assert fs[..0] == [];
    assert CoverageSum(ps, fs) == GoDiv(SumLines(ps) * 10000, c);
  }

  lemma {:induction false} OneFileDistinct(ps: seq<FilePosition>, f: FileId)
    requires |ps| > 0
    requires forall j :: 0 <= j < |ps| ==> ps[j].file == f
    ensures DistinctFiles(ps) == [f]
  {
    if |ps| == 1 {
      assert ps[..0] == [];
    } else {
      OneFileDistinct(ps[..|ps| - 1], f);
    }
  }

  lemma {:induction false} OneFileLinesIn(ps: seq<FilePosition>, f: FileId)
    requires forall j :: 0 <= j < |ps| ==> ps[j].file == f
    ensures LinesIn(ps, f) == SumLines(ps)
  {
    if ps != [] {
      var init := ps[..|ps| - 1];
      OneFileLinesIn(init, f);
      SumLinesAppend(init, [ps[|ps| - 1]]);
      assert init + [ps[|ps| - 1]] == ps;
      assert SumLines([ps[|ps| - 1]]) == Lines(ps[|ps| - 1]);
    }
  }

  lemma OneFileLastCount(ps: seq<FilePosition>, f: FileId, c: int)
    requires |ps| > 0 && c > 0
    requires forall j :: 0 <= j < |ps| ==> ps[j].file == f && ps[j].fileCount == c
    ensures 0 !in CountSet(ps)
    ensures LastCount(ps, f) == c
  {
    forall fp | fp in ps
      ensures fp.fileCount != 0
    {
      var j :| 0 <= j < |ps| && ps[j] == fp;
    }
  }

  /** When no file contributes more lines than it has, the average coverage
      is a percentage between 0 and 100. The detector does not guarantee
      that: overlapping runs of one file can join one group (a file of three
      equal lines against a file of two gives the runs 0-1 and 1-2 of the
      first and 0-1 of the second, and an average of 116), and then the
      average exceeds 100. */
  lemma AverageBounds(d: Duplicate)
    requires |d.positions| > 0
    requires 0 !in CountSet(d.positions)
    requires forall f :: f in FileSet(d.positions) ==>
      LastCount(d.positions, f) > 0 && 0 <= LinesIn(d.positions, f) <= LastCount(d.positions, f)
    ensures 0 <= AverageCoveragePercent(d) <= 100
  {
    var fs := Files(d);
    assert d.positions[0].file in FileSet(d.positions);
    var k := |fs|;
    assert k > 0;
    assert forall f :: f in fs ==> f in FileSet(d.positions);
    CoverageSumBounds(d.positions, fs);
    var s := CoverageSum(d.positions, fs);
    DivMonotone(s, 100 * (100 * k), 100 * k);
    DivUnique(100 * (100 * k), 100 * k, 100, 0);
    DivMonotone(0, s, 100 * k);
    var avg := s / (100 * k);
    assert 0 <= avg <= 100;
    assert AverageCoveragePercent(d) == avg;
  }

  lemma {:induction false} CoverageSumBounds(ps: seq<FilePosition>, fs: seq<FileId>)
    requires 0 !in CountSet(ps)
    requires forall f :: f in fs ==> f in FileSet(ps)
    requires forall f :: f in FileSet(ps) ==>
      LastCount(ps, f) > 0 && 0 <= LinesIn(ps, f) <= LastCount(ps, f)
    ensures 0 <= CoverageSum(ps, fs) <= 10000 * |fs|
  {
    if fs != [] {
      var f := fs[|fs| - 1];
      CoverageSumBounds(ps, fs[..|fs| - 1]);
      CoverageTermBounds(LinesIn(ps, f), LastCount(ps, f));
    }
  }

  lemma CoverageTermBounds(l: int, c: int)
    requires c > 0 && 0 <= l <= c
    ensures 0 <= GoDiv(l * 10000, c) <= 10000
  {
    DivMonotone(l * 10000, 10000 * c, c);
    DivUnique(10000 * c, c, 10000, 0);
  }
}
