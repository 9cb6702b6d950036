/** The fan-out filter of util.go: DeleteMatchMax removes, in place, every
    group that touches more than `mm` distinct files. A Go slice is modelled
    as an array together with its current length. */
module FanOut {
  import opened Reader
  import opened Ranges

  /** The group is removed: the cap is on and the group spans more files. */
  predicate Dropped(d: Duplicate, mm: int)
  {
    mm > 0 && |Files(d)| > mm
  }

  /** The groups that stay, in their order. */
  function KeepFanOut(s: seq<Duplicate>, mm: int): seq<Duplicate>
  {
    if s == [] then []
    else
      var d := s[|s| - 1];
      KeepFanOut(s[..|s| - 1], mm) + (if Dropped(d, mm) then [] else [d])
  }

  /** With the cap off (mm <= 0) nothing is removed. */
  lemma {:induction false} KeepFanOutDisabled(s: seq<Duplicate>, mm: int)
    requires mm <= 0
    ensures KeepFanOut(s, mm) == s
  {
    if s != [] {
      KeepFanOutDisabled(s[..|s| - 1], mm);
      assert s[..|s| - 1] + [s[|s| - 1]] == s;
    }
  }

  /** A group stays exactly when it is in the input and is not over the cap. */
  lemma {:induction false} KeepFanOutMember(s: seq<Duplicate>, mm: int, x: Duplicate)
    ensures x in KeepFanOut(s, mm) <==> x in s && !Dropped(x, mm)
  {
    if s != [] {
      KeepFanOutMember(s[..|s| - 1], mm, x);
      assert s == s[..|s| - 1] + [s[|s| - 1]];
    }
  }

  /** Filtering works piecewise, so the relative order of the kept groups is
      that of the input. */
  lemma {:induction false} KeepFanOutConcat(s: seq<Duplicate>, t: seq<Duplicate>, mm: int)
    ensures KeepFanOut(s + t, mm) == KeepFanOut(s, mm) + KeepFanOut(t, mm)
  {
    if t == [] {
      assert s + t == s;
    } else {
      KeepFanOutConcat(s, t[..|t| - 1], mm);
      assert (s + t)[..|s + t| - 1] == s + t[..|t| - 1];
    }
  }

  /** The result is never longer than the input. */
  lemma {:induction false} KeepFanOutShorter(s: seq<Duplicate>, mm: int)
    ensures |KeepFanOut(s, mm)| <= |s|
  {
    if s != [] {
      KeepFanOutShorter(s[..|s| - 1], mm);
    }
  }

  /** slices.Delete(a[:n], i, j): the elements from j on move down to i and
      the slice gets j - i shorter; what lies past the new length is not
      specified. */
  method Delete(a: array<Duplicate>, n: int, i: int, j: int) returns (n': int)
    requires 0 <= i <= j <= n <= a.Length
    modifies a
    ensures n' == n - (j - i)
    ensures a[..n'] == old(a[..i]) + old(a[j..n])
  {
    ghost var src := a[..];
    var k := 0;
    while k < n - j
      invariant 0 <= k <= n - j
      invariant a[..i + k] == src[..i] + src[j..j + k]
      invariant forall t :: i + k <= t < a.Length ==> a[t] == src[t]
    {
      a[i + k] := a[j + k];
      SliceSnoc(src, j, j + k);
      k := k + 1;
    }
    n' := n - (j - i);
  }

  lemma SliceSnoc<T>(s: seq<T>, lo: int, hi: int)
    requires 0 <= lo <= hi < |s|
    ensures s[lo..hi + 1] == s[lo..hi] + [s[hi]]
  {
  }

  /** The loop state of DeleteMatchMax, after `removed` groups have been
      deleted at `n` remaining: the settled prefix (up to the pending run, if
      any) is the filtered input up to the matching place, the pending run is
      all over the cap, and from the pending run on the array is the rest of
      the input. */
  ghost predicate Progress(a: seq<Duplicate>, orig: seq<Duplicate>, mm: int, n: int, i: int, rmFrom: int)
  {
    var settled := if rmFrom == -1 then i else rmFrom;
    var removed := |orig| - n;
    0 <= settled <= i <= n <= |a| == |orig|
    && -1 <= rmFrom
    && a[..settled] == KeepFanOut(orig[..settled + removed], mm)
    && a[settled..n] == orig[settled + removed..]
    && forall t :: settled <= t < i ==> Dropped(a[t], mm)
  }

  lemma ProgressStart(a: seq<Duplicate>, mm: int)
    ensures Progress(a, a, mm, |a|, 0, -1)
  {
    assert a[..0] == [] && a[0..|a|] == a;
  }

  /** A group over the cap joins (or starts) the pending run. */
  lemma ProgressDrop(a: seq<Duplicate>, orig: seq<Duplicate>, mm: int, n: int, i: int, rmFrom: int, rmFrom': int)
    requires Progress(a, orig, mm, n, i, rmFrom) && i < n && Dropped(a[i], mm)
    requires rmFrom' == if rmFrom == -1 then i else rmFrom
    ensures Progress(a, orig, mm, n, i + 1, rmFrom')
  {
  }

  /** A group within the cap, with no pending run, is settled. */
  lemma ProgressKeep(a: seq<Duplicate>, orig: seq<Duplicate>, mm: int, n: int, i: int)
    requires Progress(a, orig, mm, n, i, -1) && i < n && !Dropped(a[i], mm)
    ensures Progress(a, orig, mm, n, i + 1, -1)
  {
    var removed := |orig| - n;
    assert a[i] == orig[i + removed] by {
      assert a[i..n][0] == orig[i + removed..][0];
    }
    assert orig[..i + 1 + removed] == orig[..i + removed] + [orig[i + removed]];
    assert a[..i + 1] == a[..i] + [a[i]];
    assert a[i + 1..n] == a[i..n][1..];
  }

  /** Progress with a pending run, spelled out. */
  lemma ProgressPending(a: seq<Duplicate>, orig: seq<Duplicate>, mm: int, n: int, i: int, rmFrom: int)
    requires Progress(a, orig, mm, n, i, rmFrom) && rmFrom != -1
    ensures 0 <= rmFrom <= i <= n <= |a| == |orig|
    ensures a[..rmFrom] == KeepFanOut(orig[..rmFrom + (|orig| - n)], mm)
    ensures a[rmFrom..n] == orig[rmFrom + (|orig| - n)..]
    ensures forall t :: rmFrom <= t < i ==> Dropped(a[t], mm)
  {
  }

  /** Deleting the pending run [rmFrom, i) settles nothing new but removes
      only groups over the cap, and the scan resumes at rmFrom. */
  lemma ProgressDelete(before: seq<Duplicate>, after: seq<Duplicate>, orig: seq<Duplicate>, mm: int,
                       n0: int, n: int, i: int, rmFrom: int)
    requires 0 <= rmFrom <= i <= n0 <= |before| == |orig|
    requires before[..rmFrom] == KeepFanOut(orig[..rmFrom + (|orig| - n0)], mm)
    requires before[rmFrom..n0] == orig[rmFrom + (|orig| - n0)..]
    requires forall t :: rmFrom <= t < i ==> Dropped(before[t], mm)
    requires n == n0 - (i - rmFrom) && |after| == |before|
    requires after[..n] == before[..rmFrom] + before[i..n0]
    ensures after[..rmFrom] == KeepFanOut(orig[..rmFrom + (|orig| - n)], mm)
    ensures after[rmFrom..n] == orig[rmFrom + (|orig| - n)..]
  {
    var k := rmFrom + (|orig| - n0);
    SplitPrefix(after, n, before[..rmFrom], before[i..n0]);
    SubSlice(before, rmFrom, i, n0, orig, k);
    RunDropped(before, orig, mm, rmFrom, i, n0, k);
    KeepDroppedRun(orig, mm, k, k + (i - rmFrom));
  }

  /** The groups of orig matching the pending run a[lo..hi] are over the cap. */
  lemma RunDropped(a: seq<Duplicate>, orig: seq<Duplicate>, mm: int, lo: int, hi: int, n: int, off: int)
    requires 0 <= lo <= hi <= n <= |a| && 0 <= off <= |orig| && a[lo..n] == orig[off..]
    requires forall t :: lo <= t < hi ==> Dropped(a[t], mm)
    ensures forall t :: off <= t < off + (hi - lo) ==> Dropped(orig[t], mm)
  {
    forall t | off <= t < off + (hi - lo)
      ensures Dropped(orig[t], mm)
    {
      assert orig[t] == orig[off..][t - off] == a[lo..n][t - off] == a[lo + (t - off)];
    }
  }

  /** Prefixes that differ only by groups over the cap filter alike. */
  lemma {:induction false} KeepDroppedRun(s: seq<Duplicate>, mm: int, k: int, k': int)
    requires 0 <= k <= k' <= |s|
    requires forall t :: k <= t < k' ==> Dropped(s[t], mm)
    ensures KeepFanOut(s[..k'], mm) == KeepFanOut(s[..k], mm)
    decreases k'
  {
    if k < k' {
      KeepDroppedRun(s, mm, k, k' - 1);
      assert s[..k'][..k' - 1] == s[..k' - 1];
    }
  }

  /** Progress with no pending run, from its parts. */
  lemma ProgressSettled(a: seq<Duplicate>, orig: seq<Duplicate>, mm: int, n: int, i: int)
    requires 0 <= i <= n <= |a| == |orig|
    requires a[..i] == KeepFanOut(orig[..i + (|orig| - n)], mm)
    requires a[i..n] == orig[i + (|orig| - n)..]
    ensures Progress(a, orig, mm, n, i, -1)
  {
  }

  /** A prefix that is x + y splits into x and then y. */
  lemma SplitPrefix<T>(a: seq<T>, n: int, x: seq<T>, y: seq<T>)
    requires 0 <= n <= |a| && a[..n] == x + y
    ensures a[..|x|] == x && a[|x|..n] == y
  {
    assert a[..|x|] == a[..n][..|x|];
    assert a[|x|..n] == a[..n][|x|..];
  }

  /** A slice equal to a suffix of b, cut at mid, gives two slices of b. */
  lemma SubSlice<T>(a: seq<T>, lo: int, mid: int, hi: int, b: seq<T>, off: int)
    requires 0 <= lo <= mid <= hi <= |a| && 0 <= off <= |b| && a[lo..hi] == b[off..]
    ensures a[lo..mid] == b[off..off + (mid - lo)] && a[mid..hi] == b[off + (mid - lo)..]
  {
    assert a[lo..mid] == a[lo..hi][..mid - lo];
    assert a[mid..hi] == a[lo..hi][mid - lo..];
  }

  /** With the scan done and no pending run, the array is the filtered input. */
  lemma ProgressEnd(a: seq<Duplicate>, orig: seq<Duplicate>, mm: int, n: int)
    requires Progress(a, orig, mm, n, n, -1)
    ensures a[..n] == KeepFanOut(orig, mm)
  {
    assert orig[..n + |orig| - n] == orig;
  }

  /** Deleting the pending run [rmFrom, i) of DeleteMatchMax's scan. */
  method DeleteRun(a: array<Duplicate>, n: int, i: int, rmFrom: int, ghost orig: seq<Duplicate>, mm: int)
    returns (n': int)
    requires a.Length == |orig| && Progress(a[..], orig, mm, n, i, rmFrom) && rmFrom != -1
    modifies a
    ensures n' == n - (i - rmFrom) && Progress(a[..], orig, mm, n', rmFrom, -1)
  {
    ghost var before := a[..];
    ProgressPending(before, orig, mm, n, i, rmFrom);
    n' := Delete(a, n, rmFrom, i);
    ProgressDelete(before, a[..], orig, mm, n, n', i, rmFrom);
    ProgressSettled(a[..], orig, mm, n', rmFrom);
  }

  /** The body of DeleteMatchMax's loop at index i: a group over the cap
      joins (or starts) the pending run; a group within the cap ends a
      pending run, which is deleted and the scan resumes where it began;
      otherwise the group is kept. The scan state stays the one Progress
      describes, and the loop's measure falls. */
  method Visit(a: array<Duplicate>, n: int, i: int, rmFrom: int, ghost orig: seq<Duplicate>, mm: int)
    returns (n': int, i': int, rmFrom': int)
    requires a.Length == |orig| && Progress(a[..], orig, mm, n, i, rmFrom) && i < n
    modifies a
    ensures Progress(a[..], orig, mm, n', i', rmFrom')
    ensures n' - i' < n - i || (n' - i' == n - i && rmFrom != -1 && rmFrom' == -1)
  {
    var dup := a[i];
    var del := mm > 0 && |Files(dup)| > mm;
    n', i', rmFrom' := n, i, rmFrom;
    if del {
      if rmFrom == -1 {
        rmFrom' := i;
      }
      ProgressDrop(a[..], orig, mm, n, i, rmFrom, rmFrom');
      i' := i + 1;
    } else if rmFrom != -1 {
      n' := DeleteRun(a, n, i, rmFrom, orig, mm);
      i', rmFrom' := rmFrom, -1;
    } else {
      ProgressKeep(a[..], orig, mm, n, i);
      i' := i + 1;
    }
  }

  /** util.go DeleteMatchMax: maximal runs of groups over the cap are deleted
      as they end, the scan resuming where the run began; a run still open at
      the end is deleted after the loop. The result (the first n elements) is
      the input with exactly the groups over the cap removed, in order. */
  method DeleteMatchMax(a: array<Duplicate>, mm: int) returns (n: int)
    modifies a
    ensures 0 <= n <= a.Length
    ensures a[..n] == KeepFanOut(old(a[..]), mm)
  {
    ghost var orig := a[..];
    n := a.Length;
    var rmFrom, i := -1, 0;
    ProgressStart(orig, mm);
    while i < n
      invariant a.Length == |orig|
      invariant Progress(a[..], orig, mm, n, i, rmFrom)
      decreases n - i, if rmFrom == -1 then 0 else 1
    {
      n, i, rmFrom := Visit(a, n, i, rmFrom, orig, mm);
    }
    if rmFrom != -1 {
      n := DeleteRun(a, n, i, rmFrom, orig, mm);
    }
    ProgressEnd(a[..], orig, mm, n);
  }

  // ---------------------------------------------------------------------
  // The table cases of util_test.go

  function Run(f: FileId): FilePosition
  {
    var l := Line(f, 0, []);
    FilePosition(l, l, f, 10)
  }

  /** dup1 spans files f1 and f2; dup2 lies in f1 alone. */
  function Dup1(): Duplicate { Duplicate([Run("f1"), Run("f2")], [], []) }
  function Dup2(): Duplicate { Duplicate([Run("f1")], [], []) }

  lemma FilesDup2()
    ensures Files(Dup2()) == ["f1"]
  {
    assert [Run("f1")][..0] == [];
  }

  lemma FilesDup1()
    ensures Files(Dup1()) == ["f1", "f2"]
  {
    var p := Dup1().positions;
    assert p[..1] == [Run("f1")];
    FilesDup2();
  }

  /** The cases of util_test.go: with the cap off or above the group's file
      count nothing goes; a cap of 1 drops dup1 and keeps dup2. */
  lemma TableCases()
    ensures |KeepFanOut([], -1)| == 0
    ensures |KeepFanOut([Dup1()], -1)| == 1
    ensures |KeepFanOut([Dup1()], 4)| == 1
    ensures |KeepFanOut([Dup1()], 1)| == 0
    ensures KeepFanOut([Dup1(), Dup2()], 1) == [Dup2()]
  {
    FilesDup1();
    FilesDup2();
    assert [Dup1(), Dup2()][..1] == [Dup1()];
    assert [Dup1()][..0] == [];
  }
}
