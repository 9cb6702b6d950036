/** Reader: bytes, digests and the line splitter used by File.Read.
    A file's content is a sequence of bytes; `\n` ends a line and the end of
    the input acts as a final `\n`. The digest of a line is modelled as the
    identity on the bytes it is computed from (md5 is not modelled). */
module Reader {

  newtype byte = x: int | 0 <= x < 256

  const LF: byte := 10
  const CR: byte := 13

  /** Maximal number of lines handed to Data.Add at once. */
  const BatchSize: nat := 1024

  /** The digest of a line: here the bytes the digest is computed from. */
  type Digest = seq<byte>

  /** Files are identified by their path. */
  type FileId = string

  /** One line of one file: the file, its zero-based position, its digest. */
  datatype Line = Line(file: FileId, position: nat, hash: Digest)

  function CountNewlines(b: seq<byte>): nat
  {
    if b == [] then 0
    else CountNewlines(b[..|b| - 1]) + (if b[|b| - 1] == LF then 1 else 0)
  }

  /** The `\n`-separated pieces of b, read left to right: every `\n` closes
      the current piece and opens an empty one, every other byte extends the
      current piece. */
  function Segments(b: seq<byte>): (r: seq<seq<byte>>)
    ensures |r| >= 1
  {
    if b == [] then [[]]
    else
      var s := Segments(b[..|b| - 1]);
      if b[|b| - 1] == LF then s + [[]]
      else s[..|s| - 1] + [s[|s| - 1] + [b[|b| - 1]]]
  }

  /** The pieces glued back together with `\n` between them. */
  function Join(segs: seq<seq<byte>>): seq<byte>
    requires |segs| >= 1
  {
    if |segs| == 1 then segs[0]
    else Join(segs[..|segs| - 1]) + [LF] + segs[|segs| - 1]
  }

  predicate NoNewline(s: seq<byte>)
  {
    forall i :: 0 <= i < |s| ==> s[i] != LF
  }

  /** s without its trailing `\r` bytes. */
  function TrimCR(s: seq<byte>): seq<byte>
  {
    if s == [] then []
    else if s[|s| - 1] == CR then TrimCR(s[..|s| - 1])
    else s
  }

  /** The bytes File.Read hashes for line k of b, whose text is `seg`: the
      line without trailing `\r`s; for the very first line, when that is
      empty, the read starts at `last = 0` and hashes b[0..1] instead. */
  function SegmentInput(b: seq<byte>, seg: seq<byte>, k: nat): Digest
    requires |b| > 0
  {
    var t := TrimCR(seg);
    if k == 0 && t == [] then b[..1] else t
  }

  /** The digests File.Read assigns to the lines of b, by position. */
  function FileDigests(b: seq<byte>): seq<Digest>
    requires |b| > 0
  {
    var segs := Segments(b);
    SegDigests(b, segs, |segs|)
  }

  /** The digests of the first n of the lines `segs` of b. */
  function SegDigests(b: seq<byte>, segs: seq<seq<byte>>, n: int): (r: seq<Digest>)
    requires |b| > 0 && 0 <= n <= |segs|
    ensures |r| == n && forall k :: 0 <= k < n ==> r[k] == SegmentInput(b, segs[k], k)
  {
    seq(n, k requires 0 <= k < n => SegmentInput(b, segs[k], k))
  }

  /** One more line's digest. */
  lemma SegDigestsSnoc(b: seq<byte>, segs: seq<seq<byte>>, n: int)
    requires |b| > 0 && 0 <= n < |segs|
    ensures SegDigests(b, segs, n + 1) == SegDigests(b, segs, n) + [SegmentInput(b, segs[n], n)]
  {
  }

  /** The digests of the first n lines depend on those lines only. */
  lemma SegDigestsPrefix(b: seq<byte>, segs: seq<seq<byte>>, segs': seq<seq<byte>>, n: int)
    requires |b| > 0 && 0 <= n <= |segs| && n <= |segs'| && segs[..n] == segs'[..n]
    ensures SegDigests(b, segs, n) == SegDigests(b, segs', n)
  {
    forall k | 0 <= k < n
      ensures segs[k] == segs'[k]
    {
      assert segs[k] == segs[..n][k];
    }
  }

  /** The Line records of a file, for its digests by position. */
  function LinesOf(name: FileId, ds: seq<Digest>): seq<Line>
  {
    seq(|ds|, k requires 0 <= k < |ds| => Line(name, k, ds[k]))
  }

  function Flatten<T>(ss: seq<seq<T>>): seq<T>
  {
    if ss == [] then [] else Flatten(ss[..|ss| - 1]) + ss[|ss| - 1]
  }

  // ---------------------------------------------------------------------
  // Properties of the splitter

  /** There is one line per `\n` plus one: the end of input closes a line. */
  lemma {:induction false} SegmentsCount(b: seq<byte>)
    ensures |Segments(b)| == CountNewlines(b) + 1
  {
    if b != [] {
      SegmentsCount(b[..|b| - 1]);
    }
  }

  /** No line contains a `\n`. */
  lemma {:induction false} SegmentsHaveNoNewline(b: seq<byte>)
    ensures forall k :: 0 <= k < |Segments(b)| ==> NoNewline(Segments(b)[k])
  {
    if b != [] {
      SegmentsHaveNoNewline(b[..|b| - 1]);
      var s := Segments(b[..|b| - 1]);
      if b[|b| - 1] != LF {
        var last := s[|s| - 1] + [b[|b| - 1]];
        assert NoNewline(s[|s| - 1]);
        assert NoNewline(last);
        assert Segments(b) == s[..|s| - 1] + [last];
      }
    }
  }

  /** Gluing after an extra empty piece adds one `\n`. */
  lemma JoinAppendEmpty(segs: seq<seq<byte>>)
    requires |segs| >= 1
    ensures Join(segs + [[]]) == Join(segs) + [LF]
  {
    assert (segs + [[]])[..|segs|] == segs;
  }

  /** Gluing after extending the last piece by c adds c. */
  lemma JoinExtendLast(segs: seq<seq<byte>>, c: byte)
    requires |segs| >= 1
    ensures Join(segs[..|segs| - 1] + [segs[|segs| - 1] + [c]]) == Join(segs) + [c]
  {
    var init, x := segs[..|segs| - 1], segs[|segs| - 1];
    SnocParts(init, x + [c]);
    if |segs| > 1 {
      AssocSnoc(Join(init) + [LF], x, c);
    }
  }

  /** Splitting loses nothing: gluing the lines back with `\n` gives b. */
  lemma {:induction false} JoinSegments(b: seq<byte>)
    ensures Join(Segments(b)) == b
  {
    if b != [] {
      var p, c := b[..|b| - 1], b[|b| - 1];
      JoinSegments(p);
      var s := Segments(p);
      assert b == p + [c];
      if c == LF {
        assert Segments(b) == s + [[]];
        JoinAppendEmpty(s);
      } else {
        assert Segments(b) == s[..|s| - 1] + [s[|s| - 1] + [c]];
        JoinExtendLast(s, c);
      }
    }
  }

  /** Splitting is the inverse of gluing: `\n`-free pieces glued with `\n`
      split back into the same pieces. */
  lemma {:induction false} SegmentsOfJoin(segs: seq<seq<byte>>)
    requires |segs| >= 1
    requires forall k :: 0 <= k < |segs| ==> NoNewline(segs[k])
    ensures Segments(Join(segs)) == segs
  {
    if |segs| == 1 {
      SegmentsOfPlain(segs[0]);
    } else {
      var init := segs[..|segs| - 1];
      SegmentsOfJoin(init);
      var a := Join(init) + [LF];
      SegmentsAppendPlain(a, segs[|segs| - 1]);
      assert a[..|a| - 1] == Join(init);
      var x := Segments(a);
      assert x == init + [[]];
      assert x[..|x| - 1] == init;
      assert x[|x| - 1] + segs[|segs| - 1] == segs[|segs| - 1];
      assert Join(segs) == a + segs[|segs| - 1];
      assert init + [segs[|segs| - 1]] == segs;
    }
  }

  /** A `\n`-free piece is one line. */
  lemma {:induction false} SegmentsOfPlain(s: seq<byte>)
    requires NoNewline(s)
    ensures Segments(s) == [s]
  {
    if s != [] {
      SegmentsOfPlain(s[..|s| - 1]);
      assert s[..|s| - 1] + [s[|s| - 1]] == s;
    }
  }

  /** The two parts of a sequence with one more element. */
  lemma SnocParts<T>(init: seq<T>, y: T)
    ensures |init + [y]| == |init| + 1
    ensures (init + [y])[..|init|] == init && (init + [y])[|init|] == y
  {
  }

  lemma SplitLast<T>(s: seq<T>)
    requires |s| > 0
    ensures s == s[..|s| - 1] + [s[|s| - 1]]
  {
  }

  lemma AssocSnoc<T>(z: seq<T>, s: seq<T>, c: T)
    ensures z + s + [c] == z + (s + [c])
  {
  }

  /** A byte other than `\n` extends the last line. */
  lemma SegmentsSnoc(a: seq<byte>, c: byte)
    requires c != LF
    ensures var sa := Segments(a);
      Segments(a + [c]) == sa[..|sa| - 1] + [sa[|sa| - 1] + [c]]
  {
    assert (a + [c])[..|a|] == a;
  }

  /** Appending `\n`-free bytes extends the last line. */
  lemma {:induction false} SegmentsAppendPlain(a: seq<byte>, s: seq<byte>)
    requires NoNewline(s)
    ensures var sa := Segments(a);
      Segments(a + s) == sa[..|sa| - 1] + [sa[|sa| - 1] + s]
  {
    var sa := Segments(a);
    if s == [] {
      assert a + s == a;
      assert sa[|sa| - 1] + s == sa[|sa| - 1];
      assert sa[..|sa| - 1] + [sa[|sa| - 1]] == sa;
    } else {
      var s0, c := s[..|s| - 1], s[|s| - 1];
      SplitLast(s);
      assert NoNewline(s0);
      SegmentsAppendPlain(a, s0);
      AssocSnoc(a, s0, c);
      SegmentsSnoc(a + s0, c);
      SnocParts(sa[..|sa| - 1], sa[|sa| - 1] + s0);
      AssocSnoc(sa[|sa| - 1], s0, c);
    }
  }

  /** TrimCR drops exactly the trailing `\r`s: the result is a prefix, it does
      not end in `\r`, and what was dropped is all `\r`. Interior `\r`s stay. */
  lemma {:induction false} TrimCRShape(s: seq<byte>)
    ensures |TrimCR(s)| <= |s| && TrimCR(s) == s[..|TrimCR(s)|]
    ensures TrimCR(s) == [] || TrimCR(s)[|TrimCR(s)| - 1] != CR
    ensures forall i :: |TrimCR(s)| <= i < |s| ==> s[i] == CR
  {
    if s != [] && s[|s| - 1] == CR {
      TrimCRShape(s[..|s| - 1]);
    }
  }

  /** What File.Read hashes for every line but the first: the line's bytes
      up to its last byte that is not `\r`, or nothing. */
  lemma LaterLineInput(b: seq<byte>, k: nat)
    requires |b| > 0 && 0 < k < |Segments(b)|
    ensures FileDigests(b)[k] == TrimCR(Segments(b)[k])
  {
  }

  /** The first-line quirk: a file that starts with `\n` gives its (empty)
      first line the digest of the single byte `\n`, not of the empty line
      that every later empty line gets. */
  lemma EmptyFirstLineQuirk(b: seq<byte>)
    requires |b| > 0 && b[0] == LF
    ensures FileDigests(b)[0] == [LF]
    ensures forall k :: 0 < k < |Segments(b)| && Segments(b)[k] == [] ==> FileDigests(b)[k] == []
  {
    FirstSegmentEmpty(b);
  }

  lemma {:induction false} FirstSegmentEmpty(b: seq<byte>)
    requires |b| > 0 && b[0] == LF
    ensures Segments(b)[0] == []
  {
    if |b| == 1 {
      assert b[..0] == [];
    } else {
      FirstSegmentEmpty(b[..|b| - 1]);
    }
  }

  /** LinesOf grows by one Line per digest appended. */
  lemma LinesOfSnoc(name: FileId, ds: seq<Digest>, h: Digest)
    ensures LinesOf(name, ds + [h]) == LinesOf(name, ds) + [Line(name, |ds|, h)]
  {
  }

  // ---------------------------------------------------------------------
  // The byte loop of File.Read

  /** Where File.Read's `last` stands while it reads the line that starts at
      `first` and whose bytes up to the last one that is not `\r` number t:
      on that byte; before any such byte of a later line, on the `\n` that
      closed the previous line; and on byte 0 before any such byte of the
      first line. */
  function LastMark(first: int, t: int): int
  {
    if t > 0 then first + t - 1 else if first == 0 then 0 else first - 1
  }

  /** The state of the byte loop before byte i: `first` starts the line being
      read, whose bytes so far are b[first..i]; `last` is placed as LastMark
      says; and `ds` holds the digests of the lines completed so far. */
  ghost predicate Scanning(b: seq<byte>, i: int, first: int, last: int, ds: seq<Digest>)
  {
    |b| > 0 && 0 <= i <= |b|
    && var s := Segments(b[..i]);
    0 <= first <= i && b[first..i] == s[|s| - 1] && (first == 0 <==> |s| == 1)
    && last == LastMark(first, |TrimCR(s[|s| - 1])|)
    && ds == SegDigests(b, s, |s| - 1)
  }

  lemma ScanStart(b: seq<byte>)
    requires |b| > 0
    ensures Scanning(b, 0, 0, 0, [])
  {
    assert b[..0] == [];
  }

  /** Hashing b[first..last + 1] at a `\n` hashes the input of the line
      being closed. */
  lemma EmitCurrent(b: seq<byte>, i: int, first: int, last: int, ds: seq<Digest>)
    requires Scanning(b, i, first, last, ds)
    ensures 0 <= first <= last + 1 <= |b|
    ensures var s := Segments(b[..i]); b[first..last + 1] == SegmentInput(b, s[|s| - 1], |s| - 1)
  {
    var s := Segments(b[..i]);
    var cur := s[|s| - 1];
    assert b[first..i] == cur;
    TrimCRShape(cur);
    var t := |TrimCR(cur)|;
    assert t <= i - first;
    var want := SegmentInput(b, cur, |s| - 1);
    if t > 0 {
      assert last == first + t - 1;
      assert b[first..first + t] == b[first..i][..t];
      assert want == TrimCR(cur);
    } else if first == 0 {
      assert last == 0 && |s| - 1 == 0;
      assert want == b[..1];
    } else {
      assert last == first - 1 && |s| - 1 != 0;
      assert want == [];
    }
  }

  lemma PrefixSnoc(b: seq<byte>, first: int, i: int)
    requires 0 <= first <= i < |b|
    ensures b[..i + 1] == b[..i] + [b[i]]
    ensures b[first..i + 1] == b[first..i] + [b[i]]
  {
  }

  /** A `\n` closes the last line and opens an empty one. */
  lemma SegmentsLF(a: seq<byte>)
    ensures Segments(a + [LF]) == Segments(a) + [[]]
  {
    assert (a + [LF])[..|a|] == a;
  }

  /** A byte other than `\n`: `\r` leaves `last` where it is, any other byte
      extends the line and moves `last` onto it. */
  lemma ScanPlain(b: seq<byte>, i: int, st: ScanState)
    requires ScanAt(b, i, st) && i < |b| && b[i] != LF
    ensures b[i] == CR ==> ScanAt(b, i + 1, st)
    ensures b[i] != CR ==> ScanAt(b, i + 1, st.(last := i))
  {
    var first := st.first;
    var a, c := b[..i], b[i];
    PrefixSnoc(b, first, i);
    var s := Segments(a);
    var init, cur := s[..|s| - 1], s[|s| - 1];
    SegmentsSnoc(a, c);
    var s' := Segments(b[..i + 1]);
    SnocParts(init, cur + [c]);
    SnocParts(cur, c);
    if c != CR {
      assert TrimCR(cur + [c]) == cur + [c];
    }
    SegDigestsPrefix(b, s, s', |s| - 1);
  }

  /** A `\n` closes the line, whose digest is b[first..last + 1], and opens
      the next one at i + 1. */
  lemma ScanLF(b: seq<byte>, i: int, st: ScanState)
    requires ScanAt(b, i, st) && i < |b| && b[i] == LF
    ensures 0 <= st.first <= st.last + 1 <= |b|
    ensures ScanAt(b, i + 1, ScanState(i + 1, i, st.ds + [b[st.first..st.last + 1]]))
  {
    EmitCurrent(b, i, st.first, st.last, st.ds);
    var a := b[..i];
    PrefixSnoc(b, st.first, i);
    var s := Segments(a);
    SegmentsLF(a);
    var s' := Segments(b[..i + 1]);
    SnocParts(s, []);
    SegDigestsSnoc(b, s, |s| - 1);
    SegDigestsPrefix(b, s, s', |s|);
  }

  /** At the end of the input, the final line's digest completes the file's
      digests. */
  lemma ScanEnd(b: seq<byte>, first: int, last: int, ds: seq<Digest>)
    requires Scanning(b, |b|, first, last, ds)
    ensures 0 <= first <= last + 1 <= |b|
    ensures ds + [b[first..last + 1]] == FileDigests(b)
  {
    assert b[..|b|] == b;
    EmitCurrent(b, |b|, first, last, ds);
    var s := Segments(b);
    SegDigestsSnoc(b, s, |s| - 1);
  }

  /** The variables of File.Read's byte loop. */
  datatype ScanState = ScanState(first: int, last: int, ds: seq<Digest>)

  /** The state (first, last, digests so far) of File.Read's byte loop
      before byte i: `\r` changes nothing, `\n` hashes b[first..last + 1]
      and restarts the line after it, any other byte moves `last` onto it. */
  function Scan(b: seq<byte>, i: int): (r: ScanState)
    requires 0 < |b| && 0 <= i <= |b|
    ensures 0 <= r.first <= i && r.first <= r.last + 1 && r.last < |b|
    decreases i
  {
    if i == 0 then ScanState(0, 0, [])
    else
      var st := Scan(b, i - 1);
      var c := b[i - 1];
      if c == CR then st
      else if c == LF then ScanState(i, i - 1, st.ds + [b[st.first..st.last + 1]])
      else st.(last := i - 1)
  }

  ghost predicate ScanAt(b: seq<byte>, i: int, st: ScanState)
  {
    Scanning(b, i, st.first, st.last, st.ds)
  }

  /** A `\n` at byte i - 1: the state moves as Scan says. */
  lemma ScanStepLF(b: seq<byte>, i: int, st: ScanState)
    requires 0 < i <= |b| && b[i - 1] == LF && st == Scan(b, i - 1) && ScanAt(b, i - 1, st)
    ensures ScanAt(b, i, Scan(b, i))
  {
    assert Scan(b, i) == ScanState(i, i - 1, st.ds + [b[st.first..st.last + 1]]);
    ScanLF(b, i - 1, st);
  }

  /** A `\r` at byte i - 1 changes nothing. */
  lemma ScanStepCR(b: seq<byte>, i: int, st: ScanState)
    requires 0 < i <= |b| && b[i - 1] == CR && st == Scan(b, i - 1) && ScanAt(b, i - 1, st)
    ensures ScanAt(b, i, Scan(b, i))
  {
    assert Scan(b, i) == st;
    ScanPlain(b, i - 1, st);
  }

  /** Any other byte at i - 1 moves `last` onto it. */
  lemma ScanStepOther(b: seq<byte>, i: int, st: ScanState)
    requires 0 < i <= |b| && b[i - 1] != LF && b[i - 1] != CR && st == Scan(b, i - 1) && ScanAt(b, i - 1, st)
    ensures ScanAt(b, i, Scan(b, i))
  {
    assert Scan(b, i) == st.(last := i - 1);
    ScanPlain(b, i - 1, st);
  }

  /** One byte of the loop keeps the state the one Scanning describes. */
  lemma ScanStep(b: seq<byte>, i: int)
    requires 0 < i <= |b| && ScanAt(b, i - 1, Scan(b, i - 1))
    ensures ScanAt(b, i, Scan(b, i))
  {
    if b[i - 1] == LF {
      ScanStepLF(b, i, Scan(b, i - 1));
    } else if b[i - 1] == CR {
      ScanStepCR(b, i, Scan(b, i - 1));
    } else {
      ScanStepOther(b, i, Scan(b, i - 1));
    }
  }

  /** The loop state is always the one Scanning describes. */
  lemma {:induction false} ScanOk(b: seq<byte>, i: int)
    requires 0 < |b| && 0 <= i <= |b|
    ensures ScanAt(b, i, Scan(b, i))
  {
    if i == 0 {
      ScanStart(b);
    } else {
      ScanOk(b, i - 1);
      ScanStep(b, i);
    }
  }

  /** After the last byte, hashing b[first..last + 1] for the end of input
      completes exactly the file's digests. */
  lemma ScanComplete(b: seq<byte>, first: int, last: int, ds: seq<Digest>)
    requires 0 < |b| && ScanState(first, last, ds) == Scan(b, |b|)
    ensures 0 <= first <= last + 1 <= |b|
    ensures ds + [b[first..last + 1]] == FileDigests(b)
  {
    ScanOk(b, |b|);
    ScanEnd(b, first, last, ds);
  }
  /** The state of File.Read's loop before step i (0 <= i <= |b| + 1, the
      step at |b| reading the end of input as a `\n`): Scan's state while
      bytes remain, and the file's digests once the last line is closed. */
  ghost predicate ReadAt(b: seq<byte>, i: int, first: int, last: int, ds: seq<Digest>)
  {
    0 < |b| && 0 <= i <= |b| + 1
    && (i <= |b| ==> ScanState(first, last, ds) == Scan(b, i))
    && (i == |b| + 1 ==> ds == FileDigests(b))
  }

  lemma ReadStart(b: seq<byte>)
    requires 0 < |b|
    ensures ReadAt(b, 0, 0, 0, [])
  {
  }

  /** One step of the loop: `\r` changes nothing, a `\n` (or the end of
      input) emits the digest b[first..last + 1], any other byte moves
      `last` onto it. */
  lemma ReadStep(b: seq<byte>, i: int, first: int, last: int, ds: seq<Digest>)
    requires ReadAt(b, i, first, last, ds) && i <= |b|
    ensures i < |b| && b[i] == CR ==> ReadAt(b, i + 1, first, last, ds)
    ensures i == |b| || b[i] == LF ==>
              0 <= first <= last + 1 <= |b| && ReadAt(b, i + 1, i + 1, i, ds + [b[first..last + 1]])
    ensures i < |b| && b[i] != CR && b[i] != LF ==> ReadAt(b, i + 1, first, i, ds)
  {
    if i == |b| {
      ScanComplete(b, first, last, ds);
    }
  }

}
