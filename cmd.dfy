/** The older detector of cmd/mostcomm/main.go. Its File.Read, Data.Add and
    Data.TotalLines are the same code as mostcomm.go's and are modelled by
    Mostcomm.Data; FilePositionMatch.Key is HashKey and FilePosition.Duplicate
    is ToDuplicate. Its DetectDuplicates differs: there is no filter (every
    closed candidate may start a group), no seen-positions guard, and the
    candidates closed at a line are collected in a map keyed by their file,
    which is always the scanned one, so only the last of them survives. */
module Cmd {
  import opened Reader
  import opened Index
  import opened Ranges
  import opened Detect
  import opened Mostcomm

  /** No filter: every candidate may start a group. */
  const KeepAll: FilePositionMatch -> bool := (m: FilePositionMatch) => true

  /** The one candidate that survives the collapse at line p: the last live
      candidate that is not extended, if any. */
  function LastStopped(files: Files, ms: seq<FilePositionMatch>, p: Line): Option<FilePositionMatch>
  {
    var s := Stopped(files, ms, p);
    if s == [] then None else Some(s[|s| - 1])
  }

  /** Nothing survives exactly when every live candidate extends; what
      survives is a live candidate that does not extend, and every candidate
      after it extends, so every other closed candidate is lost. */
  lemma {:induction false} LastStoppedOk(files: Files, ms: seq<FilePositionMatch>, p: Line)
    ensures LastStopped(files, ms, p) == None <==> forall j :: 0 <= j < |ms| ==> Extends(files, ms[j], p)
    ensures LastStopped(files, ms, p).Some? ==>
              exists j :: 0 <= j < |ms| && ms[j] == LastStopped(files, ms, p).value
                          && !Extends(files, ms[j], p)
                          && forall j' :: j < j' < |ms| ==> Extends(files, ms[j'], p)
  {
    if ms != [] {
      var init, m := ms[..|ms| - 1], ms[|ms| - 1];
      assert forall j :: 0 <= j < |init| ==> ms[j] == init[j];
      LastStoppedOk(files, init, p);
      if Extends(files, m, p) {
        assert Stopped(files, ms, p) == Stopped(files, init, p);
        if LastStopped(files, init, p).Some? {
          var j :| 0 <= j < |init| && init[j] == LastStopped(files, init, p).value
                   && !Extends(files, init[j], p)
                   && forall j' :: j < j' < |init| ==> Extends(files, init[j'], p);
          assert ms[j] == init[j];
          forall j' | j < j' < |ms|
            ensures Extends(files, ms[j'], p)
          {
            if j' < |init| {
              assert ms[j'] == init[j'];
            }
          }
        } else {
          forall j' | 0 <= j' < |ms|
            ensures Extends(files, ms[j'], p)
          {
            if j' < |init| {
              assert ms[j'] == init[j'];
            }
          }
        }
      } else {
        assert Stopped(files, ms, p) == Stopped(files, init, p) + [m];
        assert ms[|ms| - 1] == m;
      }
    }
  }

  /** Advancing the live candidates to line p, the older way: extension and
      the dropping of fresh candidates are as in mostcomm.go; each candidate
      that does not extend overwrites the entry of its file in the map of
      closed candidates. */
  method CloseOrExtend(files: Files, f: FileId, matches: seq<FilePositionMatch>, p: Line,
                       missedLines0: map<Line, FilePositionMatch>)
    returns (extended: seq<FilePositionMatch>, missed: map<FileId, FilePositionMatch>,
             missedLines: map<Line, FilePositionMatch>)
    requires forall i :: 0 <= i < |matches| ==> matches[i].position.file == f
    ensures extended == Advanced(files, matches, p)
    ensures missedLines == Undropped(files, matches, missedLines0)
    ensures missed.Keys <= {f}
    ensures f in missed <==> LastStopped(files, matches, p).Some?
    ensures f in missed ==> missed[f] == LastStopped(files, matches, p).value
  {
    extended, missed, missedLines := [], map[], missedLines0;
    var j := 0;
    while j < |matches|
      invariant 0 <= j <= |matches|
      invariant extended == Advanced(files, matches[..j], p)
      invariant missedLines == Undropped(files, matches[..j], missedLines0)
      invariant missed == if LastStopped(files, matches[..j], p).None? then map[]
                          else map[f := LastStopped(files, matches[..j], p).value]
    {
      var fp := matches[j];
      StepSnoc(files, matches, j, p, missedLines0);
      LastStoppedSnoc(files, matches, j, p);
      if HasNext(files, fp.with) {
        missedLines := missedLines - {NextLine(files, fp.with)};
      }
      if Extends(files, fp, p) {
        extended := extended + [Next(files, fp, p)];
      } else {
        missed := missed[fp.position.file := fp];
      }
      j := j + 1;
    }
    assert matches[..j] == matches;
  }

  /** The collapse after one more candidate: unchanged if it extends,
      otherwise that candidate. */
  lemma LastStoppedSnoc(files: Files, ms: seq<FilePositionMatch>, j: int, p: Line)
    requires 0 <= j < |ms|
    ensures LastStopped(files, ms[..j + 1], p)
            == if Extends(files, ms[j], p) then LastStopped(files, ms[..j], p) else Some(ms[j])
  {
    assert ms[..j + 1][..j] == ms[..j];
  }

  /** The surviving closed candidate is one of the live candidates. */
  lemma LastStoppedCandidate(files: Files, f: FileId, ms: seq<FilePositionMatch>, p: Line)
    requires forall m :: m in ms ==> CandidateOk(files, f, m)
    ensures LastStopped(files, ms, p).Some? ==> CandidateOk(files, f, LastStopped(files, ms, p).value)
  {
    StoppedOk(files, ms, p);
    var s := Stopped(files, ms, p);
    if s != [] {
      assert s[|s| - 1] in s;
    }
  }

  /** One finalization without filter keeps the table well formed, grows it
      and records the candidate, and every earlier record stays. */
  lemma FinalizeStep(files: Files, f: FileId, st0: Groups, st: Groups, fp: FilePositionMatch)
    requires GroupsOk(files, st, KeepAll) && CandidateOk(files, f, fp) && Grows(st0, st)
    ensures TableOk(st)
    ensures GroupsOk(files, Finalize(st, fp, KeepAll), KeepAll)
    ensures Grows(st0, Finalize(st, fp, KeepAll))
    ensures Recorded(Finalize(st, fp, KeepAll), fp, KeepAll)
    ensures forall x :: Recorded(st, x, KeepAll) ==> Recorded(Finalize(st, fp, KeepAll), x, KeepAll)
  {
    FinalizeOk(files, f, st, fp, KeepAll);
    FinalizeGrows(st, fp, KeepAll);
    var r := Finalize(st, fp, KeepAll);
    GrowsTrans(st0, st, r);
    forall x | Recorded(st, x, KeepAll)
      ensures Recorded(r, x, KeepAll)
    {
      RecordedGrows(st, r, x, KeepAll);
    }
  }

  /** The flush step: finalizing the j-th live candidate records it and
      keeps the records of the ones before. */
  lemma FlushStep(files: Files, f: FileId, st: Groups, r: Groups, ms: seq<FilePositionMatch>, j: int)
    requires 0 <= j < |ms| && CandidateOk(files, f, ms[j])
    requires GroupsOk(files, r, KeepAll) && Grows(st, r)
    requires forall t :: 0 <= t < j ==> Recorded(r, ms[t], KeepAll)
    ensures TableOk(r)
    ensures GroupsOk(files, Finalize(r, ms[j], KeepAll), KeepAll) && Grows(st, Finalize(r, ms[j], KeepAll))
    ensures forall t :: 0 <= t < j + 1 ==> Recorded(Finalize(r, ms[j], KeepAll), ms[t], KeepAll)
  {
    FinalizeOk(files, f, r, ms[j], KeepAll);
    FinalizeGrows(r, ms[j], KeepAll);
    var r' := Finalize(r, ms[j], KeepAll);
    GrowsTrans(st, r, r');
    forall t | 0 <= t < j
      ensures Recorded(r', ms[t], KeepAll)
    {
      RecordedGrows(r, r', ms[t], KeepAll);
    }
  }

  /** Finalizing the collapsed closed candidates, in the map's order: with
      no filter, each joins its key's group or starts one. Every closed
      candidate is of the scanned file f, so the map holds at most the one
      at key f, and the table is st with that one finalized, if any. */
  method FinalizeAll(ghost files: Files, ghost f: FileId, st: Groups, missed: map<FileId, FilePositionMatch>)
    returns (r: Groups, ghost order: seq<FilePositionMatch>)
    requires GroupsOk(files, st, KeepAll) && missed.Keys <= {f}
    requires forall g :: g in missed ==> CandidateOk(files, f, missed[g])
    ensures GroupsOk(files, r, KeepAll) && Grows(st, r)
    ensures order == if f in missed then [missed[f]] else []
    ensures TableOk(st) && r == FinalizeSeq(st, order, KeepAll)
    ensures forall x :: x in order ==> Recorded(r, x, KeepAll)
  {
    GroupsOkTable(files, st, KeepAll);
    r, order := st, [];
    var rest := missed.Keys;
    while rest != {}
      invariant Drained(files, f, st, missed, rest, r, order)
      decreases |rest|
    {
      var g :| g in rest;
      DrainStep(files, f, st, missed, rest, g);
      r, order := Finalize(r, missed[g], KeepAll), order + [missed[g]];
      rest := rest - {g};
    }
    DrainedOk(files, f, st, missed, r, order);
  }

  /** The state of FinalizeAll: nothing done yet, or the one candidate
      finalized and recorded. */
  ghost predicate Drained(files: Files, f: FileId, st: Groups, missed: map<FileId, FilePositionMatch>,
                          rest: set<FileId>, r: Groups, order: seq<FilePositionMatch>)
  {
    (rest == missed.Keys && r == st && order == [])
    || (rest == {} && f in missed && order == [missed[f]] && TableOk(st) && r == Finalize(st, missed[f], KeepAll)
        && GroupsOk(files, r, KeepAll) && Grows(st, r) && Recorded(r, missed[f], KeepAll))
  }

  /** The one key of the map is f, and finalizing its candidate ends the
      loop. */
  lemma DrainStep(files: Files, f: FileId, st: Groups, missed: map<FileId, FilePositionMatch>,
                  rest: set<FileId>, g: FileId)
    requires GroupsOk(files, st, KeepAll) && missed.Keys <= {f}
    requires forall g :: g in missed ==> CandidateOk(files, f, missed[g])
    requires Drained(files, f, st, missed, rest, st, []) && g in rest
    ensures g == f && rest - {g} == {}
    ensures Drained(files, f, st, missed, rest - {g}, Finalize(st, missed[g], KeepAll), [missed[g]])
  {
    FinalizeStep(files, f, st, st, missed[g]);
  }

  /** What the loop of FinalizeAll leaves. */
  lemma DrainedOk(files: Files, f: FileId, st: Groups, missed: map<FileId, FilePositionMatch>,
                  r: Groups, order: seq<FilePositionMatch>)
    requires GroupsOk(files, st, KeepAll) && missed.Keys <= {f}
    requires Drained(files, f, st, missed, {}, r, order)
    ensures GroupsOk(files, r, KeepAll) && Grows(st, r)
    ensures order == if f in missed then [missed[f]] else []
    ensures TableOk(st) && r == FinalizeSeq(st, order, KeepAll)
    ensures forall x :: x in order ==> Recorded(r, x, KeepAll)
  {
    GroupsOkTable(files, st, KeepAll);
    if f in missed {
      assert [missed[f]][..0] == [];
    }
  }

  /** The flush at the end of file f: every live candidate is finalized, in
      order, with no (start, end) guard. */
  method Flush(ghost files: Files, ghost f: FileId, st: Groups, matches: seq<FilePositionMatch>)
    returns (r: Groups)
    requires GroupsOk(files, st, KeepAll)
    requires forall m :: m in matches ==> CandidateOk(files, f, m)
    ensures TableOk(st) && r == FinalizeSeq(st, matches, KeepAll)
    ensures GroupsOk(files, r, KeepAll) && Grows(st, r)
    ensures forall t :: 0 <= t < |matches| ==> Recorded(r, matches[t], KeepAll)
  {
    GroupsOkTable(files, st, KeepAll);
    r := st;
    var j := 0;
    while j < |matches|
      invariant 0 <= j <= |matches|
      invariant r == FinalizeSeq(st, matches[..j], KeepAll)
      invariant GroupsOk(files, r, KeepAll) && Grows(st, r)
      invariant forall t :: 0 <= t < j ==> Recorded(r, matches[t], KeepAll)
    {
      var fp := matches[j];
      assert fp in matches;
      FinalizeSeqPrefix(st, matches, j, KeepAll);
      FlushStep(files, f, st, r, matches, j);
      r := Finalize(r, fp, KeepAll);
      j := j + 1;
    }
    assert matches[..j] == matches;
  }

  /** The state of the older scan of file f before line k: the live
      candidates end just before k; the table is well formed and is st with
      the candidates of `log` finalized in order; each of them is a valid
      candidate of f that cannot grow at either end and is recorded. */
  ghost predicate AtLine(files: Files, index: LineIndex, f: FileId, st: Groups, k: int,
                         matches: seq<FilePositionMatch>, r: Groups, log: seq<FilePositionMatch>)
  {
    IndexOk(files, index) && f in files && 0 <= k <= |files[f]|
    && Live(files, f, k, matches)
    && GroupsOk(files, r, KeepAll) && Grows(st, r)
    && TableOk(st) && r == FinalizeSeq(st, log, KeepAll)
    && forall x :: x in log ==>
         CandidateOk(files, f, x) && Closes(files, f, x) && Opens(files, f, x) && Recorded(r, x, KeepAll)
  }

  /** Finalizing more valid candidates that cannot grow at either end, each recorded,
      extends the log. */
  lemma LogStep(files: Files, index: LineIndex, f: FileId, st: Groups, k: int, matches: seq<FilePositionMatch>,
                r: Groups, log: seq<FilePositionMatch>, k': int, matches': seq<FilePositionMatch>,
                more: seq<FilePositionMatch>, r': Groups)
    requires AtLine(files, index, f, st, k, matches, r, log)
    requires k' <= |files[f]| && 0 <= k'
    requires Live(files, f, k', matches')
    requires GroupsOk(files, r', KeepAll) && Grows(r, r') && r' == FinalizeSeq(r, more, KeepAll)
    requires forall x :: x in more ==>
               CandidateOk(files, f, x) && Closes(files, f, x) && Opens(files, f, x) && Recorded(r', x, KeepAll)
    ensures AtLine(files, index, f, st, k', matches', r', log + more)
  {
    GroupsOkTable(files, r, KeepAll);
    FinalizeSeqConcat(st, log, more, KeepAll);
    GrowsTrans(st, r, r');
    forall x | x in log + more
      ensures CandidateOk(files, f, x) && Closes(files, f, x) && Opens(files, f, x) && Recorded(r', x, KeepAll)
    {
      if x in log {
        RecordedGrows(r, r', x, KeepAll);
      }
    }
  }

  /** The collapsed map of the candidates closed at line p: at most the one
      at key f, present exactly when some candidate stopped, and then the
      last one that stopped; every value is a valid candidate of f. */
  ghost predicate Collapsed(files: Files, f: FileId, matches: seq<FilePositionMatch>, p: Line,
                            missed: map<FileId, FilePositionMatch>)
  {
    && missed.Keys <= {f}
    && (f in missed <==> LastStopped(files, matches, p).Some?)
    && (f in missed ==> missed[f] == LastStopped(files, matches, p).value)
    && (forall g :: g in missed ==> CandidateOk(files, f, missed[g]))
  }

  /** The map of closed candidates holds valid candidates of f only. */
  lemma CollapsedCandidate(files: Files, f: FileId, matches: seq<FilePositionMatch>, p: Line,
                           missed: map<FileId, FilePositionMatch>)
    requires forall m :: m in matches ==> CandidateOk(files, f, m)
    requires missed.Keys <= {f} && (f in missed <==> LastStopped(files, matches, p).Some?)
    requires f in missed ==> missed[f] == LastStopped(files, matches, p).value
    ensures forall g :: g in missed ==> CandidateOk(files, f, missed[g])
  {
    LastStoppedCandidate(files, f, matches, p);
  }

  /** The candidate the collapse keeps at line k is a valid candidate of f
      that cannot grow at either end. */
  lemma CollapsedOk(files: Files, f: FileId, k: int, matches: seq<FilePositionMatch>, order: seq<FilePositionMatch>)
    requires f in files && 0 <= k < |files[f]|
    requires forall m :: m in matches ==>
               CandidateOk(files, f, m) && Opens(files, f, m) && m.position.end.position + 1 == k
    requires var c := LastStopped(files, matches, Line(f, k, files[f][k]));
             order == (if c.Some? then [c.value] else [])
    ensures forall x :: x in order ==> CandidateOk(files, f, x) && Closes(files, f, x) && Opens(files, f, x)
  {
    var p := Line(f, k, files[f][k]);
    LastStoppedOk(files, matches, p);
    var c := LastStopped(files, matches, p);
    if c.Some? {
      var j :| 0 <= j < |matches| && matches[j] == c.value && !Extends(files, matches[j], p);
      assert matches[j] in matches;
    }
  }

  /** What one line of the older scan does to its state: the state before
      line k + 1 follows from the state before line k. */
  lemma ScanLineOk(files: Files, index: LineIndex, f: FileId, st: Groups, k: int, matches: seq<FilePositionMatch>,
                   r: Groups, log: seq<FilePositionMatch>, started: map<Line, FilePositionMatch>,
                   next: seq<FilePositionMatch>, keys: seq<Line>, missed: map<FileId, FilePositionMatch>, r': Groups,
                   order: seq<FilePositionMatch>)
    requires AtLine(files, index, f, st, k, matches, r, log) && k < |files[f]|
    requires Stepped(files, index, f, Line(f, k, files[f][k]), matches, started, next, keys)
    requires Collapsed(files, f, matches, Line(f, k, files[f][k]), missed)
    requires order == if f in missed then [missed[f]] else []
    requires GroupsOk(files, r', KeepAll) && Grows(r, r') && r' == FinalizeSeq(r, order, KeepAll)
    requires forall x :: x in order ==> Recorded(r', x, KeepAll)
    ensures AtLine(files, index, f, st, k + 1, next, r', log + order)
    ensures var c := LastStopped(files, matches, Line(f, k, files[f][k]));
            order == (if c.Some? then [c.value] else [])
  {
    var p := Line(f, k, files[f][k]);
    CollapsedOk(files, f, k, matches, order);
    LiveStep(files, index, f, k, p, matches, started, next, keys);
    LogStep(files, index, f, st, k, matches, r, log, k + 1, next, order, r');
  }

  /** Opening and advancing at line p, the older way: the fresh candidates
      for the occurrences of p's digest elsewhere (`started`), the next live
      list (the extended candidates, then the fresh ones not dropped, in the
      order of `keys`) and the collapsed map of closed candidates. */
  method Advance(files: Files, index: LineIndex, f: FileId, p: Line, matches: seq<FilePositionMatch>)
    returns (next: seq<FilePositionMatch>, missed: map<FileId, FilePositionMatch>,
             ghost started: map<Line, FilePositionMatch>, ghost keys: seq<Line>)
    requires IndexOk(files, index) && f in files
    requires p.file == f && p.position < |files[f]| && p.hash == files[f][p.position]
    requires forall m :: m in matches ==> CandidateOk(files, f, m)
    ensures Stepped(files, index, f, p, matches, started, next, keys)
    ensures Collapsed(files, f, matches, p, missed)
  {
    var opening := OpenCandidates(files, index, f, p);
    var extended, kept;
    assert forall i :: 0 <= i < |matches| ==> matches[i] in matches;
    extended, missed, kept := CloseOrExtend(files, f, matches, p, opening);
    next, keys := AppendValues(extended, kept);
    CollapsedCandidate(files, f, matches, p, missed);
    started := opening;
  }

  /** One line of the older scan of file f: open the fresh candidates,
      advance the live ones, and finalize the one closed candidate the
      collapse keeps, if any, which joins the log. */
  method ScanLine(files: Files, index: LineIndex, f: FileId, k: int, matches: seq<FilePositionMatch>, r: Groups,
                  ghost st: Groups, ghost log: seq<FilePositionMatch>)
    returns (matches': seq<FilePositionMatch>, r': Groups, ghost log': seq<FilePositionMatch>)
    requires AtLine(files, index, f, st, k, matches, r, log) && k < |files[f]|
    ensures AtLine(files, index, f, st, k + 1, matches', r', log')
    ensures var c := LastStopped(files, matches, Line(f, k, files[f][k]));
            log' == log + (if c.Some? then [c.value] else [])
  {
    var p := Line(f, k, files[f][k]);
    var next, missed, started, keys := Advance(files, index, f, p, matches);
    var r1, order := FinalizeAll(files, f, r, missed);
    ScanLineOk(files, index, f, st, k, matches, r, log, started, next, keys, missed, r1, order);
    matches', r', log' := next, r1, log + order;
  }

  /** The scan of one file f, the older way. The table stays well formed and
      grows; it is st with the candidates of `log` finalized in order, and
      each of them is a valid candidate of f that cannot grow at either end and is
      recorded. */
  method ScanFile(files: Files, index: LineIndex, f: FileId, st: Groups)
    returns (r: Groups, ghost log: seq<FilePositionMatch>)
    requires IndexOk(files, index) && f in files
    requires GroupsOk(files, st, KeepAll)
    ensures GroupsOk(files, r, KeepAll) && Grows(st, r)
    ensures TableOk(st) && r == FinalizeSeq(st, log, KeepAll)
    ensures forall x :: x in log ==>
              CandidateOk(files, f, x) && Closes(files, f, x) && Opens(files, f, x) && Recorded(r, x, KeepAll)
  {
    var matches: seq<FilePositionMatch> := [];
    GroupsOkTable(files, st, KeepAll);
    r, log := st, [];
    var k := 0;
    while k < |files[f]|
      invariant AtLine(files, index, f, st, k, matches, r, log)
      decreases |files[f]| - k
    {
      matches, r, log := ScanLine(files, index, f, k, matches, r, st, log);
      k := k + 1;
    }
    var r' := Flush(files, f, r, matches);
    forall x | x in matches
      ensures Closes(files, f, x) && Opens(files, f, x) && Recorded(r', x, KeepAll)
    {
      var t :| 0 <= t < |matches| && matches[t] == x;
    }
    LogStep(files, index, f, st, k, matches, r, log, k, matches, matches, r');
    r, log := r', log + matches;
  }

  /** The older scan after the files of `done`: the table is the empty one
      with the candidates of `log` finalized in order, and each of them is a
      valid candidate of a scanned file that cannot grow at either end and is recorded. */
  ghost predicate Detected(files: Files, done: set<FileId>, st: Groups, log: seq<FilePositionMatch>)
  {
    TableOk(NoGroups) && st == FinalizeSeq(NoGroups, log, KeepAll)
    && forall x :: x in log ==>
         x.position.file in done && CandidateOk(files, x.position.file, x)
         && Closes(files, x.position.file, x) && Opens(files, x.position.file, x) && Recorded(st, x, KeepAll)
  }

  /** Scanning one more file extends the log by that file's log. */
  lemma DetectStep(files: Files, done: set<FileId>, st: Groups, log: seq<FilePositionMatch>,
                   f: FileId, r: Groups, flog: seq<FilePositionMatch>)
    requires Detected(files, done, st, log)
    requires TableOk(st) && r == FinalizeSeq(st, flog, KeepAll) && Grows(st, r)
    requires forall x :: x in flog ==>
               CandidateOk(files, f, x) && Closes(files, f, x) && Opens(files, f, x) && Recorded(r, x, KeepAll)
    ensures Detected(files, done + {f}, r, log + flog)
  {
    FinalizeSeqConcat(NoGroups, log, flog, KeepAll);
    forall x | x in log + flog
      ensures x.position.file in done + {f} && CandidateOk(files, x.position.file, x)
              && Closes(files, x.position.file, x) && Opens(files, x.position.file, x) && Recorded(r, x, KeepAll)
    {
      if x in log {
        RecordedGrows(st, r, x, KeepAll);
      }
    }
  }

  /** Data.DetectDuplicates of cmd/mostcomm/main.go: every file is scanned,
      in the map's unspecified order. Every group found is well formed and no
      two groups have the same key; runs may repeat, as nothing guards
      against finalizing the same (start, end) twice. The groups are those
      made by finalizing the candidates of `log` in order; each of them is a
      valid candidate of its file that cannot grow at either end, and each is reported. */
  method DetectDuplicates(d: Data) returns (dups: seq<Duplicate>, ghost log: seq<FilePositionMatch>)
    requires d.Valid()
    ensures forall i :: 0 <= i < |dups| ==> GroupOk(d.files, dups[i], KeepAll)
    ensures forall i, i' :: 0 <= i < i' < |dups| ==>
              GroupOk(d.files, dups[i], KeepAll) && GroupOk(d.files, dups[i'], KeepAll)
              && GroupKey(d.files, dups[i]) != GroupKey(d.files, dups[i'])
    ensures TableOk(NoGroups) && dups == FinalizeSeq(NoGroups, log, KeepAll).dups
    ensures forall x :: x in log ==>
              CandidateOk(d.files, x.position.file, x)
              && Closes(d.files, x.position.file, x) && Opens(d.files, x.position.file, x)
    ensures forall x :: x in log ==> exists i :: 0 <= i < |dups| && x.position in dups[i].positions
  {
    var files, index := d.files, d.index;
    var st := NoGroups;
    NoGroupsOk(files, KeepAll);
    var rest := files.Keys;
    ghost var done: set<FileId> := {};
    log := [];
    while rest != {}
      invariant rest <= files.Keys
      invariant GroupsOk(files, st, KeepAll) && Detected(files, done, st, log)
      decreases |rest|
    {
      var f :| f in rest;
      var st', flog := ScanFile(files, index, f, st);
      DetectStep(files, done, st, log, f, st', flog);
      st, log, done := st', log + flog, done + {f};
      rest := rest - {f};
    }
    dups := st.dups;
    forall i, i' | 0 <= i < i' < |dups|
      ensures GroupOk(files, dups[i], KeepAll) && GroupOk(files, dups[i'], KeepAll)
              && GroupKey(files, dups[i]) != GroupKey(files, dups[i'])
    {
      GroupKeysDistinct(files, st, KeepAll, i, i');
    }
    forall x | x in log
      ensures exists i :: 0 <= i < |dups| && x.position in dups[i].positions
    {
      assert Recorded(st, x, KeepAll) && KeepAll(x);
    }
  }
}
