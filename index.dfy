/** The content index: every line of every file, bucketed by its digest.
    Data.Lines in the source is a map from digest to the lines carrying it,
    in the order Data.Add appended them. */
module Index {
  import opened Reader

  type LineIndex = map<Digest, seq<Line>>

  /** A missing bucket reads as empty, as a nil slice does. */
  function Bucket(index: LineIndex, h: Digest): seq<Line>
  {
    if h in index then index[h] else []
  }

  /** The lines of `batch` whose digest is h, in batch order. */
  function Matching(batch: seq<Line>, h: Digest): seq<Line>
  {
    if batch == [] then []
    else
      var l := batch[|batch| - 1];
      Matching(batch[..|batch| - 1], h) + (if l.hash == h then [l] else [])
  }

  /** The index after Data.Add has appended every line of `batch`, in order,
      to the bucket of its own digest. */
  function AddAll(index: LineIndex, batch: seq<Line>): LineIndex
  {
    if batch == [] then index
    else
      var m := AddAll(index, batch[..|batch| - 1]);
      var l := batch[|batch| - 1];
      m[l.hash := Bucket(m, l.hash) + [l]]
  }

  /** Add appends to each bucket exactly the batch's lines of that digest,
      in order, and leaves every other bucket as it was. */
  lemma {:induction false} AddAllBucket(index: LineIndex, batch: seq<Line>, h: Digest)
    ensures Bucket(AddAll(index, batch), h) == Bucket(index, h) + Matching(batch, h)
  {
    if batch != [] {
      AddAllBucket(index, batch[..|batch| - 1], h);
    }
  }

  /** Adding two batches one after the other equals adding them as one. */
  lemma {:induction false} AddAllConcat(index: LineIndex, a: seq<Line>, c: seq<Line>)
    ensures AddAll(AddAll(index, a), c) == AddAll(index, a + c)
  {
    if c == [] {
      assert a + c == a;
    } else {
      AddAllConcat(index, a, c[..|c| - 1]);
      assert (a + c)[..|a + c| - 1] == a + c[..|c| - 1];
      assert (a + c)[|a + c| - 1] == c[|c| - 1];
    }
  }

  /** A line is among the matching ones exactly when it is in the batch and
      carries the digest. */
  lemma {:induction false} MatchingMember(batch: seq<Line>, h: Digest, x: Line)
    ensures x in Matching(batch, h) <==> x in batch && x.hash == h
  {
    if batch != [] {
      MatchingMember(batch[..|batch| - 1], h, x);
      assert batch == batch[..|batch| - 1] + [batch[|batch| - 1]];
    }
  }

  /** Line l is the line at its own place in the corpus. */
  predicate InCorpus(files: map<FileId, seq<Digest>>, l: Line)
  {
    l.file in files && l.position < |files[l.file]| && files[l.file][l.position] == l.hash
  }

  /** The index is exactly the corpus's lines: every bucket entry is a real
      line with that bucket's digest, and every line of every file is in the
      bucket of its digest. This is what the ingestion barrier guarantees to
      the detector. */
  predicate IndexOk(files: map<FileId, seq<Digest>>, index: LineIndex)
  {
    (forall h, j :: h in index && 0 <= j < |index[h]| ==>
      index[h][j].hash == h && InCorpus(files, index[h][j]))
    && (forall f, k :: f in files && 0 <= k < |files[f]| ==>
      Line(f, k, files[f][k]) in Bucket(index, files[f][k]))
  }

  /** An entry of a bucket of an exact index is a real line with the
      bucket's digest. */
  lemma BucketEntry(files: map<FileId, seq<Digest>>, index: LineIndex, h: Digest, bucket: seq<Line>, j: int)
    requires IndexOk(files, index) && bucket == Bucket(index, h) && 0 <= j < |bucket|
    ensures bucket[j].hash == h && InCorpus(files, bucket[j])
  {
  }

  /** Reading one more file (one not read before) and adding its lines keeps
      the index exact. */
  lemma AddFileKeepsIndexOk(files: map<FileId, seq<Digest>>, index: LineIndex,
                            name: FileId, ds: seq<Digest>)
    requires IndexOk(files, index) && name !in files
    ensures IndexOk(files[name := ds], AddAll(index, LinesOf(name, ds)))
  {
    var files': map<FileId, seq<Digest>> := files[name := ds];
    var lines: seq<Line> := LinesOf(name, ds);
    var index': LineIndex := AddAll(index, lines);
    forall h: Digest, j: int | h in index' && 0 <= j < |index'[h]|
      ensures index'[h][j].hash == h && InCorpus(files', index'[h][j])
    {
      AddAllBucket(index, lines, h);
      assert index'[h] == Bucket(index', h);
      var x := index'[h][j];
      if j < |Bucket(index, h)| {
        assert x == index[h][j];
      } else {
        assert x in Matching(lines, h);
        MatchingMember(lines, h, x);
      }
    }
    forall f: FileId, k: int | f in files' && 0 <= k < |files'[f]|
      ensures Line(f, k, files'[f][k]) in Bucket(index', files'[f][k])
    {
      var h := files'[f][k];
      AddAllBucket(index, lines, h);
      if f == name {
        assert lines[k] == Line(f, k, h);
        MatchingMember(lines, h, Line(f, k, h));
      }
    }
  }
}
