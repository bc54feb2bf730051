/** The content synthesizer: it builds a blob of an exact byte length from
    randomly drawn sentences of a fixed corpus, then hands the blob to a sink
    in one write. */
module Passages {
  import opened Common
  import opened Corpus
  import Sinks

  /** The separator appended to every drawn sentence. */
  const Space: byte := 0x20

  /** Sentence i of a corpus followed by one space: the candidate fragment
      before any cut. The specification below holds for any non-empty corpus
      of byte strings; the program's own is Sentences(). */
  function Piece(corpus: seq<seq<byte>>, i: nat): (p: seq<byte>)
    requires i < |corpus|
    ensures |p| == |corpus[i]| + 1 && p[|p| - 1] == Space
  {
    corpus[i] + [Space]
  }

  /** What the process's random source and buffers do, as an oracle. The k-th
      call of rand.Intn(n) yields intn(k), which the random source keeps
      below n, so every sequence of in-range draws is covered; the k-th
      append to a buffer fails iff appendFails(k).
      Each loop iteration of the synthesizer makes one draw and one append, so
      one cursor counts both. */
  datatype Oracle = Oracle(intn: nat -> nat, appendFails: nat -> bool)

  /** The corpus index drawn by call k: the oracle's value, which rand.Intn
      keeps in range; a value out of range, which the random source never
      yields, is read as the last index. */
  function Draw(corpus: seq<seq<byte>>, o: Oracle, k: nat): (i: nat)
    requires |corpus| > 0
    ensures i < |corpus|
    ensures o.intn(k) < |corpus| ==> i == o.intn(k)
  {
    if o.intn(k) < |corpus| then o.intn(k) else |corpus| - 1
  }

  /** The fragment appended by call k when r bytes are still missing: the
      drawn piece, cut to r bytes when it is longer. It is never empty and
      never longer than r. */
  function Fragment(corpus: seq<seq<byte>>, o: Oracle, k: nat, r: int): (f: seq<byte>)
    requires |corpus| > 0 && r > 0
    ensures 1 <= |f| <= r
  {
    var p := Piece(corpus, Draw(corpus, o, k));
    if |p| > r then p[..r] else p
  }

  /** A fragment is a prefix of the drawn piece, and the whole piece unless
      it was cut to exactly the r bytes still missing. */
  lemma FragmentOfPiece(corpus: seq<seq<byte>>, o: Oracle, k: nat, r: int)
    requires |corpus| > 0 && r > 0
    ensures var f := Fragment(corpus, o, k, r);
      f <= Piece(corpus, Draw(corpus, o, k)) &&
      (f == Piece(corpus, Draw(corpus, o, k)) || |f| == r)
  {
  }

  /** The concatenation of a list of fragments. */
  function Flatten(fs: seq<seq<byte>>): seq<byte>
  {
    if fs == [] then [] else fs[0] + Flatten(fs[1..])
  }

  /** The fragments appended, one per loop iteration and draw, when size
      bytes are wanted and the first draw is call k. A non-positive size
      draws nothing; each fragment adds at least one byte, so there are at
      most size of them. */
  function Fragments(corpus: seq<seq<byte>>, size: int, o: Oracle, k: nat): (fs: seq<seq<byte>>)
    requires |corpus| > 0
    ensures |fs| <= if size <= 0 then 0 else size
    ensures fs == [] <==> size <= 0
    decreases size
  {
    if size <= 0 then []
    else
      var f := Fragment(corpus, o, k, size);
      [f] + Fragments(corpus, size - |f|, o, k + 1)
  }

  /** Together the fragments are exactly the wanted number of bytes. */
  lemma {:induction false} FragmentsLength(corpus: seq<seq<byte>>, size: int, o: Oracle, k: nat)
    requires |corpus| > 0
    ensures |Flatten(Fragments(corpus, size, o, k))| == if size <= 0 then 0 else size
    decreases size
  {
    if size > 0 {
      var f := Fragment(corpus, o, k, size);
      var rest := Fragments(corpus, size - |f|, o, k + 1);
      assert ([f] + rest)[1..] == rest;
      FragmentsLength(corpus, size - |f|, o, k + 1);
    }
  }

  /** Fragment j of fs, whose first draw is call k, is a non-empty prefix of
      the piece drawn for it, and the whole piece unless it is the last. */
  ghost predicate FragmentFits(corpus: seq<seq<byte>>, fs: seq<seq<byte>>, o: Oracle, k: nat, j: nat)
    requires |corpus| > 0 && j < |fs|
  {
    1 <= |fs[j]| && fs[j] <= Piece(corpus, Draw(corpus, o, k + j)) &&
    (j < |fs| - 1 ==> fs[j] == Piece(corpus, Draw(corpus, o, k + j)))
  }

  /** Every fragment is a prefix of the piece drawn for it; every fragment
      but the last is that whole piece, so only the last can be cut. */
  lemma {:induction false} FragmentsShape(corpus: seq<seq<byte>>, size: int, o: Oracle, k: nat, j: nat)
    requires |corpus| > 0 && j < |Fragments(corpus, size, o, k)|
    ensures FragmentFits(corpus, Fragments(corpus, size, o, k), o, k, j)
  {
    var f := Fragment(corpus, o, k, size);
    var rest := Fragments(corpus, size - |f|, o, k + 1);
    var fs := Fragments(corpus, size, o, k);
    assert fs == [f] + rest;
    if j == 0 {
      if 0 < |fs| - 1 {
        assert rest != [];
      }
    } else {
      FragmentsShape(corpus, size - |f|, o, k + 1, j - 1);
      assert fs[j] == rest[j - 1];
      assert k + 1 + (j - 1) == k + j;
    }
  }

  /** The outcome of one synthesis: the error, if an append failed; the blob
      built otherwise; and the cursor after the draws it made. */
  datatype Synthesis = Synthesis(err: Option<Error>, blob: seq<byte>, next: nat)

  /** What one call of the synthesizer does for a wanted size, its first draw
      being call k: while bytes are missing it draws a piece, cuts it to the
      bytes still missing and appends it; the first failing append ends the
      synthesis with that error, after its iteration's draw. */
  function Synth(corpus: seq<seq<byte>>, size: int, o: Oracle, k: nat): (s: Synthesis)
    requires |corpus| > 0
    ensures k <= s.next
    ensures s.err.Some? ==> s.err == Some(AppendFailed) && s.blob == [] && k < s.next
    ensures s.err.None? ==> |s.blob| == if size <= 0 then 0 else size
    decreases size
  {
    if size <= 0 then Synthesis(None, [], k)
    else if o.appendFails(k) then Synthesis(Some(AppendFailed), [], k + 1)
    else
      var f := Fragment(corpus, o, k, size);
      var t := Synth(corpus, size - |f|, o, k + 1);
      if t.err.Some? then t else Synthesis(None, f + t.blob, t.next)
  }

  /** One iteration of the synthesis, for a positive size: a failing append
      ends it; otherwise the drawn fragment comes first and the synthesis of
      the bytes still missing follows. */
  lemma SynthStep(corpus: seq<seq<byte>>, size: int, o: Oracle, k: nat, f: seq<byte>)
    requires |corpus| > 0 && size > 0 && f == Fragment(corpus, o, k, size)
    ensures var t := Synth(corpus, size - |f|, o, k + 1);
      Synth(corpus, size, o, k) ==
        if o.appendFails(k) then Synthesis(Some(AppendFailed), [], k + 1)
        else if t.err.Some? then t
        else Synthesis(None, f + t.blob, t.next)
  {
  }

  /** One draw of the loop: a random sentence with its trailing space, cut
      to the r bytes still missing when it is longer. */
  method NextFragment(corpus: seq<seq<byte>>, o: Oracle, k: nat, r: int) returns (p: seq<byte>)
    requires |corpus| > 0 && r > 0
    ensures p == Fragment(corpus, o, k, r)
    ensures 1 <= |p| <= r
  {
    var i := o.intn(k);
    if i >= |corpus| {
      i := |corpus| - 1;
    }
    p := corpus[i] + [Space];
    if |p| > r {
      p := p[..r];
    }
  }

  /** The outcome of a synthesis whose first bytes, buf, are already in the
      buffer and whose remaining draws and appends yield t. */
  function Continue(t: Synthesis, buf: seq<byte>): Synthesis
  {
    if t.err.Some? then t else Synthesis(None, buf + t.blob, t.next)
  }

  /** Nothing in the buffer yet: the outcome is that of the whole synthesis. */
  lemma ContinueEmpty(t: Synthesis)
    ensures Continue(t, []) == t
  {
    assert [] + t.blob == t.blob;
  }

  /** A successful append moves one fragment from the synthesis still to
      come into the buffer and leaves the outcome as it was. */
  lemma ContinueAppend(corpus: seq<seq<byte>>, size: int, o: Oracle, k: nat, p: seq<byte>, buf: seq<byte>)
    requires |corpus| > 0 && size > 0 && !o.appendFails(k) && p == Fragment(corpus, o, k, size)
    ensures Continue(Synth(corpus, size, o, k), buf) == Continue(Synth(corpus, size - |p|, o, k + 1), buf + p)
  {
    var t := Synth(corpus, size - |p|, o, k + 1);
    SynthStep(corpus, size, o, k, p);
    assert buf + (p + t.blob) == (buf + p) + t.blob;
  }

  /** A failing append ends the synthesis with the error and no blob,
      whatever the buffer already held. */
  lemma ContinueFail(corpus: seq<seq<byte>>, size: int, o: Oracle, k: nat, buf: seq<byte>)
    requires |corpus| > 0 && size > 0 && o.appendFails(k)
    ensures Continue(Synth(corpus, size, o, k), buf) == Synthesis(Some(AppendFailed), [], k + 1)
  {
  }

  /** Once the buffer is full the outcome is the buffer itself. */
  lemma ContinueDone(corpus: seq<seq<byte>>, size: int, o: Oracle, k: nat, buf: seq<byte>)
    requires |corpus| > 0 && size <= 0
    ensures Continue(Synth(corpus, size, o, k), buf) == Synthesis(None, buf, k)
  {
    assert buf + [] == buf;
  }

  /** The synthesis as the loop performs it: buf holds the bytes appended so
      far, size the bytes still missing, and k is the next draw. This is the
      accumulator form of Synth: FillBuffer's loop invariant is stated with
      it, because one unfolding of Fill is exactly one loop iteration, which
      keeps the loop's proof small; FillIsSynth shows the two agree. */
  function Fill(corpus: seq<seq<byte>>, size: int, o: Oracle, k: nat, buf: seq<byte>): Synthesis
    requires |corpus| > 0
    decreases size
  {
    if size <= 0 then Synthesis(None, buf, k)
    else if o.appendFails(k) then Synthesis(Some(AppendFailed), [], k + 1)
    else
      var f := Fragment(corpus, o, k, size);
      Fill(corpus, size - |f|, o, k + 1, buf + f)
  }

  /** The loop's way of building the blob ends as the synthesis does, with
      the bytes already in the buffer in front. */
  lemma {:induction false} FillIsSynth(corpus: seq<seq<byte>>, size: int, o: Oracle, k: nat, buf: seq<byte>)
    requires |corpus| > 0
    ensures Fill(corpus, size, o, k, buf) == Continue(Synth(corpus, size, o, k), buf)
    decreases size
  {
    if size <= 0 {
      ContinueDone(corpus, size, o, k, buf);
    } else if o.appendFails(k) {
      ContinueFail(corpus, size, o, k, buf);
    } else {
      var f := Fragment(corpus, o, k, size);
      FillIsSynth(corpus, size - |f|, o, k + 1, buf + f);
      ContinueAppend(corpus, size, o, k, f, buf);
    }
  }

  /** The buffer-building loop: it draws, cuts and appends until the buffer
      holds desiredSize bytes, and stops at the first failing append. */
  method FillBuffer(corpus: seq<seq<byte>>, desiredSize: int64, o: Oracle, pos: nat) returns (err: Option<Error>, buf: seq<byte>, next: nat)
    requires |corpus| > 0
    ensures Synthesis(err, buf, next) == Fill(corpus, desiredSize, o, pos, [])
  {
    var currentSize := 0;
    buf, next := [], pos;
    while currentSize < desiredSize
      invariant 0 <= currentSize
      invariant currentSize == |buf|
      invariant currentSize == 0 || currentSize <= desiredSize
      invariant Fill(corpus, desiredSize - currentSize, o, next, buf) == Fill(corpus, desiredSize, o, pos, [])
      decreases desiredSize - currentSize
    {
      var p := NextFragment(corpus, o, next, desiredSize - currentSize);
      if o.appendFails(next) {
        err, buf, next := Some(AppendFailed), [], next + 1;
        return;
      }
      buf := buf + p;
      currentSize := currentSize + |p|;
      next := next + 1;
    }
    err := None;
  }

  /** The synthesizer: builds the blob and, unless an append failed, makes
      exactly one write of it to the sink, whose result it ignores. */
  method WritePassages(desiredSize: int64, writer: Sinks.Sink, o: Oracle, pos: nat) returns (err: Option<Error>, next: nat)
    modifies writer
    ensures |Sentences()| > 0
    ensures var s := Synth(Sentences(), desiredSize, o, pos);
      err == s.err && next == s.next &&
      writer.records == if s.err.None? then old(writer.records) + [s.blob] else old(writer.records)
  {
    CorpusSize();
    var buf;
    err, buf, next := FillBuffer(Sentences(), desiredSize, o, pos);
    FillIsSynth(Sentences(), desiredSize, o, pos, []);
    ContinueEmpty(Synth(Sentences(), desiredSize, o, pos));
    if err.Some? {
      return;
    }
    var _, _ := writer.WriteString(buf);
  }

  /** A non-positive size makes no draw and yields the empty blob, which is
      still written. */
  lemma NoDrawForNonPositiveSize(corpus: seq<seq<byte>>, size: int, o: Oracle, k: nat)
    requires |corpus| > 0 && size <= 0
    ensures Synth(corpus, size, o, k) == Synthesis(None, [], k)
  {
  }

  /** A successful synthesis yields the fragments concatenated and makes
      one draw per fragment; with Synth's own contract and FragmentsLength,
      that is exactly the wanted number of bytes from at most size draws. */
  lemma {:induction false} SynthIsFragments(corpus: seq<seq<byte>>, size: int, o: Oracle, k: nat)
    requires |corpus| > 0
    ensures var s := Synth(corpus, size, o, k);
      s.err.None? ==>
        s.blob == Flatten(Fragments(corpus, size, o, k)) &&
        s.next - k == |Fragments(corpus, size, o, k)|
    decreases size
  {
    if size > 0 && !o.appendFails(k) {
      var f := Fragment(corpus, o, k, size);
      var rest := Fragments(corpus, size - |f|, o, k + 1);
      assert Fragments(corpus, size, o, k) == [f] + rest;
      assert ([f] + rest)[1..] == rest;
      SynthIsFragments(corpus, size - |f|, o, k + 1);
    }
  }

  /** Synthesis fails exactly when one of the appends of its fragments
      fails. */
  lemma {:induction false} SynthFailsIffAppendFails(corpus: seq<seq<byte>>, size: int, o: Oracle, k: nat)
    requires |corpus| > 0
    ensures Synth(corpus, size, o, k).err.Some? <==>
      exists a | k <= a < k + |Fragments(corpus, size, o, k)| :: o.appendFails(a)
    decreases size
  {
    if size > 0 {
      var f := Fragment(corpus, o, k, size);
      var rest := Fragments(corpus, size - |f|, o, k + 1);
      assert |Fragments(corpus, size, o, k)| == 1 + |rest|;
      if o.appendFails(k) {
        assert k <= k < k + 1 + |rest|;
      } else {
        SynthFailsIffAppendFails(corpus, size - |f|, o, k + 1);
        if Synth(corpus, size, o, k).err.None? {
          forall a | k <= a < k + 1 + |rest|
            ensures !o.appendFails(a)
          {
            if a > k {
              assert k + 1 <= a < k + 1 + |rest|;
            }
          }
        }
      }
    }
  }

  /** A failing synthesis stops at its first failing append: that append's
      draw is the last one it makes, and every earlier append succeeded. */
  lemma {:induction false} SynthStopsAtFirstFailure(corpus: seq<seq<byte>>, size: int, o: Oracle, k: nat)
    requires |corpus| > 0
    ensures var s := Synth(corpus, size, o, k);
      s.err.Some? ==> o.appendFails(s.next - 1) && forall a | k <= a < s.next - 1 :: !o.appendFails(a)
    decreases size
  {
    if size > 0 && !o.appendFails(k) {
      var f := Fragment(corpus, o, k, size);
      SynthStopsAtFirstFailure(corpus, size - |f|, o, k + 1);
    }
  }
}
