/** What each thread of the PCM fifo gets done, from whatever state the others are in. */
module FifoProgress {
  import opened FifoRing
  import opened FifoThreads

  /** The same step a number of times. */
  function Times(s: State, step: Step, n: nat): (t: State)
    requires |s.ring| > 0
    ensures |t.ring| == |s.ring|
  {
    if n == 0 then s else Next(Times(s, step, n - 1), step)
  }

  lemma InvRing(s: State)
    requires Inv(s)
    ensures |s.ring| > 0
  {
  }

  // ----- the writer

  /** The writer takes as many samples as there are, or as there is room for behind the oldest sample of the bak buffer,
      one sample of the ring being left over. */
  lemma WriterBegins(s: State, src: seq<int>)
    requires Inv(s) && s.writer.WriterIdle?
    ensures |s.hist| - s.bakPos < |s.ring|
    ensures var n := Min(|src|, |s.ring| - 1 - (|s.hist| - s.bakPos));
      Next(s, WriterTakes(src)) == if n == 0 then s else s.(writer := Writing(s.w, src[..n], 0))
  {
    FreeIs(s.bakPos, |s.hist|, |s.ring|);
    hide Mask, Used;
  }

  lemma WriterCopiesOne(s: State)
    requires Inv(s) && s.writer.Writing? && s.writer.copied < |s.writer.data|
    ensures var t := Next(s, WriterCopies);
      Inv(t) && t.(ring := s.ring, writer := s.writer) == s && t.writer == s.writer.(copied := s.writer.copied + 1)
  {
    WriterCopiesOk(s);
    InvRing(s);
    hide Inv, Mask;
  }

  lemma {:induction false} WriterCopiesMore(s: State, k: nat)
    requires Inv(s) && s.writer.Writing? && s.writer.copied + k <= |s.writer.data|
    ensures |s.ring| > 0
    ensures var t := Times(s, WriterCopies, k);
      Inv(t) && t.(ring := s.ring, writer := s.writer) == s && t.writer == s.writer.(copied := s.writer.copied + k)
  {
    InvRing(s);
    hide Inv, Next;
    if k > 0 {
      WriterCopiesMore(s, k - 1);
      WriterCopiesOne(Times(s, WriterCopies, k - 1));
    }
  }

  /** Once it has begun it can go on to the end, and then all that it took has been written, and nothing else is
      different but the ring. */
  lemma WriterFinishes(s: State)
    requires Inv(s) && s.writer.Writing?
    ensures |s.ring| > 0 && s.writer.copied <= |s.writer.data|
    ensures var t := Next(Times(s, WriterCopies, |s.writer.data| - s.writer.copied), WriterPublishes);
      Inv(t) && t.hist == s.hist + s.writer.data && t.writer.WriterIdle?
      && t.(ring := s.ring, w := s.w, hist := s.hist, writer := s.writer) == s
  {
    InvRing(s);
    assert s.writer.copied <= |s.writer.data|;
    WriterCopiesMore(s, |s.writer.data| - s.writer.copied);
    var u := Times(s, WriterCopies, |s.writer.data| - s.writer.copied);
    WriterPublishesOk(u);
    hide Inv, Mask, Times;
  }

  // ----- the reader

  /** The reader takes as many samples as it asks for, or as have been written and not been read. */
  lemma ReaderBegins(s: State, n: nat)
    requires Inv(s) && s.reader.ReaderIdle?
    ensures |s.ring| > 0 && |s.out| <= |s.hist|
    ensures var b := Min(n, |s.hist| - |s.out|);
      Next(s, ReaderTakes(n)) == if b == 0 then s else s.(reader := Reading(s.r, b, []))
  {
    UsedIs(|s.out|, |s.hist|, |s.ring|);
    hide Mask, Free;
  }

  lemma ReaderCopiesOne(s: State)
    requires Inv(s) && s.reader.Reading? && |s.reader.got| < s.reader.n
    ensures var t := Next(s, ReaderCopies);
      Inv(t) && t.(reader := s.reader) == s && t.reader.Reading? && t.reader.n == s.reader.n
      && |t.reader.got| == |s.reader.got| + 1
  {
    ReaderCopiesOk(s);
    InvRing(s);
    hide Inv, Mask;
  }

  lemma {:induction false} ReaderCopiesMore(s: State, k: nat)
    requires Inv(s) && s.reader.Reading? && |s.reader.got| + k <= s.reader.n
    ensures |s.ring| > 0
    ensures var t := Times(s, ReaderCopies, k);
      Inv(t) && t.(reader := s.reader) == s && t.reader.Reading? && t.reader.n == s.reader.n
      && |t.reader.got| == |s.reader.got| + k
  {
    InvRing(s);
    hide Inv, Next;
    if k > 0 {
      ReaderCopiesMore(s, k - 1);
      ReaderCopiesOne(Times(s, ReaderCopies, k - 1));
    }
  }

  function Max(a: int, b: int): int { if a >= b then a else b }

  lemma PublishedIs(s: State)
    requires Inv(s) && s.reader.Reading? && |s.reader.got| == s.reader.n
    ensures var t := Next(s, ReaderPublishes);
      t.out == s.out + s.reader.got && t.reader.ReaderIdle? && t.bakPos == Max(s.bakPos, |t.out| - s.m)
      && t.(k := s.k, r := s.r, out := s.out, bakPos := s.bakPos, reader := s.reader) == s
  {
    MoveReadOk(s);
    SurplusIs(MoveRead(s));
    hide Mask, Surplus;
  }

  /** Once it has begun it can go on to the end, and then it has read the next samples that were written, and of those
      behind it as many are left as there were, but no more than m. */
  lemma ReaderFinishes(s: State)
    requires Inv(s) && s.reader.Reading?
    ensures |s.ring| > 0 && |s.reader.got| <= s.reader.n && |s.out| + s.reader.n <= |s.hist|
    ensures var t := Next(Times(s, ReaderCopies, s.reader.n - |s.reader.got|), ReaderPublishes);
      Inv(t) && t.out == s.hist[..|s.out| + s.reader.n] && t.reader.ReaderIdle?
      && t.bakPos == Max(s.bakPos, |s.out| + s.reader.n - s.m)
      && t.(k := s.k, r := s.r, out := s.out, bakPos := s.bakPos, reader := s.reader) == s
  {
    hide *;
    InvRing(s);
    ReaderBounds(s);
    var k := s.reader.n - |s.reader.got|;
    ReaderCopiesMore(s, k);
    var u := Times(s, ReaderCopies, k);
    PublishedIs(u);
    PublishedOk(u);
    OutIsPrefix(Next(u, ReaderPublishes));
  }

  lemma ReaderBounds(s: State)
    requires Inv(s) && s.reader.Reading?
    ensures |s.reader.got| <= s.reader.n && |s.out| + s.reader.n <= |s.hist|
  {
  }

  lemma PublishedOk(s: State)
    requires Inv(s)
    ensures |s.ring| > 0 && Inv(Next(s, ReaderPublishes))
  {
    InvRing(s);
    ReaderPublishesOk(s);
    hide Inv, Next;
  }

  lemma OutIsPrefix(s: State)
    requires Inv(s)
    ensures |s.out| <= |s.hist| && s.out == s.hist[..|s.out|]
  {
  }

  /** Taken apart in two or in three, the end of a read comes to the same when nobody else steps in between. */
  lemma TakenApart(s: State)
    requires Inv(s) && s.reader.Reading? && |s.reader.got| == s.reader.n
    ensures |s.ring| > 0 && var t := Next(s, ReaderMoves);
      |t.ring| > 0 && t.reader.Moved? && Next(t, ReaderCuts) == Next(s, ReaderPublishes)
      && Next(Next(t, ReaderMeasures), ReaderTrims) == Next(s, ReaderPublishes)
  {
    hide Mask, Used;
  }

  // ----- the bak reader

  lemma BakBegins(s: State, n: nat)
    requires Inv(s) && s.bak.BakIdle?
    ensures |s.ring| > 0 && s.bakPos <= |s.out|
    ensures var b := Min(n, |s.out| - s.bakPos);
      Next(s, BakTakes(n)) == if b == 0 then s else s.(bak := BakReading(b))
  {
    UsedIs(s.bakPos, |s.out|, |s.ring|);
    hide Mask, Free;
  }

  lemma BakFinishes(s: State)
    requires Inv(s) && s.bak.BakReading?
    ensures var t := Next(s, BakPublishes);
      Inv(t) && t.bakPos == s.bakPos + s.bak.n && t.bak.BakIdle? && t.(k := s.k, bakPos := s.bakPos, bak := s.bak) == s
  {
    BakPublishesOk(s);
    InvRing(s);
    hide Inv, Mask;
  }
}
