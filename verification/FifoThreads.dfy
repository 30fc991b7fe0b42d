/** The PCM fifo under its three threads: a writer, a reader and a reader of the bak buffer. Each takes the indices,
    copies sample by sample and only then moves its index, and the steps of the three interleave freely. */
module FifoThreads {
  import opened FifoRing

  datatype Writer = WriterIdle | Writing(at: nat, data: seq<int>, copied: nat)

  datatype Reader =
    | ReaderIdle
    | Reading(at: nat, n: nat, got: seq<int>)
    | Moved              // has moved r and not looked at what lies behind
    | Trimming(d: nat)   // has found that k is to move by d

  datatype BakReader = BakIdle | BakReading(n: nat)

  /** The indices and the ring as the code has them, and the unbounded positions they stand for. */
  datatype State = State(ring: seq<int>, m: nat, k: nat, r: nat, w: nat,
                         writer: Writer, reader: Reader, bak: BakReader,
                         hist: seq<int>, out: seq<int>, bakPos: nat)

  datatype Step =
    | WriterTakes(src: seq<int>)   // takes k and w, and decides how many samples to write
    | WriterCopies                 // copies one sample
    | WriterPublishes              // moves w
    | ReaderTakes(n: nat)          // takes r and w
    | ReaderCopies
    | ReaderPublishes              // moves r, and k with it when too much lies behind
    | ReaderMoves                  // the same in two steps: moves r
    | ReaderCuts                   // moves k when too much lies behind
    | ReaderMeasures               // the second of them in two steps: looks at k and r
    | ReaderTrims                  // moves k by what it has found
    | BakTakes(n: nat)             // takes k and r
    | BakPublishes                 // moves k

  function Min(a: nat, b: nat): nat { if a <= b then a else b }

  /** One step; a thread that is not at that step stays where it is. */
  function Next(s: State, step: Step): State
    requires |s.ring| > 0
  {
    var size := |s.ring|;
    match step
    case WriterTakes(src) =>
      var n := Min(|src|, Free(s.k, s.w, size));
      if s.writer.WriterIdle? && n > 0 then s.(writer := Writing(s.w, src[..n], 0)) else s
    case WriterCopies =>
      if s.writer.Writing? && s.writer.copied < |s.writer.data| then
        var cell := Mask(s.writer.at + s.writer.copied, size);
        s.(ring := s.ring[cell := s.writer.data[s.writer.copied]], writer := s.writer.(copied := s.writer.copied + 1))
      else s
    case WriterPublishes =>
      if s.writer.Writing? && s.writer.copied == |s.writer.data| then
        s.(w := Mask(s.w + |s.writer.data|, size), hist := s.hist + s.writer.data, writer := WriterIdle)
      else s
    case ReaderTakes(n) =>
      var b := Min(n, Used(s.r, s.w, size));
      if s.reader.ReaderIdle? && b > 0 then s.(reader := Reading(s.r, b, [])) else s
    case ReaderCopies =>
      if s.reader.Reading? && |s.reader.got| < s.reader.n then
        var cell := Mask(s.reader.at + |s.reader.got|, size);
        s.(reader := s.reader.(got := s.reader.got + [s.ring[cell]]))
      else s
    case ReaderPublishes =>
      if s.reader.Reading? && |s.reader.got| == s.reader.n then Trim(MoveRead(s)) else s
    case ReaderMoves =>
      if s.reader.Reading? && |s.reader.got| == s.reader.n then MoveRead(s) else s
    case ReaderCuts =>
      if s.reader.Moved? then Trim(s) else s
    case ReaderMeasures =>
      if s.reader.Moved? then s.(reader := Trimming(Surplus(s))) else s
    case ReaderTrims =>
      if s.reader.Trimming? then ForwardBak(s, s.reader.d) else s
    case BakTakes(n) =>
      var b := Min(n, Used(s.k, s.r, size));
      if s.bak.BakIdle? && b > 0 then s.(bak := BakReading(b)) else s
    case BakPublishes =>
      if s.bak.BakReading? then
        s.(k := Mask(s.k + s.bak.n, size), bakPos := s.bakPos + s.bak.n, bak := BakIdle)
      else s
  }

  /** The first half of what the reader does at the end: its own index moves. */
  function MoveRead(s: State): State
    requires |s.ring| > 0 && s.reader.Reading?
  {
    s.(r := Mask(s.r + s.reader.n, |s.ring|), out := s.out + s.reader.got, reader := Moved)
  }

  /** How many samples more than m lie behind the read index. */
  function Surplus(s: State): nat
    requires |s.ring| > 0
  {
    var behind := Used(s.k, s.r, |s.ring|);
    if behind > s.m then behind - s.m else 0
  }

  /** The bak index moves for the reader, which is done then. */
  function ForwardBak(s: State, d: nat): State
    requires |s.ring| > 0
  {
    if d == 0 then s.(reader := ReaderIdle)
    else s.(k := Mask(s.k + d, |s.ring|), bakPos := s.bakPos + d, reader := ReaderIdle)
  }

  /** The second half: no more than m samples stay behind it. */
  function Trim(s: State): State
    requires |s.ring| > 0
  {
    ForwardBak(s, Surplus(s))
  }

  function Run(s: State, steps: seq<Step>): State
    requires |s.ring| > 0
    ensures |Run(s, steps).ring| == |s.ring| && Run(s, steps).m == s.m
    decreases |steps|
  {
    if steps == [] then s else Run(Next(s, steps[0]), steps[1..])
  }

  // ----- the invariant

  /** bak <= read <= written <= bak + size - 1, and the indices stand for the positions. */
  ghost predicate Indices(s: State) {
    var size := |s.ring|;
    && 0 < size && s.m < size
    && s.bakPos <= |s.out| <= |s.hist| < s.bakPos + size
    && s.k == Mask(s.bakPos, size) && s.r == Mask(|s.out|, size) && s.w == Mask(|s.hist|, size)
  }

  ghost predicate Inv(s: State) {
    && Indices(s)
    && Holds(s.ring, s.hist, s.bakPos, |s.hist|)
    && s.out == s.hist[..|s.out|]
    && WriterOk(s) && ReaderOk(s) && BakOk(s)
  }

  /** What the writer is going to publish fits, and what it has copied is in place. */
  ghost predicate WriterOk(s: State) {
    s.writer.Writing? ==>
      && s.writer.at == s.w && s.writer.copied <= |s.writer.data| && |s.ring| > 0
      && |s.hist| + |s.writer.data| < s.bakPos + |s.ring|
      && Holds(s.ring, s.hist + s.writer.data, |s.hist|, |s.hist| + s.writer.copied)
  }

  /** What the reader is going to publish is there, what it has copied is what was written, and what it is going to
      trim lies behind it. */
  ghost predicate ReaderOk(s: State) {
    match s.reader
    case ReaderIdle => |s.out| - s.bakPos <= s.m
    case Reading(at, n, got) =>
      && |s.out| - s.bakPos <= s.m && at == s.r && |got| <= n && |s.out| + n <= |s.hist|
      && got == s.hist[|s.out|..|s.out| + |got|]
    case Moved => true
    case Trimming(d) =>
      && s.bakPos + d <= |s.out| <= s.bakPos + s.m + d
      && (d > 0 ==> s.bak.BakIdle? && s.m + 1 != |s.ring|)
  }

  /** However stale it is, what the bak reader is going to publish never passes the read position. */
  ghost predicate BakOk(s: State) {
    s.bak.BakReading? ==> s.bak.n <= s.m && s.bakPos + s.bak.n <= |s.out|
  }

  /** What makes a step safe when the reader's last step is taken apart: the bak reader keeps to m samples while the
      reader has not trimmed, and keeps out while it knows how much it is going to trim. A ring that leaves no room
      for more than m samples is safe in any case. */
  predicate Careful(s: State, step: Step) {
    s.m + 1 == |s.ring| ||
    match step
    case BakTakes(n) => (s.reader.Moved? ==> n <= s.m) && (s.reader.Trimming? ==> n == 0)
    case ReaderMeasures => s.bak.BakIdle?
    case _ => true
  }

  lemma WriterTakesOk(s: State, src: seq<int>)
    requires Inv(s)
    ensures Inv(Next(s, WriterTakes(src)))
  {
    FreeIs(s.bakPos, |s.hist|, |s.ring|);
    hide Mask, Used;
  }

  lemma WriterCopiesOk(s: State)
    requires Inv(s)
    ensures Inv(Next(s, WriterCopies))
  {
    if s.writer.Writing? && s.writer.copied < |s.writer.data| {
      var p, data := |s.hist| + s.writer.copied, s.writer.data;
      Advance(|s.hist|, s.writer.copied, |s.ring|);
      hide Mask, Holds, Free;
      WriteAhead(s.ring, s.hist, s.bakPos, |s.hist|, p, data[s.writer.copied]);
      WriteAhead(s.ring, s.hist + data, |s.hist|, p, p, data[s.writer.copied]);
    }
  }

  lemma WriterPublishesOk(s: State)
    requires Inv(s)
    ensures Inv(Next(s, WriterPublishes))
  {
    if s.writer.Writing? && s.writer.copied == |s.writer.data| {
      var size, g := |s.ring|, s.hist + s.writer.data;
      Advance(|s.hist|, |s.writer.data|, size);
      forall i | s.bakPos <= i < |g| ensures s.ring[Mask(i, size)] == g[i] {
        if i < |s.hist| { assert s.hist[i] == g[i]; }
      }
      hide Mask;
    }
  }

  lemma ReaderTakesOk(s: State, n: nat)
    requires Inv(s)
    ensures Inv(Next(s, ReaderTakes(n)))
  {
    UsedIs(|s.out|, |s.hist|, |s.ring|);
    hide Mask, Free;
  }

  lemma ReaderCopiesOk(s: State)
    requires Inv(s)
    ensures Inv(Next(s, ReaderCopies))
  {
    if s.reader.Reading? && |s.reader.got| < s.reader.n {
      Advance(|s.out|, |s.reader.got|, |s.ring|);
      var i := |s.out| + |s.reader.got|;
      assert s.ring[Mask(i, |s.ring|)] == s.hist[i];
      assert s.hist[|s.out|..i + 1] == s.hist[|s.out|..i] + [s.hist[i]];
    }
  }

  lemma MoveReadOk(s: State)
    requires Inv(s) && s.reader.Reading? && |s.reader.got| == s.reader.n
    ensures Inv(MoveRead(s))
  {
    var t := MoveRead(s);
    Advance(|s.out|, s.reader.n, |s.ring|);
    assert t.out == s.hist[..|t.out|];
    hide Mask, Free;
  }

  lemma SurplusIs(s: State)
    requires Indices(s)
    ensures Surplus(s) == if |s.out| - s.bakPos > s.m then |s.out| - s.bakPos - s.m else 0
    ensures s.m + 1 == |s.ring| ==> Surplus(s) == 0
  {
    UsedIs(s.bakPos, |s.out|, |s.ring|);
  }

  lemma ForwardBakOk(s: State, d: nat)
    requires Inv(s) && (s.reader.Moved? || s.reader.Trimming?)
    requires s.bakPos + d <= |s.out| <= s.bakPos + s.m + d
    requires d > 0 && s.bak.BakReading? ==> |s.out| == s.bakPos + s.m + d
    ensures Inv(ForwardBak(s, d))
  {
    if d > 0 { Advance(s.bakPos, d, |s.ring|); }
    hide Mask, Free;
  }

  lemma TrimOk(s: State)
    requires Inv(s) && s.reader.Moved?
    ensures Inv(Trim(s))
  {
    SurplusIs(s);
    hide Inv, ForwardBak, Surplus;
    InvIndices(s);
    ForwardBakOk(s, Surplus(s));
  }

  lemma InvIndices(s: State)
    requires Inv(s)
    ensures Indices(s) && (s.reader.Trimming? ==> s.bakPos + s.reader.d <= |s.out| <= s.bakPos + s.m + s.reader.d)
    ensures s.reader.Trimming? && s.reader.d > 0 ==> s.bak.BakIdle?
    ensures s.reader.Reading? && |s.reader.got| == s.reader.n ==> |MoveRead(s).ring| > 0 && MoveRead(s).reader.Moved?
  {
  }

  lemma ReaderPublishesOk(s: State)
    requires Inv(s)
    ensures Inv(Next(s, ReaderPublishes)) && Inv(Next(s, ReaderMoves)) && Inv(Next(s, ReaderCuts))
    ensures Inv(Next(s, ReaderTrims))
  {
    hide Inv, Trim, ForwardBak;
    InvIndices(s);
    if s.reader.Reading? && |s.reader.got| == s.reader.n {
      MoveReadOk(s);
      TrimOk(MoveRead(s));
    }
    if s.reader.Moved? { TrimOk(s); }
    if s.reader.Trimming? { ForwardBakOk(s, s.reader.d); }
  }

  lemma ReaderMeasuresOk(s: State)
    requires Inv(s) && Careful(s, ReaderMeasures)
    ensures Inv(Next(s, ReaderMeasures))
  {
    SurplusIs(s);
    hide Mask, Free, Surplus;
  }

  lemma BakTakesOk(s: State, n: nat)
    requires Inv(s) && Careful(s, BakTakes(n))
    ensures Inv(Next(s, BakTakes(n)))
  {
    UsedIs(s.bakPos, |s.out|, |s.ring|);
    hide Mask, Free;
  }

  lemma BakPublishesOk(s: State)
    requires Inv(s)
    ensures Inv(Next(s, BakPublishes))
  {
    if s.bak.BakReading? {
      Advance(s.bakPos, s.bak.n, |s.ring|);
      hide Mask, Free;
    }
  }

  lemma NextOk(s: State, step: Step)
    requires Inv(s) && Careful(s, step)
    ensures Inv(Next(s, step))
  {
    hide Inv, Next, Careful;
    match step {
      case WriterTakes(src) => WriterTakesOk(s, src);
      case WriterCopies => WriterCopiesOk(s);
      case WriterPublishes => WriterPublishesOk(s);
      case ReaderTakes(n) => ReaderTakesOk(s, n);
      case ReaderCopies => ReaderCopiesOk(s);
      case ReaderPublishes => ReaderPublishesOk(s);
      case ReaderMoves => ReaderPublishesOk(s);
      case ReaderCuts => ReaderPublishesOk(s);
      case ReaderMeasures => ReaderMeasuresOk(s);
      case ReaderTrims => ReaderPublishesOk(s);
      case BakTakes(n) => BakTakesOk(s, n);
      case BakPublishes => BakPublishesOk(s);
    }
  }

  // ----- every run

  function Start(ring: seq<int>, m: nat): State {
    State(ring, m, 0, 0, 0, WriterIdle, ReaderIdle, BakIdle, [], [], 0)
  }

  predicate Asks(step: Step, q: nat) { step.BakTakes? ==> step.n <= q }

  /** The reader's last step as one. */
  predicate Whole(step: Step) { !step.ReaderMoves? && !step.ReaderCuts? && !step.ReaderMeasures? && !step.ReaderTrims? }

  /** As one or in two steps, but not in three. */
  predicate Halved(step: Step) { !step.ReaderMeasures? && !step.ReaderTrims? }

  predicate AtRest(s: State) { s.reader.ReaderIdle? || s.reader.Reading? }

  lemma {:induction false} RunWhole(s: State, steps: seq<Step>)
    requires Inv(s) && AtRest(s) && forall i :: 0 <= i < |steps| ==> Whole(steps[i])
    ensures |s.ring| > 0 && Inv(Run(s, steps)) && AtRest(Run(s, steps))
    decreases |steps|
  {
    if steps != [] {
      assert Whole(steps[0]);
      NextOk(s, steps[0]);
      RunWhole(Next(s, steps[0]), steps[1..]);
    }
  }

  lemma HalvedStep(s: State, step: Step, q: nat)
    requires Inv(s) && !s.reader.Trimming? && (q <= s.m || s.m + 1 == |s.ring|) && Halved(step) && Asks(step, q)
    ensures Careful(s, step) && !Next(s, step).reader.Trimming?
  {
    hide Inv, Mask, Used, Free;
  }

  lemma {:induction false} RunHalved(s: State, steps: seq<Step>, q: nat)
    requires Inv(s) && !s.reader.Trimming? && (q <= s.m || s.m + 1 == |s.ring|)
    requires forall i :: 0 <= i < |steps| ==> Halved(steps[i]) && Asks(steps[i], q)
    ensures |s.ring| > 0 && Inv(Run(s, steps))
    decreases |steps|
  {
    InvIndices(s);
    if steps != [] {
      hide Inv, Next, Careful, Halved, Asks;
      assert Halved(steps[0]) && Asks(steps[0], q);
      HalvedStep(s, steps[0], q);
      NextOk(s, steps[0]);
      NextRing(s, steps[0]);
      RunHalved(Next(s, steps[0]), steps[1..], q);
    }
  }

  lemma QuietStep(s: State, step: Step, q: nat)
    requires Inv(s) && ((q == 0 && s.bak.BakIdle?) || s.m + 1 == |s.ring|) && Asks(step, q)
    ensures Careful(s, step) && (q == 0 && s.bak.BakIdle? ==> Next(s, step).bak.BakIdle?)
  {
    hide Inv, Mask, Used, Free;
  }

  lemma {:induction false} RunQuiet(s: State, steps: seq<Step>, q: nat)
    requires Inv(s) && ((q == 0 && s.bak.BakIdle?) || s.m + 1 == |s.ring|)
    requires forall i :: 0 <= i < |steps| ==> Asks(steps[i], q)
    ensures |s.ring| > 0 && Inv(Run(s, steps))
    decreases |steps|
  {
    InvIndices(s);
    if steps != [] {
      hide Inv, Next, Careful, Asks;
      assert Asks(steps[0], q);
      QuietStep(s, steps[0], q);
      NextOk(s, steps[0]);
      NextRing(s, steps[0]);
      RunQuiet(Next(s, steps[0]), steps[1..], q);
    }
  }

  lemma StartInv(ring: seq<int>, m: nat)
    requires m < |ring|
    ensures Inv(Start(ring, m))
  {
    assert Mask(0, |ring|) == 0;
  }

  /** The samples read are a prefix of the samples written, the positions are in order and less than a ring apart, and
      the indices stand for them. */
  predicate Safe(s: State) {
    && s.out <= s.hist && s.bakPos <= |s.out| && |s.hist| < s.bakPos + |s.ring|
    && s.k == Mask(s.bakPos, |s.ring|) && s.r == Mask(|s.out|, |s.ring|) && s.w == Mask(|s.hist|, |s.ring|)
  }

  lemma InvSafe(s: State)
    requires Inv(s)
    ensures Safe(s) && (AtRest(s) ==> |s.out| - s.bakPos <= s.m)
  {
    hide Mask, Holds;
  }

  /** Whatever the interleaving, all is safe, and no more than m samples lie behind the read position. */
  lemma RunSafe(ring: seq<int>, m: nat, steps: seq<Step>)
    requires m < |ring| && forall i :: 0 <= i < |steps| ==> Whole(steps[i])
    ensures var s := Run(Start(ring, m), steps); Safe(s) && |s.out| - s.bakPos <= m
  {
    var s := Start(ring, m);
    StartInv(ring, m);
    hide Run, Inv, Safe;
    RunWhole(s, steps);
    InvSafe(Run(s, steps));
  }

  /** What one thread sees of the indices: at every moment free, used and bak make up the ring but one sample. */
  lemma RunConserves(ring: seq<int>, m: nat, steps: seq<Step>)
    requires m < |ring| && forall i :: 0 <= i < |steps| ==> Whole(steps[i])
    ensures var s := Run(Start(ring, m), steps);
      Free(s.k, s.w, |ring|) + Used(s.r, s.w, |ring|) + Used(s.k, s.r, |ring|) == |ring| - 1
  {
    RunSafe(ring, m, steps);
    var s := Run(Start(ring, m), steps);
    FreeIs(s.bakPos, |s.hist|, |ring|);
    UsedIs(|s.out|, |s.hist|, |ring|);
    UsedIs(s.bakPos, |s.out|, |ring|);
  }

  // ----- why the reader's last step has to be one step

  lemma {:induction false} RunAppend(s: State, a: seq<Step>, b: seq<Step>)
    requires |s.ring| > 0
    ensures Run(s, a + b) == Run(Run(s, a), b)
    decreases |a|
  {
    hide Next;
    if a == [] {
      assert a + b == b;
    } else {
      assert (a + b)[1..] == a[1..] + b;
      NextRing(s, a[0]);
      RunAppend(Next(s, a[0]), a[1..], b);
    }
  }

  lemma NextRing(s: State, step: Step)
    requires |s.ring| > 0
    ensures |Next(s, step).ring| == |s.ring| && Next(s, step).m == s.m
  {
  }

  function Repeat(step: Step, n: nat): seq<Step> { seq(n, i => step) }

  lemma {:induction false} WriterFills(s: State, n: nat)
    requires Inv(s) && s.writer.Writing? && s.writer.copied + n <= |s.writer.data|
    ensures |s.ring| > 0 && var t := Run(s, Repeat(WriterCopies, n));
      Inv(t) && t == s.(ring := t.ring, writer := s.writer.(copied := s.writer.copied + n))
    decreases n
  {
    if n > 0 {
      var t := Next(s, WriterCopies);
      WriterCopiesOk(s);
      assert Repeat(WriterCopies, n)[1..] == Repeat(WriterCopies, n - 1);
      hide Inv;
      WriterFills(t, n - 1);
    }
  }

  lemma {:induction false} ReaderFills(s: State, n: nat)
    requires Inv(s) && s.reader.Reading? && |s.reader.got| + n <= s.reader.n
    ensures |s.ring| > 0 && var t := Run(s, Repeat(ReaderCopies, n));
      Inv(t) && t.reader.Reading? && t == s.(reader := s.reader.(got := t.reader.got))
      && |t.reader.got| == |s.reader.got| + n
    decreases n
  {
    if n > 0 {
      var t := Next(s, ReaderCopies);
      ReaderCopiesOk(s);
      assert Repeat(ReaderCopies, n)[1..] == Repeat(ReaderCopies, n - 1);
      hide Inv;
      ReaderFills(t, n - 1);
    }
  }

  /** Samples in the ring, n of them, and nobody at work. */
  predicate Written(s: State, n: nat) {
    s.writer.WriterIdle? && s.reader.ReaderIdle? && s.bak.BakIdle? && s.bakPos == |s.out| == 0 && |s.hist| == n
  }

  lemma Writes(ring: seq<int>, m: nat) returns (steps: seq<Step>)
    requires m + 1 < |ring|
    ensures var s := Run(Start(ring, m), steps); Inv(s) && Written(s, m + 1)
    ensures forall i :: 0 <= i < |steps| ==> Halved(steps[i]) && Asks(steps[i], 0)
  {
    var s, data := Start(ring, m), seq(m + 1, i => 0);
    StartInv(ring, m);
    WriterTakesOk(s, data);
    FreeIs(0, 0, |ring|);
    var s1 := Next(s, WriterTakes(data));
    assert data[..m + 1] == data;
    WriterFills(s1, m + 1);
    var s2 := Run(s1, Repeat(WriterCopies, m + 1));
    WriterPublishesOk(s2);
    RunAppend(s1, Repeat(WriterCopies, m + 1), [WriterPublishes]);
    steps := [WriterTakes(data)] + (Repeat(WriterCopies, m + 1) + [WriterPublishes]);
    hide Inv;
    RunAppend(s, [WriterTakes(data)], Repeat(WriterCopies, m + 1) + [WriterPublishes]);
    RunOne(s, WriterTakes(data));
    RunOne(s2, WriterPublishes);
  }

  lemma RunOne(s: State, step: Step)
    requires |s.ring| > 0
    ensures Run(s, [step]) == Next(s, step)
  {
    hide Next;
    NextRing(s, step);
    assert [step][1..] == [];
  }

  /** From the start the reader can get to where it has moved r past m + 1 samples and not yet looked at k. */
  lemma Moves(ring: seq<int>, m: nat) returns (steps: seq<Step>)
    requires m + 1 < |ring|
    ensures var s := Run(Start(ring, m), steps);
      Inv(s) && s.reader.Moved? && s.bak.BakIdle? && s.bakPos == 0 && |s.out| == m + 1
    ensures forall i :: 0 <= i < |steps| ==> Halved(steps[i]) && Asks(steps[i], 0)
  {
    var writes := Writes(ring, m);
    var s := Run(Start(ring, m), writes);
    var rest := [ReaderTakes(m + 1)] + (Repeat(ReaderCopies, m + 1) + [ReaderMoves]);
    ReadsOn(s, m + 1);
    steps := writes + rest;
    hide Inv, Halved, Asks;
    RunAppend(Start(ring, m), writes, rest);
    forall i | 0 <= i < |rest| ensures Halved(rest[i]) && Asks(rest[i], 0) { RestHalved(m + 1, i); }
  }

  lemma RestHalved(n: nat, i: nat)
    requires i < n + 2
    ensures var rest := [ReaderTakes(n)] + (Repeat(ReaderCopies, n) + [ReaderMoves]);
      Halved(rest[i]) && Asks(rest[i], 0)
  {
  }

  lemma ReadsOn(s: State, n: nat)
    requires Inv(s) && Written(s, n) && 0 < n < |s.ring|
    ensures var t := Run(s, [ReaderTakes(n)] + (Repeat(ReaderCopies, n) + [ReaderMoves]));
      Inv(t) && t.reader.Moved? && t.bak.BakIdle? && t.bakPos == 0 && |t.out| == n
  {
    UsedIs(|s.out|, |s.hist|, |s.ring|);
    ReaderTakesOk(s, n);
    var s1 := Next(s, ReaderTakes(n));
    assert s1.reader.Reading? && s1.reader.n == n && s1.reader.got == [];
    ReaderFills(s1, n);
    var s2 := Run(s1, Repeat(ReaderCopies, n));
    MoveReadOk(s2);
    hide Inv;
    RunAppend(s1, Repeat(ReaderCopies, n), [ReaderMoves]);
    RunAppend(s, [ReaderTakes(n)], Repeat(ReaderCopies, n) + [ReaderMoves]);
    RunOne(s, ReaderTakes(n));
    RunOne(s2, ReaderMoves);
  }

  /** The bak reader takes more than m samples before the reader trims. */
  lemma BakOvertakes(s: State, q: nat)
    requires Inv(s) && s.reader.Moved? && s.bak.BakIdle? && s.bakPos == 0 && |s.out| == s.m + 1 < |s.ring| && q > s.m
    ensures var t := Run(s, [BakTakes(q), ReaderCuts, BakPublishes]); t.bakPos == s.m + 2 && t.out == s.out
  {
    UsedIs(s.bakPos, |s.out|, |s.ring|);
    var s1 := Next(s, BakTakes(q));
    assert s1 == s.(bak := BakReading(s.m + 1));
    SurplusIs(s1);
    var s2 := Next(s1, ReaderCuts);
    assert s2.bakPos == 1 && s2.bak == s1.bak && s2.out == s.out;
    hide Inv, Mask, Surplus, Used;
    RunThree(s, BakTakes(q), ReaderCuts, BakPublishes);
  }

  lemma RunThree(s: State, a: Step, b: Step, c: Step)
    requires |s.ring| > 0
    ensures |Next(s, a).ring| == |s.ring| && |Next(Next(s, a), b).ring| == |s.ring|
    ensures Run(s, [a, b, c]) == Next(Next(Next(s, a), b), c)
  {
    hide Next;
    NextRing(s, a);
    NextRing(Next(s, a), b);
    RunOne(Next(Next(s, a), b), c);
    assert [a, b, c][1..] == [b, c] && [b, c][1..] == [c];
  }

  /** With the reader's last step in two, all runs are safe exactly if the bak reader never asks for more than m
      samples, or the ring leaves no room for more. */
  lemma SplitSafeIff(ring: seq<int>, m: nat, q: nat)
    requires m < |ring|
    ensures (forall steps: seq<Step> :: (forall i :: 0 <= i < |steps| ==> Halved(steps[i]) && Asks(steps[i], q)) ==>
      Safe(Run(Start(ring, m), steps))) <==> q <= m || m + 1 == |ring|
  {
    StartInv(ring, m);
    if q <= m || m + 1 == |ring| {
      forall steps: seq<Step> | forall i :: 0 <= i < |steps| ==> Halved(steps[i]) && Asks(steps[i], q)
        ensures Safe(Run(Start(ring, m), steps))
      {
        RunHalved(Start(ring, m), steps, q);
        hide Inv;
        InvSafe(Run(Start(ring, m), steps));
      }
    } else {
      hide Inv, Start;
      var steps := SplitFails(ring, m, q);
      assert !Safe(Run(Start(ring, m), steps));
    }
  }

  lemma SplitFails(ring: seq<int>, m: nat, q: nat) returns (steps: seq<Step>)
    requires m + 1 < |ring| && q > m
    ensures forall i :: 0 <= i < |steps| ==> Halved(steps[i]) && Asks(steps[i], q)
    ensures !Safe(Run(Start(ring, m), steps))
  {
    var moves := Moves(ring, m);
    var s, rest := Run(Start(ring, m), moves), [BakTakes(q), ReaderCuts, BakPublishes];
    BakOvertakes(s, q);
    hide Inv, Next;
    RunAppend(Start(ring, m), moves, rest);
    steps := moves + rest;
  }

  // ----- and in three steps

  function Cycles(n: nat): seq<Step> {
    if n == 0 then [] else [BakTakes(1), BakPublishes] + Cycles(n - 1)
  }

  lemma {:induction false} CyclesAsk(n: nat)
    ensures forall i :: 0 <= i < |Cycles(n)| ==> Asks(Cycles(n)[i], 1)
  {
    if n > 0 { CyclesAsk(n - 1); }
  }

  /** The bak reader at work while the reader knows how much it is going to trim. */
  lemma {:induction false} BakCycles(s: State, n: nat)
    requires Indices(s) && s.bak.BakIdle? && s.bakPos + n <= |s.out|
    ensures var t := Run(s, Cycles(n)); Indices(t) && t == s.(k := t.k, bakPos := s.bakPos + n)
    decreases n
  {
    if n > 0 {
      UsedIs(s.bakPos, |s.out|, |s.ring|);
      Advance(s.bakPos, 1, |s.ring|);
      var s1 := Next(s, BakTakes(1));
      var s2 := Next(s1, BakPublishes);
      assert Indices(s2) && s2 == s.(k := s2.k, bakPos := s.bakPos + 1);
      hide Indices, Next;
      RunAppend(s, [BakTakes(1), BakPublishes], Cycles(n - 1));
      RunTwo(s, BakTakes(1), BakPublishes);
      BakCycles(s2, n - 1);
    }
  }

  lemma RunTwo(s: State, a: Step, b: Step)
    requires |s.ring| > 0
    ensures |Next(s, a).ring| == |s.ring| && Run(s, [a, b]) == Next(Next(s, a), b)
  {
    hide Next;
    NextRing(s, a);
    RunOne(Next(s, a), b);
    assert [a, b][1..] == [b];
  }

  /** The bak reader takes all there is, one sample at a time, before the reader moves k by what it has measured. */
  lemma FineOvertakes(s: State)
    requires Inv(s) && s.reader.Moved? && s.bak.BakIdle? && s.bakPos == 0 && |s.out| == s.m + 1 < |s.ring|
    ensures var t := Run(s, [ReaderMeasures] + (Cycles(s.m + 1) + [ReaderTrims])); t.bakPos == s.m + 2 && t.out == s.out
  {
    SurplusIs(s);
    var s1 := Next(s, ReaderMeasures);
    assert s1 == s.(reader := Trimming(1));
    BakCycles(s1, s.m + 1);
    var s2 := Run(s1, Cycles(s.m + 1));
    assert Next(s2, ReaderTrims).bakPos == s.m + 2 && Next(s2, ReaderTrims).out == s.out;
    hide Inv, Next, Indices;
    RunOne(s, ReaderMeasures);
    RunOne(s2, ReaderTrims);
    RunAppend(s1, Cycles(s.m + 1), [ReaderTrims]);
    RunAppend(s, [ReaderMeasures], Cycles(s.m + 1) + [ReaderTrims]);
  }

  lemma FineFails(ring: seq<int>, m: nat) returns (steps: seq<Step>)
    requires m + 1 < |ring|
    ensures forall i :: 0 <= i < |steps| ==> Asks(steps[i], 1)
    ensures !Safe(Run(Start(ring, m), steps))
  {
    var moves := Moves(ring, m);
    var s, rest := Run(Start(ring, m), moves), [ReaderMeasures] + (Cycles(m + 1) + [ReaderTrims]);
    FineOvertakes(s);
    CyclesAsk(m + 1);
    hide Inv, Next;
    RunAppend(Start(ring, m), moves, rest);
    steps := moves + rest;
  }

  /** With the reader's last step in three, as the statements stand, all runs are safe exactly if there is no bak
      reader at work, or no room. */
  lemma FineSafeIff(ring: seq<int>, m: nat, q: nat)
    requires m < |ring|
    ensures (forall steps: seq<Step> :: (forall i :: 0 <= i < |steps| ==> Asks(steps[i], q)) ==>
      Safe(Run(Start(ring, m), steps))) <==> q == 0 || m + 1 == |ring|
  {
    StartInv(ring, m);
    if q == 0 || m + 1 == |ring| {
      forall steps: seq<Step> | forall i :: 0 <= i < |steps| ==> Asks(steps[i], q)
        ensures Safe(Run(Start(ring, m), steps))
      {
        RunQuiet(Start(ring, m), steps, q);
        hide Inv;
        InvSafe(Run(Start(ring, m), steps));
      }
    } else {
      hide Inv, Start;
      var steps := FineFails(ring, m);
      forall i | 0 <= i < |steps| ensures Asks(steps[i], q) { assert Asks(steps[i], 1); }
      assert !Safe(Run(Start(ring, m), steps));
    }
  }
}
