/** The protocol of the sound DMA: chains that callers take, queue, and give back by waiting or by letting go, and a
    completion interrupt that may come between any two of their steps. */
module Dma {
  const NIL: int := -1

  /** src and dest are kept as whether they are set: the code clears src when nobody will wait, and dest when done. */
  datatype Chain = Chain(next: int, src: bool, dest: bool, sema: nat)

  /** What the caller that took a chain is doing with it. */
  datatype Caller =
    | Nobody
    | Preparing   // has it, not yet queued
    | Holding     // dma_initiate has returned it
    | Waiting     // inside dma_wait, before the semaphore
    | Woken       // inside dma_wait, past the semaphore
    | Gone        // dma_free has returned before completion

  /** The code's own state, what the hardware is transferring, what callers do, and for the proof the two lists and how
      often each chain was taken and given back. */
  datatype State = State(chains: seq<Chain>, freeHead: int, queueHead: int, transferring: bool, inFlight: seq<nat>,
                         callers: seq<Caller>, asserted: bool,
                         free: seq<nat>, queue: seq<nat>, taken: seq<nat>, returned: seq<nat>)

  datatype Step =
    | Alloc                                      // alloc_chain
    | Enqueue(c: nat, src: bool, dest: bool)     // the rest of dma_initiate, interrupts off
    | Complete(c: nat)                           // the interrupt for a transfer
    | Wait(c: nat)                               // dma_wait is called
    | Wake(c: nat)                               // its sem_wait returns
    | GiveBack(c: nat)                           // its free_chain
    | LetGo(c: nat)                              // dma_free, interrupts off

  predicate Shaped(s: State) {
    |s.chains| == |s.callers| == |s.taken| == |s.returned|
  }

  /** free_chain. */
  function FreeChain(s: State, c: nat): State
    requires Shaped(s) && c < |s.chains|
  {
    s.(chains := s.chains[c := s.chains[c].(next := s.freeHead)], freeHead := c, free := [c] + s.free,
       returned := s.returned[c := s.returned[c] + 1])
  }

  /** The caller has nothing to do with the chain any more. */
  function Leave(s: State, c: nat): State
    requires Shaped(s) && c < |s.chains|
  {
    s.(callers := s.callers[c := Nobody])
  }

  /** The end of spu_cb: the transfer at the head of the queue is started. */
  function StartNext(s: State): State {
    if 0 <= s.queueHead < |s.chains| && s.queue != [] then
      s.(transferring := true, inFlight := s.inFlight + [s.queueHead],
         queueHead := s.chains[s.queueHead].next, queue := s.queue[1..])
    else s
  }

  function WithoutOne(s: seq<nat>, c: nat): seq<nat> {
    if s == [] then [] else if s[0] == c then s[1..] else [s[0]] + WithoutOne(s[1..], c)
  }

  /** The beginning of spu_cb: a chain that nobody will wait for is freed, any other is signalled and marked. */
  function Finished(s: State, c: nat): State
    requires Shaped(s) && c < |s.chains|
  {
    if !s.chains[c].src then FreeChain(if s.callers[c] == Gone then Leave(s, c) else s, c)
    else s.(chains := s.chains[c := s.chains[c].(sema := s.chains[c].sema + 1, dest := false)])
  }

  /** One step; a step that is not possible changes nothing. */
  function Next(s: State, step: Step): (t: State)
    requires Shaped(s)
    ensures Shaped(t) && |t.chains| == |s.chains|
  {
    match step
    case Alloc =>
      if 0 <= s.freeHead < |s.chains| && s.free != [] then
        var c := s.freeHead;
        s.(freeHead := s.chains[c].next, chains := s.chains[c := s.chains[c].(next := NIL)], free := s.free[1..],
           callers := s.callers[c := Preparing], taken := s.taken[c := s.taken[c] + 1])
      else s
    case Enqueue(c, src, dest) =>
      if c < |s.chains| && s.callers[c] == Preparing then
        var t := s.(chains := s.chains[c := s.chains[c].(src := src, dest := dest, next := s.queueHead)],
                    queueHead := c, queue := [c] + s.queue, callers := s.callers[c := Holding]);
        if !t.transferring then StartNext(t) else t
      else s
    case Complete(c) =>
      if c < |s.chains| && c in s.inFlight then
        StartNext(Finished(s, c).(transferring := false, inFlight := WithoutOne(s.inFlight, c)))
      else s
    case Wait(c) =>
      if c < |s.chains| && s.callers[c] == Holding then s.(callers := s.callers[c := Waiting]) else s
    case Wake(c) =>
      if c < |s.chains| && s.callers[c] == Waiting && s.chains[c].sema > 0 then
        s.(callers := s.callers[c := Woken], chains := s.chains[c := s.chains[c].(sema := s.chains[c].sema - 1)])
      else s
    case GiveBack(c) =>
      if c < |s.chains| && s.callers[c] == Woken then FreeChain(Leave(s, c), c) else s
    case LetGo(c) =>
      if c < |s.chains| && s.callers[c] == Holding then
        var t := s.(chains := s.chains[c := s.chains[c].(src := false)], callers := s.callers[c := Gone]);
        if t.chains[c].dest then t
        else if t.chains[c].sema == 0 then t.(asserted := false)
        else FreeChain(Leave(t.(chains := t.chains[c := t.chains[c].(sema := t.chains[c].sema - 1)]), c), c)
      else s
  }

  // ----- the invariant

  function Link(l: seq<nat>, i: int): int { if 0 <= i < |l| then l[i] else NIL }

  /** The chains from a head on, through their one link field. */
  ghost predicate ListOf(s: State, head: int, l: seq<nat>) {
    && head == Link(l, 0)
    && (forall i :: 0 <= i < |l| ==> l[i] < |s.chains| && s.chains[l[i]].next == Link(l, i + 1))
    && (forall i, j :: 0 <= i < j < |l| ==> l[i] != l[j])
  }

  predicate Pending(s: State, c: nat) { c in s.queue || c in s.inFlight }

  /** Where a chain is and what its fields say, by what its caller does. */
  predicate ChainOk(s: State, c: nat)
    requires Shaped(s) && c < |s.chains|
  {
    var x := s.chains[c];
    && (c in s.free <==> s.callers[c] == Nobody)
    && !(c in s.queue && c in s.inFlight)
    && s.taken[c] == s.returned[c] + (if s.callers[c] == Nobody then 0 else 1)
    && match s.callers[c]
       case Nobody => x.sema == 0 && !Pending(s, c)
       case Preparing => x.sema == 0 && !Pending(s, c)
       case Holding => x.src && x.dest == Pending(s, c) && x.sema == if Pending(s, c) then 0 else 1
       case Waiting => x.src && x.dest == Pending(s, c) && x.sema == if Pending(s, c) then 0 else 1
       case Woken => x.sema == 0 && !Pending(s, c)
       case Gone => !x.src && x.dest && x.sema == 0 && Pending(s, c)
  }

  ghost predicate Inv(s: State) {
    && Shaped(s)
    && ListOf(s, s.freeHead, s.free) && ListOf(s, s.queueHead, s.queue)
    && |s.inFlight| == (if s.transferring then 1 else 0)
    && (s.queue != [] ==> s.transferring)
    && (forall i :: 0 <= i < |s.inFlight| ==> s.inFlight[i] < |s.chains|)
    && (forall c :: 0 <= c < |s.chains| ==> ChainOk(s, c))
    && s.asserted
  }

  // ----- lists

  ghost predicate SameLinks(s: State, t: State, l: seq<nat>) {
    |s.chains| == |t.chains| && forall c :: c in l && c < |s.chains| ==> t.chains[c].next == s.chains[c].next
  }

  lemma ListSame(s: State, t: State, head: int, l: seq<nat>)
    requires ListOf(s, head, l) && SameLinks(s, t, l)
    ensures ListOf(t, head, l)
  {
  }

  lemma ListPush(s: State, t: State, head: int, l: seq<nat>, c: nat)
    requires ListOf(s, head, l) && SameLinks(s, t, l) && c < |t.chains| && c !in l && t.chains[c].next == head
    ensures ListOf(t, c, [c] + l)
  {
    var k := [c] + l;
    assert forall i :: 0 <= i < |l| ==> l[i] in l;
    assert forall i :: 0 < i < |k| ==> k[i] == l[i - 1];
    forall i | 0 <= i < |k| ensures k[i] < |t.chains| && t.chains[k[i]].next == Link(k, i + 1) {
      if i > 0 { assert s.chains[l[i - 1]].next == Link(l, i); }
    }
  }

  lemma ListPop(s: State, head: int, l: seq<nat>)
    requires ListOf(s, head, l)
    ensures l == [] <==> !(0 <= head < |s.chains| && l != [])
    ensures l != [] ==>
      0 <= head < |s.chains| && head == l[0] && ListOf(s, s.chains[head].next, l[1..]) && head !in l[1..]
    ensures l != [] ==> forall c :: c in l <==> c == head || c in l[1..]
  {
    if l != [] { assert l == [l[0]] + l[1..]; }
  }

  lemma WithoutOnly(s: seq<nat>, c: nat)
    requires |s| <= 1 && c in s
    ensures s == [c] && WithoutOne(s, c) == []
  {
    assert s == [s[0]];
  }

  // ----- the steps

  /** The invariant without the rule that a queue means a transfer. */
  ghost predicate Settled(s: State) {
    && Shaped(s)
    && ListOf(s, s.freeHead, s.free) && ListOf(s, s.queueHead, s.queue)
    && |s.inFlight| == (if s.transferring then 1 else 0)
    && (forall i :: 0 <= i < |s.inFlight| ==> s.inFlight[i] < |s.chains|)
    && (forall c :: 0 <= c < |s.chains| ==> ChainOk(s, c))
    && s.asserted
  }

  lemma StartOk(s: State)
    requires Settled(s) && !s.transferring
    ensures Inv(StartNext(s))
  {
    hide ListOf;
    ListPop(s, s.queueHead, s.queue);
    var t := StartNext(s);
    ListSame(s, t, s.freeHead, s.free);
    assert s.inFlight == [];
    if s.queue != [] {
      ListSame(s, t, t.queueHead, t.queue);
      assert t.inFlight == [s.queueHead];
      forall c | 0 <= c < |t.chains| ensures ChainOk(t, c) {
        assert ChainOk(s, c);
        assert c in s.queue <==> c == s.queueHead || c in s.queue[1..];
      }
    }
  }

  lemma Listed(s: State, a: nat)
    requires Inv(s) && a in s.free && a < |s.chains|
    ensures ChainOk(s, a) && a !in s.queue
  {
    assert ChainOk(s, a);
  }

  lemma AllocOk(s: State)
    requires Inv(s)
    ensures Inv(Next(s, Alloc))
  {
    hide ListOf;
    ListPop(s, s.freeHead, s.free);
    if s.free != [] {
      var a, t := s.freeHead, Next(s, Alloc);
      Listed(s, a);
      ListSame(s, t, t.freeHead, t.free);
      ListSame(s, t, s.queueHead, s.queue);
      forall c | 0 <= c < |t.chains| ensures ChainOk(t, c) {
        assert ChainOk(s, c) && (c in s.free <==> c == a || c in t.free);
      }
    }
  }

  lemma EnqueueOk(s: State, a: nat)
    requires Inv(s)
    ensures Inv(Next(s, Enqueue(a, true, true)))
  {
    hide ListOf;
    if a < |s.chains| && s.callers[a] == Preparing {
      assert ChainOk(s, a);
      var t := s.(chains := s.chains[a := s.chains[a].(src := true, dest := true, next := s.queueHead)],
                  queueHead := a, queue := [a] + s.queue, callers := s.callers[a := Holding]);
      ListPush(s, t, s.queueHead, s.queue, a);
      ListSame(s, t, s.freeHead, s.free);
      forall c | 0 <= c < |t.chains| ensures ChainOk(t, c) { assert ChainOk(s, c); }
      assert Settled(t);
      if !t.transferring { StartOk(t); }
    }
  }

  lemma FreeOk(s: State, a: nat)
    requires Shaped(s) && a < |s.chains| && ListOf(s, s.freeHead, s.free) && ListOf(s, s.queueHead, s.queue)
    requires forall c :: 0 <= c < |s.chains| && c != a ==> ChainOk(s, c)
    requires a !in s.free && s.callers[a] != Nobody && s.chains[a].sema == 0 && !Pending(s, a)
    requires s.taken[a] == s.returned[a] + 1
    ensures var t := FreeChain(Leave(s, a), a);
      Shaped(t) && ListOf(t, t.freeHead, t.free) && ListOf(t, t.queueHead, t.queue)
      && forall c :: 0 <= c < |t.chains| ==> ChainOk(t, c)
  {
    hide ListOf;
    var t := FreeChain(Leave(s, a), a);
    ListPush(s, t, s.freeHead, s.free, a);
    ListSame(s, t, s.queueHead, s.queue);
    forall c | 0 <= c < |t.chains| ensures ChainOk(t, c) {
      if c != a { assert ChainOk(s, c); }
    }
  }

  lemma CompleteOk(s: State, a: nat)
    requires Inv(s)
    ensures Inv(Next(s, Complete(a)))
  {
    hide ListOf;
    if a < |s.chains| && a in s.inFlight {
      WithoutOnly(s.inFlight, a);
      assert ChainOk(s, a);
      var s1 := s.(inFlight := [], transferring := false);
      ListSame(s, s1, s.freeHead, s.free);
      ListSame(s, s1, s.queueHead, s.queue);
      forall c | 0 <= c < |s.chains| && c != a ensures ChainOk(s1, c) { assert ChainOk(s, c); }
      if !s.chains[a].src {
        FreeOk(s1, a);
        StartOk(FreeChain(Leave(s1, a), a));
        assert FreeChain(Leave(s, a), a).(transferring := false, inFlight := []) == FreeChain(Leave(s1, a), a);
      } else {
        var t := s1.(chains := s.chains[a := s.chains[a].(sema := s.chains[a].sema + 1, dest := false)]);
        ListSame(s, t, s.freeHead, s.free);
        ListSame(s, t, s.queueHead, s.queue);
        forall c | 0 <= c < |t.chains| ensures ChainOk(t, c) {
          if c != a { assert ChainOk(s1, c); }
        }
        StartOk(t);
      }
    }
  }

  lemma WaitOk(s: State, a: nat)
    requires Inv(s)
    ensures Inv(Next(s, Wait(a))) && Inv(Next(s, Wake(a)))
  {
    hide ListOf;
    if a < |s.chains| {
      assert ChainOk(s, a);
      var t, u := Next(s, Wait(a)), Next(s, Wake(a));
      ListSame(s, t, s.freeHead, s.free);
      ListSame(s, t, s.queueHead, s.queue);
      ListSame(s, u, s.freeHead, s.free);
      ListSame(s, u, s.queueHead, s.queue);
      forall c | 0 <= c < |s.chains| ensures ChainOk(t, c) && ChainOk(u, c) { assert ChainOk(s, c); }
    }
  }

  lemma GiveBackOk(s: State, a: nat)
    requires Inv(s)
    ensures Inv(Next(s, GiveBack(a)))
  {
    hide ListOf;
    if a < |s.chains| && s.callers[a] == Woken {
      assert ChainOk(s, a);
      FreeOk(s, a);
    }
  }

  lemma LetGoOk(s: State, a: nat)
    requires Inv(s)
    ensures Inv(Next(s, LetGo(a)))
  {
    hide ListOf;
    if a < |s.chains| && s.callers[a] == Holding {
      assert ChainOk(s, a);
      var t := s.(chains := s.chains[a := s.chains[a].(src := false)], callers := s.callers[a := Gone]);
      if s.chains[a].dest {
        ListSame(s, t, s.freeHead, s.free);
        ListSame(s, t, s.queueHead, s.queue);
        forall c | 0 <= c < |t.chains| ensures ChainOk(t, c) { assert ChainOk(s, c); }
      } else {
        var u := t.(chains := t.chains[a := t.chains[a].(sema := t.chains[a].sema - 1)]);
        ListSame(s, u, s.freeHead, s.free);
        ListSame(s, u, s.queueHead, s.queue);
        forall c | 0 <= c < |u.chains| && c != a ensures ChainOk(u, c) { assert ChainOk(s, c); }
        FreeOk(u, a);
      }
    }
  }

  /** Callers of dma_initiate name a source and a destination. */
  predicate Proper(step: Step) { step.Enqueue? ==> step.src && step.dest }

  lemma NextOk(s: State, step: Step)
    requires Inv(s) && Proper(step)
    ensures Inv(Next(s, step))
  {
    hide Inv, Next;
    match step {
      case Alloc => AllocOk(s);
      case Enqueue(c, src, dest) => EnqueueOk(s, c);
      case Complete(c) => CompleteOk(s, c);
      case Wait(c) => WaitOk(s, c);
      case Wake(c) => WaitOk(s, c);
      case GiveBack(c) => GiveBackOk(s, c);
      case LetGo(c) => LetGoOk(s, c);
    }
  }

  // ----- every run

  function Run(s: State, steps: seq<Step>): State
    requires Shaped(s)
    ensures Shaped(Run(s, steps)) && |Run(s, steps).chains| == |s.chains|
    decreases |steps|
  {
    hide Next;
    if steps == [] then s else Run(Next(s, steps[0]), steps[1..])
  }

  /** The chains as the first call of alloc_chain sets them up. */
  function Start(n: nat): State {
    State(seq(n, i requires 0 <= i < n => Chain(if i < n - 1 then i + 1 else NIL, false, false, 0)),
          if n == 0 then NIL else 0, NIL, false, [],
          seq(n, i => Nobody), true, seq(n, i requires 0 <= i < n => i), [], seq(n, i => 0), seq(n, i => 0))
  }

  lemma StartInv(n: nat)
    ensures Inv(Start(n))
  {
    var s := Start(n);
    forall c | 0 <= c < n ensures ChainOk(s, c) { assert s.free[c] == c; }
  }

  lemma {:induction false} RunInv(s: State, steps: seq<Step>)
    requires Inv(s) && forall i :: 0 <= i < |steps| ==> Proper(steps[i])
    ensures Inv(Run(s, steps))
    decreases |steps|
  {
    if steps != [] {
      hide Inv, Next;
      InvShaped(s);
      NextOk(s, steps[0]);
      RunInv(Next(s, steps[0]), steps[1..]);
    }
  }

  lemma InvShaped(s: State)
    requires Inv(s)
    ensures Shaped(s)
  {
  }

  /** Nobody waits in vain: while a caller in dma_wait has no semaphore to take, a transfer is under way. */
  lemma WaiterServed(s: State, c: nat)
    requires Inv(s) && c < |s.chains| && s.callers[c] == Waiting && s.chains[c].sema == 0
    ensures |s.inFlight| == 1 && s.inFlight[0] < |s.chains|
  {
    assert ChainOk(s, c);
    if c in s.queue { assert s.queue != []; }
  }

  /** Completions, one after the other, of whatever is under way. */
  function Drain(s: State, k: nat): State
    requires Shaped(s)
    decreases k
  {
    if k == 0 || s.inFlight == [] then s else Drain(Next(s, Complete(s.inFlight[0])), k - 1)
  }

  /** After as many completions as there are chains queued and under way, every one of them has been served: all waiting
      callers can go on. */
  lemma {:induction false} DrainServes(s: State)
    requires Inv(s)
    ensures var t := Drain(s, |s.queue| + |s.inFlight|);
      Inv(t) && t.queue == [] && t.inFlight == []
      && forall c :: 0 <= c < |t.chains| && t.callers[c] == Waiting ==> t.chains[c].sema == 1
    decreases |s.queue| + |s.inFlight|
  {
    if s.inFlight == [] {
      WaitersDone(s);
    } else {
      var a := s.inFlight[0];
      WithoutOnly(s.inFlight, a);
      CompleteOk(s, a);
      CompleteShrinks(s, a);
      DrainServes(Next(s, Complete(a)));
    }
  }

  lemma WaitersDone(s: State)
    requires Inv(s) && s.inFlight == []
    ensures s.queue == []
    ensures forall c :: 0 <= c < |s.chains| && s.callers[c] == Waiting ==> s.chains[c].sema == 1
  {
    forall c | 0 <= c < |s.chains| && s.callers[c] == Waiting ensures s.chains[c].sema == 1 { assert ChainOk(s, c); }
  }

  lemma CompleteShrinks(s: State, a: nat)
    requires Inv(s) && a < |s.chains| && a in s.inFlight
    ensures var t := Next(s, Complete(a)); |t.queue| + |t.inFlight| == |s.queue| + |s.inFlight| - 1
  {
    WithoutOnly(s.inFlight, a);
    ListPop(s, s.queueHead, s.queue);
    hide ListOf;
  }

  // ----- every chain comes back

  /** Taking a chain that is there gives it to its caller and to nobody else. */
  lemma AllocTakes(s: State)
    requires Inv(s) && s.free != []
    ensures var t, a := Next(s, Alloc), s.free[0];
      a < |s.chains| && t.free == s.free[1..] && t.callers == s.callers[a := Preparing]
      && t.taken == s.taken[a := s.taken[a] + 1] && t.returned == s.returned && s.callers[a] == Nobody
  {
    assert s.freeHead == s.free[0];
    assert ChainOk(s, s.free[0]);
    hide ChainOk;
  }

  lemma GiveBackLeaves(s: State, c: nat)
    requires Shaped(s) && c < |s.chains| && s.callers[c] == Woken
    ensures var t := Next(s, GiveBack(c));
      t.free == [c] + s.free && t.callers == s.callers[c := Nobody] && t.taken == s.taken
      && t.returned == s.returned[c := s.returned[c] + 1] && t.queue == s.queue && t.inFlight == s.inFlight
  {
  }

  /** A caller who has waited gives his chain back. */
  lemma GiveBackFrees(s: State, c: nat)
    requires Inv(s) && c < |s.chains| && s.callers[c] == Woken
    ensures var t := Next(s, GiveBack(c));
      Inv(t) && t.free == [c] + s.free && t.callers == s.callers[c := Nobody] && t.taken == s.taken
      && t.returned == s.returned[c := s.returned[c] + 1] && t.queue == s.queue && t.inFlight == s.inFlight
  {
    hide *;
    InvShaped(s);
    SameLengths(s);
    GiveBackOk(s, c);
    GiveBackLeaves(s, c);
  }

  /** What becomes of a caller who waits, once his transfer is done. */
  function Home(c: Caller): Caller { if c == Waiting || c == Woken then Nobody else c }

  lemma WakeLeaves(s: State, c: nat)
    requires Inv(s) && c < |s.chains| && !Pending(s, c)
    ensures var t := Next(s, Wake(c));
      Inv(t) && t.taken == s.taken && t.queue == s.queue && t.inFlight == s.inFlight
      && t.callers == if s.callers[c] == Waiting then s.callers[c := Woken] else s.callers
  {
    NextOk(s, Wake(c));
    assert ChainOk(s, c);
    hide Inv;
  }

  /** One who waits after completion wakes, and gives it back. */
  lemma WakesAndReturns(s: State, c: nat)
    requires Inv(s) && c < |s.chains| && !Pending(s, c)
    ensures Shaped(s) && var t := Next(Next(s, Wake(c)), GiveBack(c));
      Inv(t) && t.taken == s.taken && t.queue == s.queue && t.inFlight == s.inFlight
      && t.callers == s.callers[c := Home(s.callers[c])]
  {
    var w := Next(s, Wake(c));
    WakeLeaves(s, c);
    InvShaped(s);
    hide Inv;
    if w.callers[c] == Woken {
      GiveBackFrees(w, c);
      assert s.callers[c := Woken][c := Nobody] == s.callers[c := Nobody];
    } else {
      assert s.callers[c := s.callers[c]] == s.callers;
    }
  }

  /** Everybody waiting for one of the first n chains, or past his semaphore, goes on to the end of dma_wait. */
  function Returning(s: State, n: nat): (t: State)
    requires Shaped(s)
    ensures Shaped(t) && |t.chains| == |s.chains|
  {
    if n == 0 then s else Next(Next(Returning(s, n - 1), Wake(n - 1)), GiveBack(n - 1))
  }

  predicate GoneHome(before: seq<Caller>, after: seq<Caller>, n: nat) {
    |before| == |after| && forall c :: 0 <= c < |after| ==> after[c] == if c < n then Home(before[c]) else before[c]
  }

  lemma OneMoreHome(before: seq<Caller>, after: seq<Caller>, n: nat)
    requires GoneHome(before, after, n) && n < |after|
    ensures GoneHome(before, after[n := Home(after[n])], n + 1)
  {
  }

  lemma ReturningOne(s: State, n: nat)
    requires Shaped(s) && n > 0
    ensures Returning(s, n) == Next(Next(Returning(s, n - 1), Wake(n - 1)), GiveBack(n - 1))
    ensures Returning(s, 0) == s && GoneHome(s.callers, s.callers, 0)
    ensures s.queue == [] && s.inFlight == [] ==> !Pending(s, n - 1)
  {
    hide Next;
  }

  lemma {:induction false} ReturningOk(s: State, n: nat)
    requires Inv(s) && s.queue == [] && s.inFlight == [] && n <= |s.chains|
    ensures Shaped(s) && var t := Returning(s, n);
      Inv(t) && t.taken == s.taken && t.queue == [] && t.inFlight == [] && GoneHome(s.callers, t.callers, n)
  {
    hide *;
    InvShaped(s);
    ReturningOne(s, if n == 0 then 1 else n);
    if n > 0 {
      ReturningOk(s, n - 1);
      var t := Returning(s, n - 1);
      ReturningOne(t, n);
      WakesAndReturns(t, n - 1);
      SameLengths(t);
      OneMoreHome(s.callers, t.callers, n - 1);
    }
  }

  lemma SameLengths(s: State)
    requires Shaped(s)
    ensures |s.callers| == |s.chains|
  {
  }

  /** Whoever had let go may be rid of his chain; nobody else does anything. */
  predicate LetGoOnly(before: seq<Caller>, after: seq<Caller>) {
    |before| == |after|
    && forall c :: 0 <= c < |after| ==> after[c] == before[c] || (before[c] == Gone && after[c] == Nobody)
  }

  lemma CompleteCallers(s: State, a: nat)
    requires Inv(s) && a < |s.chains| && a in s.inFlight
    ensures var t := Next(s, Complete(a)); t.taken == s.taken && LetGoOnly(s.callers, t.callers)
  {
    assert ChainOk(s, a);
    hide Inv, ListOf;
  }

  lemma LetGoTwice(a: seq<Caller>, b: seq<Caller>, c: seq<Caller>)
    requires LetGoOnly(a, b) && LetGoOnly(b, c)
    ensures LetGoOnly(a, c) && LetGoOnly(a, a)
  {
  }

  lemma DrainOne(s: State, k: nat)
    requires Inv(s) && k > 0 && s.inFlight != []
    ensures Shaped(s) && var a := s.inFlight[0];
      a < |s.chains| && Drain(s, k) == Drain(Next(s, Complete(a)), k - 1)
  {
    hide Next, ChainOk, ListOf;
  }

  lemma DrainNone(s: State, k: nat)
    requires Shaped(s) && (k == 0 || s.inFlight == [])
    ensures Drain(s, k) == s && LetGoOnly(s.callers, s.callers)
  {
  }

  lemma {:induction false} DrainCallers(s: State, k: nat)
    requires Inv(s)
    ensures Shaped(s) && var t := Drain(s, k);
      Inv(t) && |t.chains| == |s.chains| && t.taken == s.taken && LetGoOnly(s.callers, t.callers)
    decreases k
  {
    hide *;
    InvShaped(s);
    if k > 0 && s.inFlight != [] {
      var a := s.inFlight[0];
      DrainOne(s, k);
      CompleteOk(s, a);
      CompleteCallers(s, a);
      var t := Next(s, Complete(a));
      DrainCallers(t, k - 1);
      LetGoTwice(s.callers, t.callers, Drain(s, k).callers);
    } else {
      DrainNone(s, k);
    }
  }

  /** The completions of all that is pending, then everybody who waits goes on. */
  function Served(s: State): (t: State)
    requires Shaped(s)
    ensures Shaped(t)
  {
    DrainShaped(s, |s.queue| + |s.inFlight|);
    Returning(Drain(s, |s.queue| + |s.inFlight|), |s.chains|)
  }

  lemma {:induction false} DrainShaped(s: State, k: nat)
    requires Shaped(s)
    ensures Shaped(Drain(s, k)) && |Drain(s, k).chains| == |s.chains|
    decreases k
  {
    hide Next;
    if k > 0 && s.inFlight != [] { DrainShaped(Next(s, Complete(s.inFlight[0])), k - 1); }
  }

  /** A chain that has come back. */
  predicate Back(t: State, c: nat)
    requires Shaped(t)
  {
    c < |t.chains| && c in t.free && t.callers[c] == Nobody && t.returned[c] == t.taken[c]
  }

  lemma NobodysIsBack(t: State, c: nat)
    requires Inv(t) && c < |t.chains| && t.callers[c] == Nobody
    ensures Back(t, c)
  {
    assert ChainOk(t, c);
  }

  lemma NobodyIsGone(t: State, c: nat)
    requires Inv(t) && c < |t.chains| && t.queue == [] && t.inFlight == []
    ensures t.callers[c] != Gone
  {
    assert ChainOk(t, c);
  }

  /** Then every chain is back but those whose callers have not asked for anything yet, or neither wait nor have let
      go. */
  lemma ServedReturns(s: State)
    requires Inv(s)
    ensures Shaped(s) && var t := Served(s);
      Inv(t) && |t.chains| == |s.chains| && t.taken == s.taken
      && forall c :: 0 <= c < |s.chains| ==>
        if s.callers[c] == Preparing || s.callers[c] == Holding then t.callers[c] == s.callers[c] else Back(t, c)
  {
    hide *;
    InvShaped(s);
    var d, t := Drain(s, |s.queue| + |s.inFlight|), Served(s);
    DrainServes(s);
    DrainCallers(s, |s.queue| + |s.inFlight|);
    ServedIs(s);
    ReturningOk(d, |d.chains|);
    InvShaped(t);
    SameLengths(s);
    forall c: nat | c < |s.chains|
      ensures if s.callers[c] == Preparing || s.callers[c] == Holding then t.callers[c] == s.callers[c] else Back(t, c)
    {
      NobodyIsGone(d, c);
      AfterAll(s.callers, d.callers, t.callers, c);
      if t.callers[c] == Nobody { NobodysIsBack(t, c); }
    }
  }

  lemma ServedIs(s: State)
    requires Inv(s)
    ensures Shaped(s) && var d := Drain(s, |s.queue| + |s.inFlight|);
      Shaped(d) && |d.chains| == |s.chains| && |d.callers| == |d.chains| && Served(s) == Returning(d, |d.chains|)
  {
    InvShaped(s);
    DrainShaped(s, |s.queue| + |s.inFlight|);
    hide Inv, Drain, Returning;
  }

  lemma AfterAll(before: seq<Caller>, between: seq<Caller>, after: seq<Caller>, c: nat)
    requires LetGoOnly(before, between) && GoneHome(between, after, |between|) && c < |before| && between[c] != Gone
    ensures c < |after| && after[c] == if before[c] == Preparing || before[c] == Holding then before[c] else Nobody
  {
  }

  /** The callers of the first n chains do what is left to do: they queue what they prepare, and wait or let go. */
  function Asking(s: State, n: nat, waits: nat -> bool): (t: State)
    requires Shaped(s)
    ensures Shaped(t) && |t.chains| == |s.chains|
  {
    if n == 0 then s
    else
      var t := Next(Asking(s, n - 1, waits), Enqueue(n - 1, true, true));
      Next(t, if waits(n - 1) then Wait(n - 1) else LetGo(n - 1))
  }

  predicate Undecided(c: Caller) { c == Preparing || c == Holding }

  lemma AsksFirst(s: State, c: nat)
    requires Shaped(s) && c < |s.chains|
    ensures var t := Next(s, Enqueue(c, true, true));
      t.taken == s.taken && t.callers == s.callers[c := if s.callers[c] == Preparing then Holding else s.callers[c]]
  {
    hide StartNext;
    assert forall t: State :: StartNext(t).callers == t.callers && StartNext(t).taken == t.taken by { StartsOnly(); }
  }

  lemma StartsOnly()
    ensures forall t: State :: StartNext(t).callers == t.callers && StartNext(t).taken == t.taken
  {
  }

  lemma AsksThen(s: State, c: nat, wait: bool)
    requires Inv(s) && c < |s.chains| && s.callers[c] != Preparing
    ensures var t := Next(s, if wait then Wait(c) else LetGo(c));
      t.taken == s.taken && |t.callers| == |s.callers| && !Undecided(t.callers[c])
      && forall o :: 0 <= o < |s.chains| && o != c ==> t.callers[o] == s.callers[o]
  {
    assert ChainOk(s, c);
    hide Inv;
  }

  /** Nobody is undecided about one of the first n chains. */
  predicate Decided(callers: seq<Caller>, n: nat) {
    n <= |callers| && forall c :: 0 <= c < n ==> !Undecided(callers[c])
  }

  lemma AskingStep(s: State, c: nat, wait: bool)
    requires Inv(s) && c < |s.chains| && Decided(s.callers, c)
    ensures Shaped(s) && var t := Next(Next(s, Enqueue(c, true, true)), if wait then Wait(c) else LetGo(c));
      Inv(t) && t.taken == s.taken && Decided(t.callers, c + 1)
  {
    hide *;
    InvShaped(s);
    var u := Next(s, Enqueue(c, true, true));
    var step := if wait then Wait(c) else LetGo(c);
    EnqueueProper(c, step);
    AsksFirst(s, c);
    NextOk(s, Enqueue(c, true, true));
    AsksThen(u, c, wait);
    NextOk(u, step);
    SameLengths(s);
    OneMoreDecided(s.callers, u.callers, Next(u, step).callers, c);
  }

  lemma EnqueueProper(c: nat, step: Step)
    requires !step.Enqueue?
    ensures Proper(Enqueue(c, true, true)) && Proper(step)
  {
  }

  lemma OneMoreDecided(before: seq<Caller>, between: seq<Caller>, after: seq<Caller>, c: nat)
    requires Decided(before, c) && c < |before| == |between| == |after| && !Undecided(after[c])
    requires forall o :: 0 <= o < c ==> between[o] == before[o] && after[o] == between[o]
    ensures Decided(after, c + 1)
  {
  }

  lemma AskingOne(s: State, n: nat, waits: nat -> bool)
    requires Shaped(s)
    ensures n == 0 ==> Asking(s, n, waits) == s
    ensures n > 0 ==>
      var t := Next(Asking(s, n - 1, waits), Enqueue(n - 1, true, true));
      Asking(s, n, waits) == Next(t, if waits(n - 1) then Wait(n - 1) else LetGo(n - 1))
  {
    hide Next;
  }

  lemma {:induction false} AskingOk(s: State, n: nat, waits: nat -> bool)
    requires Inv(s) && n <= |s.chains|
    ensures Shaped(s) && var t := Asking(s, n, waits); Inv(t) && t.taken == s.taken && Decided(t.callers, n)
  {
    hide *;
    InvShaped(s);
    AskingOne(s, n, waits);
    if n == 0 {
      NoneUndecided(s.callers);
    } else {
      AskingOk(s, n - 1, waits);
      AskingStep(Asking(s, n - 1, waits), n - 1, waits(n - 1));
    }
  }

  lemma NoneUndecided(callers: seq<Caller>)
    ensures Decided(callers, 0)
  {
  }

  /** Whatever state the chains are in: when all who have one queue it, and wait or let go as they like, then the
      transfers that are pending complete and all who wait go on, the pool is full again. */
  lemma FullAgain(s: State, waits: nat -> bool)
    requires Inv(s)
    ensures Shaped(s) && var t := Served(Asking(s, |s.chains|, waits));
      Inv(t) && |t.chains| == |s.chains| && t.taken == s.taken && forall c :: 0 <= c < |s.chains| ==> Back(t, c)
  {
    InvShaped(s);
    AskingOk(s, |s.chains|, waits);
    hide Inv, Served, Back, Asking;
    ServedReturns(Asking(s, |s.chains|, waits));
  }

  // ----- what dma_initiate needs of its callers

  /** The assertion in dma_free has not failed, and no chain is on the free list while a caller has it. */
  predicate Good(s: State)
    requires Shaped(s)
  {
    s.asserted && forall c :: 0 <= c < |s.chains| && c in s.free ==> s.callers[c] == Nobody
  }

  predicate AlwaysGood(s: State, steps: seq<Step>)
    requires Shaped(s)
    decreases |steps|
  {
    Good(s) && (steps != [] ==> AlwaysGood(Next(s, steps[0]), steps[1..]))
  }

  // ----- runs in which callers leave out a source or a destination

  /** The chain is queued or being transferred, and its caller has not let go of it. */
  predicate UnderWay(s: State, c: nat)
    requires Shaped(s) && c < |s.chains|
  {
    Pending(s, c) && (s.callers[c] == Holding || s.callers[c] == Waiting)
  }

  /** Without a source the transfer completes while its caller holds the chain, or without a destination the caller
      lets go before it completes. */
  predicate GoesWrong(s: State, step: Step)
    requires Shaped(s)
  {
    || (step.Complete? && step.c < |s.chains| && step.c in s.inFlight && UnderWay(s, step.c) && !s.chains[step.c].src)
    || (step.LetGo? && step.c < |s.chains| && s.callers[step.c] == Holding && UnderWay(s, step.c)
        && !s.chains[step.c].dest)
  }

  predicate EverWrong(s: State, steps: seq<Step>)
    requires Shaped(s)
    decreases |steps|
  {
    steps != [] && (GoesWrong(s, steps[0]) || EverWrong(Next(s, steps[0]), steps[1..]))
  }

  /** What the chain would be if it had been queued with a source and a destination. */
  function Mend(s: State, c: nat): Chain
    requires Shaped(s) && c < |s.chains|
  {
    if UnderWay(s, c) then s.chains[c].(src := true, dest := true) else s.chains[c]
  }

  function Mended(s: State): State
    requires Shaped(s)
  {
    s.(chains := seq(|s.chains|, c requires 0 <= c < |s.chains| => Mend(s, c)))
  }

  function WithBoth(step: Step): Step { if step.Enqueue? then Enqueue(step.c, true, true) else step }

  /** But for sources and destinations of chains under way all is in order. */
  ghost predicate Sound(s: State) { Shaped(s) && Inv(Mended(s)) }

  lemma SoundChain(s: State, c: nat)
    requires Sound(s) && c < |s.chains|
    ensures ChainOk(Mended(s), c)
  {
  }

  lemma SoundLists(s: State)
    requires Sound(s)
    ensures s.free != [] ==> s.freeHead == s.free[0] < |s.chains|
    ensures s.queue != [] ==> s.queueHead == s.queue[0] < |s.chains|
    ensures |s.inFlight| == (if s.transferring then 1 else 0) && (s.queue != [] ==> s.transferring)
    ensures s.asserted
  {
  }

  lemma SoundGood(s: State)
    requires Sound(s)
    ensures Good(s)
  {
    SoundLists(s);
    forall c | 0 <= c < |s.chains| && c in s.free ensures s.callers[c] == Nobody { SoundChain(s, c); }
  }

  lemma InvSound(s: State)
    requires Inv(s)
    ensures Sound(s)
  {
    forall c | 0 <= c < |s.chains| ensures Mend(s, c) == s.chains[c] { assert ChainOk(s, c); }
    assert Mended(s).chains == s.chains;
  }

  lemma MendedStart(s: State, t: State)
    requires Shaped(s) && t == Mended(s) && (s.queue != [] ==> s.queueHead == s.queue[0])
    ensures StartNext(t) == Mended(StartNext(s))
  {
    if 0 <= s.queueHead < |s.chains| && s.queue != [] {
      var u := StartNext(s);
      assert s.queue == [s.queueHead] + s.queue[1..];
      forall c | 0 <= c < |s.chains| ensures Mend(u, c) == Mend(s, c) {
        assert Pending(s, c) <==> Pending(u, c);
      }
      assert StartNext(t).chains == Mended(u).chains;
    }
  }

  lemma MendedAlloc(s: State)
    requires Sound(s)
    ensures Next(Mended(s), Alloc) == Mended(Next(s, Alloc))
  {
    SoundLists(s);
    if s.free != [] {
      SoundChain(s, s.freeHead);
      hide Inv;
      assert Next(Mended(s), Alloc).chains == Mended(Next(s, Alloc)).chains;
    }
  }

  lemma MendedEnqueue(s: State, a: nat, src: bool, dest: bool)
    requires Sound(s)
    ensures Next(Mended(s), Enqueue(a, true, true)) == Mended(Next(s, Enqueue(a, src, dest)))
  {
    if a < |s.chains| && s.callers[a] == Preparing {
      SoundLists(s);
      hide Inv;
      var m := Mended(s);
      var t := s.(chains := s.chains[a := s.chains[a].(src := src, dest := dest, next := s.queueHead)],
                  queueHead := a, queue := [a] + s.queue, callers := s.callers[a := Holding]);
      var u := m.(chains := m.chains[a := m.chains[a].(src := true, dest := true, next := m.queueHead)],
                  queueHead := a, queue := [a] + m.queue, callers := m.callers[a := Holding]);
      forall c | 0 <= c < |s.chains| ensures Mend(t, c) == u.chains[c] {
        assert c in t.queue <==> c == a || c in s.queue;
      }
      assert u.chains == Mended(t).chains;
      MendedStart(t, u);
      hide StartNext;
    }
  }

  lemma MendedFree(s: State, a: nat)
    requires Shaped(s) && a < |s.chains| && !UnderWay(s, a)
    ensures FreeChain(Leave(Mended(s), a), a) == Mended(FreeChain(Leave(s, a), a))
  {
    var t, u := FreeChain(Leave(s, a), a), FreeChain(Leave(Mended(s), a), a);
    forall c | 0 <= c < |s.chains| ensures Mend(t, c) == u.chains[c] {}
    assert u.chains == Mended(t).chains;
  }

  lemma SignalledMends(s: State, a: nat, t: State)
    requires Shaped(s) && a < |s.chains| && s.inFlight == [a] && a !in s.queue && s.chains[a].src
    requires t == s.(chains := s.chains[a := s.chains[a].(sema := s.chains[a].sema + 1, dest := false)],
                     transferring := false, inFlight := [])
    ensures forall c :: 0 <= c < |s.chains| ==> Mend(t, c) == if c == a then t.chains[a] else Mend(s, c)
  {
  }

  lemma MendedSignalled(s: State, a: nat)
    requires Sound(s) && a < |s.chains| && a in s.inFlight && s.chains[a].src
    ensures Finished(Mended(s), a).(transferring := false, inFlight := [])
      == Mended(Finished(s, a).(transferring := false, inFlight := []))
  {
    SoundLists(s);
    SoundChain(s, a);
    WithoutOnly(s.inFlight, a);
    var t := Finished(s, a).(transferring := false, inFlight := []);
    SignalledMends(s, a, t);
    assert Mended(s).chains[a].(dest := false) == s.chains[a].(dest := false);
    hide Inv, FreeChain, Mend, ChainOk, UnderWay;
    assert Finished(Mended(s), a).chains == Mended(t).chains;
  }

  lemma IdleMends(s: State, a: nat)
    requires Shaped(s) && a < |s.chains| && s.inFlight == [a] && s.callers[a] == Gone
    ensures Mended(s.(transferring := false, inFlight := [])) == Mended(s).(transferring := false, inFlight := [])
    ensures Mended(s).chains[a] == s.chains[a]
  {
    var idle := s.(transferring := false, inFlight := []);
    forall c | 0 <= c < |s.chains| ensures Mend(idle, c) == Mend(s, c) {}
    assert Mended(idle).chains == Mended(s).chains;
  }

  lemma MendedReleased(s: State, a: nat)
    requires Sound(s) && a < |s.chains| && a in s.inFlight && !s.chains[a].src && s.callers[a] == Gone
    ensures Finished(Mended(s), a).(transferring := false, inFlight := [])
      == Mended(Finished(s, a).(transferring := false, inFlight := []))
  {
    SoundLists(s);
    WithoutOnly(s.inFlight, a);
    IdleMends(s, a);
    MendedFree(s.(transferring := false, inFlight := []), a);
    assert Mended(s).callers == s.callers;
    hide Inv, Mended;
  }

  lemma MendedFinished(s: State, a: nat)
    requires Sound(s) && a < |s.chains| && a in s.inFlight && !GoesWrong(s, Complete(a))
    ensures Finished(Mended(s), a).(transferring := false, inFlight := [])
      == Mended(Finished(s, a).(transferring := false, inFlight := []))
  {
    SoundChain(s, a);
    hide Inv, FreeChain, Finished, Mended;
    if s.chains[a].src { MendedSignalled(s, a); } else { MendedReleased(s, a); }
  }

  lemma MendedComplete(s: State, a: nat)
    requires Sound(s) && !GoesWrong(s, Complete(a))
    ensures Next(Mended(s), Complete(a)) == Mended(Next(s, Complete(a)))
  {
    if a < |s.chains| && a in s.inFlight {
      SoundLists(s);
      WithoutOnly(s.inFlight, a);
      MendedFinished(s, a);
      FinishedQueue(s, a);
      hide Inv, Finished, StartNext;
      var t := Finished(s, a).(transferring := false, inFlight := []);
      MendedStart(t, Mended(t));
    }
  }

  lemma FinishedQueue(s: State, a: nat)
    requires Shaped(s) && a < |s.chains|
    ensures Finished(s, a).queue == s.queue && Finished(s, a).queueHead == s.queueHead
  {
  }

  lemma MendedWait(s: State, a: nat)
    requires Sound(s)
    ensures Next(Mended(s), Wait(a)) == Mended(Next(s, Wait(a)))
    ensures Next(Mended(s), Wake(a)) == Mended(Next(s, Wake(a)))
  {
    if a < |s.chains| {
      SoundChain(s, a);
      hide Inv;
      assert Next(Mended(s), Wait(a)).chains == Mended(Next(s, Wait(a))).chains;
      assert Next(Mended(s), Wake(a)).chains == Mended(Next(s, Wake(a))).chains;
    }
  }

  lemma MendedGiveBack(s: State, a: nat)
    requires Shaped(s)
    ensures Next(Mended(s), GiveBack(a)) == Mended(Next(s, GiveBack(a)))
  {
    if a < |s.chains| && s.callers[a] == Woken { MendedFree(s, a); }
    hide FreeChain;
  }

  lemma MendedLetGo(s: State, a: nat)
    requires Sound(s) && !GoesWrong(s, LetGo(a))
    ensures Next(Mended(s), LetGo(a)) == Mended(Next(s, LetGo(a)))
  {
    if a < |s.chains| && s.callers[a] == Holding {
      SoundChain(s, a);
      hide Inv;
      var m := Mended(s);
      var t := s.(chains := s.chains[a := s.chains[a].(src := false)], callers := s.callers[a := Gone]);
      var u := m.(chains := m.chains[a := m.chains[a].(src := false)], callers := m.callers[a := Gone]);
      assert Mended(t).chains == u.chains;
      if !t.chains[a].dest {
        var t1 := t.(chains := t.chains[a := t.chains[a].(sema := t.chains[a].sema - 1)]);
        assert Mended(t1).chains == u.chains[a := u.chains[a].(sema := u.chains[a].sema - 1)];
        MendedFree(t1, a);
        hide FreeChain;
      }
    }
  }

  /** As long as nothing goes wrong, each step goes as it would with sources and destinations. */
  lemma MendedNext(s: State, step: Step)
    requires Sound(s) && !GoesWrong(s, step)
    ensures Next(Mended(s), WithBoth(step)) == Mended(Next(s, step)) && Sound(Next(s, step))
  {
    hide Inv, Next, GoesWrong;
    match step {
      case Alloc => MendedAlloc(s);
      case Enqueue(c, src, dest) => MendedEnqueue(s, c, src, dest);
      case Complete(c) => MendedComplete(s, c);
      case Wait(c) => MendedWait(s, c);
      case Wake(c) => MendedWait(s, c);
      case GiveBack(c) => MendedGiveBack(s, c);
      case LetGo(c) => MendedLetGo(s, c);
    }
    NextOk(Mended(s), WithBoth(step));
  }

  /** And what goes wrong is seen at once. */
  lemma WrongBad(s: State, step: Step)
    requires Sound(s) && GoesWrong(s, step)
    ensures !Good(Next(s, step))
  {
    SoundChain(s, step.c);
    hide Inv;
    if step.Complete? { assert step.c in [step.c] + s.free; }
  }

  /** A run in which callers may leave out sources and destinations is good throughout exactly if none is missed: no
      transfer without a source completes while its chain is held, and nobody lets go of a chain without a
      destination before its transfer completes. */
  lemma {:induction false} SoundRun(s: State, steps: seq<Step>)
    requires Sound(s)
    ensures AlwaysGood(s, steps) <==> !EverWrong(s, steps)
    ensures !EverWrong(s, steps) ==> Sound(Run(s, steps))
    decreases |steps|
  {
    hide Sound, Next, Good, GoesWrong, Mended;
    SoundShaped(s);
    SoundGood(s);
    if steps != [] {
      if GoesWrong(s, steps[0]) {
        WrongBad(s, steps[0]);
        BadNow(Next(s, steps[0]), steps[1..]);
      } else {
        MendedNext(s, steps[0]);
        SoundRun(Next(s, steps[0]), steps[1..]);
      }
    }
  }

  lemma SoundShaped(s: State)
    requires Sound(s)
    ensures Shaped(s)
  {
  }

  lemma BadNow(s: State, steps: seq<Step>)
    requires Shaped(s) && !Good(s)
    ensures !AlwaysGood(s, steps)
  {
  }

  lemma {:induction false} ProperNeverWrong(s: State, steps: seq<Step>)
    requires Inv(s) && forall i :: 0 <= i < |steps| ==> Proper(steps[i])
    ensures !EverWrong(s, steps)
    decreases |steps|
  {
    if steps != [] {
      if GoesWrong(s, steps[0]) { ChainHolds(s, steps[0].c); }
      hide Inv, Next, GoesWrong;
      InvShaped(s);
      NextOk(s, steps[0]);
      ProperNeverWrong(Next(s, steps[0]), steps[1..]);
    }
  }

  /** So it is from the start. */
  lemma RunGoodIff(n: nat, steps: seq<Step>)
    ensures AlwaysGood(Start(n), steps) <==> !EverWrong(Start(n), steps)
  {
    StartInv(n);
    InvSound(Start(n));
    SoundRun(Start(n), steps);
  }

  /** Whatever the interleaving, as long as no missing source or destination is missed: at most one transfer is under
      way, a queue means there is one, each chain has come back once for every time it was taken but the last if it is
      still in use, a chain on the free list has semaphore 0 and is neither queued nor transferred, and the assertion
      in dma_free never fails. */
  lemma RunSafe(n: nat, steps: seq<Step>, c: nat)
    requires !EverWrong(Start(n), steps) && c < n
    ensures var s := Run(Start(n), steps);
      |s.inFlight| <= 1 && (s.queue != [] ==> |s.inFlight| == 1) && s.asserted && |s.chains| == n
      && s.taken[c] == s.returned[c] + (if c in s.free then 0 else 1)
      && (c in s.free ==> s.chains[c].sema == 0 && c !in s.queue && c !in s.inFlight)
  {
    StartInv(n);
    InvSound(Start(n));
    SoundRun(Start(n), steps);
    SoundLists(Run(Start(n), steps));
    SoundChain(Run(Start(n), steps), c);
  }

  lemma ChainHolds(s: State, a: nat)
    requires Inv(s) && a < |s.chains|
    ensures ChainOk(s, a)
  {
  }

  /** A chain that is being transferred without a source goes wrong when it completes. */
  lemma CompletesNow(s: State, a: nat)
    requires Sound(s) && a < |s.chains| && a in s.inFlight && s.callers[a] == Holding && !s.chains[a].src
    ensures !AlwaysGood(s, [Complete(a)])
  {
    hide Sound, Next, AlwaysGood;
    SoundRun(s, [Complete(a)]);
  }

  /** One that is first in the queue is transferred next. */
  lemma CompletesNext(s: State, a: nat, b: nat)
    requires Sound(s) && a < |s.chains| && s.queue != [] && s.queue[0] == a && s.callers[a] == Holding
    requires !s.chains[a].src
    requires b in s.inFlight && b < |s.chains| && a != b && !GoesWrong(s, Complete(b))
    ensures !AlwaysGood(s, [Complete(b), Complete(a)])
  {
    var steps := [Complete(b), Complete(a)];
    MendedNext(s, Complete(b));
    NextStarted(s, a, b);
    hide Sound, Next, Good, GoesWrong;
    CompletesNow(Next(s, Complete(b)), a);
    assert steps[1..] == [Complete(a)];
  }

  lemma NextStarted(s: State, a: nat, b: nat)
    requires Sound(s) && a < |s.chains| && s.queue != [] && s.queue[0] == a && s.callers[a] == Holding
    requires !s.chains[a].src
    requires b in s.inFlight && b < |s.chains| && a != b
    ensures var t := Next(s, Complete(b)); a in t.inFlight && t.callers[a] == Holding && !t.chains[a].src
  {
    SoundLists(s);
    FinishedOther(s, a, b);
    hide Inv, Finished;
  }

  lemma FinishedOther(s: State, a: nat, b: nat)
    requires Shaped(s) && a < |s.chains| && b < |s.chains| && a != b
    ensures var t := Finished(s, b);
      t.queue == s.queue && t.queueHead == s.queueHead && |t.chains| == |s.chains|
      && t.callers[a] == s.callers[a] && t.chains[a].src == s.chains[a].src
  {
  }

  lemma EnqueuedFirst(s: State, a: nat, src: bool, dest: bool)
    requires Inv(s) && a < |s.chains| && s.callers[a] == Preparing
    ensures var t := Next(s, Enqueue(a, src, dest));
      t.callers[a] == Holding && t.chains[a].src == src
      && if s.transferring then t.queue == [a] + s.queue && t.inFlight == s.inFlight else t.inFlight == [a]
  {
  }

  lemma EnqueuedBehind(s: State, a: nat, src: bool, dest: bool, b: nat)
    requires Inv(s) && a < |s.chains| && s.callers[a] == Preparing && s.transferring && b in s.inFlight
    ensures b < |s.chains| && a != b && !GoesWrong(Next(s, Enqueue(a, src, dest)), Complete(b))
  {
    ChainHolds(s, a);
    ChainHolds(s, b);
    hide Inv;
  }

  /** Some run completes a queued chain while it is held: at once, or after the transfer that is under way. */
  lemma CompletesHeld(s: State, a: nat, dest: bool) returns (steps: seq<Step>)
    requires Inv(s) && a < |s.chains| && s.callers[a] == Preparing
    ensures !AlwaysGood(Next(s, Enqueue(a, false, dest)), steps)
    ensures forall i :: 0 <= i < |steps| ==> Proper(steps[i])
  {
    var t := Next(s, Enqueue(a, false, dest));
    SoundEnqueued(s, a, false, dest);
    EnqueuedFirst(s, a, false, dest);
    if s.transferring {
      var b := s.inFlight[0];
      EnqueuedBehind(s, a, false, dest, b);
      steps := [Complete(b), Complete(a)];
      hide Inv, Sound, Next, AlwaysGood, GoesWrong;
      CompletesNext(t, a, b);
    } else {
      steps := [Complete(a)];
      hide Inv, Sound, Next, AlwaysGood;
      CompletesNow(t, a);
    }
  }

  lemma SoundEnqueued(s: State, a: nat, src: bool, dest: bool)
    requires Inv(s)
    ensures Sound(Next(s, Enqueue(a, src, dest)))
  {
    InvSound(s);
    hide Inv, Sound, Next;
    MendedNext(s, Enqueue(a, src, dest));
  }

  /** Callers may do what they like after queuing a chain exactly when they named a source and a destination. */
  lemma EnqueueIff(s: State, a: nat, src: bool, dest: bool)
    requires Inv(s) && a < |s.chains| && s.callers[a] == Preparing
    ensures (forall steps: seq<Step> :: (forall i :: 0 <= i < |steps| ==> Proper(steps[i])) ==>
      AlwaysGood(Next(s, Enqueue(a, src, dest)), steps)) <==> src && dest
  {
    var t := Next(s, Enqueue(a, src, dest));
    if src && dest {
      EnqueueOk(s, a);
      forall steps: seq<Step> | forall i :: 0 <= i < |steps| ==> Proper(steps[i]) ensures AlwaysGood(t, steps) {
        InvSound(t);
        ProperNeverWrong(t, steps);
        SoundRun(t, steps);
      }
    } else if !src {
      var steps := CompletesHeld(s, a, dest);
    } else {
      LetsGoFirst(s, a, src);
      assert forall i :: 0 <= i < 1 ==> Proper([LetGo(a)][i]);
    }
  }

  lemma LetsGoFirst(s: State, a: nat, src: bool)
    requires Inv(s) && a < |s.chains| && s.callers[a] == Preparing
    ensures !AlwaysGood(Next(s, Enqueue(a, src, false)), [LetGo(a)])
  {
    var t := Next(s, Enqueue(a, src, false));
    SoundEnqueued(s, a, src, false);
    EnqueuedFirst(s, a, src, false);
    assert t.chains[a].dest == false;
    hide Inv, Sound, Next, AlwaysGood;
    SoundRun(t, [LetGo(a)]);
  }

  /** Without a source the chain is back on the free list, and given out again, while its caller still holds it. */
  lemma NoSourceFails()
    ensures var s := Run(Start(1), [Alloc, Enqueue(0, false, true), Complete(0)]);
      0 in s.free && s.callers[0] == Holding && Next(s, Alloc).taken[0] == 2 && Next(s, Alloc).callers[0] == Preparing
  {
    var s0 := Start(1);
    var s1 := Next(s0, Alloc);
    var s2 := Next(s1, Enqueue(0, false, true));
    var s3 := Next(s2, Complete(0));
    assert Run(s3, []) == s3;
    assert [Alloc, Enqueue(0, false, true), Complete(0)][1..] == [Enqueue(0, false, true), Complete(0)];
    assert [Enqueue(0, false, true), Complete(0)][1..] == [Complete(0)];
    assert [Complete(0)][1..] == [];
    assert Run(s2, [Complete(0)]) == s3;
  }

  /** Without a destination letting go before completion is taken for letting go after it. */
  lemma NoDestinationFails()
    ensures !Run(Start(1), [Alloc, Enqueue(0, true, false), LetGo(0)]).asserted
  {
    var s0 := Start(1);
    var s1 := Next(s0, Alloc);
    var s2 := Next(s1, Enqueue(0, true, false));
    var s3 := Next(s2, LetGo(0));
    assert [Alloc, Enqueue(0, true, false), LetGo(0)][1..] == [Enqueue(0, true, false), LetGo(0)];
    assert [Enqueue(0, true, false), LetGo(0)][1..] == [LetGo(0)];
    assert [LetGo(0)][1..] == [];
    assert Run(s2, [LetGo(0)]) == s3;
  }

  // ----- a build without assertions

  /** dma_free when assertions are compiled out, and with them the sem_trywait inside one. */
  function LetGoUnchecked(s: State, c: nat): State
    requires Shaped(s)
  {
    if c < |s.chains| && s.callers[c] == Holding && !s.chains[c].dest then
      FreeChain(Leave(s.(chains := s.chains[c := s.chains[c].(src := false)]), c), c)
    else Next(s, LetGo(c))
  }

  /** The next one to take that chain queues a transfer and waits for it, as far as his waking up. */
  function NextTaker(s: State, c: nat): State
    requires Shaped(s)
  {
    Next(Next(Next(Next(s, Alloc), Enqueue(c, true, true)), Wait(c)), Wake(c))
  }

  /** Whoever lets go of a chain after completion leaves its semaphore signalled in such a build, and the next one to
      take it does not wait for his transfer. With assertions he does. */
  lemma UncheckedWakesEarly(s: State, a: nat)
    requires Inv(s) && a < |s.chains| && s.callers[a] == Holding && !Pending(s, a)
    ensures var t := NextTaker(LetGoUnchecked(s, a), a); t.callers[a] == Woken && Pending(t, a)
    ensures var t := NextTaker(Next(s, LetGo(a)), a); t.callers[a] == Waiting && Pending(t, a)
  {
    assert ChainOk(s, a);
    hide ListOf, ChainOk;
    TakenAgain(LetGoUnchecked(s, a), a);
    TakenAgain(Next(s, LetGo(a)), a);
  }

  lemma TakenAgain(s: State, a: nat)
    requires Shaped(s) && a < |s.chains| && s.freeHead == a && s.free != []
    ensures var t := NextTaker(s, a);
      Pending(t, a) && t.callers[a] == if s.chains[a].sema > 0 then Woken else Waiting
  {
    var t := Next(s, Alloc);
    assert t.callers[a] == Preparing && t.chains[a].sema == s.chains[a].sema;
    var u := Next(t, Enqueue(a, true, true));
    assert u.callers[a] == Holding && u.chains[a].sema == s.chains[a].sema;
    assert Pending(u, a);
  }
}
