/** Reference counts of display lists: a list lives as long as somebody outside, or a command of a live list, refers
    to it. */
module DisplayRefs {
  import opened Common

  /** A list's count and the lists that its commands render, in order. */
  datatype Entry = Entry(refcount: int, subs: seq<nat>)

  /** The lists that are linked in, the memory they are in, and how often each is referred to from outside. */
  datatype State = State(lists: seq<nat>, table: map<nat, Entry>, outside: map<nat, nat>)

  /** Lists have gone, and those that are left keep their commands. */
  ghost predicate Shrunk(s: State, t: State) {
    && t.outside == s.outside
    && (forall l :: l in t.table ==> l in s.table && t.table[l].subs == s.table[l].subs)
    && (forall l :: l in t.lists ==> l in s.lists)
    && |t.lists| <= |s.lists|
  }

  function Without(lists: seq<nat>, l: nat): seq<nat> {
    if lists == [] then [] else if lists[0] == l then lists[1..] else [lists[0]] + Without(lists[1..], l)
  }

  lemma {:induction false} WithoutIn(lists: seq<nat>, l: nat)
    ensures forall x :: x in Without(lists, l) ==> x in lists
    ensures |Without(lists, l)| == if l in lists then |lists| - 1 else |lists|
  {
    if lists != [] { WithoutIn(lists[1..], l); }
  }

  function CountDown(s: State, l: nat): State
    requires l in s.table
  {
    s.(table := s.table[l := s.table[l].(refcount := s.table[l].refcount - 1)])
  }

  /** One reference less; the last one takes the list away with all its commands refer to. It leaves the lists before
      its commands are given up, so the descent ends also when sub-lists form circles. */
  ghost function Deref(s: State, l: nat): (t: State)
    ensures Shrunk(s, t)
    decreases |s.lists|, 0, 0
  {
    if l !in s.lists || l !in s.table then s
    else
      var s1 := CountDown(s, l);
      if s1.table[l].refcount > 0 then s1
      else
        WithoutIn(s1.lists, l);
        var s2 := s1.(lists := Without(s1.lists, l));
        var s3 := Release(s2, s2.table[l].subs);
        if l in s3.table && s3.table[l].refcount == 0 then s3.(table := s3.table - {l}) else s3
  }

  /** The references of commands are given up in order. */
  ghost function Release(s: State, subs: seq<nat>): (t: State)
    ensures Shrunk(s, t)
    decreases |s.lists|, 1, |subs|
  {
    if subs == [] then s else Release(Deref(s, subs[0]), subs[1..])
  }

  // ----- what a count is made of

  function Subs(s: State, l: nat): seq<nat> { if l in s.table then s.table[l].subs else [] }

  /** How often the commands of the lists refer to a list; hidden lists are left out. */
  function Total(s: State, lists: seq<nat>, hidden: set<nat>, x: nat): nat {
    if lists == [] then 0
    else (if lists[0] in hidden then 0 else multiset(Subs(s, lists[0]))[x]) + Total(s, lists[1..], hidden, x)
  }

  function Outside(s: State, x: nat): nat { if x in s.outside then s.outside[x] else 0 }

  /** The count of a linked list is made of the references from outside, from commands, and of those that are being
      given up; to any other list there are none. */
  predicate BalancedAt(s: State, hidden: set<nat>, pending: multiset<nat>, x: nat) {
    if x in s.lists then
      x in s.table && s.table[x].refcount == Outside(s, x) + Total(s, s.lists, hidden, x) + pending[x] > 0
    else
      Outside(s, x) == Total(s, s.lists, hidden, x) == pending[x] == 0
  }

  ghost predicate Balanced(s: State, hidden: set<nat>, pending: multiset<nat>) {
    Distinct(s.lists) && forall x {:trigger BalancedAt(s, hidden, pending, x)} :: BalancedAt(s, hidden, pending, x)
  }

  ghost predicate BalancedBut(s: State, hidden: set<nat>, pending: multiset<nat>, l: nat) {
    forall x {:trigger BalancedAt(s, hidden, pending, x)} :: x != l ==> BalancedAt(s, hidden, pending, x)
  }

  lemma FirstDistinct(x: nat, s: seq<nat>)
    requires Distinct(s) && x !in s
    ensures Distinct([x] + s)
  {
    var t := [x] + s;
    assert forall i :: 0 < i < |t| ==> t[i] == s[i - 1] && s[i - 1] in s;
  }

  lemma {:induction false} WithoutFacts(lists: seq<nat>, l: nat)
    requires Distinct(lists) && l in lists
    ensures Distinct(Without(lists, l)) && forall x :: x in Without(lists, l) <==> x in lists && x != l
  {
    if lists[0] != l {
      WithoutFacts(lists[1..], l);
      assert lists == [lists[0]] + lists[1..];
      FirstDistinct(lists[0], Without(lists[1..], l));
    } else {
      assert lists == [l] + lists[1..];
    }
  }

  lemma {:induction false} TotalWithout(s: State, lists: seq<nat>, hidden: set<nat>, l: nat, x: nat)
    requires l in lists && l !in hidden
    ensures Total(s, lists, hidden, x) == Total(s, Without(lists, l), hidden, x) + multiset(Subs(s, l))[x]
  {
    if lists[0] != l {
      TotalWithout(s, lists[1..], hidden, l, x);
      assert ([lists[0]] + Without(lists[1..], l))[1..] == Without(lists[1..], l);
    }
  }

  lemma {:induction false} TotalSame(s: State, t: State, lists: seq<nat>, hidden: set<nat>, x: nat)
    requires forall l :: l in lists ==> Subs(s, l) == Subs(t, l)
    ensures Total(s, lists, hidden, x) == Total(t, lists, hidden, x)
  {
    if lists != [] {
      assert lists[0] in lists;
      TotalSame(s, t, lists[1..], hidden, x);
    }
  }

  /** Somebody outside refers to them, so they are not among those that go when a reference goes. */
  ghost predicate Kept(s: State, hidden: set<nat>) { forall h :: h in hidden ==> Outside(s, h) > 0 }

  lemma CountedDown(s: State, hidden: set<nat>, pending: multiset<nat>, l: nat, x: nat)
    requires Balanced(s, hidden, pending + multiset{l}) && l in s.lists && l in s.table
    ensures Total(CountDown(s, l), s.lists, hidden, x) == Total(s, s.lists, hidden, x)
    ensures x != l || s.table[l].refcount > 1 ==> BalancedAt(CountDown(s, l), hidden, pending, x)
    ensures s.table[l].refcount - 1 == Outside(s, l) + Total(s, s.lists, hidden, l) + pending[l]
  {
    assert BalancedAt(s, hidden, pending + multiset{l}, x);
    assert BalancedAt(s, hidden, pending + multiset{l}, l);
    TotalSame(s, CountDown(s, l), s.lists, hidden, x);
  }

  lemma CountsDown(s: State, hidden: set<nat>, pending: multiset<nat>, l: nat)
    requires Balanced(s, hidden, pending + multiset{l}) && l in s.lists && l in s.table
    ensures s.table[l].refcount > 1 ==> Balanced(CountDown(s, l), hidden, pending)
    ensures s.table[l].refcount <= 1 ==>
      Outside(s, l) == Total(CountDown(s, l), s.lists, hidden, l) == pending[l] == 0 && s.table[l].refcount == 1
    ensures BalancedBut(CountDown(s, l), hidden, pending, l)
  {
    hide Total;
    CountedDown(s, hidden, pending, l, l);
    forall x ensures x != l || s.table[l].refcount > 1 ==> BalancedAt(CountDown(s, l), hidden, pending, x) {
      CountedDown(s, hidden, pending, l, x);
    }
  }

  lemma InLists(s: State, hidden: set<nat>, pending: multiset<nat>, l: nat)
    requires Balanced(s, hidden, pending) && pending[l] > 0
    ensures l in s.lists && l in s.table
  {
    assert BalancedAt(s, hidden, pending, l);
  }

  lemma IsDistinct(s: State, hidden: set<nat>, pending: multiset<nat>)
    requires Balanced(s, hidden, pending)
    ensures Distinct(s.lists)
  {
  }

  /** A list that nobody refers to any more leaves, and its commands' references are to be given up. */
  lemma Unlinked(s: State, hidden: set<nat>, pending: multiset<nat>, l: nat)
    requires Distinct(s.lists) && l in s.lists && l in s.table && l !in hidden
    requires Outside(s, l) == Total(s, s.lists, hidden, l) == pending[l] == 0
    requires BalancedBut(s, hidden, pending, l)
    ensures Balanced(s.(lists := Without(s.lists, l)), hidden, pending + multiset(s.table[l].subs))
  {
    var t := s.(lists := Without(s.lists, l));
    WithoutFacts(s.lists, l);
    forall x ensures BalancedAt(t, hidden, pending + multiset(s.table[l].subs), x) {
      TotalWithout(s, s.lists, hidden, l, x);
      TotalSame(s, t, t.lists, hidden, x);
      if x != l { assert BalancedAt(s, hidden, pending, x); }
    }
  }

  lemma Dropped(s: State, hidden: set<nat>, pending: multiset<nat>, l: nat)
    requires Balanced(s, hidden, pending) && l !in s.lists
    ensures Balanced(s.(table := s.table - {l}), hidden, pending)
  {
    var t := s.(table := s.table - {l});
    forall x ensures BalancedAt(t, hidden, pending, x) {
      assert BalancedAt(s, hidden, pending, x);
      TotalSame(s, t, s.lists, hidden, x);
    }
  }

  /** Up to where the commands of a list that nobody refers to any more are given up. */
  lemma FirstHalf(s: State, hidden: set<nat>, pending: multiset<nat>, l: nat) returns (s2: State)
    requires Balanced(s, hidden, pending + multiset{l}) && Kept(s, hidden)
    requires l in s.table && s.table[l].refcount <= 1
    ensures l in s.lists && s.table[l].refcount == 1 && l !in s2.lists && |s2.lists| < |s.lists|
    ensures s2 == CountDown(s, l).(lists := Without(s.lists, l))
    ensures Balanced(s2, hidden, pending + multiset(s.table[l].subs)) && Kept(s2, hidden)
  {
    hide Balanced, BalancedAt, BalancedBut, Total, Without;
    InLists(s, hidden, pending + multiset{l}, l);
    CountsDown(s, hidden, pending, l);
    IsDistinct(s, hidden, pending + multiset{l});
    Unlinked(CountDown(s, l), hidden, pending, l);
    WithoutFacts(s.lists, l);
    WithoutIn(s.lists, l);
    s2 := CountDown(s, l).(lists := Without(s.lists, l));
  }

  lemma DerefIs(s: State, l: nat)
    requires l in s.lists && l in s.table
    ensures s.table[l].refcount > 1 ==> Deref(s, l) == CountDown(s, l)
    ensures s.table[l].refcount <= 1 ==>
      var s3 := Release(CountDown(s, l).(lists := Without(s.lists, l)), s.table[l].subs);
      Deref(s, l) == if l in s3.table && s3.table[l].refcount == 0 then s3.(table := s3.table - {l}) else s3
  {
  }

  lemma DerefShrinks(s: State, l: nat, hidden: set<nat>)
    ensures Shrunk(s, Deref(s, l))
    ensures Kept(s, hidden) ==> Kept(Deref(s, l), hidden)
  {
  }

  lemma {:induction false} Splits(pending: multiset<nat>, subs: seq<nat>)
    requires subs != []
    ensures pending + multiset(subs) == pending + multiset(subs[1..]) + multiset{subs[0]}
  {
    assert subs == [subs[0]] + subs[1..];
  }

  /** Giving up one pending reference keeps every count exact. */
  lemma {:induction false} DerefOk(s: State, hidden: set<nat>, pending: multiset<nat>, l: nat)
    requires Balanced(s, hidden, pending + multiset{l}) && Kept(s, hidden)
    ensures Balanced(Deref(s, l), hidden, pending)
    decreases |s.lists|, 0, 0
  {
    hide Balanced, BalancedAt, Kept, Total, Outside, Without, Deref;
    InLists(s, hidden, pending + multiset{l}, l);
    DerefIs(s, l);
    if s.table[l].refcount > 1 {
      CountsDown(s, hidden, pending, l);
    } else {
      var s2 := FirstHalf(s, hidden, pending, l);
      ReleaseOk(s2, hidden, pending, s.table[l].subs);
      Dropped(Release(s2, s.table[l].subs), hidden, pending, l);
    }
  }

  lemma {:induction false} ReleaseOk(s: State, hidden: set<nat>, pending: multiset<nat>, subs: seq<nat>)
    requires Balanced(s, hidden, pending + multiset(subs)) && Kept(s, hidden)
    ensures Balanced(Release(s, subs), hidden, pending)
    decreases |s.lists|, 1, |subs|
  {
    hide Balanced, BalancedAt, Deref, Kept;
    if subs == [] {
      assert pending + multiset(subs) == pending;
    } else {
      Splits(pending, subs);
      DerefOk(s, hidden, pending + multiset(subs[1..]), subs[0]);
      DerefShrinks(s, subs[0], hidden);
      ReleaseOk(Deref(s, subs[0]), hidden, pending, subs[1..]);
    }
  }

  lemma {:induction false} WithoutKeeps(lists: seq<nat>, l: nat, x: nat)
    requires x in lists && x != l
    ensures x in Without(lists, l)
  {
    if lists[0] != l {
      if lists[0] != x { WithoutKeeps(lists[1..], l, x); }
    } else {
      assert lists == [l] + lists[1..];
    }
  }

  /** Every list in memory is linked in: what leaves the lists is freed. */
  ghost predicate NoneLost(s: State, but: set<nat>) { forall l :: l in s.table ==> l in s.lists || l in but }

  /** What has left the lists is not touched by giving up references. */
  lemma {:induction false} DerefEntry(s: State, l: nat, x: nat)
    requires x in s.table && x !in s.lists
    ensures x in Deref(s, l).table && Deref(s, l).table[x] == s.table[x]
    decreases |s.lists|, 0, 0
  {
    if l in s.lists && l in s.table && s.table[l].refcount <= 1 {
      WithoutIn(s.lists, l);
      ReleaseEntry(CountDown(s, l).(lists := Without(s.lists, l)), s.table[l].subs, x);
    }
  }

  lemma {:induction false} ReleaseEntry(s: State, subs: seq<nat>, x: nat)
    requires x in s.table && x !in s.lists
    ensures x in Release(s, subs).table && Release(s, subs).table[x] == s.table[x]
    decreases |s.lists|, 1, |subs|
  {
    if subs != [] {
      DerefEntry(s, subs[0], x);
      ReleaseEntry(Deref(s, subs[0]), subs[1..], x);
    }
  }

  lemma LeftOver(s: State, t: State, l: nat, but: set<nat>)
    requires NoneLost(s, but) && t.table.Keys <= s.table.Keys && t.lists == Without(s.lists, l)
    ensures NoneLost(t, but + {l})
  {
    forall x | x in t.table ensures x in t.lists || x in but + {l} {
      if x in s.lists && x != l { WithoutKeeps(s.lists, l, x); }
    }
  }

  lemma LastGone(s: State, l: nat, but: set<nat>)
    requires NoneLost(s, but + {l})
    ensures NoneLost(s.(table := s.table - {l}), but)
  {
  }

  /** A list whose last reference goes is freed, and nothing else is left behind. */
  lemma {:induction false} DerefLoses(s: State, hidden: set<nat>, pending: multiset<nat>, l: nat, but: set<nat>)
    requires Balanced(s, hidden, pending + multiset{l}) && Kept(s, hidden) && NoneLost(s, but)
    ensures NoneLost(Deref(s, l), but)
    decreases |s.lists|, 0, 0
  {
    hide Balanced, BalancedAt, Kept, Total, Outside, Without, Deref;
    InLists(s, hidden, pending + multiset{l}, l);
    DerefIs(s, l);
    if s.table[l].refcount <= 1 {
      var s2 := FirstHalf(s, hidden, pending, l);
      var subs := s.table[l].subs;
      LeftOver(s, s2, l, but);
      hide NoneLost;
      ReleaseLoses(s2, hidden, pending, subs, but + {l});
      ReleaseEntry(s2, subs, l);
      LastGone(Release(s2, subs), l, but);
    }
  }

  lemma {:induction false} ReleaseLoses(s: State, hidden: set<nat>, pending: multiset<nat>, subs: seq<nat>,
                                        but: set<nat>)
    requires Balanced(s, hidden, pending + multiset(subs)) && Kept(s, hidden) && NoneLost(s, but)
    ensures NoneLost(Release(s, subs), but)
    decreases |s.lists|, 1, |subs|
  {
    hide Balanced, BalancedAt, Deref, NoneLost, Kept;
    if subs != [] {
      Splits(pending, subs);
      DerefOk(s, hidden, pending + multiset(subs[1..]), subs[0]);
      DerefLoses(s, hidden, pending + multiset(subs[1..]), subs[0], but);
      DerefShrinks(s, subs[0], hidden);
      ReleaseLoses(Deref(s, subs[0]), hidden, pending, subs[1..], but);
    }
  }

  // ----- the calls

  datatype Op =
    | Create(l: nat)                          // dl_create
    | Reference(l: nat)                       // dl_reference
    | Dereference(l: nat)                     // dl_dereference, by somebody who refers to it
    | AddSub(l: nat, sub: nat, room: bool)    // dl_sublist_command, and whether the heap has room for the command
    | Clear(l: nat)                           // dl_clear

  /** What callers may do: they use lists they refer to, and the allocator answers with memory that is not in use. */
  predicate Allowed(s: State, op: Op) {
    match op
    case Create(l) => l !in s.table
    case Reference(l) => Outside(s, l) > 0
    case Dereference(l) => Outside(s, l) > 0
    case AddSub(l, sub, _) => Outside(s, l) > 0 && Outside(s, sub) > 0
    case Clear(l) => Outside(s, l) > 0
  }

  /** What a call leaves. A list that a caller refers to is in memory (`HeldThere`). */
  ghost function Next(s: State, op: Op): State
    requires Inv(s) && Allowed(s, op)
  {
    match op
    case Create(l) => State([l] + s.lists, s.table[l := Entry(1, [])], s.outside[l := 1])
    case Reference(l) =>
      HeldThere(s, l);
      State(s.lists, s.table[l := s.table[l].(refcount := s.table[l].refcount + 1)], s.outside[l := Outside(s, l) + 1])
    case Dereference(l) => Deref(s.(outside := s.outside[l := Outside(s, l) - 1]), l)
    case AddSub(l, sub, room) =>
      HeldThere(s, l);
      HeldThere(s, sub);
      if l == sub || !room then s else s.(table := Referring(s.table, l, sub))
    case Clear(l) =>
      HeldThere(s, l);
      Remains(s, l);
      var t := Release(s, s.table[l].subs);
      t.(table := t.table[l := t.table[l].(subs := [])])
  }

  /** The table with one command more in l, which renders sub. */
  function Referring(table: map<nat, Entry>, l: nat, sub: nat): map<nat, Entry>
    requires l in table && sub in table && l != sub
  {
    var counted := table[sub := table[sub].(refcount := table[sub].refcount + 1)];
    counted[l := counted[l].(subs := counted[l].subs + [sub])]
  }

  // ----- every run

  ghost predicate Inv(s: State) { Balanced(s, {}, multiset{}) && NoneLost(s, {}) }

  lemma HeldThere(s: State, l: nat)
    requires Inv(s) && Outside(s, l) > 0
    ensures l in s.lists && l in s.table
  {
    assert BalancedAt(s, {}, multiset{}, l);
  }

  /** What is referred to from outside after a call. */
  function OutsideAfter(s: State, op: Op): map<nat, nat> {
    match op
    case Create(l) => s.outside[l := 1]
    case Reference(l) => s.outside[l := Outside(s, l) + 1]
    case Dereference(l) => s.outside[l := if Outside(s, l) > 0 then Outside(s, l) - 1 else 0]
    case AddSub(_, _, _) => s.outside
    case Clear(_) => s.outside
  }

  /** What the commands of a list refer to after a call. */
  function SubsAfter(s: State, op: Op, x: nat): seq<nat> {
    if (op.Create? || op.Clear?) && op.l == x then []
    else if op.AddSub? && op.l == x && op.room && op.l != op.sub then Subs(s, x) + [op.sub]
    else Subs(s, x)
  }

  /** What a call does to references from outside and from commands: those that are asked for, and no others. */
  lemma NextLeaves(s: State, op: Op)
    requires Inv(s) && Allowed(s, op)
    ensures var t := Next(s, op);
      t.outside == OutsideAfter(s, op)
      && (forall x :: x in t.table ==> Subs(t, x) == SubsAfter(s, op, x))
      && (forall x :: x in t.table ==> x in s.table || op == Create(x))
      && (op.Create? || op.Reference? || op.AddSub? ==> forall x :: x in s.table ==> x in t.table)
      && (op.Create? || op.Clear? ==> op.l in t.table)
  {
    hide Inv, Deref, Release;
    match op
    case Create(l) =>
    case Reference(l) => HeldThere(s, l);
    case Dereference(l) =>
    case AddSub(l, sub, room) =>
      HeldThere(s, l);
      HeldThere(s, sub);
    case Clear(l) =>
      HeldThere(s, l);
      Remains(s, l);
  }

  lemma CreateOk(s: State, l: nat)
    requires Inv(s) && l !in s.table
    ensures Inv(Next(s, Create(l)))
  {
    var t := Next(s, Create(l));
    assert BalancedAt(s, {}, multiset{}, l);
    FirstDistinct(l, s.lists);
    forall x ensures BalancedAt(t, {}, multiset{}, x) {
      assert BalancedAt(s, {}, multiset{}, x);
      assert t.lists[1..] == s.lists && t.lists[0] == l;
      TotalSame(s, t, s.lists, {}, x);
    }
  }

  lemma ReferenceOk(s: State, l: nat)
    requires Inv(s) && Outside(s, l) > 0
    ensures Inv(Next(s, Reference(l)))
  {
    var t := Next(s, Reference(l));
    forall x ensures BalancedAt(t, {}, multiset{}, x) {
      assert BalancedAt(s, {}, multiset{}, x) && BalancedAt(s, {}, multiset{}, l);
      TotalSame(s, t, s.lists, {}, x);
    }
  }

  lemma DereferenceOk(s: State, l: nat)
    requires Inv(s) && Outside(s, l) > 0
    ensures Inv(Next(s, Dereference(l)))
  {
    var t := s.(outside := s.outside[l := Outside(s, l) - 1]);
    OutsideLess(s, l);
    hide Balanced, BalancedAt, Total, Outside, Deref;
    DerefOk(t, {}, multiset{}, l);
    DerefLoses(t, {}, multiset{}, l, {});
  }

  lemma OutsideLess(s: State, l: nat)
    requires Balanced(s, {}, multiset{}) && Outside(s, l) > 0
    ensures Balanced(s.(outside := s.outside[l := Outside(s, l) - 1]), {}, multiset{} + multiset{l})
  {
    var t := s.(outside := s.outside[l := Outside(s, l) - 1]);
    forall x ensures BalancedAt(t, {}, multiset{} + multiset{l}, x) {
      assert BalancedAt(s, {}, multiset{}, x) && BalancedAt(s, {}, multiset{}, l);
      TotalSame(s, t, s.lists, {}, x);
    }
  }

  lemma {:induction false} TotalMore(s: State, t: State, lists: seq<nat>, l: nat, sub: nat, x: nat)
    requires Distinct(lists)
    requires forall k :: k in lists ==> Subs(t, k) == if k == l then Subs(s, k) + [sub] else Subs(s, k)
    ensures Total(t, lists, {}, x) == Total(s, lists, {}, x) + if l in lists && x == sub then 1 else 0
  {
    if lists != [] {
      assert lists == [lists[0]] + lists[1..];
      TotalMore(s, t, lists[1..], l, sub, x);
    }
  }

  lemma AddSubOk(s: State, l: nat, sub: nat, room: bool)
    requires Inv(s) && Outside(s, l) > 0 && Outside(s, sub) > 0
    ensures Inv(Next(s, AddSub(l, sub, room)))
  {
    HeldThere(s, l);
    HeldThere(s, sub);
    if l != sub && room { SubLinked(s, l, sub); }
    hide Balanced, BalancedAt, Total, Outside;
  }

  lemma SubLinked(s: State, l: nat, sub: nat)
    requires Balanced(s, {}, multiset{}) && l in s.lists && sub in s.lists && l in s.table && sub in s.table && l != sub
    ensures Balanced(s.(table := Referring(s.table, l, sub)), {}, multiset{})
  {
    var t := s.(table := Referring(s.table, l, sub));
    forall x ensures BalancedAt(t, {}, multiset{}, x) {
      assert BalancedAt(s, {}, multiset{}, x);
      TotalMore(s, t, s.lists, l, sub, x);
    }
  }

  lemma {:induction false} TotalHidden(s: State, lists: seq<nat>, l: nat, x: nat)
    requires Distinct(lists)
    ensures Total(s, lists, {}, x) == Total(s, lists, {l}, x) + if l in lists then multiset(Subs(s, l))[x] else 0
  {
    if lists != [] {
      assert lists == [lists[0]] + lists[1..];
      TotalHidden(s, lists[1..], l, x);
    }
  }

  lemma Hides(s: State, l: nat)
    requires Balanced(s, {}, multiset{}) && l in s.lists && l in s.table
    ensures Balanced(s, {l}, multiset{} + multiset(s.table[l].subs))
  {
    forall x ensures BalancedAt(s, {l}, multiset{} + multiset(s.table[l].subs), x) {
      assert BalancedAt(s, {}, multiset{}, x);
      TotalHidden(s, s.lists, l, x);
    }
  }

  lemma Emptied(s: State, l: nat)
    requires Balanced(s, {l}, multiset{}) && l in s.lists && l in s.table
    ensures Balanced(s.(table := s.table[l := s.table[l].(subs := [])]), {}, multiset{})
  {
    var t := s.(table := s.table[l := s.table[l].(subs := [])]);
    forall x ensures BalancedAt(t, {}, multiset{}, x) {
      assert BalancedAt(s, {l}, multiset{}, x);
      TotalHidden(t, s.lists, l, x);
      TotalHiddenSame(s, t, s.lists, l, x);
    }
  }

  lemma {:induction false} TotalHiddenSame(s: State, t: State, lists: seq<nat>, l: nat, x: nat)
    requires forall k :: k != l ==> Subs(s, k) == Subs(t, k)
    ensures Total(s, lists, {l}, x) == Total(t, lists, {l}, x)
  {
    if lists != [] { TotalHiddenSame(s, t, lists[1..], l, x); }
  }

  /** A list that is being cleared by somebody who refers to it outlives the lists that go with its commands, even
      when some of them render it. */
  lemma Remains(s: State, l: nat)
    requires Inv(s) && Outside(s, l) > 0
    ensures l in s.table && Balanced(Release(s, s.table[l].subs), {l}, multiset{})
    ensures l in Release(s, s.table[l].subs).lists && l in Release(s, s.table[l].subs).table
  {
    HeldThere(s, l);
    Hides(s, l);
    var t := Release(s, s.table[l].subs);
    ReleaseOk(s, {l}, multiset{}, s.table[l].subs);
    assert BalancedAt(t, {l}, multiset{}, l) && Outside(t, l) > 0;
  }

  lemma ClearOk(s: State, l: nat)
    requires Inv(s) && Outside(s, l) > 0
    ensures Inv(Next(s, Clear(l)))
  {
    HeldThere(s, l);
    Remains(s, l);
    hide Balanced, BalancedAt, Total, Release;
    Hides(s, l);
    ReleaseLoses(s, {l}, multiset{}, s.table[l].subs, {});
    Emptied(Release(s, s.table[l].subs), l);
  }

  lemma NextOk(s: State, op: Op)
    requires Inv(s) && Allowed(s, op)
    ensures Inv(Next(s, op))
  {
    hide Inv, Next;
    match op {
      case Create(l) => CreateOk(s, l);
      case Reference(l) => ReferenceOk(s, l);
      case Dereference(l) => DereferenceOk(s, l);
      case AddSub(l, sub, room) => AddSubOk(s, l, sub, room);
      case Clear(l) => ClearOk(s, l);
    }
  }

  /** The calls can be made one after the other. */
  ghost predicate Legal(s: State, ops: seq<Op>)
    requires Inv(s)
    decreases |ops|
  {
    ops != [] ==> Allowed(s, ops[0]) && (NextOk(s, ops[0]); Legal(Next(s, ops[0]), ops[1..]))
  }

  ghost function Run(s: State, ops: seq<Op>): State
    requires Inv(s) && Legal(s, ops)
    decreases |ops|
  {
    if ops == [] then s else NextOk(s, ops[0]); Run(Next(s, ops[0]), ops[1..])
  }

  lemma {:induction false} RunInv(s: State, ops: seq<Op>)
    requires Inv(s) && Legal(s, ops)
    ensures Inv(Run(s, ops))
    decreases |ops|
  {
    if ops != [] {
      NextOk(s, ops[0]);
      RunInv(Next(s, ops[0]), ops[1..]);
    }
  }

  ghost function Start(): (s: State)
    ensures Inv(s)
  {
    var s := State([], map[], map[]);
    EmptyInv();
    s
  }

  lemma EmptyInv()
    ensures Inv(State([], map[], map[]))
  {
    var s := State([], map[], map[]);
    forall y ensures BalancedAt(s, {}, multiset{}, y) {}
  }

  /** After every run: a list is in memory exactly when something refers to it, and its count is the number of
      references from outside and from commands of live lists. */
  lemma RunExact(ops: seq<Op>, x: nat)
    requires Legal(Start(), ops)
    ensures var s := Run(Start(), ops);
      var refs := Outside(s, x) + Total(s, s.lists, {}, x);
      (x in s.table <==> refs > 0) && (x in s.table ==> s.table[x].refcount == refs)
  {
    RunInv(Start(), ops);
    assert BalancedAt(Run(Start(), ops), {}, multiset{}, x);
  }

  // ----- what counting references cannot see: circles

  /** A list that is referred to from outside leads to x along commands. */
  predicate LedTo(s: State, path: seq<nat>, x: nat) {
    && path != [] && path[|path| - 1] == x && Outside(s, path[0]) > 0
    && forall i :: 0 < i < |path| ==> path[i] in Subs(s, path[i - 1])
  }

  ghost predicate Led(s: State, x: nat) { exists path :: LedTo(s, path, x) }

  /** Each list of the chain renders the next one. */
  predicate Chain(s: State, chain: seq<nat>) {
    forall i :: 0 < i < |chain| ==> chain[i] in Subs(s, chain[i - 1])
  }

  /** And the last one renders the first. */
  predicate IsCircle(s: State, chain: seq<nat>) {
    chain != [] && Chain(s, chain) && chain[0] in Subs(s, chain[|chain| - 1])
  }

  lemma {:induction false} TotalPositive(s: State, lists: seq<nat>, x: nat)
    ensures Total(s, lists, {}, x) > 0 <==> exists l :: l in lists && x in Subs(s, l)
  {
    if lists != [] {
      TotalPositive(s, lists[1..], x);
      assert lists == [lists[0]] + lists[1..];
    }
  }

  lemma {:induction false} LedToLives(s: State, path: seq<nat>, x: nat)
    requires Inv(s) && LedTo(s, path, x)
    ensures x in s.lists
    decreases |path|
  {
    assert BalancedAt(s, {}, multiset{}, x);
    var n := |path| - 1;
    if n > 0 {
      LedToLives(s, path[..n], path[n - 1]);
      TotalPositive(s, s.lists, x);
    }
  }

  lemma LedFurther(s: State, path: seq<nat>, l: nat, x: nat)
    requires LedTo(s, path, l) && x in Subs(s, l)
    ensures LedTo(s, path + [x], x)
  {
    var longer := path + [x];
    forall i | 0 < i < |longer| ensures longer[i] in Subs(s, longer[i - 1]) {
      assert longer[i - 1] == path[i - 1];
      if i < |path| { assert longer[i] == path[i]; }
    }
  }

  lemma SomebodyRefers(s: State, x: nat) returns (l: nat)
    requires Inv(s) && x in s.lists && Outside(s, x) == 0
    ensures l in s.lists && x in Subs(s, l)
  {
    assert BalancedAt(s, {}, multiset{}, x);
    TotalPositive(s, s.lists, x);
    l :| l in s.lists && x in Subs(s, l);
  }

  ghost predicate Stray(s: State, chain: seq<nat>) {
    forall l :: l in chain ==> l in s.lists && !Led(s, l)
  }

  lemma {:induction false} DistinctWithin(short: seq<nat>, long: seq<nat>)
    requires Distinct(short) && forall x :: x in short ==> x in long
    ensures |short| <= |long|
  {
    if short != [] {
      var first, rest := short[0], short[1..];
      assert short == [first] + rest;
      WithoutIn(long, first);
      forall x | x in rest ensures x in Without(long, first) { WithoutKeeps(long, first, x); }
      DistinctWithin(rest, Without(long, first));
    }
  }

  lemma Backwards(s: State, chain: seq<nat>, l: nat)
    requires chain != [] && Chain(s, chain) && chain[0] in Subs(s, l)
    ensures Chain(s, [l] + chain)
  {
    var longer := [l] + chain;
    assert forall i {:trigger longer[i]} :: 0 < i < |longer| ==> longer[i] == chain[i - 1];
    forall i | 0 < i < |longer| ensures longer[i] in Subs(s, longer[i - 1]) {
      if i > 1 { assert longer[i - 1] == chain[i - 2]; }
    }
  }

  /** Whoever renders a list that nothing outside leads to is such a list too; going back, one comes round. */
  lemma {:induction false} StrayCircle(s: State, chain: seq<nat>) returns (circle: seq<nat>)
    requires Inv(s) && chain != [] && Distinct(chain) && Chain(s, chain) && Stray(s, chain)
    ensures IsCircle(s, circle) && Stray(s, circle) && !Led(s, circle[0])
    decreases |s.lists| - |chain|
  {
    hide Inv, Subs, LedTo;
    assert chain[0] in chain;
    if Outside(s, chain[0]) > 0 {
      LedFromStart(s, chain[0]);
    } else {
      var l := SomebodyRefers(s, chain[0]);
      if path :| LedTo(s, path, l) { LedFurther(s, path, l, chain[0]); }
      if k :| 0 <= k < |chain| && chain[k] == l {
        circle := chain[..k + 1];
      } else {
        Backwards(s, chain, l);
        FirstDistinct(l, chain);
        DistinctWithin([l] + chain, s.lists);
        circle := StrayCircle(s, [l] + chain);
      }
    }
  }

  lemma LedFromStart(s: State, l: nat)
    requires Outside(s, l) > 0
    ensures Led(s, l)
  {
    assert LedTo(s, [l], l);
  }

  lemma LedIsThere(s: State, x: nat)
    requires Inv(s) && Led(s, x)
    ensures x in s.table
  {
    var path :| LedTo(s, path, x);
    LedToLives(s, path, x);
    assert BalancedAt(s, {}, multiset{}, x);
  }

  lemma CircleThere(s: State, circle: seq<nat>)
    requires IsCircle(s, circle)
    ensures circle[0] in s.table
  {
    if |circle| > 1 { assert circle[1] in Subs(s, circle[0]); }
  }

  /** If somebody outside leads to every circle, then to every list in memory. */
  lemma CirclesLed(s: State, x: nat)
    requires Inv(s) && x in s.table && forall circle :: IsCircle(s, circle) ==> Led(s, circle[0])
    ensures Led(s, x)
  {
    assert x in s.lists;
    hide Inv, Subs, LedTo, Led;
    if !Led(s, x) {
      var circle := StrayCircle(s, [x]);
    }
  }

  /** What outside references lead to is always in memory. Nothing else is, exactly if they lead to every circle of
      sub-lists. */
  lemma RunLeaksCircles(ops: seq<Op>)
    requires Legal(Start(), ops)
    ensures var s := Run(Start(), ops);
      (forall x :: Led(s, x) ==> x in s.table)
      && ((forall x :: x in s.table ==> Led(s, x)) <==> (forall circle :: IsCircle(s, circle) ==> Led(s, circle[0])))
  {
    hide Inv, Run, Legal, Led, LedTo;
    RunInv(Start(), ops);
    var s := Run(Start(), ops);
    forall x | Led(s, x) ensures x in s.table { LedIsThere(s, x); }
    forall circle | IsCircle(s, circle) ensures circle[0] in s.table { CircleThere(s, circle); }
    if forall circle :: IsCircle(s, circle) ==> Led(s, circle[0]) {
      forall x | x in s.table ensures Led(s, x) { CirclesLed(s, x); }
    }
  }

  lemma RunFirst(s: State, op: Op, t: State, rest: seq<Op>, ops: seq<Op>)
    requires Inv(s) && Allowed(s, op) && t == Next(s, op) && Inv(t) && Legal(t, rest) && ops == [op] + rest
    ensures Legal(s, ops) && Run(s, ops) == Run(t, rest)
  {
    hide Inv, Next;
    assert ops[1..] == rest;
  }

  /** Two lists that render each other, each held from outside as told. */
  function Circle(held1: nat, held2: nat): State {
    State([2, 1], map[1 := Entry(held1 + 1, [2]), 2 := Entry(held2 + 1, [1])], map[1 := held1, 2 := held2])
  }

  lemma CircleInv()
    ensures Inv(Circle(1, 1))
  {
    var s := Circle(1, 1);
    assert s.lists[1..] == [1];
    forall x ensures BalancedAt(s, {}, multiset{}, x) {
      assert Total(s, [1], {}, x) == multiset([2])[x] && Total(s, [2, 1], {}, x) == multiset([1])[x] + multiset([2])[x];
    }
  }

  lemma CircleMade(rest: seq<Op>)
    requires Inv(Circle(1, 1)) && Legal(Circle(1, 1), rest)
    ensures Legal(Start(), [Create(1), Create(2), AddSub(1, 2, true), AddSub(2, 1, true)] + rest)
    ensures Run(Start(), [Create(1), Create(2), AddSub(1, 2, true), AddSub(2, 1, true)] + rest)
      == Run(Circle(1, 1), rest)
  {
    hide Inv, Run, Legal, Deref, Release;
    var s1 := State([1], map[1 := Entry(1, [])], map[1 := 1]);
    var s2 := State([2, 1], map[1 := Entry(1, []), 2 := Entry(1, [])], map[1 := 1, 2 := 1]);
    var s3 := State([2, 1], map[1 := Entry(1, [2]), 2 := Entry(2, [])], map[1 := 1, 2 := 1]);
    NextOk(Start(), Create(1));
    assert Next(Start(), Create(1)) == s1;
    NextOk(s1, Create(2));
    assert Next(s1, Create(2)) == s2;
    NextOk(s2, AddSub(1, 2, true));
    assert [] + [2] == [2] && [] + [1] == [1];
    assert Next(s2, AddSub(1, 2, true)) == s3;
    var a, b, c, d := Create(1), Create(2), AddSub(1, 2, true), AddSub(2, 1, true);
    RunFirst(s3, d, Circle(1, 1), rest, [d] + rest);
    RunFirst(s2, c, s3, [d] + rest, [c, d] + rest);
    RunFirst(s1, b, s2, [c, d] + rest, [b, c, d] + rest);
    RunFirst(Start(), a, s1, [b, c, d] + rest, [a, b, c, d] + rest);
  }

  lemma RunNone(s: State)
    requires Inv(s)
    ensures Legal(s, []) && Run(s, []) == s
  {
  }

  lemma OneLess(l: nat, held1: nat, held2: nat)
    requires (l == 1 && held1 > 0) || (l == 2 && held2 > 0)
    requires Inv(Circle(held1, held2))
    ensures Next(Circle(held1, held2), Dereference(l))
      == if l == 1 then Circle(held1 - 1, held2) else Circle(held1, held2 - 1)
  {
    hide Inv;
  }

  lemma CircleLetGo()
    requires Inv(Circle(1, 1))
    ensures Legal(Circle(1, 1), [Dereference(1), Dereference(2)])
    ensures Run(Circle(1, 1), [Dereference(1), Dereference(2)]) == Circle(0, 0)
  {
    hide Inv, Run, Legal, Next;
    NextOk(Circle(1, 1), Dereference(1));
    OneLess(1, 1, 1);
    NextOk(Circle(0, 1), Dereference(2));
    OneLess(2, 0, 1);
    RunNone(Circle(0, 0));
    RunFirst(Circle(0, 1), Dereference(2), Circle(0, 0), [], [Dereference(2)]);
    RunFirst(Circle(1, 1), Dereference(1), Circle(0, 1), [Dereference(2)], [Dereference(1), Dereference(2)]);
  }

  /** Two lists that render each other stay in memory when nobody outside refers to them any more. */
  lemma CircleStays(x: nat)
    ensures var ops := [Create(1), Create(2), AddSub(1, 2, true), AddSub(2, 1, true), Dereference(1), Dereference(2)];
      Legal(Start(), ops) && 1 in Run(Start(), ops).table && !Led(Run(Start(), ops), x)
  {
    hide Inv, Run, Legal;
    CircleInv();
    CircleLetGo();
    CircleMade([Dereference(1), Dereference(2)]);
    assert [Create(1), Create(2), AddSub(1, 2, true), AddSub(2, 1, true)] + [Dereference(1), Dereference(2)]
      == [Create(1), Create(2), AddSub(1, 2, true), AddSub(2, 1, true), Dereference(1), Dereference(2)];
  }
}
