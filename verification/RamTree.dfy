/** The nodes of the RAM disk in an explicit memory, and the tree that their links draw.
    A pointer that is not a key of the memory points to released storage. */
module RamTree {
  import opened Common

  type Ptr = nat

  const NULL: Ptr := 0
  const ROOT: Ptr := 1

  /** The serial number tells apart nodes that were given the same address one after the other. */
  datatype Node = Node(big: Ptr, little: Ptr, father: Ptr, son: Ptr,
                       name: string, dir: bool, open: nat, unlinked: bool, serial: nat)

  type Mem = map<Ptr, Node>
  type Kids = map<Ptr, seq<Ptr>>

  function First(s: seq<Ptr>): Ptr { if s == [] then NULL else s[0] }

  function Last(s: seq<Ptr>): Ptr { if s == [] then NULL else s[|s| - 1] }

  function Prev(s: seq<Ptr>, i: int): Ptr { if 0 < i <= |s| then s[i - 1] else NULL }

  function Next(s: seq<Ptr>, i: int): Ptr { if 0 <= i + 1 < |s| then s[i + 1] else NULL }

  /** The links of child i of p agree with the list of its brothers; ranks grow away from the root. */
  ghost predicate ChildLinked(mem: Mem, kids: Kids, rank: map<Ptr, nat>, p: Ptr, i: nat)
    requires p in kids && i < |kids[p]|
  {
    var c := kids[p][i];
    && c in mem && c != ROOT && c != NULL
    && mem[c].father == p
    && mem[c].big == Prev(kids[p], i)
    && mem[c].little == Next(kids[p], i)
    && c in rank && p in rank && rank[p] < rank[c]
  }

  ghost predicate Placed(mem: Mem, kids: Kids, c: Ptr)
    requires c in mem
  {
    mem[c].father in kids && c in kids[mem[c].father]
  }

  /** A node points to its eldest child; what is to be unlinked has no children. */
  ghost predicate Parent(mem: Mem, kids: Kids, p: Ptr)
    requires p in mem && p in kids
  {
    && mem[p].son == First(kids[p])
    && Distinct(kids[p])
    && (kids[p] != [] ==> !mem[p].unlinked)
  }

  ghost predicate RootNode(n: Node) {
    n.big == n.little == n.father == NULL && !n.unlinked && n.name == ""
  }

  /** The links form a tree of ordered, doubly linked families below the root. */
  ghost predicate Tree(mem: Mem, kids: Kids, rank: map<Ptr, nat>) {
    && mem.Keys == kids.Keys == rank.Keys
    && NULL !in mem
    && ROOT in mem && RootNode(mem[ROOT])
    && (forall p {:trigger Parent(mem, kids, p)} :: p in mem ==> Parent(mem, kids, p))
    && (forall p, i {:trigger ChildLinked(mem, kids, rank, p, i)} ::
          p in kids && 0 <= i < |kids[p]| ==> ChildLinked(mem, kids, rank, p, i))
    && (forall c {:trigger Placed(mem, kids, c)} :: c in mem && c != ROOT ==> Placed(mem, kids, c))
  }

  /** The same node but for its count, its unlink mark and its kind. */
  predicate SameLinks(a: Node, b: Node) {
    a.big == b.big && a.little == b.little && a.father == b.father && a.son == b.son
    && a.name == b.name && a.serial == b.serial
  }

  /** Changing the count of a node, or marking a childless node other than the root, keeps the tree. */
  lemma TreeRemark(mem: Mem, kids: Kids, rank: map<Ptr, nat>, p: Ptr, n: Node)
    requires Tree(mem, kids, rank) && p in mem && SameLinks(mem[p], n)
    requires n.unlinked ==> kids[p] == [] && p != ROOT
    ensures Tree(mem[p := n], kids, rank)
  {
    var mem' := mem[p := n];
    forall q | q in mem' ensures Parent(mem', kids, q) {
      assert Parent(mem, kids, q);
    }
    forall q, i | q in kids && 0 <= i < |kids[q]| ensures ChildLinked(mem', kids, rank, q, i) {
      assert ChildLinked(mem, kids, rank, q, i);
    }
    forall c | c in mem' && c != ROOT ensures Placed(mem', kids, c) {
      assert Placed(mem, kids, c);
    }
  }

  /** A node has one place in the tree. */
  lemma SameFamily(mem: Mem, kids: Kids, rank: map<Ptr, nat>, p: Ptr, i: nat, q: Ptr, j: nat)
    requires Tree(mem, kids, rank) && p in kids && q in kids && i < |kids[p]| && j < |kids[q]|
    requires kids[p][i] == kids[q][j]
    ensures p == q && i == j
  {
    assert ChildLinked(mem, kids, rank, p, i) && ChildLinked(mem, kids, rank, q, j);
    assert Parent(mem, kids, p);
  }

  /** The memory after a new node has been linked in as the youngest child of f. */
  function Attached(mem: Mem, f: Ptr, last: Ptr, c: Ptr, n: Node): Mem
    requires f in mem && (last != NULL ==> last in mem)
  {
    var n' := n.(father := f, little := NULL, big := last);
    if last == NULL then mem[c := n'][f := mem[f].(son := c)]
    else mem[c := n'][last := mem[last].(little := c)]
  }

  lemma LastInMemory(mem: Mem, kids: Kids, rank: map<Ptr, nat>, f: Ptr)
    requires Tree(mem, kids, rank) && f in mem
    ensures Last(kids[f]) == NULL <==> kids[f] == []
    ensures Last(kids[f]) != NULL ==> Last(kids[f]) in mem && mem[Last(kids[f])].father == f
  {
    if kids[f] != [] { assert ChildLinked(mem, kids, rank, f, |kids[f]| - 1); }
  }

  lemma TreeAttach(mem: Mem, kids: Kids, rank: map<Ptr, nat>, f: Ptr, c: Ptr, n: Node)
    requires Tree(mem, kids, rank) && f in mem && !mem[f].unlinked
    requires c !in mem && c != NULL && n.son == NULL
    ensures Last(kids[f]) != NULL ==> Last(kids[f]) in mem
    ensures Tree(Attached(mem, f, Last(kids[f]), c, n), kids[f := kids[f] + [c]][c := []], rank[c := rank[f] + 1])
  {
    LastInMemory(mem, kids, rank, f);
    var k := kids[f];
    var mem' := Attached(mem, f, Last(k), c, n);
    var kids' := kids[f := k + [c]][c := []];
    var rank' := rank[c := rank[f] + 1];
    forall p, i | p in kids' && 0 <= i < |kids'[p]| ensures ChildLinked(mem', kids', rank', p, i) {
      if p == f && i == |k| {
      } else {
        assert ChildLinked(mem, kids, rank, p, i);
        if k != [] && kids[p][i] == Last(k) {
          SameFamily(mem, kids, rank, p, i, f, |k| - 1);
        }
      }
    }
    forall q | q in mem' && q != ROOT ensures Placed(mem', kids', q) {
      if q == c {
        assert kids'[f][|k|] == c;
      } else {
        assert Placed(mem, kids, q);
        var g := mem[q].father;
        assert g == f ==> q in k + [c];
      }
    }
    forall p | p in mem' ensures Parent(mem', kids', p) {
      if p != c {
        assert Parent(mem, kids, p);
        if p == f {
          forall i | 0 <= i < |k| ensures k[i] != c { assert ChildLinked(mem, kids, rank, f, i); }
        }
      }
    }
  }

  function Without(s: seq<Ptr>, i: nat): seq<Ptr>
    requires i < |s|
  {
    s[..i] + s[i + 1..]
  }

  /** The memory after node c has been unhooked from its father and brothers. */
  function Detached(mem: Mem, c: Ptr): Mem
    requires c in mem
  {
    var n := mem[c];
    var m1 := if n.father in mem && mem[n.father].son == c then mem[n.father := mem[n.father].(son := n.little)]
              else mem;
    var m2 := if n.big in m1 then m1[n.big := m1[n.big].(little := n.little)] else m1;
    if n.little in m2 then m2[n.little := m2[n.little].(big := n.big)] else m2
  }

  /** What node q looks like once child i of f has been unhooked. */
  function Relinked(n: Node, q: Ptr, f: Ptr, k: seq<Ptr>, i: nat): Node
    requires i < |k|
  {
    n.(son := if q == f then First(Without(k, i)) else n.son,
       little := if i > 0 && q == k[i - 1] then Next(k, i) else n.little,
       big := if i + 1 < |k| && q == k[i + 1] then Prev(k, i) else n.big)
  }

  lemma DetachedFields(mem: Mem, kids: Kids, rank: map<Ptr, nat>, f: Ptr, i: nat, q: Ptr)
    requires Tree(mem, kids, rank) && f in mem && i < |kids[f]| && kids[f][i] in mem
    ensures Detached(mem, kids[f][i]).Keys == mem.Keys
    ensures q in mem && q != kids[f][i] ==> Detached(mem, kids[f][i])[q] == Relinked(mem[q], q, f, kids[f], i)
  {
    var k := kids[f];
    var c := k[i];
    assert Parent(mem, kids, f) && ChildLinked(mem, kids, rank, f, i);
    if i > 0 { assert ChildLinked(mem, kids, rank, f, i - 1); }
    if i + 1 < |k| { assert ChildLinked(mem, kids, rank, f, i + 1); }
    FirstWithout(k, i);
  }

  lemma FirstWithout(k: seq<Ptr>, i: nat)
    requires i < |k|
    ensures First(Without(k, i)) == if i == 0 then Next(k, 0) else k[0]
  {
  }

  lemma TreeDetach(mem: Mem, kids: Kids, rank: map<Ptr, nat>, f: Ptr, i: nat)
    requires Tree(mem, kids, rank) && f in mem && i < |kids[f]| && kids[f][i] in mem && kids[kids[f][i]] == []
    ensures var c := kids[f][i];
      Tree(Detached(mem, c) - {c}, kids[f := Without(kids[f], i)] - {c}, rank - {c})
  {
    var k := kids[f];
    var c := k[i];
    var mem' := Detached(mem, c) - {c};
    var kids' := kids[f := Without(k, i)] - {c};
    var rank' := rank - {c};
    assert ChildLinked(mem, kids, rank, f, i);
    forall q | q in mem' ensures mem'[q] == Relinked(mem[q], q, f, k, i) {
      DetachedFields(mem, kids, rank, f, i, q);
    }
    DetachedFields(mem, kids, rank, f, i, c);
    forall p: Ptr, j: nat | p in kids' && j < |kids'[p]| ensures ChildLinked(mem', kids', rank', p, j) {
      DetachChild(mem, kids, rank, f, i, p, j, mem', kids', rank');
    }
    forall q | q in mem' && q != ROOT ensures Placed(mem', kids', q) {
      assert Placed(mem, kids, q);
      KeptPlace(kids[mem[q].father], q, k, i);
    }
    forall p | p in mem' ensures Parent(mem', kids', p) {
      assert Parent(mem, kids, p);
    }
    assert RootNode(mem'[ROOT]) by {
      if i > 0 { assert ChildLinked(mem, kids, rank, f, i - 1); }
      if i + 1 < |k| { assert ChildLinked(mem, kids, rank, f, i + 1); }
    }
  }

  lemma KeptPlace(s: seq<Ptr>, q: Ptr, k: seq<Ptr>, i: nat)
    requires i < |k| && q in s && q != k[i]
    ensures s == k ==> q in Without(k, i)
  {
    var j :| 0 <= j < |s| && s[j] == q;
    if s == k { assert Without(k, i)[if j < i then j else j - 1] == q; }
  }

  lemma DetachChild(mem: Mem, kids: Kids, rank: map<Ptr, nat>, f: Ptr, i: nat, p: Ptr, j: nat,
                    mem': Mem, kids': Kids, rank': map<Ptr, nat>)
    requires Tree(mem, kids, rank) && f in mem && i < |kids[f]| && kids[f][i] in mem && kids[f][i] != f
    requires mem'.Keys == mem.Keys - {kids[f][i]} && rank' == rank - {kids[f][i]}
    requires kids' == kids[f := Without(kids[f], i)] - {kids[f][i]}
    requires forall q :: q in mem' ==> mem'[q] == Relinked(mem[q], q, f, kids[f], i)
    requires p in kids' && j < |kids'[p]|
    ensures ChildLinked(mem', kids', rank', p, j)
  {
    var k := kids[f];
    var o := if p == f && j >= i then j + 1 else j;
    assert ChildLinked(mem, kids, rank, p, o);
    var c := kids[p][o];
    if c == k[i] { SameFamily(mem, kids, rank, p, o, f, i); }
    assert c in mem' && mem'[c] == Relinked(mem[c], c, f, k, i);
    if i > 0 && c == k[i - 1] { SameFamily(mem, kids, rank, p, o, f, i - 1); }
    if i + 1 < |k| && c == k[i + 1] { SameFamily(mem, kids, rank, p, o, f, i + 1); }
  }
}
