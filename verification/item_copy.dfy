/**
 `cJSON_Duplicate`: a whole tree of linked items is copied
 (FederatedLearningServer/src/cJSON.c:2705-2783).
 */
module ItemCopy {
  import opened ItemList

  datatype Tree = Tree(content: Content, kids: seq<Tree>)

  /** The item and everything under it, whose objects are `below`, form this tree. */
  ghost predicate IsTree(n: Item, t: Tree, below: set<Item>)
    reads n`child, n`kids, below
    decreases t
  {
    && n !in below
    && n.content == t.content && |n.kids| == |t.kids|
    && (forall i :: 0 <= i < |n.kids| ==> n.kids[i] in below)
    && n.Linked()
    && forall i :: 0 <= i < |n.kids| ==> IsTree(n.kids[i], t.kids[i], below - {n.kids[i]})
  }

  /** A copy is no reference to another tree; without recursion it has no children. */
  function Copied(t: Tree, recurse: bool): Tree {
    Tree(t.content.(isReference := false),
         if recurse then seq(|t.kids|, i requires 0 <= i < |t.kids| => Copied(t.kids[i], true)) else [])
  }

  // ----- the objects of a tree

  /** Which object is at which place of a tree. */
  datatype Owned = Owned(root: Item, kids: seq<Owned>)

  function Cells(o: Owned): (c: set<Item>)
    ensures o.root in c
    decreases o, 1
  {
    {o.root} + CellsIn(o.kids)
  }

  function CellsIn(os: seq<Owned>): set<Item>
    decreases os, 0
  {
    if os == [] then {} else CellsIn(os[..|os| - 1]) + Cells(os[|os| - 1])
  }

  lemma {:induction false} CellsInside(os: seq<Owned>)
    ensures forall i :: 0 <= i < |os| ==> Cells(os[i]) <= CellsIn(os)
    decreases |os|
  {
    if os != [] {
      var before := os[..|os| - 1];
      CellsInside(before);
      forall i | 0 <= i < |os| ensures Cells(os[i]) <= CellsIn(os) {
        assert i < |before| ==> before[i] == os[i];
      }
    }
  }

  /** No object is at two places. */
  predicate NoneTwice(o: Owned)
    decreases o, 1
  {
    o.root !in CellsIn(o.kids) && Apart(o.kids)
  }

  predicate Apart(os: seq<Owned>)
    decreases os, 0
  {
    && (forall i :: 0 <= i < |os| ==> NoneTwice(os[i]))
    && forall i, j :: 0 <= i < j < |os| ==> Cells(os[i]) !! Cells(os[j])
  }

  /** The tree `t` with these objects at its places, every sibling list linked properly. */
  ghost predicate Holds(o: Owned, t: Tree)
    reads o.root`child, o.root`kids, CellsIn(o.kids)
    decreases t
  {
    && o.root.content == t.content && |o.root.kids| == |o.kids| == |t.kids|
    && (forall i :: 0 <= i < |o.kids| ==> o.root.kids[i] == o.kids[i].root)
    && (CellsInside(o.kids); o.root.Linked())
    && forall i :: 0 <= i < |o.kids| ==> Holds(o.kids[i], t.kids[i])
  }

  lemma {:induction false} CellsAppended(os: seq<Owned>, o: Owned)
    ensures CellsIn(os + [o]) == CellsIn(os) + Cells(o)
  {
    assert (os + [o])[..|os|] == os;
  }

  lemma {:induction false} ApartAppended(os: seq<Owned>, o: Owned)
    requires Apart(os) && NoneTwice(o) && CellsIn(os) !! Cells(o)
    ensures Apart(os + [o])
  {
    hide Cells, CellsIn, NoneTwice;
    CellsInside(os);
  }

  /** Where no object is at two places, the roots are distinct and under none of them. */
  lemma {:induction false} RootsApart(os: seq<Owned>, i: nat, j: nat)
    requires Apart(os) && i < |os| && j < |os|
    ensures os[i].root !in CellsIn(os[j].kids) && (i != j ==> os[i].root != os[j].root)
  {
    hide CellsIn;
    assert i != j ==> Cells(os[i]) !! Cells(os[j]);
    assert NoneTwice(os[j]);
  }

  // ----- the list of children while it is being built

  function Roots(os: seq<Owned>): (rs: seq<Item>)
    ensures |rs| == |os| && forall i :: 0 <= i < |os| ==> rs[i] == os[i].root
  {
    seq(|os|, i requires 0 <= i < |os| => os[i].root)
  }

  /** The links so far: the first `prev` is still missing. */
  ghost predicate HalfLinkedAt(copies: seq<Item>, i: nat)
    requires i < |copies|
    reads copies
  {
    copies[i].next == NextIn(copies, i) && copies[i].prev == if i == 0 then null else copies[i - 1]
  }

  /** Finished children of `copy`, as copies of the trees `ts`. */
  ghost predicate Building(copy: Item, os: seq<Owned>, ts: seq<Tree>)
    reads copy`child, Roots(os), CellsIn(os)
  {
    && |os| == |ts| && copy !in CellsIn(os) && Apart(os)
    && copy.child == (if os == [] then null else os[0].root)
    && (forall i :: 0 <= i < |os| ==> HalfLinkedAt(Roots(os), i))
    && (CellsInside(os); forall i :: 0 <= i < |os| ==> Holds(os[i], ts[i]))
  }

  function Last(os: seq<Owned>): Item? {
    if os == [] then null else os[|os| - 1].root
  }

  /** The crosswiring of one more child. */
  method Attach(copy: Item, next: Item?, newChild: Item, ghost os: seq<Owned>, ghost ts: seq<Tree>, ghost o: Owned,
                ghost t: Tree)
    requires Building(copy, os, ts) && Holds(o, t) && NoneTwice(o) && next == Last(os)
    requires o.root == newChild && newChild.next == null && newChild.prev == null
    requires copy !in Cells(o) && CellsIn(os) !! Cells(o)
    modifies copy`child, Present(Last(os))`next, newChild`prev
    ensures Building(copy, os + [o], ts + [t]) && newChild.next == null
  {
    hide Holds, CellsIn, Apart, NoneTwice;
    ghost var all := os + [o];
    CellsAppended(os, o);
    ApartAppended(os, o);
    CellsInside(all);
    forall i, j | 0 <= i < |all| && 0 <= j < |all|
      ensures all[i].root !in CellsIn(all[j].kids) && (i != j ==> all[i].root != all[j].root)
    {
      RootsApart(all, i, j);
    }
    assert all[|os|] == o && forall i :: 0 <= i < |os| ==> all[i] == os[i];
    if next != null {
      assert next == all[|os| - 1].root;
      next.next := newChild;
      newChild.prev := next;
    } else {
      copy.child := newChild;
    }
    forall i | 0 <= i < |all| ensures HalfLinkedAt(Roots(all), i) {
      if i < |os| {
        assert old(HalfLinkedAt(Roots(os), i));
      }
    }
    forall i | 0 <= i < |all| ensures Holds(all[i], (ts + [t])[i]) {
      assert i < |os| ==> old(Holds(os[i], ts[i]));
    }
  }

  /** When the head's `prev` is set, the list is complete. */
  method Close(copy: Item, next: Item?, ghost os: seq<Owned>, ghost ts: seq<Tree>) returns (ghost o: Owned)
    requires Building(copy, os, ts) && next == Last(os)
    modifies copy`kids, Present(copy.child)`prev
    ensures o == Owned(copy, os) && Holds(o, Tree(copy.content, ts)) && NoneTwice(o)
  {
    hide Holds, CellsIn, Apart;
    CellsInside(os);
    forall i, j | 0 <= i < |os| && 0 <= j < |os|
      ensures os[i].root !in CellsIn(os[j].kids) && (i != j ==> os[i].root != os[j].root)
    {
      RootsApart(os, i, j);
    }
    if copy.child != null {
      copy.child.prev := next;
    }
    copy.kids := Roots(os);
    o := Owned(copy, os);
    forall i | 0 <= i < |os| ensures LinkedAt(Roots(os), i) {
      assert old(HalfLinkedAt(Roots(os), i));
    }
    forall i | 0 <= i < |os| ensures Holds(os[i], ts[i]) {
      assert old(Holds(os[i], ts[i]));
    }
    Assembled(o, Tree(copy.content, ts));
  }

  lemma {:induction false} Assembled(o: Owned, t: Tree)
    requires o.root.content == t.content && o.root.kids == Roots(o.kids) && |o.kids| == |t.kids| && o.root.Linked()
    requires forall i :: 0 <= i < |o.kids| ==> Holds(o.kids[i], t.kids[i])
    ensures Holds(o, t)
  {
    CellsInside(o.kids);
  }

  // ----- the copy

  function CopiedKids(kids: seq<Tree>, n: nat): (ts: seq<Tree>)
    requires n <= |kids|
    ensures |ts| == n
  {
    seq(n, i requires 0 <= i < n => Copied(kids[i], true))
  }

  /** A deep copy: every object of it is new and at one place only, it is the same tree, and
      every sibling list in it is linked properly. */
  method Duplicate(n: Item, recurse: bool, ghost t: Tree, ghost below: set<Item>) returns (copy: Item, ghost o: Owned)
    requires IsTree(n, t, below)
    ensures o.root == copy && copy.next == null && copy.prev == null
    ensures fresh(Cells(o)) && NoneTwice(o) && Holds(o, Copied(t, recurse))
    decreases t, 1
  {
    hide IsTree, Holds, Building, CellsIn, NoneTwice, Copied;
    copy := new Item(n.content.(isReference := false));
    o := Owned(copy, []);
    RootIs(n, t, below, o);
    if recurse {
      o := DuplicateChildren(n, copy, t, below);
    }
  }

  /** One turn of the walk: a copy of the next child is attached. */
  method DuplicateNext(child: Item, copy: Item, next: Item?, ghost os: seq<Owned>, ghost ts: seq<Tree>, ghost t: Tree,
                       ghost below: set<Item>)
    returns (newChild: Item, ghost o: Owned)
    requires IsTree(child, t, below) && Building(copy, os, ts) && next == Last(os)
    modifies copy`child, CellsIn(os)
    ensures fresh(Cells(o)) && o.root == newChild
    ensures Building(copy, os + [o], ts + [Copied(t, true)])
    decreases t, 2
  {
    hide IsTree, Holds, Building, Cells, CellsIn, NoneTwice, Apart, Copied;
    assert allocated(CellsIn(os)) && allocated(Roots(os));
    newChild, o := Duplicate(child, true, t, below);
    BuildingApart(copy, os, ts);
    Attach(copy, next, newChild, os, ts, o, Copied(t, true));
  }

  /** The walk along the `next` chain of the children. */
  method DuplicateChildren(n: Item, copy: Item, ghost t: Tree, ghost below: set<Item>) returns (ghost o: Owned)
    requires IsTree(n, t, below) && copy != n && copy !in below
    requires copy.child == null && copy.content == t.content.(isReference := false)
    modifies copy`child, copy`kids
    ensures o.root == copy && fresh(CellsIn(o.kids)) && NoneTwice(o) && Holds(o, Copied(t, true))
    ensures copy.next == old(copy.next) && copy.prev == old(copy.prev)
    decreases t, 0
  {
    hide IsTree, Holds, Building, CellsIn, NoneTwice, Apart, Copied, CopiedKids;
    KidsAre(n, t, below);
    NoKids(t.kids);
    ghost var kids := n.kids;
    var child := n.child;
    var next: Item? := null;
    ghost var os: seq<Owned> := [];
    NothingBuilt(copy);
    while child != null
      invariant |os| <= |kids| && IsTree(n, t, below) && n.kids == kids
      invariant child == (if |os| < |kids| then kids[|os|] else null) && next == Last(os)
      invariant fresh(CellsIn(os)) && Building(copy, os, CopiedKids(t.kids, |os|))
      decreases |kids| - |os|
    {
      ghost var at := |os|;
      KidAt(n, t, below, at);
      var newChild;
      ghost var more;
      newChild, more := DuplicateNext(child, copy, next, os, CopiedKids(t.kids, at), t.kids[at], below - {child});
      CellsAppended(os, more);
      KidAt(n, t, below, at);
      OneMoreKid(t.kids, at);
      next := newChild;
      child := child.next;
      os := os + [more];
    }
    BuildingApart(copy, os, CopiedKids(t.kids, |os|));
    o := Close(copy, next, os, CopiedKids(t.kids, |os|));
    CopiedIs(t);
  }

  lemma {:induction false} BuildingApart(copy: Item, os: seq<Owned>, ts: seq<Tree>)
    requires Building(copy, os, ts)
    ensures copy !in CellsIn(os) && copy.child == if os == [] then null else os[0].root
    ensures forall i :: 0 <= i < |os| ==> os[i].root in CellsIn(os)
  {
    hide Holds, CellsIn;
    CellsInside(os);
  }

  lemma {:induction false} RootIs(n: Item, t: Tree, below: set<Item>, o: Owned)
    requires IsTree(n, t, below) && o.kids == [] && o.root.kids == [] && o.root.child == null
    requires o.root.content == n.content.(isReference := false)
    ensures n.content == t.content && Holds(o, Copied(t, false)) && NoneTwice(o) && Cells(o) == {o.root}
  {
  }

  lemma {:induction false} KidsAre(n: Item, t: Tree, below: set<Item>)
    requires IsTree(n, t, below)
    ensures |n.kids| == |t.kids| && n.child == if n.kids == [] then null else n.kids[0]
  {
  }

  lemma {:induction false} KidAt(n: Item, t: Tree, below: set<Item>, i: nat)
    requires IsTree(n, t, below) && i < |n.kids|
    ensures |n.kids| == |t.kids| && n.kids[i] in below && IsTree(n.kids[i], t.kids[i], below - {n.kids[i]})
    ensures n.kids[i].next == if i + 1 < |n.kids| then n.kids[i + 1] else null
  {
    assert LinkedAt(n.kids, i);
  }

  lemma {:induction false} OneMoreKid(kids: seq<Tree>, n: nat)
    requires n < |kids|
    ensures CopiedKids(kids, n) + [Copied(kids[n], true)] == CopiedKids(kids, n + 1)
  {
    hide Copied;
  }

  lemma NoKids(kids: seq<Tree>)
    ensures CopiedKids(kids, 0) == []
  {
  }

  lemma CopiedIs(t: Tree)
    ensures Copied(t, true) == Tree(t.content.(isReference := false), CopiedKids(t.kids, |t.kids|))
  {
    assert Copied(t, true).kids == CopiedKids(t.kids, |t.kids|);
  }

  lemma {:induction false} NothingBuilt(copy: Item)
    requires copy.child == null
    ensures Building(copy, [], []) && CellsIn([]) == {}
  {
  }

  /** The same tree, field by field, in which nothing is a reference. */
  predicate SameTree(t: Tree, u: Tree) {
    && u.content.kind == t.content.kind && !u.content.isReference
    && u.content.nameIsConst == t.content.nameIsConst && u.content.name == t.content.name
    && u.content.valueint == t.content.valueint && u.content.valuedouble == t.content.valuedouble
    && u.content.valuestring == t.content.valuestring
    && |u.kids| == |t.kids| && forall i :: 0 <= i < |t.kids| ==> SameTree(t.kids[i], u.kids[i])
  }

  /** What a copy keeps: everything but the marks of references, and without recursion
      the root alone. */
  lemma {:induction false} CopyIsSame(t: Tree)
    ensures SameTree(t, Copied(t, true))
    ensures Copied(t, false).kids == [] && Copied(t, false).content == Copied(t, true).content
    decreases t
  {
    forall i | 0 <= i < |t.kids| ensures SameTree(t.kids[i], Copied(t, true).kids[i]) {
      CopyIsSame(t.kids[i]);
    }
  }

  // ----- a copy can be copied again

  lemma {:induction false} MoreBelow(n: Item, t: Tree, a: set<Item>, b: set<Item>)
    requires IsTree(n, t, a) && a <= b && n !in b
    ensures IsTree(n, t, b)
    decreases t
  {
    forall i | 0 <= i < |n.kids| ensures IsTree(n.kids[i], t.kids[i], b - {n.kids[i]}) {
      MoreBelow(n.kids[i], t.kids[i], a - {n.kids[i]}, b - {n.kids[i]});
    }
  }

  lemma {:induction false} HeldIsTree(o: Owned, t: Tree)
    requires Holds(o, t) && NoneTwice(o)
    ensures IsTree(o.root, t, CellsIn(o.kids))
    decreases t
  {
    hide CellsIn;
    CellsInside(o.kids);
    forall i | 0 <= i < |o.kids| ensures IsTree(o.kids[i].root, t.kids[i], CellsIn(o.kids) - {o.kids[i].root}) {
      HeldIsTree(o.kids[i], t.kids[i]);
      MoreBelow(o.kids[i].root, t.kids[i], CellsIn(o.kids[i].kids), CellsIn(o.kids) - {o.kids[i].root});
    }
  }
}
