// Putting nodes into a tree in memory and taking them out, before any fix-up.
module RBSplice {
  import opened RBShape
  import opened RBMemory
  import opened RBFix

  // ----- sorted entries

  ghost predicate Sorted(es: seq<Entry>) {
    forall i, j :: 0 <= i < j < |es| ==> es[i].size <= es[j].size
  }

  // Equal sizes: a new entry goes in front of the old ones.
  ghost function Inserted(es: seq<Entry>, e: Entry): seq<Entry> {
    if es == [] || e.size <= es[0].size then [e] + es else [es[0]] + Inserted(es[1..], e)
  }

  ghost function Removed(es: seq<Entry>, ptr: Ptr): seq<Entry> {
    if es == [] then [] else if es[0].ptr == ptr then es[1..] else [es[0]] + Removed(es[1..], ptr)
  }

  lemma {:induction false} InsertedBetween(a: seq<Entry>, b: seq<Entry>, e: Entry)
    requires forall x :: x in a ==> x.size < e.size
    requires forall x :: x in b ==> e.size <= x.size
    ensures Inserted(a + b, e) == a + [e] + b
  {
    if a == [] {
      assert a + b == b;
    } else {
      InsertedBetween(a[1..], b, e);
      assert (a + b)[0] == a[0] && (a + b)[1..] == a[1..] + b;
      assert [a[0]] + (a[1..] + [e] + b) == a + [e] + b;
    }
  }

  lemma {:induction false} RemovedBetween(a: seq<Entry>, b: seq<Entry>, e: Entry)
    requires forall x :: x in a ==> x.ptr != e.ptr
    ensures Removed(a + [e] + b, e.ptr) == a + b
  {
    var es := a + [e] + b;
    if a == [] {
      assert es == [e] + b && a + b == b;
    } else {
      RemovedBetween(a[1..], b, e);
      assert es[0] == a[0] && es[1..] == a[1..] + [e] + b;
      assert [a[0]] + (a[1..] + b) == a + b;
    }
  }

  lemma SortedSplit(a: seq<Entry>, b: seq<Entry>)
    requires Sorted(a + b)
    ensures forall x, y :: x in a && y in b ==> x.size <= y.size
  {
    forall x, y | x in a && y in b
      ensures x.size <= y.size
    {
      var i :| 0 <= i < |a| && a[i] == x;
      var j :| 0 <= j < |b| && b[j] == y;
      assert (a + b)[i] == x && (a + b)[|a| + j] == y;
    }
  }

  lemma SortedMiddle(a: seq<Entry>, l: seq<Entry>, e: Entry, r: seq<Entry>, c: seq<Entry>)
    requires Sorted(a + (l + [e] + r) + c)
    ensures forall x :: x in l ==> x.size <= e.size
    ensures forall x :: x in r ==> e.size <= x.size
  {
    assert a + (l + [e] + r) + c == (a + l) + ([e] + (r + c));
    SortedSplit(a + l, [e] + (r + c));
    assert a + (l + [e] + r) + c == (a + (l + [e])) + (r + c);
    SortedSplit(a + (l + [e]), r + c);
  }

  lemma SortedAround(path: Path, t: Tree)
    requires Sorted(Entries(Plug(path, t))) && t.Bin?
    ensures forall x :: x in Entries(t.left) ==> x.size <= t.size
    ensures forall x :: x in Entries(t.right) ==> t.size <= x.size
  {
    PlugEntries(path, t);
    SortedMiddle(Before(path), Entries(t.left), Entry(t.ptr, t.size), Entries(t.right), After(path));
  }

  // ----- nodes and entries

  lemma {:induction false} IdsAreEntries(t: Tree)
    ensures forall p :: p in Ids(t) <==> exists e :: e in Entries(t) && e.ptr == p
  {
    if t.Bin? {
      IdsAreEntries(t.left);
      IdsAreEntries(t.right);
      var l, r, e := Entries(t.left), Entries(t.right), Entry(t.ptr, t.size);
      forall p
        ensures p in Ids(t) <==> exists x :: x in Entries(t) && x.ptr == p
      {
        if p in Ids(t.left) {
          var x :| x in l && x.ptr == p;
          assert x in Entries(t);
        } else if p in Ids(t.right) {
          var x :| x in r && x.ptr == p;
          assert x in Entries(t);
        } else if p == t.ptr {
          assert e in Entries(t);
        }
      }
    }
  }

  lemma {:induction false} PlugIds(path: Path, t: Tree)
    ensures Ids(Plug(path, t)) == PathIds(path) + Ids(t)
  {
    if path.Step? {
      PlugIds(path.up, Joined(path, t));
    }
  }

  lemma {:induction false} BelowIds(up: Path, path: Path)
    ensures PathIds(Below(up, path)) == PathIds(up) + PathIds(path)
  {
    if path.Step? {
      BelowIds(up, path.up);
    }
  }

  // Every node of a tree is the root of a subtree.
  lemma {:induction false} Locate(up: Path, t: Tree, p: Ptr) returns (path: Path, s: Tree)
    requires p in Ids(t)
    ensures s.Bin? && s.ptr == p && Plug(path, s) == Plug(up, t)
    decreases t
  {
    if t.ptr == p {
      path, s := up, t;
    } else if p in Ids(t.left) {
      path, s := Locate(Step(up, LEFT, t.ptr, t.size, t.red, t.right), t.left, p);
    } else {
      path, s := Locate(Step(up, RIGHT, t.ptr, t.size, t.red, t.left), t.right, p);
    }
  }

  // ----- linking a new node in

  ghost function NewLeaf(ptr: Ptr, size: nat): Tree {
    Bin(Leaf, ptr, size, true, Leaf)
  }

  lemma LinkedZip(m: Memory, root: Ptr, m': Memory, root': Ptr, path: Path, ptr: Ptr, size: nat)
    requires Zip(m, root, path, Leaf) && ptr != NIL && ptr !in PathIds(path)
    requires Lies(m', ptr, Node(size, true, Near(path), NIL, NIL))
    requires path.Step? ==> path.ptr in m && Lies(m', path.ptr, WithChild(path.side, m[path.ptr], ptr))
    requires forall p :: p in m && p != ptr && (path.Step? ==> p != path.ptr) ==> p in m' && m'[p] == m[p]
    requires root' == if path.Top? then ptr else root
    ensures Zip(m', root', path, NewLeaf(ptr, size))
  {
    PathIdsInMemory(m, path, NIL);
    Refill(m, m', path, NIL, ptr);
    SameTop(path, NIL, ptr);
  }

  lemma SameTop(path: Path, child: Ptr, child': Ptr)
    ensures path.Step? ==> TopPtr(path, child) == TopPtr(path, child')
  {
  }

  // ----- taking a node out

  // What transplant writes: the link from above and the parent link of the
  // replacement, be it the sentinel.
  ghost predicate Transplanted(m: Memory, root: Ptr, m': Memory, root': Ptr, path: Path, replacement: Ptr) {
    && replacement in m && Lies(m', replacement, m[replacement].(parent := Near(path)))
    && (path.Step? ==> path.ptr in m && Lies(m', path.ptr, WithChild(path.side, m[path.ptr], replacement)))
    && root' == (if path.Top? then replacement else root)
    && forall p :: p in m && p != replacement && (path.Step? ==> p != path.ptr) ==> p in m' && m'[p] == m[p]
  }

  lemma ChildLinks(m: Memory, root: Ptr, path: Path, t: Tree)
    requires Zip(m, root, path, t) && t.Bin?
    ensures t.ptr in m && m[t.ptr].left == Root(t.left) && m[t.ptr].right == Root(t.right) && m[t.ptr].red == t.red
    ensures (Root(t.left) == NIL) == t.left.Leaf? && (Root(t.right) == NIL) == t.right.Leaf?
  {
    assert Holds(m, t.left, t.ptr) && Holds(m, t.right, t.ptr);
  }

  // What transplant demands, when t's only child c is to take t's place.
  lemma SpliceReady(m: Memory, root: Ptr, path: Path, t: Tree, c: Tree)
    requires Zip(m, root, path, t) && t.Bin?
    requires (t.left.Leaf? && c == t.right) || (t.right.Leaf? && c == t.left)
    ensures t.ptr in m && m[t.ptr].parent == Near(path) && Root(c) in m && t.ptr != Root(c)
    ensures path.Step? ==>
      && path.ptr != NIL && path.ptr != Root(c) && path.ptr in m && path.ptr != t.ptr
      && (m[path.ptr].left == t.ptr) == (path.side == LEFT)
  {
    assert Holds(m, c, t.ptr);
    IdsInMemory(m, t, Near(path));
    PathIdsInMemory(m, path, t.ptr);
    assert c.Bin? ==> c.ptr in Ids(c);
    if path.Step? { WhichSide(m, root, path, t); }
  }

  // A node with at most one child, c, is replaced by it.
  lemma SpliceZip(m: Memory, root: Ptr, m': Memory, root': Ptr, path: Path, t: Tree, c: Tree)
    requires Zip(m, root, path, t) && t.Bin?
    requires (t.left.Leaf? && c == t.right) || (t.right.Leaf? && c == t.left)
    requires Transplanted(m, root, m', root', path, Root(c))
    ensures Zip(m', root', path, c) && Root(c) in m' && m'[Root(c)].parent == Near(path)
  {
    IdsInMemory(m, t, Near(path));
    PathIdsInMemory(m, path, t.ptr);
    Rehang(m, m', c, t.ptr, Near(path));
    assert c.Bin? ==> c.ptr in Ids(c);
    Refill(m, m', path, t.ptr, Root(c));
    SameTop(path, t.ptr, Root(c));
  }

  // What is left of the red-black rules when a node with at most one child is gone.
  lemma SpliceState(path: Path, t: Tree, c: Tree)
    requires t.Bin? && RedBlack(t) && Fits(path, BlackHeight(t), Red(t))
    requires (t.left.Leaf? && c == t.right) || (t.right.Leaf? && c == t.left)
    ensures t.red ==> DoneState(path, c)
    ensures !t.red ==> RemoveState(path, c)
  {
    FitsBlack(path, BlackHeight(t));
  }

  // A node between l and r is replaced by x: everything the code writes for it.
  ghost predicate Replaced(m: Memory, m': Memory, path: Path, l: Tree, r: Tree, x: Ptr, node: Node) {
    && Lies(m', x, node) && node.parent == Near(path) && node.left == Root(l) && node.right == Root(r)
    && (l.Bin? ==> l.ptr in m && Lies(m', l.ptr, m[l.ptr].(parent := x)))
    && (r.Bin? ==> r.ptr in m && Lies(m', r.ptr, m[r.ptr].(parent := x)))
    && (path.Step? ==> path.ptr in m && Lies(m', path.ptr, WithChild(path.side, m[path.ptr], x)))
    && NIL in m' && !m'[NIL].red
    && forall p :: p in m && p !in {x, Root(l), Root(r), Near(path), NIL} ==> p in m' && m'[p] == m[p]
  }

  lemma ReplaceZip(m: Memory, m': Memory, path: Path, old': Ptr, l: Tree, r: Tree, p: Ptr, x: Ptr, node: Node)
    requires HoldsPath(m, path, old') && Holds(m, l, old') && Holds(m, r, p)
    requires Replaced(m, m', path, l, r, x, node) && x != NIL
    requires var t := Bin(l, x, node.size, node.red, r); Unique(t) && UniquePath(path) && Ids(t) !! PathIds(path)
    ensures Zip(m', TopPtr(path, x), path, Bin(l, x, node.size, node.red, r))
  {
    hide TopPtr, UniquePath;
    IdsInMemory(m, l, old');
    IdsInMemory(m, r, p);
    PathIdsInMemory(m, path, old');
    assert l.Bin? ==> l.ptr in Ids(l);
    assert r.Bin? ==> r.ptr in Ids(r);
    Rehang(m, m', l, old', x);
    Rehang(m, m', r, p, x);
    Refill(m, m', path, old', x);
  }

  // ----- the leftmost node

  ghost predicate Leftmost(path: Path) {
    path.Step? ==> path.side == LEFT && Leftmost(path.up)
  }

  lemma {:induction false} LeftmostBefore(path: Path)
    requires Leftmost(path)
    ensures Before(path) == []
  {
    if path.Step? {
      LeftmostBefore(path.up);
    }
  }

  // Only the shape and colours of the steps above matter to what fits below.
  lemma {:induction false} FitsBelow(up: Path, up': Path, path: Path, h: nat, red: bool)
    requires up.Step? && up'.Step? && up'.up == up.up && up'.red == up.red && up'.aside == up.aside
    ensures Fits(Below(up, path), h, red) == Fits(Below(up', path), h, red)
  {
    if path.Step? {
      FitsBelow(up, up', path.up, if path.red then h else h + 1, path.red);
    }
  }

  lemma {:induction false} UniqueBelow(up: Path, path: Path)
    requires UniquePath(Below(up, path))
    ensures UniquePath(path) && UniquePath(up) && PathIds(path) !! PathIds(up)
  {
    if path.Step? {
      UniqueBelow(up, path.up);
      BelowIds(up, path.up);
    }
  }

  lemma {:induction false} NearBelow(up: Path, path: Path)
    ensures Near(Below(up, path)) == if path.Top? then Near(up) else Near(path)
  {
  }

  // ----- the entries that remain

  lemma {:induction false} BeforeIds(path: Path)
    ensures forall x :: x in Before(path) ==> x.ptr in PathIds(path)
  {
    if path.Step? {
      BeforeIds(path.up);
      IdsAreEntries(path.aside);
    }
  }

  lemma RemovedFocus(path: Path, t: Tree, s: Tree)
    requires t.Bin? && t.ptr !in PathIds(path) && t.ptr !in Ids(t.left)
    requires Entries(s) == Entries(t.left) + Entries(t.right)
    ensures Entries(Plug(path, s)) == Removed(Entries(Plug(path, t)), t.ptr)
  {
    PlugEntries(path, t);
    PlugEntries(path, s);
    BeforeIds(path);
    IdsAreEntries(t.left);
    RemovedAmong(Before(path), Entries(t.left), Entry(t.ptr, t.size), Entries(t.right), After(path));
  }

  lemma RemovedAmong(a: seq<Entry>, l: seq<Entry>, e: Entry, r: seq<Entry>, c: seq<Entry>)
    requires forall x :: x in a ==> x.ptr != e.ptr
    requires forall x :: x in l ==> x.ptr != e.ptr
    ensures Removed(a + (l + [e] + r) + c, e.ptr) == a + (l + r) + c
  {
    RemovedBetween(a + l, r + c, e);
    assert a + (l + [e] + r) + c == (a + l) + [e] + (r + c);
    assert a + (l + r) + c == (a + l) + (r + c);
  }

  lemma {:induction false} RemovedSorted(es: seq<Entry>, ptr: Ptr)
    requires Sorted(es)
    ensures Sorted(Removed(es, ptr))
    ensures forall x :: x in Removed(es, ptr) ==> x in es
  {
    if es != [] && es[0].ptr != ptr {
      RemovedSorted(es[1..], ptr);
      SortedCons(es, Removed(es[1..], ptr));
    }
  }

  lemma SortedCons(es: seq<Entry>, r: seq<Entry>)
    requires Sorted(es) && es != [] && Sorted(r) && forall x :: x in r ==> x in es[1..]
    ensures Sorted([es[0]] + r) && forall x :: x in [es[0]] + r ==> x in es
  {
    assert [es[0]] + es[1..] == es;
    SortedSplit([es[0]], es[1..]);
    assert es[0] in [es[0]];
    var t := [es[0]] + r;
    forall i, j | 0 <= i < j < |t|
      ensures t[i].size <= t[j].size
    {
      if i == 0 {
        assert t[j] == r[j - 1] && r[j - 1] in r;
      }
    }
  }

  // ----- a node with two children

  // The way to the leftmost node of t.right, at path2 in it, when t is at path.
  ghost function ToMin(path: Path, t: Tree, path2: Path): Path
    requires t.Bin?
  {
    Below(Step(path, RIGHT, t.ptr, t.size, t.red, t.left), path2)
  }

  lemma MinZip(m: Memory, root: Ptr, path: Path, t: Tree, path2: Path, s: Tree)
    requires t.Bin? && t.right == Plug(path2, s)
    ensures Zip(m, root, path, t) <==> Zip(m, root, ToMin(path, t, path2), s)
  {
    var up := Step(path, RIGHT, t.ptr, t.size, t.red, t.left);
    assert Joined(up, t.right) == t;
    ZipMoves(m, root, up, t.right);
    PlugBelow(up, path2, s);
    ZipPlug(m, root, up, t.right);
    ZipPlug(m, root, Below(up, path2), s);
  }

  lemma MinIds(path: Path, t: Tree, path2: Path, s: Tree)
    requires t.Bin? && s.Bin? && s.left.Leaf?
    requires Unique(s) && UniquePath(ToMin(path, t, path2)) && Ids(s) !! PathIds(ToMin(path, t, path2))
    ensures s.ptr !in Ids(t.left) && s.ptr !in PathIds(path) && s.ptr !in Ids(Plug(path2, s.right)) && s.ptr != t.ptr
    ensures var r := Plug(path2, s.right); Unique(r) && Ids(r) !! Ids(t.left) && Ids(r) !! PathIds(path) && t.ptr !in Ids(r)
  {
    var up := Step(path, RIGHT, t.ptr, t.size, t.red, t.left);
    BelowIds(up, path2);
    UniqueBelow(up, path2);
    PlugIds(path2, s.right);
    PlugUnique(path2, s.right);
  }

  lemma MinEntries(path2: Path, s: Tree)
    requires Leftmost(path2) && s.Bin? && s.left.Leaf?
    ensures Entries(Plug(path2, s)) == [Entry(s.ptr, s.size)] + Entries(Plug(path2, s.right))
  {
    LeftmostBefore(path2);
    PlugEntries(path2, s);
    PlugEntries(path2, s.right);
    FirstOut([Entry(s.ptr, s.size)], Entries(s.right), After(path2));
  }

  lemma FirstOut<X>(a: seq<X>, b: seq<X>, c: seq<X>)
    ensures [] + ([] + a + b) + c == a + ([] + b + c)
  {
  }

  // The same tree, with the node at its root renamed to the leftmost node of its
  // right subtree and that node taken out: what a removal comes to.
  ghost function Lifted(t: Tree, path2: Path, s: Tree): Tree
    requires t.Bin? && s.Bin?
  {
    Bin(t.left, s.ptr, s.size, t.red, Plug(path2, s.right))
  }

  lemma LiftedEntries(path: Path, t: Tree, path2: Path, s: Tree)
    requires t.Bin? && t.right == Plug(path2, s) && Leftmost(path2) && s.Bin? && s.left.Leaf?
    requires t.ptr !in PathIds(path) && t.ptr !in Ids(t.left)
    ensures Entries(Plug(path, Lifted(t, path2, s))) == Removed(Entries(Plug(path, t)), t.ptr)
  {
    LiftedOwnEntries(t, path2, s);
    RemovedFocus(path, t, Lifted(t, path2, s));
  }

  lemma LiftedOwnEntries(t: Tree, path2: Path, s: Tree)
    requires t.Bin? && t.right == Plug(path2, s) && Leftmost(path2) && s.Bin? && s.left.Leaf?
    ensures Entries(Lifted(t, path2, s)) == Entries(t.left) + Entries(t.right)
  {
    MinEntries(path2, s);
    Assoc(Entries(t.left), [Entry(s.ptr, s.size)], Entries(Plug(path2, s.right)));
  }

  lemma Assoc<X>(a: seq<X>, b: seq<X>, c: seq<X>)
    ensures a + b + c == a + (b + c)
  {
  }

  lemma LiftedPlug(path: Path, t: Tree, path2: Path, s: Tree)
    requires t.Bin? && s.Bin?
    ensures Plug(ToMin(path, Lifted(t, path2, s), path2), s.right) == Plug(path, Lifted(t, path2, s))
  {
    var u := Lifted(t, path2, s);
    var up := Step(path, RIGHT, u.ptr, u.size, u.red, u.left);
    PlugBelow(up, path2, s.right);
    assert Joined(up, u.right) == u;
  }

  lemma LiftedState(path: Path, t: Tree, path2: Path, s: Tree)
    requires t.Bin? && t.right == Plug(path2, s) && s.Bin? && s.left.Leaf?
    requires RedBlack(Plug(path, t)) && !Red(Plug(path, t))
    ensures var to := ToMin(path, Lifted(t, path2, s), path2);
      (s.red ==> DoneState(to, s.right)) && (!s.red ==> RemoveState(to, s.right))
  {
    var u := Lifted(t, path2, s);
    var up := Step(path, RIGHT, t.ptr, t.size, t.red, t.left);
    var up' := Step(path, RIGHT, u.ptr, u.size, u.red, u.left);
    assert Joined(up, t.right) == t;
    PlugBelow(up, path2, s);
    UnplugRedBlack(Below(up, path2), s);
    FitsBelow(up, up', path2, BlackHeight(s), Red(s));
    SpliceState(Below(up', path2), s, s.right);
  }

  lemma {:induction false} PlugUnique(path: Path, t: Tree)
    requires UniquePath(path) && Unique(t) && Ids(t) !! PathIds(path)
    ensures Unique(Plug(path, t))
  {
    if path.Step? {
      PlugUnique(path.up, Joined(path, t));
    }
  }

  // Half way: x, the leftmost node of t's right subtree, is out of it, the rest r
  // of that subtree hangs below x, and t's node is still in its place.
  ghost predicate HalfLifted(m: Memory, root: Ptr, path: Path, t: Tree, path2: Path, s: Tree) {
    && t.Bin? && t.left.Bin? && s.Bin? && s.left.Leaf?
    && var r := Plug(path2, s.right);
    && HoldsPath(m, path, t.ptr) && Holds(m, t.left, t.ptr) && Holds(m, r, s.ptr)
    && root == TopPtr(path, t.ptr) && NIL in m && !m[NIL].red
    && t.ptr in m && m[t.ptr].parent == Near(path) && m[t.ptr].left == Root(t.left) && m[t.ptr].red == t.red
    && s.ptr in m && m[s.ptr].size == s.size && m[s.ptr].right == Root(r)
    && s.ptr != NIL && t.ptr != NIL
    && s.ptr !in Ids(t.left) && s.ptr !in PathIds(path) && s.ptr !in Ids(r) && s.ptr != t.ptr
    && t.ptr !in Ids(t.left) && t.ptr !in PathIds(path) && t.ptr !in Ids(r)
    && Unique(r) && Ids(r) !! Ids(t.left) && Ids(r) !! PathIds(path)
    && Unique(t.left) && UniquePath(path) && Ids(t.left) !! PathIds(path)
    && Root(s.right) in m && m[Root(s.right)].parent == (if path2.Top? then s.ptr else path2.ptr)
  }

  // The second half, stated on the memory before and after it.
  lemma LiftedZip(m: Memory, root: Ptr, m': Memory, root': Ptr, path: Path, t: Tree, path2: Path, s: Tree)
    requires HalfLifted(m, root, path, t, path2, s)
    requires Replaced(m, m', path, t.left, Plug(path2, s.right), s.ptr,
                      Node(s.size, t.red, Near(path), Root(t.left), Root(Plug(path2, s.right))))
    requires root' == if path.Top? then s.ptr else root
    ensures Zip(m', root', path, Lifted(t, path2, s))
    ensures Zip(m', root', ToMin(path, Lifted(t, path2, s), path2), s.right)
  {
    var r := Plug(path2, s.right);
    SameTop(path, t.ptr, s.ptr);
    ReplaceZip(m, m', path, t.ptr, t.left, r, s.ptr, s.ptr, Node(s.size, t.red, Near(path), Root(t.left), Root(r)));
    MinZip(m', root', path, Lifted(t, path2, s), path2, s.right);
  }

  lemma {:induction false} PlugRoot(path: Path, t: Tree)
    ensures Root(Plug(path, t)) == TopPtr(path, Root(t))
    ensures path.Step? ==> Plug(path, t).Bin?
  {
    if path.Step? {
      PlugRoot(path.up, Joined(path, t));
      PlugBin(path.up, Joined(path, t));
    }
  }

  // The successor is the right child itself: its own right subtree stays below it.
  lemma HalfFromChild(m: Memory, root: Ptr, path: Path, t: Tree, s: Tree)
    requires Zip(m, root, path, t) && t.Bin? && t.left.Bin? && t.right == s && s.Bin? && s.left.Leaf?
    ensures Root(s.right) in m && HalfLifted(SetParent(m, Root(s.right), s.ptr), root, path, t, Top, s)
  {
    MinZip(m, root, path, t, Top, s);
    MinIds(path, t, Top, s);
    assert Holds(m, s, t.ptr);
    assert Holds(m, s.right, s.ptr);
    IdsInMemory(m, t, Near(path));
    PathIdsInMemory(m, path, t.ptr);
    var m' := SetParent(m, Root(s.right), s.ptr);
    assert s.right.Bin? ==> m' == m;
    Frame(m, m', t.left, t.ptr);
    Frame(m, m', s.right, s.ptr);
    FramePath(m, m', path, t.ptr);
  }

  lemma HalfHang(m: Memory, root: Ptr, path: Path, t: Tree, path2: Path, s: Tree)
    requires Zip(m, root, path, t) && t.Bin? && t.left.Bin? && path2.Step? && s.Bin? && s.left.Leaf?
    requires t.right == Plug(path2, s.right) && t.right.Bin?
    requires Lies(m, s.ptr, Node(s.size, s.red, path2.ptr, NIL, Root(s.right)))
    requires s.ptr != NIL && s.ptr !in Ids(t) && s.ptr !in PathIds(path)
    requires Root(s.right) in m && m[Root(s.right)].parent == path2.ptr && t.right.ptr != Root(s.right)
    ensures t.right.ptr in m && HalfLifted(SetParent(SetRight(m, s.ptr, t.right.ptr), t.right.ptr, s.ptr), root, path, t, path2, s)
  {
    var r := t.right;
    IdsInMemory(m, t, Near(path));
    PathIdsInMemory(m, path, t.ptr);
    assert Holds(m, r, t.ptr);
    var m' := SetParent(SetRight(m, s.ptr, r.ptr), r.ptr, s.ptr);
    Frame(m, m', t.left, t.ptr);
    Rehang(m, m', r, t.ptr, s.ptr);
    FramePath(m, m', path, t.ptr);
  }

  // The successor's node is not touched by the transplant that takes it out, and
  // the root of the right subtree is not the node that moved up.
  lemma DetachedApart(m: Memory, root: Ptr, m1: Memory, root1: Ptr, path: Path, t: Tree, path2: Path, s: Tree)
    requires t.Bin? && path2.Step? && s.Bin? && s.left.Leaf?
    requires Zip(m, root, ToMin(path, t, path2), s)
    requires Transplanted(m, root, m1, root1, ToMin(path, t, path2), Root(s.right))
    ensures Lies(m1, s.ptr, Node(s.size, s.red, path2.ptr, NIL, Root(s.right))) && s.ptr != NIL
    ensures Root(s.right) in m1 && m1[Root(s.right)].parent == path2.ptr && root1 == root
    ensures Plug(path2, s.right).Bin? && Plug(path2, s.right).ptr != Root(s.right)
  {
    var up := Step(path, RIGHT, t.ptr, t.size, t.red, t.left);
    NearBelow(up, path2);
    assert path2.ptr in PathIds(ToMin(path, t, path2));
    assert s.right.Bin? ==> s.right.ptr in Ids(s.right);
    IdsInMemory(m, s, path2.ptr);
    PlugRoot(path2, s.right);
    TopInPath(path2, Root(s.right));
    BelowIds(up, path2);
    PathIdsInMemory(m, ToMin(path, t, path2), s.ptr);
  }

  // The successor lies deeper: after the transplant the rest of the right subtree
  // is hung below it.
  lemma HalfFromBelow(m: Memory, root: Ptr, m1: Memory, root1: Ptr, path: Path, t: Tree, path2: Path, s: Tree)
    requires Zip(m, root, path, t) && t.Bin? && t.left.Bin? && t.right == Plug(path2, s) && path2.Step? && s.Bin? && s.left.Leaf?
    requires Transplanted(m, root, m1, root1, ToMin(path, t, path2), Root(s.right))
    ensures var r := Plug(path2, s.right);
      && r.Bin? && t.ptr in m1 && m1[t.ptr].right == r.ptr && s.ptr in m1 && s.ptr != r.ptr && r.ptr in m1
      && root1 == root
      && HalfLifted(SetParent(SetRight(m1, s.ptr, r.ptr), r.ptr, s.ptr), root, path, t, path2, s)
  {
    var t1 := t.(right := Plug(path2, s.right));
    MinZip(m, root, path, t, path2, s);
    MinIds(path, t, path2, s);
    SpliceZip(m, root, m1, root1, ToMin(path, t, path2), s, s.right);
    DetachedApart(m, root, m1, root1, path, t, path2, s);
    MinZip(m1, root1, path, t1, path2, s.right);
    HalfHang(m1, root1, path, t1, path2, s);
  }

  // What the second half reads and writes are different nodes.
  lemma HalfApart(m: Memory, root: Ptr, path: Path, t: Tree, path2: Path, s: Tree)
    requires HalfLifted(m, root, path, t, path2, s)
    ensures path.Step? ==>
      && path.ptr != NIL && path.ptr in m && path.ptr !in {t.ptr, s.ptr, t.left.ptr}
      && (m[path.ptr].left == t.ptr) == (path.side == LEFT)
    ensures t.left.ptr in m && t.left.ptr != s.ptr && t.left.ptr != NIL && t.left.ptr != t.ptr && NIL != s.ptr
    ensures var r := Plug(path2, s.right);
      && (r.Bin? ==> r.ptr in m && r.ptr !in {s.ptr, t.ptr, t.left.ptr} && (path.Step? ==> r.ptr != path.ptr)
                     && m[r.ptr].parent == s.ptr)
    ensures Root(s.right) !in {s.ptr, t.ptr, t.left.ptr} && (path.Step? ==> Root(s.right) != path.ptr)
  {
    var r := Plug(path2, s.right);
    PathIdsInMemory(m, path, t.ptr);
    IdsInMemory(m, t.left, t.ptr);
    IdsInMemory(m, r, s.ptr);
    PlugIds(path2, s.right);
    assert t.left.ptr in Ids(t.left);
    assert r.Bin? ==> r.ptr in Ids(r);
    assert s.right.Bin? ==> s.right.ptr in Ids(s.right);
    assert path.Step? ==> path.aside.Bin? ==> path.aside.ptr in Ids(path.aside);
  }

  // ----- searching

  ghost predicate AllBelow(es: seq<Entry>, size: nat) {
    forall x :: x in es ==> x.size < size
  }

  ghost predicate AllFrom(es: seq<Entry>, size: nat) {
    forall x :: x in es ==> size <= x.size
  }

  // Going down from t: to the left when size <= t.size, else to the right.
  lemma Descend(path: Path, t: Tree, size: nat)
    requires t.Bin? && Sorted(Entries(Plug(path, t)))
    requires AllBelow(Before(path), size) && AllFrom(After(path), size)
    ensures size <= t.size ==> AllFrom(After(Step(path, LEFT, t.ptr, t.size, t.red, t.right)), size)
    ensures t.size < size ==> AllBelow(Before(Step(path, RIGHT, t.ptr, t.size, t.red, t.left)), size)
  {
    SortedAround(path, t);
  }

  lemma InsertedFocus(path: Path, ptr: Ptr, size: nat)
    requires AllBelow(Before(path), size) && AllFrom(After(path), size)
    ensures Entries(Plug(path, NewLeaf(ptr, size))) == Inserted(Entries(Plug(path, Leaf)), Entry(ptr, size))
  {
    PlugEntries(path, Leaf);
    PlugEntries(path, NewLeaf(ptr, size));
    InsertedInto(Before(path), After(path), Entry(ptr, size));
  }

  lemma InsertedInto(a: seq<Entry>, c: seq<Entry>, e: Entry)
    requires AllBelow(a, e.size) && AllFrom(c, e.size)
    ensures a + ([] + [e] + []) + c == Inserted(a + [] + c, e)
  {
    InsertedBetween(a, c, e);
    assert a + [] + c == a + c;
  }

  lemma {:induction false} InsertedSorted(es: seq<Entry>, e: Entry)
    requires Sorted(es)
    ensures Sorted(Inserted(es, e))
    ensures forall x :: x in Inserted(es, e) <==> x == e || x in es
  {
    if es != [] && es[0].size < e.size {
      InsertedSorted(es[1..], e);
      assert es == [es[0]] + es[1..];
      var rest := Inserted(es[1..], e);
      forall i, j | 0 <= i < j < |rest| + 1
        ensures ([es[0]] + rest)[i].size <= ([es[0]] + rest)[j].size
      {
        if i == 0 {
          assert rest[j - 1] in rest;
        }
      }
    }
  }

  // The best fit so far: the entry right behind the place the search is at.
  ghost predicate BestSoFar(m: Memory, path: Path, best: Ptr) {
    if After(path) == [] then best == NIL
    else best == After(path)[0].ptr && best in m && m[best].size == After(path)[0].size && best != NIL
  }

  ghost predicate IsBestFit(m: Memory, es: seq<Entry>, size: nat, best: Ptr) {
    if best == NIL then AllBelow(es, size)
    else
      && best in m && Entry(best, m[best].size) in es && size <= m[best].size
      && forall x :: x in es && size <= x.size ==> m[best].size <= x.size
  }

  lemma BestAtEnd(m: Memory, path: Path, size: nat, best: Ptr)
    requires AllBelow(Before(path), size) && AllFrom(After(path), size) && BestSoFar(m, path, best)
    requires Sorted(Entries(Plug(path, Leaf)))
    ensures IsBestFit(m, Entries(Plug(path, Leaf)), size, best)
  {
    hide Plug, Before, After;
    PlugEntries(path, Leaf);
    var a, c := Before(path), After(path);
    assert a + [] + c == a + c;
    if c != [] {
      assert c[0] in c;
      forall x | x in c
        ensures c[0].size <= x.size
      {
        var j :| 0 <= j < |c| && c[j] == x;
        assert (a + c)[|a|] == c[0] && (a + c)[|a| + j] == x;
      }
    }
  }

  lemma BestOnTheWay(m: Memory, path: Path, t: Tree)
    requires t.Bin? && t.ptr in m && m[t.ptr].size == t.size
    ensures Entry(t.ptr, t.size) in Entries(Plug(path, t))
  {
    PlugEntries(path, t);
    assert Entry(t.ptr, t.size) in Entries(t);
  }

  // The rest of the second half, once the node is transplanted: the successor gets
  // the node's left child and colour.
  lemma PlaceZip(m: Memory, root: Ptr, m1: Memory, root1: Ptr, path: Path, t: Tree, path2: Path, s: Tree)
    requires HalfLifted(m, root, path, t, path2, s) && Transplanted(m, root, m1, root1, path, s.ptr)
    ensures s.ptr in m1 && t.ptr in m1 && m1[t.ptr].left in m1 && m1[t.ptr].left != s.ptr
    ensures var m2 := SetParent(SetLeft(m1, s.ptr, m1[t.ptr].left), m1[t.ptr].left, s.ptr);
      var m3 := SetRed(m2, s.ptr, m2[t.ptr].red);
      && Zip(m3, root1, ToMin(path, Lifted(t, path2, s), path2), s.right)
      && Root(s.right) in m3 && m3[Root(s.right)].parent == if path2.Top? then s.ptr else path2.ptr
  {
    hide Zip, Holds, HoldsPath, Unique, UniquePath, Ids, PathIds, Plug, Below;
    HalfApart(m, root, path, t, path2, s);
    var m2 := SetParent(SetLeft(m1, s.ptr, m1[t.ptr].left), m1[t.ptr].left, s.ptr);
    LiftedZip(m, root, SetRed(m2, s.ptr, m2[t.ptr].red), root1, path, t, path2, s);
  }
}
