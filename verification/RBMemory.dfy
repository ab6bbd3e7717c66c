// How trees lie in node memory, and what the writes of the red-black tree do to
// a tree that lies there.
module RBMemory {
  import opened RBShape

  // One node as it lies in memory.
  datatype Node = Node(size: nat, red: bool, parent: Ptr, left: Ptr, right: Ptr)

  type Memory = map<Ptr, Node>

  // ----- layout

  ghost function Ids(t: Tree): set<Ptr> {
    if t.Leaf? then {} else Ids(t.left) + {t.ptr} + Ids(t.right)
  }

  ghost function PathIds(path: Path): set<Ptr> {
    if path.Top? then {} else PathIds(path.up) + {path.ptr} + Ids(path.aside)
  }

  // No node occurs twice.
  ghost predicate Unique(t: Tree) {
    t.Bin? ==>
      && Unique(t.left) && Unique(t.right)
      && t.ptr !in Ids(t.left) && t.ptr !in Ids(t.right) && Ids(t.left) !! Ids(t.right)
  }

  ghost predicate UniquePath(path: Path) {
    path.Step? ==>
      && UniquePath(path.up) && Unique(path.aside)
      && path.ptr !in Ids(path.aside) && path.ptr !in PathIds(path.up)
      && Ids(path.aside) !! PathIds(path.up)
  }

  ghost function Child(side: Side, node: Node): Ptr {
    if side == LEFT then node.left else node.right
  }

  ghost function WithChild(side: Side, node: Node, child: Ptr): Node {
    if side == LEFT then node.(left := child) else node.(right := child)
  }

  // A node with its children named from side outwards.
  ghost function MakeNode(side: Side, size: nat, red: bool, parent: Ptr, child: Ptr, other: Ptr): Node {
    if side == LEFT then Node(size, red, parent, child, other) else Node(size, red, parent, other, child)
  }

  ghost predicate Lies(m: Memory, p: Ptr, node: Node) {
    p in m && m[p] == node
  }

  // Memory holds t, with parent above its root: every parent and child link of
  // a node of t is mutually inverse, and every missing child is the sentinel.
  ghost predicate Holds(m: Memory, t: Tree, parent: Ptr) {
    t.Bin? ==>
      && t.ptr != NIL
      && Lies(m, t.ptr, Node(t.size, t.red, parent, Root(t.left), Root(t.right)))
      && Holds(m, t.left, t.ptr) && Holds(m, t.right, t.ptr)
  }

  ghost predicate HoldsPath(m: Memory, path: Path, child: Ptr) {
    path.Step? ==>
      && path.ptr != NIL
      && Lies(m, path.ptr, MakeNode(path.side, path.size, path.red, Near(path.up), child, Root(path.aside)))
      && Holds(m, path.aside, path.ptr) && HoldsPath(m, path.up, path.ptr)
  }

  // Memory holds Plug(path, t), whose root is root; the sentinel is black.
  ghost predicate Zip(m: Memory, root: Ptr, path: Path, t: Tree) {
    && NIL in m && !m[NIL].red
    && root == TopPtr(path, Root(t))
    && Holds(m, t, Near(path)) && HoldsPath(m, path, Root(t))
    && Unique(t) && UniquePath(path) && Ids(t) !! PathIds(path)
  }

  lemma {:induction false} ZipPlug(m: Memory, root: Ptr, path: Path, t: Tree)
    ensures Zip(m, root, path, t) <==> Zip(m, root, Top, Plug(path, t))
  {
    if path.Step? {
      var s := Join(path.side, t, path.ptr, path.size, path.red, path.aside);
      assert Zip(m, root, path, t) <==> Zip(m, root, path.up, s);
      ZipPlug(m, root, path.up, s);
    }
  }

  lemma RootTells(m: Memory, t: Tree)
    requires Holds(m, t, NIL)
    ensures Root(t) == NIL <==> Entries(t) == []
  {
  }

  // ----- writes

  ghost predicate SameOn(m: Memory, m': Memory, ids: set<Ptr>) {
    forall p :: p in ids && p in m ==> p in m' && m'[p] == m[p]
  }

  // The writes to single fields.
  function SetRed(m: Memory, p: Ptr, red: bool): Memory
    requires p in m
  {
    m[p := m[p].(red := red)]
  }

  function SetParent(m: Memory, p: Ptr, parent: Ptr): Memory
    requires p in m
  {
    m[p := m[p].(parent := parent)]
  }

  function SetLeft(m: Memory, p: Ptr, left: Ptr): Memory
    requires p in m
  {
    m[p := m[p].(left := left)]
  }

  function SetRight(m: Memory, p: Ptr, right: Ptr): Memory
    requires p in m
  {
    m[p := m[p].(right := right)]
  }

  lemma {:induction false} Frame(m: Memory, m': Memory, t: Tree, parent: Ptr)
    requires Holds(m, t, parent) && SameOn(m, m', Ids(t))
    ensures Holds(m', t, parent)
  {
    if t.Bin? {
      Frame(m, m', t.left, t.ptr);
      Frame(m, m', t.right, t.ptr);
    }
  }

  lemma {:induction false} FramePath(m: Memory, m': Memory, path: Path, child: Ptr)
    requires HoldsPath(m, path, child) && SameOn(m, m', PathIds(path))
    ensures HoldsPath(m', path, child)
  {
    if path.Step? {
      Frame(m, m', path.aside, path.ptr);
      FramePath(m, m', path.up, path.ptr);
    }
  }

  // A subtree hung below another node: only its root's parent link is written.
  lemma Rehang(m: Memory, m': Memory, t: Tree, parent: Ptr, parent': Ptr)
    requires Holds(m, t, parent) && Unique(t)
    requires SameOn(m, m', Ids(t) - {Root(t)})
    requires t.Bin? ==> Lies(m', t.ptr, MakeNode(LEFT, t.size, t.red, parent', Root(t.left), Root(t.right)))
    ensures Holds(m', t, parent')
  {
    if t.Bin? {
      Frame(m, m', t.left, t.ptr);
      Frame(m, m', t.right, t.ptr);
    }
  }

  // A hole filled by another child: only the child link of the node above is written.
  lemma Refill(m: Memory, m': Memory, path: Path, child: Ptr, child': Ptr)
    requires HoldsPath(m, path, child) && UniquePath(path)
    requires SameOn(m, m', PathIds(path) - {Near(path)})
    requires path.Step? ==> Lies(m', path.ptr, MakeNode(path.side, path.size, path.red, Near(path.up), child', Root(path.aside)))
    ensures HoldsPath(m', path, child')
  {
    if path.Step? {
      Frame(m, m', path.aside, path.ptr);
      FramePath(m, m', path.up, path.ptr);
    }
  }

  lemma {:induction false} IdsInMemory(m: Memory, t: Tree, parent: Ptr)
    requires Holds(m, t, parent)
    ensures NIL !in Ids(t) && forall p :: p in Ids(t) ==> p in m
  {
    if t.Bin? {
      IdsInMemory(m, t.left, t.ptr);
      IdsInMemory(m, t.right, t.ptr);
    }
  }

  lemma {:induction false} PathIdsInMemory(m: Memory, path: Path, child: Ptr)
    requires HoldsPath(m, path, child)
    ensures NIL !in PathIds(path) && forall p :: p in PathIds(path) ==> p in m
  {
    if path.Step? {
      IdsInMemory(m, path.aside, path.ptr);
      PathIdsInMemory(m, path.up, path.ptr);
    }
  }

  // Which child link of the node above leads here: what the code finds out by
  // comparing pointers.
  lemma WhichSide(m: Memory, root: Ptr, path: Path, t: Tree)
    requires Zip(m, root, path, t) && path.Step? && t.Bin?
    ensures path.ptr in m
    ensures (m[path.ptr].left == t.ptr) == (path.side == LEFT)
    ensures (m[path.ptr].right == t.ptr) == (path.side == RIGHT)
  {
    IdsInMemory(m, t, path.ptr);
  }

  // ----- rotations in memory

  lemma RotatedUnique(side: Side, t: Tree)
    requires CanRotate(side, t) && Unique(t)
    ensures Unique(Rotated(side, t)) && Ids(Rotated(side, t)) == Ids(t)
  {
    var r := Riser(side, t);
    assert Unique(r);
    assert Ids(Inner(side, t)) <= Ids(r) && Ids(Riser(side, r)) <= Ids(r);
  }

  // What the code demands of a rotation of x to side: its child y on the other
  // side is a node, and the nodes written are different nodes.
  ghost predicate CanRewire(side: Side, m: Memory, x: Ptr) {
    && x in m && var y := Child(side.Other(), m[x]);
    && y in m && var i := Child(side, m[y]);
    && i in m && var above := m[x].parent;
    && x != y && x != i && y != i && NIL !in {x, y} && above !in {x, y}
    && (above != NIL ==> above in m && above != i && (m[above].left == x) != (m[above].right == x))
  }

  // Everything a rotation of x to side writes. The subtree i changes hands; i
  // may be the sentinel, whose parent field is overwritten all the same.
  ghost predicate Rewired(side: Side, m: Memory, root: Ptr, m': Memory, root': Ptr, x: Ptr)
    requires CanRewire(side, m, x)
  {
    var y := Child(side.Other(), m[x]);
    var i := Child(side, m[y]);
    var above := m[x].parent;
    && Lies(m', x, WithChild(side.Other(), m[x].(parent := y), i))
    && Lies(m', y, WithChild(side, m[y].(parent := above), x))
    && Lies(m', i, m[i].(parent := x))
    && (above != NIL ==> Lies(m', above, if m[above].left == x then m[above].(left := y) else m[above].(right := y)))
    && root' == (if above == NIL then y else root)
    && forall p :: p in m && p !in {x, y, i} && (p == NIL || p != above) ==> p in m' && m'[p] == m[p]
  }

  lemma ZipCanRewire(side: Side, m: Memory, root: Ptr, path: Path, t: Tree)
    requires Zip(m, root, path, t) && CanRotate(side, t)
    ensures CanRewire(side, m, t.ptr)
    ensures var r, i := Riser(side, t), Inner(side, t);
      && Lies(m, t.ptr, MakeNode(side, t.size, t.red, Near(path), Root(Sub(side, t)), r.ptr))
      && Lies(m, r.ptr, MakeNode(side, r.size, r.red, t.ptr, Root(i), Root(Riser(side, r))))
      && (i.Bin? ==> Lies(m, i.ptr, MakeNode(LEFT, i.size, i.red, r.ptr, Root(i.left), Root(i.right))))
      && {t.ptr, r.ptr} <= Ids(t) && (i.Bin? ==> i.ptr in Ids(t) && i.ptr != NIL)
  {
    var r, i := Riser(side, t), Inner(side, t);
    assert Holds(m, r, t.ptr) && Unique(r);
    assert Holds(m, i, r.ptr);
    assert Ids(i) <= Ids(r) <= Ids(t);
    IdsInMemory(m, t, Near(path));
    PathIdsInMemory(m, path, t.ptr);
    if path.Step? { WhichSide(m, root, path, t); }
  }

  // The three subtrees that a rotation leaves whole, apart from the nodes it writes.
  lemma RotationParts(side: Side, m: Memory, root: Ptr, path: Path, t: Tree)
    requires Zip(m, root, path, t) && CanRotate(side, t)
    ensures var a, r, i, c := Sub(side, t), Riser(side, t), Inner(side, t), Riser(side, Riser(side, t));
      && Holds(m, a, t.ptr) && Holds(m, i, r.ptr) && Holds(m, c, r.ptr) && Unique(i)
      && Ids(a) !! {t.ptr, r.ptr, Root(i), Near(path)}
      && Ids(c) !! {t.ptr, r.ptr, Root(i), Near(path)}
      && Ids(i) - {Root(i)} !! {t.ptr, r.ptr, Root(i), Near(path)}
  {
    var r := Riser(side, t);
    assert Holds(m, r, t.ptr) && Unique(r);
    assert Ids(Inner(side, t)) <= Ids(r) && Ids(Riser(side, r)) <= Ids(r);
    IdsInMemory(m, t, Near(path));
  }

  lemma JoinHolds(side: Side, m: Memory, l: Tree, ptr: Ptr, size: nat, red: bool, r: Tree, parent: Ptr)
    requires ptr != NIL && Lies(m, ptr, MakeNode(side, size, red, parent, Root(l), Root(r)))
    requires Holds(m, l, ptr) && Holds(m, r, ptr)
    ensures Holds(m, Join(side, l, ptr, size, red, r), parent)
  {
  }

  lemma RootIn(t: Tree)
    ensures t.Bin? ==> Root(t) in Ids(t)
  {
  }

  lemma MovedRoot(m: Memory, m': Memory, t: Tree, parent: Ptr, parent': Ptr)
    requires Holds(m, t, parent)
    requires t.Bin? ==> t.ptr in m && Lies(m', t.ptr, m[t.ptr].(parent := parent'))
    ensures t.Bin? ==> Lies(m', t.ptr, MakeNode(LEFT, t.size, t.red, parent', Root(t.left), Root(t.right)))
  {
  }

  lemma RewiredHolds(side: Side, m: Memory, root: Ptr, m': Memory, root': Ptr, parent: Ptr, t: Tree)
    requires CanRotate(side, t) && CanRewire(side, m, t.ptr) && Rewired(side, m, root, m', root', t.ptr)
    requires var a, r, i, c := Sub(side, t), Riser(side, t), Inner(side, t), Riser(side, Riser(side, t));
      && Lies(m, t.ptr, MakeNode(side, t.size, t.red, parent, Root(a), r.ptr))
      && Lies(m, r.ptr, MakeNode(side, r.size, r.red, t.ptr, Root(i), Root(c)))
      && Holds(m, a, t.ptr) && Holds(m, i, r.ptr) && Holds(m, c, r.ptr) && Unique(i)
      && Ids(a) !! {t.ptr, r.ptr, Root(i), parent}
      && Ids(c) !! {t.ptr, r.ptr, Root(i), parent}
      && Ids(i) - {Root(i)} !! {t.ptr, r.ptr, Root(i), parent}
    ensures Holds(m', Rotated(side, t), parent)
  {
    hide Holds, Ids, Unique;
    var r, i := Riser(side, t), Inner(side, t);
    RootIn(i);
    Frame(m, m', Sub(side, t), t.ptr);
    MovedRoot(m, m', i, r.ptr, t.ptr);
    Rehang(m, m', i, r.ptr, t.ptr);
    Frame(m, m', Riser(side, r), r.ptr);
    JoinHolds(side, m', Sub(side, t), t.ptr, t.size, t.red, i, r.ptr);
    JoinHolds(side, m', Join(side, Sub(side, t), t.ptr, t.size, t.red, i), r.ptr, r.size, r.red, Riser(side, r), parent);
  }

  // A rotation in memory is a rotation of the tree.
  lemma RewiredZip(side: Side, m: Memory, root: Ptr, m': Memory, root': Ptr, path: Path, t: Tree)
    requires Zip(m, root, path, t) && CanRotate(side, t)
    requires CanRewire(side, m, t.ptr) && Rewired(side, m, root, m', root', t.ptr)
    ensures Zip(m', root', path, Rotated(side, t))
  {
    hide Holds, Unique, UniquePath, Ids;
    ZipCanRewire(side, m, root, path, t);
    RotationParts(side, m, root, path, t);
    RewiredHolds(side, m, root, m', root', Near(path), t);
    IdsInMemory(m, t, Near(path));
    PathIdsInMemory(m, path, t.ptr);
    if path.Step? { WhichSide(m, root, path, t); }
    Refill(m, m', path, t.ptr, Riser(side, t).ptr);
    RotatedUnique(side, t);
  }
}
