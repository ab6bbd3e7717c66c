// What the cases of the two fix-up loops do to the tree around the node in
// question. Both loops treat left and right alike; side is the side of the
// parent (insertion) or of the short subtree (removal).
module RBFix {
  import opened RBShape
  import opened RBMemory

  // ----- moving the focus and recolouring

  ghost function Joined(path: Path, t: Tree): Tree
    requires path.Step?
  {
    Join(path.side, t, path.ptr, path.size, path.red, path.aside)
  }

  // The same place seen from the other child of the node above.
  ghost function Turned(path: Path, t: Tree): Path
    requires path.Step?
  {
    path.(side := path.side.Other(), aside := t)
  }

  lemma ZipMoves(m: Memory, root: Ptr, path: Path, t: Tree)
    requires path.Step?
    ensures Zip(m, root, path, t) <==> Zip(m, root, path.up, Joined(path, t))
    ensures Zip(m, root, path, t) <==> Zip(m, root, Turned(path, t), path.aside)
  {
  }

  lemma Recolour(m: Memory, root: Ptr, path: Path, t: Tree, red: bool)
    requires Zip(m, root, path, t) && t.Bin?
    ensures t.ptr in m && t.ptr != NIL && Zip(SetRed(m, t.ptr, red), root, path, t.(red := red))
  {
    var m' := SetRed(m, t.ptr, red);
    Frame(m, m', t.left, t.ptr);
    Frame(m, m', t.right, t.ptr);
    FramePath(m, m', path, t.ptr);
  }

  lemma RecolourAbove(m: Memory, root: Ptr, path: Path, t: Tree, red: bool)
    requires Zip(m, root, path, t) && path.Step?
    ensures path.ptr in m && path.ptr != NIL && Zip(SetRed(m, path.ptr, red), root, path.(red := red), t)
  {
    ZipMoves(m, root, path, t);
    Recolour(m, root, path.up, Joined(path, t), red);
    ZipMoves(SetRed(m, path.ptr, red), root, path.(red := red), t);
  }

  lemma RecolourAside(m: Memory, root: Ptr, path: Path, t: Tree, red: bool)
    requires Zip(m, root, path, t) && path.Step? && path.aside.Bin?
    ensures path.aside.ptr in m && path.aside.ptr != NIL
    ensures Zip(SetRed(m, path.aside.ptr, red), root, path.(aside := path.aside.(red := red)), t)
  {
    ZipMoves(m, root, path, t);
    Recolour(m, root, Turned(path, t), path.aside, red);
    ZipMoves(SetRed(m, path.aside.ptr, red), root, path.(aside := path.aside.(red := red)), t);
  }

  lemma RecolourChild(m: Memory, root: Ptr, path: Path, t: Tree, side: Side, red: bool)
    requires Zip(m, root, path, t) && t.Bin? && Sub(side, t).Bin?
    ensures var c := Sub(side, t);
      c.ptr in m && c.ptr != NIL
      && Zip(SetRed(m, c.ptr, red), root, path, Join(side, c.(red := red), t.ptr, t.size, t.red, Sub(side.Other(), t)))
  {
    var c := Sub(side, t);
    var below := Step(path, side, t.ptr, t.size, t.red, Sub(side.Other(), t));
    assert Joined(below, c) == t;
    ZipMoves(m, root, below, c);
    Recolour(m, root, below, c, red);
    ZipMoves(SetRed(m, c.ptr, red), root, below, c.(red := red));
  }

  // ----- insertion

  // t is red, and at most it and its parent break a rule: all else is red-black.
  ghost predicate InsertState(path: Path, t: Tree) {
    t.Bin? && t.red && RedBlack(t) && Fits(path, BlackHeight(t), false)
  }

  // What holds at the head of the loop.
  ghost predicate InsertLoop(m: Memory, root: Ptr, path: Path, t: Tree, node: Ptr) {
    Zip(m, root, path, t) && InsertState(path, t) && t.Bin? && t.ptr == node
  }

  // What the loop reads at its head and on its way to the uncle.
  lemma InsertReads(m: Memory, root: Ptr, path: Path, t: Tree)
    requires Zip(m, root, path, t) && InsertState(path, t)
    ensures t.ptr in m && m[t.ptr].parent == Near(path) && Near(path) in m
    ensures m[Near(path)].red == (path.Step? && path.red)
    ensures path.Step? && path.red ==>
      && path.up.Step? && m[path.ptr].parent == path.up.ptr && path.up.ptr in m
      && (m[path.up.ptr].left == path.ptr) == (path.up.side == LEFT)
      && (m[path.ptr].left == t.ptr) == (path.side == LEFT)
      && (m[path.ptr].right == t.ptr) == (path.side == RIGHT)
    ensures path.Step? && path.red ==>
      var uncle := Child(path.up.side.Other(), m[path.up.ptr]);
      uncle == Root(path.up.aside) && uncle in m && m[uncle].red == Red(path.up.aside)
  {
    if path.Step? {
      WhichSide(m, root, path, t);
      if path.red {
        assert Fits(path.up, BlackHeight(t), true);
        ZipMoves(m, root, path, t);
        WhichSide(m, root, path.up, Joined(path, t));
      }
    }
  }

  // Case 1, a red uncle: the black of the grandparent moves down to both its children.
  ghost function Flipped(path: Path, t: Tree): Tree
    requires path.Step? && path.up.Step? && path.up.aside.Bin?
  {
    var g := path.up;
    Join(g.side, Joined(path.(red := false), t), g.ptr, g.size, true, g.aside.(red := false))
  }

  lemma FlipKeeps(path: Path, t: Tree)
    requires InsertState(path, t) && path.Step? && path.red && path.up.Step? && Red(path.up.aside)
    ensures Flipped(path, t).Bin? && Flipped(path, t).ptr == path.up.ptr
    ensures InsertState(path.up.up, Flipped(path, t)) && Depth(path.up.up) < Depth(path)
    ensures Entries(Plug(path.up.up, Flipped(path, t))) == Entries(Plug(path, t))
  {
    var g := path.up;
    var s := Joined(path, t);
    assert Fits(g, BlackHeight(t), true);
    assert RedBlack(Joined(path.(red := false), t)) && RedBlack(g.aside.(red := false));
    assert Entries(Joined(path.(red := false), t)) == Entries(s);
    assert Entries(Flipped(path, t)) == Entries(Joined(g, s));
    PlugSameEntries(g.up, Flipped(path, t), Joined(g, s));
  }

  lemma FlipZip(m: Memory, root: Ptr, path: Path, t: Tree)
    requires Zip(m, root, path, t) && InsertState(path, t) && path.Step? && path.red && path.up.Step? && Red(path.up.aside)
    ensures path.ptr in m && path.up.aside.ptr in m && path.up.ptr in m
    ensures Zip(SetRed(SetRed(SetRed(m, path.ptr, false), path.up.aside.ptr, false), path.up.ptr, true), root, path.up.up, Flipped(path, t))
  {
    var s := Joined(path.(red := false), t);
    RecolourAbove(m, root, path, t, false);
    var m1 := SetRed(m, path.ptr, false);
    ZipMoves(m1, root, path.(red := false), t);
    RecolourAside(m1, root, path.up, s, false);
    var m2 := SetRed(m1, path.up.aside.ptr, false);
    var up := path.up.(aside := path.up.aside.(red := false));
    RecolourAbove(m2, root, up, s, true);
    ZipMoves(SetRed(m2, up.ptr, true), root, up.(red := true), s);
  }

  // Case 2, an inner grandchild: after the rotation of the parent, parent and
  // child have changed places, and the child is an outer grandchild.
  ghost function TurnedOutPath(path: Path, t: Tree): Path
    requires path.Step? && path.up.Step? && t.Bin?
  {
    Step(path.up, path.up.side, t.ptr, t.size, t.red, Sub(path.side, t))
  }

  ghost function TurnedOut(path: Path, t: Tree): Tree
    requires path.Step? && path.up.Step? && t.Bin?
  {
    Join(path.up.side, path.aside, path.ptr, path.size, path.red, Sub(path.up.side, t))
  }

  lemma TurnOutKeeps(path: Path, t: Tree)
    requires InsertState(path, t) && path.Step? && path.red && path.up.Step? && path.side != path.up.side
    ensures CanRotate(path.up.side, Joined(path, t))
    ensures Joined(TurnedOutPath(path, t), TurnedOut(path, t)) == Rotated(path.up.side, Joined(path, t))
    ensures TurnedOut(path, t).Bin? && TurnedOut(path, t).ptr == path.ptr
    ensures var p := TurnedOutPath(path, t); p.Step? && p.red && p.up == path.up && p.side == path.up.side
    ensures InsertState(TurnedOutPath(path, t), TurnedOut(path, t)) && Depth(TurnedOutPath(path, t)) == Depth(path)
    ensures Entries(Plug(TurnedOutPath(path, t), TurnedOut(path, t))) == Entries(Plug(path, t))
  {
    var s := Joined(path, t);
    RotatedEntries(path.up.side, s);
    PlugSameEntries(path.up, Rotated(path.up.side, s), s);
  }

  lemma TurnOutZip(m: Memory, root: Ptr, path: Path, t: Tree)
    requires Zip(m, root, path, t)
    requires InsertState(path, t) && path.Step? && path.red && path.up.Step? && path.side != path.up.side
    ensures CanRewire(path.up.side, m, path.ptr)
    ensures forall m', root' :: Rewired(path.up.side, m, root, m', root', path.ptr) ==>
      Zip(m', root', TurnedOutPath(path, t), TurnedOut(path, t))
  {
    TurnOutKeeps(path, t);
    ZipMoves(m, root, path, t);
    ZipCanRewire(path.up.side, m, root, path.up, Joined(path, t));
    forall m', root' | Rewired(path.up.side, m, root, m', root', path.ptr)
      ensures Zip(m', root', TurnedOutPath(path, t), TurnedOut(path, t))
    {
      RewiredZip(path.up.side, m, root, m', root', path.up, Joined(path, t));
      ZipMoves(m', root', TurnedOutPath(path, t), TurnedOut(path, t));
    }
  }

  // Case 3, an outer grandchild: the grandparent, made red, is rotated away from
  // the parent, made black.
  ghost function TurnedUpPath(path: Path): Path
    requires path.Step? && path.up.Step?
  {
    var g := path.up;
    Step(g.up, path.side, path.ptr, path.size, false, Join(path.side, path.aside, g.ptr, g.size, true, g.aside))
  }

  lemma TurnUpKeeps(path: Path, t: Tree)
    requires InsertState(path, t) && path.Step? && path.red && path.up.Step? && path.side == path.up.side && !Red(path.up.aside)
    ensures var s := Joined(path.up.(red := true), Joined(path.(red := false), t));
      CanRotate(path.side.Other(), s) && Joined(TurnedUpPath(path), t) == Rotated(path.side.Other(), s)
    ensures InsertState(TurnedUpPath(path), t) && Depth(TurnedUpPath(path)) < Depth(path)
    ensures Entries(Plug(TurnedUpPath(path), t)) == Entries(Plug(path, t))
  {
    var g := path.up;
    var s := Joined(g.(red := true), Joined(path.(red := false), t));
    assert Fits(g, BlackHeight(t), true);
    assert RedBlack(TurnedUpPath(path).aside);
    assert Entries(s) == Entries(Joined(g, Joined(path, t)));
    RotatedEntries(path.side.Other(), s);
    PlugSameEntries(g.up, Rotated(path.side.Other(), s), Joined(g, Joined(path, t)));
  }

  lemma {:induction false} PlugBin(path: Path, t: Tree)
    requires t.Bin?
    ensures Plug(path, t).Bin?
  {
    if path.Step? {
      PlugBin(path.up, Joined(path, t));
    }
  }

  // At the end of the loop the whole tree is good once its root is black.
  lemma BlackRoot(m: Memory, root: Ptr, path: Path, t: Tree) returns (tree: Tree)
    requires Zip(m, root, path, t) && InsertState(path, t) && !(path.Step? && path.red)
    ensures root in m && Zip(SetRed(m, root, false), root, Top, tree)
    ensures RedBlack(tree) && !Red(tree) && Entries(tree) == Entries(Plug(path, t))
  {
    tree := Blacken(Plug(path, t));
    PlugBin(path, t);
    ZipPlug(m, root, path, t);
    Recolour(m, root, Top, Plug(path, t), false);
    if path.Step? {
      PlugRedBlack(path, t);
    }
  }

  ghost function TurnUpColours(m: Memory, path: Path): Memory
    requires path.Step? && path.up.Step? && path.ptr in m && path.up.ptr in m
  {
    SetRed(SetRed(m, path.ptr, false), path.up.ptr, true)
  }

  lemma TurnUpZip(m: Memory, root: Ptr, path: Path, t: Tree)
    requires Zip(m, root, path, t) && InsertState(path, t)
    requires path.Step? && path.red && path.up.Step? && path.side == path.up.side && !Red(path.up.aside)
    ensures path.ptr in m && path.up.ptr in m && CanRewire(path.side.Other(), TurnUpColours(m, path), path.up.ptr)
    ensures forall m', root' :: Rewired(path.side.Other(), TurnUpColours(m, path), root, m', root', path.up.ptr) ==>
      Zip(m', root', TurnedUpPath(path), t)
  {
    var s := Joined(path.(red := false), t);
    RecolourAbove(m, root, path, t, false);
    var m1 := SetRed(m, path.ptr, false);
    ZipMoves(m1, root, path.(red := false), t);
    RecolourAbove(m1, root, path.up, s, true);
    var m2 := TurnUpColours(m, path);
    ZipMoves(m2, root, path.up.(red := true), s);
    var u := Joined(path.up.(red := true), s);
    ZipCanRewire(path.side.Other(), m2, root, path.up.up, u);
    TurnUpKeeps(path, t);
    forall m', root' | Rewired(path.side.Other(), m2, root, m', root', path.up.ptr)
      ensures Zip(m', root', TurnedUpPath(path), t)
    {
      RewiredZip(path.side.Other(), m2, root, m', root', path.up.up, u);
      ZipMoves(m', root', TurnedUpPath(path), t);
    }
  }

  // ----- removal

  // Below t one black node is missing on every way down: turning t's root black
  // would make it good if it is red, and the search has to go on if it is not.
  ghost predicate RemoveState(path: Path, t: Tree) {
    RedBlack(Blacken(t)) && Fits(path, BlackHeight(Blacken(t)) + if Red(t) then 0 else 1, false)
  }

  // How far the search for a place to make up for the black node can go on.
  ghost function Short(path: Path, t: Tree): nat {
    Depth(path) + if Red(t) then 0 else 1
  }

  // All is red-black, the root is black.
  ghost predicate DoneState(path: Path, t: Tree) {
    RedBlack(t) && Fits(path, BlackHeight(t), Red(t))
  }

  // A short subtree has a sibling, so comparing pointers tells its side even if
  // it is empty and its root is the sentinel.
  lemma ShortSide(m: Memory, root: Ptr, path: Path, t: Tree)
    requires Zip(m, root, path, t) && RemoveState(path, t) && !Red(t) && path.Step?
    ensures path.aside.Bin? && path.ptr in m && (m[path.ptr].left == Root(t)) == (path.side == LEFT)
    ensures Child(path.side.Other(), m[path.ptr]) == path.aside.ptr
  {
    IdsInMemory(m, t, path.ptr);
    IdsInMemory(m, path.aside, path.ptr);
    assert path.aside.Bin? ==> path.aside.ptr in Ids(path.aside);
    assert t.Bin? ==> t.ptr in Ids(t);
  }

  // Case 1, a red sibling: it is rotated above the parent and their colours are
  // exchanged, so the new sibling is black.
  ghost function Case1Path(path: Path): Path
    requires path.Step? && path.aside.Bin?
  {
    var s := path.aside;
    Step(Step(path.up, path.side, s.ptr, s.size, false, Sub(path.side.Other(), s)),
         path.side, path.ptr, path.size, true, Sub(path.side, s))
  }

  lemma Case1Keeps(path: Path, t: Tree)
    requires RemoveState(path, t) && !Red(t) && path.Step? && Red(path.aside)
    ensures var s := Joined(path.(red := true, aside := path.aside.(red := false)), t);
      CanRotate(path.side, s) && Joined(Case1Path(path).up, Joined(Case1Path(path), t)) == Rotated(path.side, s)
    ensures RemoveState(Case1Path(path), t) && Case1Path(path).aside.Bin? && !Red(Case1Path(path).aside)
    ensures Depth(Case1Path(path)) == Depth(path) + 1 && Case1Path(path).red
    ensures Entries(Plug(Case1Path(path), t)) == Entries(Plug(path, t))
  {
    var s := Joined(path.(red := true, aside := path.aside.(red := false)), t);
    assert RedBlack(path.aside);
    assert RedBlack(Sub(LEFT, path.aside)) && RedBlack(Sub(RIGHT, path.aside));
    assert Entries(s) == Entries(Joined(path, t));
    RotatedEntries(path.side, s);
    PlugSameEntries(path.up, Rotated(path.side, s), Joined(path, t));
    assert Fits(Case1Path(path).up, BlackHeight(t) + 1, true);
  }

  // Case 2, a black sibling with black children: it is made red, and now the
  // parent's subtree is short.
  ghost function Case2(path: Path, t: Tree): Tree
    requires path.Step? && path.aside.Bin?
  {
    Joined(path.(aside := path.aside.(red := true)), t)
  }

  lemma Case2Keeps(path: Path, t: Tree)
    requires RemoveState(path, t) && !Red(t) && path.Step? && path.aside.Bin? && !Red(path.aside)
    requires !Red(path.aside.left) && !Red(path.aside.right)
    ensures RemoveState(path.up, Case2(path, t))
    ensures Short(path.up, Case2(path, t)) == Depth(path) - if path.red then 1 else 0
    ensures Entries(Plug(path.up, Case2(path, t))) == Entries(Plug(path, t))
  {
    assert Entries(Case2(path, t)) == Entries(Joined(path, t));
    PlugSameEntries(path.up, Case2(path, t), Joined(path, t));
    assert RedBlack(path.aside.(red := true));
    FitsBlack(path.up, BlackHeight(t) + 1);
  }

  lemma FitsBlack(path: Path, h: nat)
    ensures Fits(path, h, true) ==> Fits(path, h, false)
  {
  }

  // Case 3, a black sibling whose outer child is black and whose inner child is
  // red: the inner child is rotated above the sibling.
  ghost function Case3Aside(path: Path): Tree
    requires path.Step? && path.aside.Bin? && Sub(path.side, path.aside).Bin?
  {
    var s := path.aside;
    var i := Sub(path.side, s);
    Join(path.side, Sub(path.side, i), i.ptr, i.size, false,
         Join(path.side, Sub(path.side.Other(), i), s.ptr, s.size, true, Sub(path.side.Other(), s)))
  }

  lemma Case3Shape(path: Path)
    requires path.Step? && path.aside.Bin? && !Red(path.aside) && RedBlack(path.aside)
    requires Red(Sub(path.side, path.aside)) && !Red(Sub(path.side.Other(), path.aside))
    ensures var s' := Case3Aside(path);
      && RedBlack(s') && BlackHeight(s') == BlackHeight(path.aside) && s'.Bin? && !Red(s') && Red(Sub(path.side.Other(), s'))
  {
    var s := path.aside;
    var i := Sub(path.side, s);
    assert RedBlack(i) && RedBlack(Sub(path.side.Other(), s));
    assert RedBlack(Join(path.side, Sub(path.side.Other(), i), s.ptr, s.size, true, Sub(path.side.Other(), s)));
  }

  lemma Case3Keeps(path: Path, t: Tree)
    requires RemoveState(path, t) && !Red(t) && path.Step? && path.aside.Bin? && !Red(path.aside)
    requires Red(Sub(path.side, path.aside)) && !Red(Sub(path.side.Other(), path.aside))
    ensures var s := path.aside;
      var s' := Join(path.side, Sub(path.side, s).(red := false), s.ptr, s.size, true, Sub(path.side.Other(), s));
      CanRotate(path.side.Other(), s') && Case3Aside(path) == Rotated(path.side.Other(), s')
    ensures var path' := path.(aside := Case3Aside(path));
      RemoveState(path', t) && !Red(path'.aside) && Red(Sub(path.side.Other(), path'.aside))
      && Entries(Plug(path', t)) == Entries(Plug(path, t))
  {
    var s := path.aside;
    var s' := Join(path.side, Sub(path.side, s).(red := false), s.ptr, s.size, true, Sub(path.side.Other(), s));
    var path' := path.(aside := Case3Aside(path));
    Case3Shape(path);
    assert Entries(s) == Entries(s');
    RotatedEntries(path.side.Other(), s');
    PlugSameEntries(path.up, Joined(path', t), Joined(path, t));
  }

  // Case 4, a black sibling whose outer child is red: one rotation of the parent
  // makes up for the missing black node.
  ghost function Case4(path: Path, t: Tree): Tree
    requires path.Step? && path.aside.Bin? && Sub(path.side.Other(), path.aside).Bin?
  {
    var s := path.aside;
    Join(path.side, Join(path.side, t, path.ptr, path.size, false, Sub(path.side, s)),
         s.ptr, s.size, path.red, Sub(path.side.Other(), s).(red := false))
  }

  lemma Case4Shape(path: Path, t: Tree)
    requires RedBlack(t) && !Red(t) && path.Step? && path.aside.Bin? && !Red(path.aside) && RedBlack(path.aside)
    requires Red(Sub(path.side.Other(), path.aside)) && BlackHeight(path.aside) == BlackHeight(t) + 1
    ensures var u := Case4(path, t);
      RedBlack(u) && Red(u) == path.red && BlackHeight(u) == BlackHeight(path.aside) + if path.red then 0 else 1
  {
    var s := path.aside;
    var o := Sub(path.side.Other(), s);
    assert RedBlack(Sub(path.side, s)) && RedBlack(o);
    assert RedBlack(o.(red := false)) && BlackHeight(o.(red := false)) == BlackHeight(o) + 1;
    assert RedBlack(Join(path.side, t, path.ptr, path.size, false, Sub(path.side, s)));
  }

  lemma Case4Done(path: Path, t: Tree)
    requires RemoveState(path, t) && !Red(t) && path.Step? && path.aside.Bin? && !Red(path.aside)
    requires Red(Sub(path.side.Other(), path.aside))
    ensures var s := path.aside;
      var s' := Join(path.side, Sub(path.side, s), s.ptr, s.size, path.red, Sub(path.side.Other(), s).(red := false));
      var u := Joined(path.(red := false, aside := s'), t);
      CanRotate(path.side, u) && Case4(path, t) == Rotated(path.side, u)
    ensures DoneState(path.up, Case4(path, t))
    ensures Entries(Plug(path.up, Case4(path, t))) == Entries(Plug(path, t))
  {
    var s := path.aside;
    var s' := Join(path.side, Sub(path.side, s), s.ptr, s.size, path.red, Sub(path.side.Other(), s).(red := false));
    var u := Joined(path.(red := false, aside := s'), t);
    Case4Shape(path, t);
    assert Entries(s) == Entries(s') && Entries(u) == Entries(Joined(path, t));
    RotatedEntries(path.side, u);
    PlugSameEntries(path.up, Case4(path, t), Joined(path, t));
  }

  // What holds at the head of the loop: the parent link of node is good, even if
  // node is the sentinel.
  ghost predicate RemoveLoop(m: Memory, root: Ptr, path: Path, t: Tree, node: Ptr) {
    Zip(m, root, path, t) && RemoveState(path, t) && node == Root(t) && node in m && m[node].parent == Near(path)
  }

  // What a round reads of the sibling and its children.
  lemma SiblingReads(m: Memory, root: Ptr, path: Path, t: Tree)
    requires Zip(m, root, path, t) && RemoveState(path, t) && !Red(t) && path.Step?
    ensures path.aside.Bin? && path.ptr in m && path.ptr != NIL && path.aside.ptr in m
    ensures (m[path.ptr].left == Root(t)) == (path.side == LEFT)
    ensures Child(path.side.Other(), m[path.ptr]) == path.aside.ptr
    ensures m[path.ptr].red == path.red
    ensures var s := m[path.aside.ptr];
      && s.red == Red(path.aside)
      && s.left == Root(path.aside.left) && s.left in m && m[s.left].red == Red(path.aside.left)
      && s.right == Root(path.aside.right) && s.right in m && m[s.right].red == Red(path.aside.right)
  {
    ShortSide(m, root, path, t);
    assert Holds(m, path.aside, path.ptr);
    assert Holds(m, path.aside.left, path.aside.ptr) && Holds(m, path.aside.right, path.aside.ptr);
  }

  // The loop stops at the root or at a red node.
  lemma RemoveStops(m: Memory, root: Ptr, path: Path, t: Tree, node: Ptr)
    requires RemoveLoop(m, root, path, t, node)
    ensures m[node].red == Red(t) && (node == root) == path.Top?
  {
    IdsInMemory(m, t, Near(path));
    PathIdsInMemory(m, path, node);
    if path.Step? {
      TopInPath(path, node);
      assert t.Bin? ==> t.ptr in Ids(t);
    }
  }

  lemma {:induction false} TopInPath(path: Path, child: Ptr)
    requires path.Step?
    ensures TopPtr(path, child) in PathIds(path)
  {
    if path.up.Step? {
      TopInPath(path.up, path.ptr);
    }
  }

  ghost function Case1Colours(m: Memory, path: Path): Memory
    requires path.Step? && path.aside.Bin? && path.ptr in m && path.aside.ptr in m
  {
    SetRed(SetRed(m, path.aside.ptr, false), path.ptr, true)
  }

  lemma Case1Zip(m: Memory, root: Ptr, path: Path, t: Tree)
    requires Zip(m, root, path, t) && RemoveState(path, t) && !Red(t) && path.Step? && Red(path.aside)
    ensures path.ptr in m && path.aside.ptr in m && CanRewire(path.side, Case1Colours(m, path), path.ptr)
    ensures forall m', root' :: Rewired(path.side, Case1Colours(m, path), root, m', root', path.ptr) ==>
      Zip(m', root', Case1Path(path), t)
  {
    RecolourAside(m, root, path, t, false);
    var m1 := SetRed(m, path.aside.ptr, false);
    var path1 := path.(aside := path.aside.(red := false));
    RecolourAbove(m1, root, path1, t, true);
    var m2 := Case1Colours(m, path);
    var path2 := path1.(red := true);
    ZipMoves(m2, root, path2, t);
    ZipCanRewire(path.side, m2, root, path.up, Joined(path2, t));
    Case1Keeps(path, t);
    forall m', root' | Rewired(path.side, m2, root, m', root', path.ptr)
      ensures Zip(m', root', Case1Path(path), t)
    {
      RewiredZip(path.side, m2, root, m', root', path.up, Joined(path2, t));
      ZipMoves(m', root', Case1Path(path).up, Joined(Case1Path(path), t));
      ZipMoves(m', root', Case1Path(path), t);
    }
  }

  lemma Case2Zip(m: Memory, root: Ptr, path: Path, t: Tree)
    requires Zip(m, root, path, t) && path.Step? && path.aside.Bin?
    ensures path.aside.ptr in m
    ensures var m' := SetRed(m, path.aside.ptr, true);
      Zip(m', root, path.up, Case2(path, t)) && path.ptr in m' && m'[path.ptr].parent == Near(path.up)
  {
    RecolourAside(m, root, path, t, true);
    ZipMoves(SetRed(m, path.aside.ptr, true), root, path.(aside := path.aside.(red := true)), t);
  }

  ghost function Case3Colours(m: Memory, path: Path): Memory
    requires path.Step? && path.aside.Bin? && Sub(path.side, path.aside).Bin?
    requires path.aside.ptr in m && Sub(path.side, path.aside).ptr in m
  {
    SetRed(SetRed(m, Sub(path.side, path.aside).ptr, false), path.aside.ptr, true)
  }

  lemma Case3Zip(m: Memory, root: Ptr, path: Path, t: Tree)
    requires Zip(m, root, path, t) && RemoveState(path, t) && !Red(t) && path.Step? && path.aside.Bin? && !Red(path.aside)
    requires Red(Sub(path.side, path.aside)) && !Red(Sub(path.side.Other(), path.aside))
    ensures path.aside.ptr in m && Sub(path.side, path.aside).ptr in m
    ensures CanRewire(path.side.Other(), Case3Colours(m, path), path.aside.ptr)
    ensures forall m', root' :: Rewired(path.side.Other(), Case3Colours(m, path), root, m', root', path.aside.ptr) ==>
      Zip(m', root', path.(aside := Case3Aside(path)), t)
  {
    var s := path.aside;
    var i := Sub(path.side, s);
    var turned := Turned(path, t);
    ZipMoves(m, root, path, t);
    RecolourChild(m, root, turned, s, path.side, false);
    var s1 := Join(path.side, i.(red := false), s.ptr, s.size, s.red, Sub(path.side.Other(), s));
    Recolour(SetRed(m, i.ptr, false), root, turned, s1, true);
    var m2 := Case3Colours(m, path);
    var s2 := s1.(red := true);
    ZipCanRewire(path.side.Other(), m2, root, turned, s2);
    Case3Keeps(path, t);
    forall m', root' | Rewired(path.side.Other(), m2, root, m', root', s.ptr)
      ensures Zip(m', root', path.(aside := Case3Aside(path)), t)
    {
      RewiredZip(path.side.Other(), m2, root, m', root', turned, s2);
      ZipMoves(m', root', path.(aside := Case3Aside(path)), t);
    }
  }

  ghost function Case4Colours(m: Memory, path: Path): Memory
    requires path.Step? && path.aside.Bin? && Sub(path.side.Other(), path.aside).Bin?
    requires path.aside.ptr in m && path.ptr in m && Sub(path.side.Other(), path.aside).ptr in m
  {
    SetRed(SetRed(SetRed(m, path.aside.ptr, path.red), path.ptr, false), Sub(path.side.Other(), path.aside).ptr, false)
  }

  lemma Case4Zip(m: Memory, root: Ptr, path: Path, t: Tree)
    requires Zip(m, root, path, t) && RemoveState(path, t) && !Red(t) && path.Step? && path.aside.Bin? && !Red(path.aside)
    requires Red(Sub(path.side.Other(), path.aside))
    ensures path.ptr in m && path.aside.ptr in m && Sub(path.side.Other(), path.aside).ptr in m
    ensures CanRewire(path.side, Case4Colours(m, path), path.ptr)
    ensures forall m': Memory, root' :: Rewired(path.side, Case4Colours(m, path), root, m', root', path.ptr) ==>
      Zip(m', root', path.up, Case4(path, t)) && Root(t) in m' && !m'[Root(t)].red
  {
    var s := path.aside;
    var o := Sub(path.side.Other(), s);
    RecolourAside(m, root, path, t, path.red);
    var m1 := SetRed(m, s.ptr, path.red);
    var s1 := s.(red := path.red);
    var path1 := path.(aside := s1);
    RecolourAbove(m1, root, path1, t, false);
    var m2 := SetRed(m1, path.ptr, false);
    var path2 := path1.(red := false);
    ZipMoves(m2, root, path2, t);
    RecolourChild(m2, root, Turned(path2, t), s1, path.side.Other(), false);
    var m3 := Case4Colours(m, path);
    var s2 := Join(path.side, Sub(path.side, s), s.ptr, s.size, path.red, o.(red := false));
    var path3 := path2.(aside := s2);
    assert Turned(path3, t) == Turned(path2, t);
    ZipMoves(m3, root, path3, t);
    ZipCanRewire(path.side, m3, root, path.up, Joined(path3, t));
    Case4Done(path, t);
    forall m': Memory, root' | Rewired(path.side, m3, root, m', root', path.ptr)
      ensures Zip(m', root', path.up, Case4(path, t)) && Root(t) in m' && !m'[Root(t)].red
    {
      RewiredZip(path.side, m3, root, m', root', path.up, Joined(path3, t));
      assert Holds(m', Sub(path.side, Case4(path, t)), s.ptr);
      assert Holds(m', t, path.ptr);
    }
  }

  // At the end of the loop making the node black makes all good.
  lemma BlackNode(m: Memory, root: Ptr, path: Path, t: Tree, node: Ptr) returns (tree: Tree)
    requires RemoveLoop(m, root, path, t, node) && (node == root || m[node].red)
    ensures Zip(SetRed(m, node, false), root, Top, tree)
    ensures RedBlack(tree) && !Red(tree) && Entries(tree) == Entries(Plug(path, t))
  {
    RemoveStops(m, root, path, t, node);
    tree := Plug(path, Blacken(t));
    PlugRedBlack(path, Blacken(t));
    PlugSameEntries(path, t, Blacken(t));
    var m' := SetRed(m, node, false);
    if t.Bin? {
      Recolour(m, root, path, t, false);
    } else {
      assert m' == m;
    }
    ZipPlug(m', root, path, Blacken(t));
  }
}
