// The algebra behind the intrusive red-black tree: trees, zippers over trees,
// rotations, and the red-black properties.
module RBShape {
  import opened Bits

  // A node address. NIL is the address of the tree's shared sentinel node.
  type Ptr = nat
  const NIL: Ptr := 0

  datatype Tree = Leaf | Bin(left: Tree, ptr: Ptr, size: nat, red: bool, right: Tree)

  datatype Side = LEFT | RIGHT {
    ghost function Other(): Side {
      if this == LEFT then RIGHT else LEFT
    }
  }

  // The way from the root down to a subtree: each step records which child the
  // way goes to, the node passed, and the subtree that is left aside.
  datatype Path = Top | Step(up: Path, side: Side, ptr: Ptr, size: nat, red: bool, aside: Tree)

  // A node as the users of a tree see it.
  datatype Entry = Entry(ptr: Ptr, size: nat)

  // ----- trees and zippers

  ghost function Root(t: Tree): Ptr {
    if t.Leaf? then NIL else t.ptr
  }

  ghost function Join(side: Side, t: Tree, ptr: Ptr, size: nat, red: bool, aside: Tree): Tree {
    if side == LEFT then Bin(t, ptr, size, red, aside) else Bin(aside, ptr, size, red, t)
  }

  ghost function Plug(path: Path, t: Tree): Tree {
    if path.Top? then t else Plug(path.up, Join(path.side, t, path.ptr, path.size, path.red, path.aside))
  }

  // The nearest node on the way back to the root: the parent of the subtree.
  ghost function Near(path: Path): Ptr {
    if path.Top? then NIL else path.ptr
  }

  // The root of the whole tree, when the subtree's own root is child.
  ghost function TopPtr(path: Path, child: Ptr): Ptr {
    if path.Top? then child else TopPtr(path.up, path.ptr)
  }

  // path below up: the way through up, then on through path.
  ghost function Below(up: Path, path: Path): Path {
    if path.Top? then up else path.(up := Below(up, path.up))
  }

  ghost function Depth(path: Path): nat {
    if path.Top? then 0 else 1 + Depth(path.up)
  }

  ghost function Entries(t: Tree): seq<Entry> {
    if t.Leaf? then [] else Entries(t.left) + [Entry(t.ptr, t.size)] + Entries(t.right)
  }

  // The entries in front of, and behind, the subtree that path leads to.
  ghost function Before(path: Path): seq<Entry> {
    if path.Top? then []
    else if path.side == LEFT then Before(path.up)
    else Before(path.up) + Entries(path.aside) + [Entry(path.ptr, path.size)]
  }

  ghost function After(path: Path): seq<Entry> {
    if path.Top? then []
    else if path.side == RIGHT then After(path.up)
    else [Entry(path.ptr, path.size)] + Entries(path.aside) + After(path.up)
  }

  lemma {:induction false} PlugEntries(path: Path, t: Tree)
    ensures Entries(Plug(path, t)) == Before(path) + Entries(t) + After(path)
  {
    if path.Step? {
      var s := Join(path.side, t, path.ptr, path.size, path.red, path.aside);
      PlugEntries(path.up, s);
      var e := [Entry(path.ptr, path.size)];
      if path.side == LEFT {
        assert Entries(s) == Entries(t) + e + Entries(path.aside);
        Regroup5(Before(path.up), Entries(t), e, Entries(path.aside), After(path.up));
      } else {
        assert Entries(s) == Entries(path.aside) + e + Entries(t);
        Regroup5'(Before(path.up), Entries(path.aside), e, Entries(t), After(path.up));
      }
    }
  }

  lemma Regroup5<X>(a: seq<X>, b: seq<X>, c: seq<X>, d: seq<X>, e: seq<X>)
    ensures a + (b + c + d) + e == a + b + (c + d + e)
  {
  }

  lemma Regroup5'<X>(a: seq<X>, b: seq<X>, c: seq<X>, d: seq<X>, e: seq<X>)
    ensures a + (b + c + d) + e == (a + b + c) + d + e
  {
  }

  lemma PlugSameEntries(path: Path, t: Tree, t': Tree)
    requires Entries(t) == Entries(t')
    ensures Entries(Plug(path, t)) == Entries(Plug(path, t'))
  {
    PlugEntries(path, t);
    PlugEntries(path, t');
  }

  lemma {:induction false} PlugBelow(up: Path, path: Path, t: Tree)
    ensures Plug(Below(up, path), t) == Plug(up, Plug(path, t))
  {
    if path.Step? {
      PlugBelow(up, path.up, Join(path.side, t, path.ptr, path.size, path.red, path.aside));
    }
  }

  // ----- rotations

  ghost function Sub(side: Side, t: Tree): Tree
    requires t.Bin?
  {
    if side == LEFT then t.left else t.right
  }

  // The child that comes up when t is rotated to side, and its subtree that changes hands.
  ghost function Riser(side: Side, t: Tree): Tree
    requires t.Bin?
  {
    Sub(side.Other(), t)
  }

  ghost predicate CanRotate(side: Side, t: Tree) {
    t.Bin? && Riser(side, t).Bin?
  }

  ghost function Inner(side: Side, t: Tree): Tree
    requires CanRotate(side, t)
  {
    Sub(side, Riser(side, t))
  }

  ghost function Rotated(side: Side, t: Tree): Tree
    requires CanRotate(side, t)
  {
    var r := Riser(side, t);
    Join(side, Join(side, Sub(side, t), t.ptr, t.size, t.red, Inner(side, t)), r.ptr, r.size, r.red, Riser(side, r))
  }

  lemma RotatedEntries(side: Side, t: Tree)
    requires CanRotate(side, t)
    ensures Entries(Rotated(side, t)) == Entries(t)
  {
    var r := Riser(side, t);
    var a, b, c := Entries(Sub(side, t)), Entries(Inner(side, t)), Entries(Riser(side, r));
    var x, y := [Entry(t.ptr, t.size)], [Entry(r.ptr, r.size)];
    if side == LEFT {
      assert Entries(Rotated(side, t)) == (a + x + b) + y + c;
      assert Entries(t) == a + x + (b + y + c);
    } else {
      assert Entries(Rotated(side, t)) == c + y + (b + x + a);
      assert Entries(t) == (c + y + b) + x + a;
    }
  }

  // ----- the red-black properties

  ghost predicate Red(t: Tree) {
    t.Bin? && t.red
  }

  ghost function BlackHeight(t: Tree): nat {
    if t.Leaf? then 0 else BlackHeight(t.left) + if t.red then 0 else 1
  }

  // Equal black heights everywhere, and no red node with a red child.
  ghost predicate RedBlack(t: Tree) {
    t.Bin? ==>
      && RedBlack(t.left) && RedBlack(t.right)
      && BlackHeight(t.left) == BlackHeight(t.right)
      && (t.red ==> !Red(t.left) && !Red(t.right))
  }

  // What remains of a red-black tree with a black root around a hole, when the
  // hole is to be filled by a red-black tree of black height h, red or not.
  ghost predicate Fits(path: Path, h: nat, red: bool) {
    if path.Top? then !red
    else
      && RedBlack(path.aside) && BlackHeight(path.aside) == h
      && (path.red ==> !red && !Red(path.aside))
      && Fits(path.up, if path.red then h else h + 1, path.red)
  }

  lemma {:induction false} PlugRedBlack(path: Path, t: Tree)
    requires RedBlack(t) && Fits(path, BlackHeight(t), Red(t))
    ensures RedBlack(Plug(path, t)) && !Red(Plug(path, t))
  {
    if path.Step? {
      PlugRedBlack(path.up, Join(path.side, t, path.ptr, path.size, path.red, path.aside));
    }
  }

  lemma {:induction false} UnplugRedBlack(path: Path, t: Tree)
    requires RedBlack(Plug(path, t)) && !Red(Plug(path, t))
    ensures RedBlack(t) && Fits(path, BlackHeight(t), Red(t))
  {
    if path.Step? {
      UnplugRedBlack(path.up, Join(path.side, t, path.ptr, path.size, path.red, path.aside));
    }
  }

  ghost function Blacken(t: Tree): Tree {
    if t.Leaf? then t else t.(red := false)
  }

  // ----- height

  ghost function Height(t: Tree): nat {
    if t.Leaf? then 0 else 1 + if Height(t.left) < Height(t.right) then Height(t.right) else Height(t.left)
  }

  lemma {:induction false} HeightByBlack(t: Tree)
    requires RedBlack(t)
    ensures Height(t) <= 2 * BlackHeight(t) + if Red(t) then 1 else 0
  {
    if t.Bin? {
      HeightByBlack(t.left);
      HeightByBlack(t.right);
    }
  }

  lemma {:induction false} NodesByBlack(t: Tree)
    requires RedBlack(t)
    ensures Pow2(BlackHeight(t)) <= |Entries(t)| + 1
  {
    if t.Bin? {
      NodesByBlack(t.left);
      NodesByBlack(t.right);
    }
  }

  // A tree of n nodes is at most 2 log2(n + 1) high.
  lemma HeightBound(t: Tree)
    requires RedBlack(t) && !Red(t)
    ensures var n := |Entries(t)|; Pow2(Height(t)) <= (n + 1) * (n + 1)
  {
    HeightByBlack(t);
    NodesByBlack(t);
    var b, n := BlackHeight(t), |Entries(t)| + 1;
    Pow2Mono(Height(t), b + b);
    Pow2Add(b, b);
    Square(Pow2(b), n);
  }

  lemma Square(a: nat, b: nat)
    requires a <= b
    ensures a * a <= b * b
  {
    assert a * a <= a * b <= b * b;
  }
}
