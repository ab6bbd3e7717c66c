// The intrusive red-black tree, as it works on nodes in memory: rotations, fix-up
// loops, insertion, removal and the search for the best fit.
module RBTreeModel {
  import opened Bits
  import opened RBShape
  import opened RBMemory
  import opened RBFix
  import opened RBSplice

  // root, and the node memory with the sentinel at NIL; tree is what they stand for.
  class RBTree {
    var root: Ptr
    var mem: Memory
    ghost var tree: Tree

    // A red-black tree, weakly ordered by size, with a black root, every link
    // mutually inverse and the sentinel black.
    ghost predicate Valid()
      reads this
    {
      Zip(mem, root, Top, tree) && RedBlack(tree) && !Red(tree) && Sorted(Contents())
    }

    // The nodes in the tree with their sizes, in ascending order of size.
    ghost function Contents(): seq<Entry>
      reads this
    {
      Entries(tree)
    }

    constructor ()
      ensures Valid() && Contents() == []
    {
      root := NIL;
      mem := map[NIL := Node(0, false, NIL, NIL, NIL)];
      tree := Leaf;
    }

    // The tree forgets its nodes.
    method Clear()
      requires Valid()
      modifies this
      ensures Valid() && Contents() == [] && mem == old(mem)
    {
      root := NIL;
      tree := Leaf;
    }

    method IsEmpty() returns (r: bool)
      requires Valid()
      ensures r <==> Contents() == []
    {
      r := root == NIL;
      RootTells(mem, tree);
    }

    // Memory that is not part of the tree becomes a node.
    method Place(node: Ptr, size: nat)
      requires Valid() && node != NIL && node !in Ids(tree)
      modifies this`mem
      ensures Valid() && Contents() == old(Contents()) && node in mem && mem[node].size == size
    {
      ghost var m := mem;
      mem := mem[node := Node(size, true, NIL, NIL, NIL)];
      Frame(m, mem, tree, NIL);
    }

    method RotateL(node: Ptr)
      requires CanRewire(LEFT, mem, node)
      modifies this
      ensures Rewired(LEFT, old(mem), old(root), mem, root, node)
    {
      var childR := mem[node].right;

      // node adopts what lies between it and childR
      mem := SetRight(mem, node, mem[childR].left);
      mem := SetParent(mem, mem[childR].left, node);

      // the link from above now leads to childR
      mem := SetParent(mem, childR, mem[node].parent);
      if mem[node].parent == NIL {
        root := childR;
      } else if node == mem[mem[node].parent].left {
        mem := SetLeft(mem, mem[node].parent, childR);
      } else {
        mem := SetRight(mem, mem[node].parent, childR);
      }

      // which puts node below it
      mem := SetLeft(mem, childR, node);
      mem := SetParent(mem, node, childR);
    }

    method RotateR(node: Ptr)
      requires CanRewire(RIGHT, mem, node)
      modifies this
      ensures Rewired(RIGHT, old(mem), old(root), mem, root, node)
    {
      var childL := mem[node].left;

      // node adopts what lies between childL and it
      mem := SetLeft(mem, node, mem[childL].right);
      mem := SetParent(mem, mem[childL].right, node);

      // the link from above now leads to childL
      mem := SetParent(mem, childL, mem[node].parent);
      if mem[node].parent == NIL {
        root := childL;
      } else if node == mem[mem[node].parent].right {
        mem := SetRight(mem, mem[node].parent, childL);
      } else {
        mem := SetLeft(mem, mem[node].parent, childL);
      }

      // which puts node below it
      mem := SetRight(mem, childL, node);
      mem := SetParent(mem, node, childL);
    }

    // One round of the loop, the parent being a left child.
    method InsertFixUnderLeft(newNode: Ptr, ghost path0: Path, ghost t0: Tree)
      returns (node: Ptr, ghost path: Path, ghost t: Tree)
      requires InsertLoop(mem, root, path0, t0, newNode)
      requires path0.Step? && path0.red && path0.up.Step? && path0.up.side == LEFT
      modifies this
      ensures InsertLoop(mem, root, path, t, node)
      ensures Entries(Plug(path, t)) == Entries(Plug(path0, t0)) && Depth(path) < Depth(path0)
    {
      node, path, t := newNode, path0, t0;
      InsertReads(mem, root, path, t);
      var parent := mem[node].parent;
      var grandparent := mem[parent].parent;
      var uncle := mem[grandparent].right;

      if mem[uncle].red {
        // the uncle is red: recolour
        FlipZip(mem, root, path, t);
        FlipKeeps(path, t);
        mem := SetRed(mem, parent, false);
        mem := SetRed(mem, uncle, false);
        mem := SetRed(mem, grandparent, true);
        node := grandparent;
        path, t := path.up.up, Flipped(path, t);
      } else {
        // an inner grandchild: turn it outwards
        if node == mem[parent].right {
          TurnOutZip(mem, root, path, t);
          TurnOutKeeps(path, t);
          node := parent;
          RotateL(node);
          path, t := TurnedOutPath(path, t), TurnedOut(path, t);
          InsertReads(mem, root, path, t);
        }

        // an outer grandchild: turn its parent up
        TurnUpZip(mem, root, path, t);
        TurnUpKeeps(path, t);
        ghost var turned := TurnUpColours(mem, path);
        mem := SetRed(mem, mem[node].parent, false);
        mem := SetRed(mem, mem[mem[node].parent].parent, true);
        assert mem == turned && mem[mem[node].parent].parent == path.up.ptr;
        RotateR(mem[mem[node].parent].parent);
        path := TurnedUpPath(path);
      }
    }

    // One round of the loop, the parent being a right child.
    method InsertFixUnderRight(newNode: Ptr, ghost path0: Path, ghost t0: Tree)
      returns (node: Ptr, ghost path: Path, ghost t: Tree)
      requires InsertLoop(mem, root, path0, t0, newNode)
      requires path0.Step? && path0.red && path0.up.Step? && path0.up.side == RIGHT
      modifies this
      ensures InsertLoop(mem, root, path, t, node)
      ensures Entries(Plug(path, t)) == Entries(Plug(path0, t0)) && Depth(path) < Depth(path0)
    {
      node, path, t := newNode, path0, t0;
      InsertReads(mem, root, path, t);
      var parent := mem[node].parent;
      var grandparent := mem[parent].parent;
      var uncle := mem[grandparent].left;

      if mem[uncle].red {
        // the uncle is red: recolour
        FlipZip(mem, root, path, t);
        FlipKeeps(path, t);
        mem := SetRed(mem, parent, false);
        mem := SetRed(mem, uncle, false);
        mem := SetRed(mem, grandparent, true);
        node := grandparent;
        path, t := path.up.up, Flipped(path, t);
      } else {
        // an inner grandchild: turn it outwards
        if node == mem[parent].left {
          TurnOutZip(mem, root, path, t);
          TurnOutKeeps(path, t);
          node := parent;
          RotateR(node);
          path, t := TurnedOutPath(path, t), TurnedOut(path, t);
          InsertReads(mem, root, path, t);
        }

        // an outer grandchild: turn its parent up
        TurnUpZip(mem, root, path, t);
        TurnUpKeeps(path, t);
        ghost var turned := TurnUpColours(mem, path);
        mem := SetRed(mem, mem[node].parent, false);
        mem := SetRed(mem, mem[mem[node].parent].parent, true);
        assert mem == turned && mem[mem[node].parent].parent == path.up.ptr;
        RotateL(mem[mem[node].parent].parent);
        path := TurnedUpPath(path);
      }
    }

    // newNode is red and may have a red parent; all else is red-black.
    method InsertFix(newNode: Ptr, ghost path0: Path, ghost t0: Tree) returns (ghost tree': Tree)
      requires InsertLoop(mem, root, path0, t0, newNode)
      modifies this
      ensures Zip(mem, root, Top, tree') && RedBlack(tree') && !Red(tree')
      ensures Entries(tree') == Entries(Plug(path0, t0))
    {
      var node := newNode;
      ghost var path, t := path0, t0;
      InsertReads(mem, root, path, t);

      while mem[mem[node].parent].red
        invariant InsertLoop(mem, root, path, t, node)
        invariant node in mem && mem[node].parent in mem && mem[mem[node].parent].red == (path.Step? && path.red)
        invariant Entries(Plug(path, t)) == Entries(Plug(path0, t0))
        decreases Depth(path)
      {
        InsertReads(mem, root, path, t);
        var parent := mem[node].parent;
        if parent == mem[mem[parent].parent].left {
          node, path, t := InsertFixUnderLeft(node, path, t);
        } else {
          node, path, t := InsertFixUnderRight(node, path, t);
        }
        InsertReads(mem, root, path, t);
      }

      tree' := BlackRoot(mem, root, path, t);
      mem := SetRed(mem, root, false);
    }

    // Cases 3 and 4 of a round, after which the code breaks out of the loop.
    method SettleLeft(parent: Ptr, sibling0: Ptr, ghost path0: Path, ghost t: Tree) returns (ghost path: Path)
      requires Zip(mem, root, path0, t) && RemoveState(path0, t) && !Red(t) && path0.Step? && path0.side == LEFT
      requires parent == path0.ptr && path0.aside.Bin? && path0.aside.ptr == sibling0 && !Red(path0.aside)
      requires Red(path0.aside.left) || Red(path0.aside.right)
      modifies this
      ensures path.Step? && path.aside.Bin? && Sub(path.side.Other(), path.aside).Bin?
      ensures Zip(mem, root, path.up, Case4(path, t)) && DoneState(path.up, Case4(path, t))
      ensures Root(t) in mem && !mem[Root(t)].red
      ensures Entries(Plug(path.up, Case4(path, t))) == Entries(Plug(path0, t))
    {
      var sibling := sibling0;
      path := path0;
      SiblingReads(mem, root, path, t);

      // case 3: now the sibling's outer child is red
      if !mem[mem[sibling].right].red {
        Case3Zip(mem, root, path, t);
        Case3Keeps(path, t);
        ghost var recoloured := Case3Colours(mem, path);
        mem := SetRed(mem, mem[sibling].left, false);
        mem := SetRed(mem, sibling, true);
        assert mem == recoloured;
        RotateR(sibling);
        path := path.(aside := Case3Aside(path));
        SiblingReads(mem, root, path, t);
        sibling := mem[parent].right;
      }

      // case 4: one rotation ends the loop
      Case4Zip(mem, root, path, t);
      Case4Done(path, t);
      ghost var recoloured, outer := Case4Colours(mem, path), mem[sibling].right;
      mem := SetRed(mem, sibling, mem[parent].red);
      mem := SetRed(mem, parent, false);
      assert mem[sibling].right == outer;
      mem := SetRed(mem, mem[sibling].right, false);
      assert mem == recoloured;
      RotateL(parent);
    }

    // One round of the loop, the short subtree being a left child. done is the
    // code's break.
    method RemoveFixOnLeft(node0: Ptr, ghost path0: Path, ghost t0: Tree)
      returns (node: Ptr, done: bool, ghost path: Path, ghost t: Tree)
      requires RemoveLoop(mem, root, path0, t0, node0) && !Red(t0) && path0.Step? && path0.side == LEFT
      modifies this
      ensures done ==> Zip(mem, root, path, t) && DoneState(path, t) && node in mem && !mem[node].red
      ensures !done ==> RemoveLoop(mem, root, path, t, node) && Short(path, t) < Short(path0, t0)
      ensures Entries(Plug(path, t)) == Entries(Plug(path0, t0))
    {
      node, done, path, t := node0, false, path0, t0;
      SiblingReads(mem, root, path, t);
      var parent := mem[node].parent;
      var sibling := mem[parent].right;

      // case 1: a red sibling is turned away
      if mem[sibling].red {
        Case1Zip(mem, root, path, t);
        Case1Keeps(path, t);
        ghost var recoloured := Case1Colours(mem, path);
        mem := SetRed(mem, sibling, false);
        mem := SetRed(mem, parent, true);
        assert mem == recoloured;
        RotateL(parent);
        path := Case1Path(path);
        SiblingReads(mem, root, path, t);
        sibling := mem[parent].right;
      }

      if !mem[mem[sibling].left].red && !mem[mem[sibling].right].red {
        // case 2: nothing red to borrow, so the gap moves up
        Case2Zip(mem, root, path, t);
        Case2Keeps(path, t);
        mem := SetRed(mem, sibling, true);
        node := parent;
        path, t := path.up, Case2(path, t);
      } else {
        path := SettleLeft(parent, sibling, path, t);
        path, t, done := path.up, Case4(path, t), true;
      }
    }

    // Cases 3 and 4 of a round, after which the code breaks out of the loop.
    method SettleRight(parent: Ptr, sibling0: Ptr, ghost path0: Path, ghost t: Tree) returns (ghost path: Path)
      requires Zip(mem, root, path0, t) && RemoveState(path0, t) && !Red(t) && path0.Step? && path0.side == RIGHT
      requires parent == path0.ptr && path0.aside.Bin? && path0.aside.ptr == sibling0 && !Red(path0.aside)
      requires Red(path0.aside.left) || Red(path0.aside.right)
      modifies this
      ensures path.Step? && path.aside.Bin? && Sub(path.side.Other(), path.aside).Bin?
      ensures Zip(mem, root, path.up, Case4(path, t)) && DoneState(path.up, Case4(path, t))
      ensures Root(t) in mem && !mem[Root(t)].red
      ensures Entries(Plug(path.up, Case4(path, t))) == Entries(Plug(path0, t))
    {
      var sibling := sibling0;
      path := path0;
      SiblingReads(mem, root, path, t);

      // case 3: now the sibling's outer child is red
      if !mem[mem[sibling].left].red {
        Case3Zip(mem, root, path, t);
        Case3Keeps(path, t);
        ghost var recoloured := Case3Colours(mem, path);
        mem := SetRed(mem, mem[sibling].right, false);
        mem := SetRed(mem, sibling, true);
        assert mem == recoloured;
        RotateL(sibling);
        path := path.(aside := Case3Aside(path));
        SiblingReads(mem, root, path, t);
        sibling := mem[parent].left;
      }

      // case 4: one rotation ends the loop
      Case4Zip(mem, root, path, t);
      Case4Done(path, t);
      ghost var recoloured, outer := Case4Colours(mem, path), mem[sibling].left;
      mem := SetRed(mem, sibling, mem[parent].red);
      mem := SetRed(mem, parent, false);
      assert mem[sibling].left == outer;
      mem := SetRed(mem, mem[sibling].left, false);
      assert mem == recoloured;
      RotateR(parent);
    }

    // One round of the loop, the short subtree being a right child. done is the
    // code's break.
    method RemoveFixOnRight(node0: Ptr, ghost path0: Path, ghost t0: Tree)
      returns (node: Ptr, done: bool, ghost path: Path, ghost t: Tree)
      requires RemoveLoop(mem, root, path0, t0, node0) && !Red(t0) && path0.Step? && path0.side == RIGHT
      modifies this
      ensures done ==> Zip(mem, root, path, t) && DoneState(path, t) && node in mem && !mem[node].red
      ensures !done ==> RemoveLoop(mem, root, path, t, node) && Short(path, t) < Short(path0, t0)
      ensures Entries(Plug(path, t)) == Entries(Plug(path0, t0))
    {
      node, done, path, t := node0, false, path0, t0;
      SiblingReads(mem, root, path, t);
      var parent := mem[node].parent;
      var sibling := mem[parent].left;

      // case 1: a red sibling is turned away
      if mem[sibling].red {
        Case1Zip(mem, root, path, t);
        Case1Keeps(path, t);
        ghost var recoloured := Case1Colours(mem, path);
        mem := SetRed(mem, sibling, false);
        mem := SetRed(mem, parent, true);
        assert mem == recoloured;
        RotateR(parent);
        path := Case1Path(path);
        SiblingReads(mem, root, path, t);
        sibling := mem[parent].left;
      }

      if !mem[mem[sibling].left].red && !mem[mem[sibling].right].red {
        // case 2: nothing red to borrow, so the gap moves up
        Case2Zip(mem, root, path, t);
        Case2Keeps(path, t);
        mem := SetRed(mem, sibling, true);
        node := parent;
        path, t := path.up, Case2(path, t);
      } else {
        path := SettleRight(parent, sibling, path, t);
        path, t, done := path.up, Case4(path, t), true;
      }
    }

    // Below replacement one black node is missing; all else is red-black.
    method RemoveFix(replacement: Ptr, ghost path0: Path, ghost t0: Tree) returns (ghost tree': Tree)
      requires RemoveLoop(mem, root, path0, t0, replacement)
      modifies this
      ensures Zip(mem, root, Top, tree') && RedBlack(tree') && !Red(tree')
      ensures Entries(tree') == Entries(Plug(path0, t0))
    {
      var node, done := replacement, false;
      ghost var path, t := path0, t0;

      while node != root && !mem[node].red
        invariant RemoveLoop(mem, root, path, t, node)
        invariant Entries(Plug(path, t)) == Entries(Plug(path0, t0))
        decreases Short(path, t)
      {
        RemoveStops(mem, root, path, t, node);
        ShortSide(mem, root, path, t);
        if node == mem[mem[node].parent].left {
          node, done, path, t := RemoveFixOnLeft(node, path, t);
        } else {
          node, done, path, t := RemoveFixOnRight(node, path, t);
        }
        if done { break; }
      }

      if done {
        tree' := Plug(path, t);
        PlugRedBlack(path, t);
        ZipPlug(mem, root, path, t);
        assert SetRed(mem, node, false) == mem;
      } else {
        tree' := BlackNode(mem, root, path, t, node);
      }
      mem := SetRed(mem, node, false);
    }

    // The parent of replaced, or the root, gets replacement in its place.
    method Transplant(replaced: Ptr, replacement: Ptr, ghost path: Path)
      requires replaced in mem && mem[replaced].parent == Near(path) && replacement in mem
      requires path.Step? ==> path.ptr != NIL && path.ptr != replacement && path.ptr in mem
      requires path.Step? ==> (mem[path.ptr].left == replaced) == (path.side == LEFT)
      requires replaced != replacement && (path.Step? ==> replaced != path.ptr)
      modifies this
      ensures Transplanted(old(mem), old(root), mem, root, path, replacement)
    {
      if mem[replaced].parent == NIL {
        root := replacement;
      } else if replaced == mem[mem[replaced].parent].left {
        mem := SetLeft(mem, mem[replaced].parent, replacement);
      } else {
        mem := SetRight(mem, mem[replaced].parent, replacement);
      }
      mem := SetParent(mem, replacement, mem[replaced].parent);
    }

    // The leftmost node below rootNode.
    method Min(rootNode: Ptr, ghost t: Tree, ghost parent: Ptr) returns (node: Ptr, ghost path: Path, ghost s: Tree)
      requires Holds(mem, t, parent) && t.Bin? && t.ptr == rootNode
      ensures t == Plug(path, s) && Leftmost(path) && s.Bin? && s.left.Leaf? && s.ptr == node
    {
      node, path, s := rootNode, Top, t;
      ghost var above := parent;
      while mem[node].left != NIL
        invariant t == Plug(path, s) && Leftmost(path) && s.Bin? && s.ptr == node && Holds(mem, s, above)
        decreases s
      {
        node := mem[node].left;
        assert Holds(mem, s.left, s.ptr);
        path, s, above := Step(path, LEFT, s.ptr, s.size, s.red, s.right), s.left, s.ptr;
      }
    }

    // The first half of the removal of a node with two children: its successor
    // is taken out of the right subtree, whose rest is hung below it.
    method DetachSuccessor(node: Ptr, ghost path: Path, ghost t: Tree)
      returns (replaced: Ptr, replacement: Ptr, origRed: bool, ghost path2: Path, ghost s: Tree)
      requires Zip(mem, root, path, t) && t.Bin? && t.ptr == node && t.left.Bin? && t.right.Bin?
      modifies this
      ensures HalfLifted(mem, root, path, t, path2, s) && t.right == Plug(path2, s) && Leftmost(path2)
      ensures replaced == s.ptr && replacement == Root(s.right) && origRed == s.red
    {
      replaced, path2, s := Min(mem[node].right, t.right, node);
      MinZip(mem, root, path, t, path2, s);
      MinIds(path, t, path2, s);
      origRed := mem[replaced].red;
      replacement := mem[replaced].right;
      ghost var to := ToMin(path, t, path2);
      SpliceReady(mem, root, to, s, s.right);
      NearBelow(Step(path, RIGHT, node, t.size, t.red, t.left), path2);
      if mem[replaced].parent == node {
        mem := SetParent(mem, replacement, replaced);
        HalfFromChild(old(mem), root, path, t, s);
      } else {
        Transplant(replaced, mem[replaced].right, to);
        HalfFromBelow(old(mem), old(root), mem, root, path, t, path2, s);
        mem := SetRight(mem, replaced, mem[node].right);
        mem := SetParent(mem, mem[replaced].right, replaced);
      }
    }

    // Puts the successor of a node with two children in the node's place.
    method LiftSuccessor(node: Ptr, ghost path: Path, ghost t: Tree)
      returns (replacement: Ptr, origRed: bool, ghost path': Path, ghost c: Tree)
      requires Zip(mem, root, path, t) && t.Bin? && t.ptr == node && t.left.Bin? && t.right.Bin?
      requires RedBlack(Plug(path, t)) && !Red(Plug(path, t))
      modifies this
      ensures Zip(mem, root, path', c) && replacement == Root(c)
      ensures replacement in mem && mem[replacement].parent == Near(path')
      ensures Entries(Plug(path', c)) == Removed(Entries(Plug(path, t)), node)
      ensures if origRed then DoneState(path', c) else RemoveState(path', c)
    {
      ghost var path2, s;
      var replaced;
      if path.Step? { WhichSide(mem, root, path, t); }
      replaced, replacement, origRed, path2, s := DetachSuccessor(node, path, t);
      path', c := ToMin(path, Lifted(t, path2, s), path2), s.right;
      NearBelow(Step(path, RIGHT, s.ptr, s.size, t.red, t.left), path2);
      LiftedEntries(path, t, path2, s);
      LiftedPlug(path, t, path2, s);
      LiftedState(path, t, path2, s);
      PlaceSuccessor(node, replaced, path, t, path2, s);
    }

    // The second half: the successor takes over the node's links and colour.
    method PlaceSuccessor(node: Ptr, replaced: Ptr, ghost path: Path, ghost t: Tree, ghost path2: Path, ghost s: Tree)
      requires HalfLifted(mem, root, path, t, path2, s) && node == t.ptr && replaced == s.ptr
      modifies this
      ensures Zip(mem, root, ToMin(path, Lifted(t, path2, s), path2), s.right)
      ensures Root(s.right) in mem && mem[Root(s.right)].parent == (if path2.Top? then s.ptr else path2.ptr)
    {
      hide Zip, Transplanted, Plug, Unique, UniquePath, Holds, HoldsPath, Ids, PathIds, ToMin, Lifted;
      HalfApart(mem, root, path, t, path2, s);
      Transplant(node, replaced, path);
      PlaceZip(old(mem), old(root), mem, root, path, t, path2, s);
      mem := SetLeft(mem, replaced, mem[node].left);
      mem := SetParent(mem, mem[replaced].left, replaced);
      mem := SetRed(mem, replaced, mem[node].red);
    }

    // The empty place where a search for newNode's size ends, in front of all
    // entries of that size. steps counts the rounds of the loop.
    method FindPlace(newNode: Ptr) returns (parent: Ptr, ghost path: Path, ghost steps: nat)
      requires Valid() && newNode in mem
      ensures Zip(mem, root, path, Leaf) && parent == Near(path) && Plug(path, Leaf) == tree
      ensures AllBelow(Before(path), mem[newNode].size) && AllFrom(After(path), mem[newNode].size)
      ensures path.Step? ==> (path.side == LEFT) == (mem[newNode].size <= path.size)
      ensures Pow2(steps) <= (|Contents()| + 1) * (|Contents()| + 1)
    {
      var current := root;
      ghost var t := tree;
      parent, path, steps := NIL, Top, 0;
      HeightBound(tree);
      while current != NIL
        invariant Zip(mem, root, path, t) && current == Root(t) && parent == Near(path) && Plug(path, t) == tree
        invariant AllBelow(Before(path), mem[newNode].size) && AllFrom(After(path), mem[newNode].size)
        invariant path.Step? ==> (path.side == LEFT) == (mem[newNode].size <= path.size)
        invariant steps + Height(t) <= Height(tree)
        decreases t
      {
        steps := steps + 1;
        Descend(path, t, mem[newNode].size);
        ChildLinks(mem, root, path, t);
        parent := current;
        ghost var up := path;
        if mem[newNode].size <= mem[current].size {
          current := mem[current].left;
          path, t := Step(path, LEFT, t.ptr, t.size, t.red, t.right), t.left;
        } else {
          current := mem[current].right;
          path, t := Step(path, RIGHT, t.ptr, t.size, t.red, t.left), t.right;
        }
        ZipMoves(mem, root, path, t);
      }
      Pow2Mono(steps, Height(tree));
    }

    // Links newNode in at an empty place, before any fix-up.
    method LinkIn(newNode: Ptr) returns (ghost path: Path, ghost steps: nat)
      requires Valid() && newNode in mem && newNode != NIL && newNode !in Ids(tree)
      modifies this`root, this`mem
      ensures InsertLoop(mem, root, path, NewLeaf(newNode, old(mem)[newNode].size), newNode)
      ensures Entries(Plug(path, NewLeaf(newNode, old(mem)[newNode].size))) == Inserted(Contents(), Entry(newNode, old(mem)[newNode].size))
      ensures Pow2(steps) <= (|old(Contents())| + 1) * (|old(Contents())| + 1)
    {
      var parent;
      parent, path, steps := FindPlace(newNode);
      ghost var size := mem[newNode].size;
      PlugIds(path, Leaf);
      PathIdsInMemory(mem, path, NIL);
      UnplugRedBlack(path, Leaf);
      InsertedFocus(path, newNode, size);

      // hang it in at the empty place
      mem := SetParent(mem, newNode, parent);
      if parent == NIL {
        root := newNode;
      } else if mem[newNode].size <= mem[parent].size {
        mem := SetLeft(mem, parent, newNode);
      } else {
        mem := SetRight(mem, parent, newNode);
      }

      // a red leaf
      mem := SetLeft(mem, newNode, NIL);
      mem := SetRight(mem, newNode, NIL);
      mem := SetRed(mem, newNode, true);
      LinkedZip(old(mem), old(root), mem, root, path, newNode, size);
    }

    // Adds newNode, whose size field is set, in front of the nodes of its size.
    // steps counts the rounds of the descent.
    method Insert(newNode: Ptr) returns (ghost steps: nat)
      requires Valid() && newNode in mem && newNode != NIL && newNode !in Ids(tree)
      modifies this
      ensures Valid()
      ensures Contents() == Inserted(old(Contents()), Entry(newNode, old(mem)[newNode].size))
      ensures Pow2(steps) <= (|old(Contents())| + 1) * (|old(Contents())| + 1)
    {
      ghost var path;
      path, steps := LinkIn(newNode);
      ghost var size := old(mem)[newNode].size;
      InsertedSorted(Contents(), Entry(newNode, size));
      tree := InsertFix(newNode, path, NewLeaf(newNode, size));
    }

    // Takes node out; every other node stays, in the same order.
    method Remove(node: Ptr)
      requires Valid() && node in Ids(tree)
      modifies this
      ensures Valid()
      ensures Contents() == Removed(old(Contents()), node)
    {
      ghost var path, t := Locate(Top, tree, node);
      ZipPlug(mem, root, path, t);
      UnplugRedBlack(path, t);
      RemovedSorted(Contents(), node);
      ChildLinks(mem, root, path, t);
      var origRed := mem[node].red;
      var replacement;
      ghost var c;

      if mem[node].left == NIL {
        replacement := mem[node].right;
        c := t.right;
        SpliceReady(mem, root, path, t, c);
        Transplant(node, replacement, path);
        SpliceZip(old(mem), old(root), mem, root, path, t, c);
        SpliceState(path, t, c);
        RemovedFocus(path, t, c);
      } else if mem[node].right == NIL {
        replacement := mem[node].left;
        c := t.left;
        SpliceReady(mem, root, path, t, c);
        Transplant(node, replacement, path);
        SpliceZip(old(mem), old(root), mem, root, path, t, c);
        SpliceState(path, t, c);
        RemovedFocus(path, t, c);
      } else {
        replacement, origRed, path, c := LiftSuccessor(node, path, t);
      }

      if !origRed {
        tree := RemoveFix(replacement, path, c);
      } else {
        PlugRedBlack(path, c);
        ZipPlug(mem, root, path, c);
        tree := Plug(path, c);
      }
    }

    // A node of least size that reaches reqSize, or the sentinel if there is none.
    // steps counts the rounds of the loop.
    method FindBest(reqSize: nat) returns (best: Ptr, ghost steps: nat)
      requires Valid()
      ensures IsBestFit(mem, Contents(), reqSize, best)
      ensures Pow2(steps) <= (|Contents()| + 1) * (|Contents()| + 1)
    {
      var current := root;
      ghost var path, t := Top, tree;
      best, steps := NIL, 0;
      HeightBound(tree);
      while current != NIL
        invariant Zip(mem, root, path, t) && current == Root(t) && Plug(path, t) == tree
        invariant AllBelow(Before(path), reqSize) && AllFrom(After(path), reqSize) && BestSoFar(mem, path, best)
        invariant steps + Height(t) <= Height(tree)
        decreases t
      {
        Descend(path, t, reqSize);
        ChildLinks(mem, root, path, t);
        steps := steps + 1;
        if mem[current].size == reqSize {
          best := current;
          BestOnTheWay(mem, path, t);
          Pow2Mono(steps, Height(tree));
          return;
        } else if mem[current].size > reqSize {
          best := current;
          current := mem[current].left;
          path, t := Step(path, LEFT, t.ptr, t.size, t.red, t.right), t.left;
        } else {
          current := mem[current].right;
          path, t := Step(path, RIGHT, t.ptr, t.size, t.red, t.left), t.right;
        }
        ZipMoves(mem, root, path, t);
      }
      assert t == Leaf by { IdsInMemory(mem, t, Near(path)); }
      BestAtEnd(mem, path, reqSize, best);
      Pow2Mono(steps, Height(tree));
    }
  }
}
