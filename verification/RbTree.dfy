/**
 The red-black tree engine: rotations, fix-up loops, insertion and deletion by assignments to
 node fields, as the pointer program performs them, proved against the tree it stands for.
 */
module RbEngine {
  import opened Common
  import opened Keys
  import opened OrderedMap
  import opened RbShape
  import opened RbStore
  import opened RbProof

  class RbTree {
    var h: Heap
    var root: Ref
    ghost var tree: Tree

    /** The heap holds a sorted red-black tree, the sentinel, and the nodes in `extra`. */
    ghost predicate Holds(extra: set<Ref>)
      reads this
    {
      && At(h, root, Root, tree) && RedBlack(tree) && Sorted(Walk(tree))
      && h.Keys == Ids(tree) + {NIL} + extra && extra !! Ids(tree) && NIL !in extra
    }

    /** The child pointer that led to x, or the root, now leads to y. */
    method Relink(x: Ref, y: Ref, ghost k: Ctx)
      requires x in h && h[x].parent == CtxId(k)
      requires !k.Root? ==> k.id != NIL && k.id in h && (k.InLeft? <==> h[k.id].left == x)
      modifies this`h, this`root
      ensures h.Keys == old(h.Keys)
      ensures k.Root? ==> root == y && h == old(h)
      ensures !k.Root? ==> root == old(root) && h == SetChild(old(h), k, y)
      ensures forall i :: i in h && i != CtxId(k) ==> h[i] == old(h[i])
    {
      var p := h[x].parent;
      if p == NIL {
        root := y;
      } else if x == h[p].left {
        h := h[p := h[p].(left := y)];
      } else {
        h := h[p := h[p].(right := y)];
      }
    }

    /** Tell node b, unless it is the sentinel, that its parent is now x. */
    method Adopt(b: Ref, x: Ref)
      requires b in h
      modifies this`h
      ensures h.Keys == old(h.Keys)
      ensures b != NIL ==> h[b] == old(h[b]).(parent := x)
      ensures forall i :: i in h && (i != b || b == NIL) ==> h[i] == old(h[i])
    {
      if b != NIL {
        h := h[b := h[b].(parent := x)];
      }
    }

    /** First half of a left rotation: x takes over b, and y the parent of x. */
    method LeftLift(x: Ref, y: Ref, b: Ref)
      requires x in h && y in h && b in h && x != y && b != x && b != y && h[y].left == b
      modifies this`h
      ensures h.Keys == old(h.Keys)
      ensures h[x] == old(h[x]).(right := b) && h[y] == old(h[y]).(parent := old(h[x]).parent)
      ensures b != NIL ==> h[b] == old(h[b]).(parent := x)
      ensures forall i :: i in h && i != x && i != y && (i != b || b == NIL) ==> h[i] == old(h[i])
    {
      h := h[x := h[x].(right := h[y].left)];
      Adopt(b, x);
      h := h[y := h[y].(parent := h[x].parent)];
    }

    method RightLift(y: Ref, x: Ref, b: Ref)
      requires x in h && y in h && b in h && x != y && b != x && b != y && h[x].right == b
      modifies this`h
      ensures h.Keys == old(h.Keys)
      ensures h[y] == old(h[y]).(left := b) && h[x] == old(h[x]).(parent := old(h[y]).parent)
      ensures b != NIL ==> h[b] == old(h[b]).(parent := y)
      ensures forall i :: i in h && i != x && i != y && (i != b || b == NIL) ==> h[i] == old(h[i])
    {
      h := h[y := h[y].(left := h[x].right)];
      Adopt(b, y);
      h := h[x := h[x].(parent := h[y].parent)];
    }

    /** The pointer assignments of a left rotation, on nodes known to be present and different. */
    method LeftTurn(x: Ref, y: Ref, b: Ref, ghost k: Ctx)
      requires Ready(h, k, x, y, b) && h[x].right == y && h[y].left == b
      modifies this`h, this`root
      ensures h.Keys == old(h.Keys)
      ensures h[x] == old(h[x]).(right := b, parent := y) && h[y] == old(h[y]).(left := x, parent := CtxId(k))
      ensures b != NIL ==> h[b] == old(h[b]).(parent := x)
      ensures !k.Root? ==> h[k.id] == SetChild(old(h), k, y)[k.id]
      ensures forall i :: i in h && i != x && i != y && (i != b || b == NIL) && (i != CtxId(k) || i == NIL) ==>
              h[i] == old(h[i])
      ensures root == if k.Root? then y else old(root)
    {
      LeftLift(x, y, b);
      Relink(x, y, k);
      h := h[y := h[y].(left := x)];
      h := h[x := h[x].(parent := y)];
    }

    method RightTurn(y: Ref, x: Ref, b: Ref, ghost k: Ctx)
      requires Ready(h, k, y, x, b) && h[y].left == x && h[x].right == b
      modifies this`h, this`root
      ensures h.Keys == old(h.Keys)
      ensures h[y] == old(h[y]).(left := b, parent := x) && h[x] == old(h[x]).(right := y, parent := CtxId(k))
      ensures b != NIL ==> h[b] == old(h[b]).(parent := y)
      ensures !k.Root? ==> h[k.id] == SetChild(old(h), k, x)[k.id]
      ensures forall i :: i in h && i != x && i != y && (i != b || b == NIL) && (i != CtxId(k) || i == NIL) ==>
              h[i] == old(h[i])
      ensures root == if k.Root? then x else old(root)
    {
      RightLift(y, x, b);
      Relink(y, x, k);
      h := h[x := h[x].(right := y)];
      h := h[y := h[y].(parent := x)];
    }

    method LeftRotate(x: Ref, ghost k: Ctx, ghost t: Tree)
      requires At(h, root, k, t) && t.Br? && t.right.Br? && t.id == x
      modifies this`h, this`root
      ensures At(h, root, k, RotL(t))
      ensures h.Keys == old(h.Keys) && h[NIL] == old(h[NIL])
    {
      hide At, RotL;
      ReadyToRotate(h, root, k, t, t.right, t.right.left);
      var y := h[x].right;
      LeftTurn(x, y, h[y].left, k);
      RotatedLeft(old(h), old(root), h, root, k, t);
    }

    method RightRotate(y: Ref, ghost k: Ctx, ghost t: Tree)
      requires At(h, root, k, t) && t.Br? && t.left.Br? && t.id == y
      modifies this`h, this`root
      ensures At(h, root, k, RotR(t))
      ensures h.Keys == old(h.Keys) && h[NIL] == old(h[NIL])
    {
      hide At, RotR;
      ReadyToRotate(h, root, k, t, t.left, t.left.right);
      var x := h[y].left;
      RightTurn(y, x, h[x].right, k);
      RotatedRight(old(h), old(root), h, root, k, t);
    }

    method RotateToOuter(ghost k: Ctx, ghost t: Tree, p: Ref)
      requires At(h, root, k, t) && t.Br? && Inner(k) && p == k.id
      modifies this`h, this`root
      ensures At(h, root, OuterCtx(k, t), OuterTree(k, t))
      ensures h.Keys == old(h.Keys)
    {
      hide At;
      ZoomOut(h, root, k, t);
      ghost var P := Grow(k, t);
      Look(h, root, k.up, P);
      if p == h[h[p].parent].left {
        assert k.up.InLeft?;
        LeftRotate(p, k.up, P);
        ZoomLeft(h, root, k.up, RotL(P));
      } else {
        RightRotate(p, k.up, P);
        ZoomRight(h, root, k.up, RotR(P));
      }
    }

    /** Parent black, grandparent red, rotation at the grandparent. */
    method RotateGrandparent(ghost k: Ctx, ghost t: Tree, p: Ref, g: Ref)
      requires At(h, root, k, t) && !k.Root? && !k.up.Root? && !Inner(k) && p == k.id && g == k.up.id
      requires t.Br?
      modifies this`h, this`root
      ensures At(h, root, FinalCtx(k), t)
      ensures h.Keys == old(h.Keys)
    {
      hide At;
      ZoomOut(h, root, k, t);
      ghost var P := Grow(k, t);
      Look(h, root, k.up, P);
      h := h[p := h[p].(color := Black)];
      Recolored(old(h), root, k.up, P, Black);
      P := P.(color := Black);
      ZoomOut(h, root, k.up, P);
      Look(h, root, k.up, P);
      ghost var G, top := Grow(k.up, P), k.up.up;
      ghost var h1 := h;
      h := h[g := h[g].(color := Red)];
      Recolored(h1, root, top, G, Red);
      G := G.(color := Red);
      if p == h[g].left {
        RightRotate(g, top, G);
        ZoomLeft(h, root, top, RotR(G));
      } else {
        LeftRotate(g, top, G);
        ZoomRight(h, root, top, RotL(G));
      }
    }

    /** One turn of the insertion loop. */
    method InsertFixupStep(z: Ref, ghost k: Ctx, ghost t: Tree, ghost n: nat)
      returns (z': Ref, ghost k': Ctx, ghost t': Tree, ghost n': nat)
      requires At(h, root, k, t) && IdOf(t) == z && InsertInv(k, t, n) && CtxColor(k) == Red
      modifies this`h, this`root
      ensures At(h, root, k', t') && IdOf(t') == z' && InsertInv(k', t', n')
      ensures Walk(Plug(k', t')) == Walk(Plug(k, t)) && Ids(Plug(k', t')) == Ids(Plug(k, t))
      ensures h.Keys == old(h.Keys) && Depth(k') < Depth(k)
    {
      hide At, Walk, Ids, Plug, Bal, CtxBal, NoRedRed;
      Look(h, root, k, t);
      ZoomOut(h, root, k, t);
      Look(h, root, k.up, Grow(k, t));
      UncleColor(h, root, k, t);
      assert Depth(k) == 2 + Depth(k.up.up);
      var p := h[z].parent;
      var g := h[p].parent;
      var y := if p == h[g].left then h[g].right else h[g].left;
      if h[y].color == Red {
        UncleRecolored(h, root, k, t);
        UncleRestores(k, t, n);
        UncleKeeps(k, t);
        h := h[p := h[p].(color := Black)];
        h := h[y := h[y].(color := Black)];
        h := h[g := h[g].(color := Red)];
        return g, k.up.up, UncleTree(k, t), n + 1;
      }
      z', k', t', n' := z, k, t, n;
      if (p == h[g].left) == (z == h[p].right) {
        OuterRestores(k, t, n);
        OuterKeeps(k, t);
        RotateToOuter(k, t, p);
        z', p := p, z;
        k', t' := OuterCtx(k, t), OuterTree(k, t);
      }
      FinalRestores(k', t', n);
      FinalKeeps(k', t');
      RotateGrandparent(k', t', p, g);
      k' := FinalCtx(k');
    }

    method InsertFixup(z0: Ref, ghost k0: Ctx, ghost t0: Tree, ghost n0: nat) returns (ghost tree: Tree)
      requires At(h, root, k0, t0) && IdOf(t0) == z0 && InsertInv(k0, t0, n0)
      modifies this`h, this`root
      ensures At(h, root, Root, tree) && RedBlack(tree)
      ensures Walk(tree) == Walk(Plug(k0, t0)) && Ids(tree) == Ids(Plug(k0, t0))
      ensures h.Keys == old(h.Keys)
    {
      hide At, Walk, Ids, Plug, Bal, CtxBal, NoRedRed, CtxNoRedRed;
      var z := z0;
      ghost var k, t, n := k0, t0, n0;
      Look(h, root, k, t);
      while h[h[z].parent].color == Red
        invariant At(h, root, k, t) && IdOf(t) == z && InsertInv(k, t, n)
        invariant Walk(Plug(k, t)) == Walk(Plug(k0, t0)) && Ids(Plug(k, t)) == Ids(Plug(k0, t0))
        invariant h.Keys == old(h.Keys) && z in h && h[z].parent in h
        invariant h[h[z].parent].color == CtxColor(k)
        decreases Depth(k)
      {
        z, k, t, n := InsertFixupStep(z, k, t, n);
        Look(h, root, k, t);
      }
      tree := BlackenRoot(k, t, n);
    }

    method BlackenRoot(ghost k: Ctx, ghost t: Tree, ghost n: nat) returns (ghost tree: Tree)
      requires At(h, root, k, t) && InsertInv(k, t, n) && CtxColor(k) == Black
      modifies this`h
      ensures At(h, root, Root, tree) && RedBlack(tree)
      ensures Walk(tree) == Walk(Plug(k, t)) && Ids(tree) == Ids(Plug(k, t))
      ensures h.Keys == old(h.Keys)
    {
      hide At;
      RootOfCtx(h, root, k, t);
      ghost var h0, t1, n1 := h, t, n;
      if k.Root? {
        Look(h, root, k, t);
        Recolored(h, root, k, t, Black);
        t1, n1 := t.(color := Black), n + 1;
      } else {
        RootIsBlack(h, root, k, t);
        assert h == h[root := h[root].(color := Black)];
      }
      h := h[root := h[root].(color := Black)];
      PlugRedBlack(k, t1, n1);
      ZoomToRoot(h, root, k, t1);
      tree := Plug(k, t1);
    }

    /** Case 1: the red sibling comes up. */
    method RaiseSibling(x: Ref, p: Ref, w: Ref, onLeft: bool, ghost k: Ctx, ghost t: Tree) returns (w': Ref)
      requires At(h, root, k, t) && !k.Root? && k.sib.Br? && p == k.id && w == k.sib.id && onLeft == k.InLeft?
      modifies this`h, this`root
      ensures At(h, root, RaisedCtx(k), t) && w' == IdOf(RaisedCtx(k).sib)
      ensures h.Keys == old(h.Keys) && h[NIL] == old(h[NIL])
    {
      hide At;
      LookAround(h, root, k, t);
      SiblingRecolored(h, root, k, t, Black);
      h := h[w := h[w].(color := Black)];
      ghost var k1 := k.(sib := k.sib.(color := Black));
      FrameRecolored(h, root, k1, t, Red);
      h := h[p := h[p].(color := Red)];
      k1 := k1.(color := Red);
      ZoomOut(h, root, k1, t);
      if onLeft {
        LeftRotate(p, k.up, Grow(k1, t));
        ZoomLeft(h, root, k.up, RotL(Grow(k1, t)));
        ZoomLeft(h, root, RaisedCtx(k).up, RotL(Grow(k1, t)).left);
        Look(h, root, RaisedCtx(k), t);
        w' := h[p].right;
      } else {
        RightRotate(p, k.up, Grow(k1, t));
        ZoomRight(h, root, k.up, RotR(Grow(k1, t)));
        ZoomRight(h, root, RaisedCtx(k).up, RotR(Grow(k1, t)).right);
        Look(h, root, RaisedCtx(k), t);
        w' := h[p].left;
      }
    }

    /** Case 3: the red near nephew replaces the sibling. */
    method TuckSibling(p: Ref, w: Ref, onLeft: bool, ghost k: Ctx, ghost t: Tree) returns (w': Ref)
      requires At(h, root, k, t) && !k.Root? && k.sib.Br? && Near(k, k.sib).Br?
      requires p == k.id && w == k.sib.id && onLeft == k.InLeft?
      modifies this`h, this`root
      ensures At(h, root, k.(sib := TuckedSib(k)), t) && w' == TuckedSib(k).id
      ensures h.Keys == old(h.Keys) && h[NIL] == old(h[NIL])
    {
      hide At;
      LookAround(h, root, k, t);
      NephewRecolored(h, root, k, t, false, Black);
      var v := if onLeft then h[w].left else h[w].right;
      h := h[v := h[v].(color := Black)];
      ghost var v1 := Near(k, k.sib);
      ghost var k1 := k.(sib := WithNear(k, v1.(color := Black)));
      SiblingRecolored(h, root, k1, t, Red);
      h := h[w := h[w].(color := Red)];
      k1 := k1.(sib := k1.sib.(color := Red));
      CrossOver(h, root, k1, t);
      ghost var ks := SibCtx(k1, t);
      if onLeft {
        RightRotate(w, ks, k1.sib);
      } else {
        LeftRotate(w, ks, k1.sib);
      }
      CrossOver(h, root, ks, TuckedSib(k));
      LookAround(h, root, k.(sib := TuckedSib(k)), t);
      w' := if onLeft then h[p].right else h[p].left;
    }

    /** Case 4: the sibling takes the parent's colour and place. */
    method MendHole(p: Ref, w: Ref, onLeft: bool, ghost k: Ctx, ghost t: Tree)
      requires At(h, root, k, t) && !k.Root? && k.sib.Br? && Far(k, k.sib).Br?
      requires p == k.id && w == k.sib.id && onLeft == k.InLeft?
      modifies this`h, this`root
      ensures At(h, root, k.up, MendedTree(k, t))
      ensures h.Keys == old(h.Keys)
    {
      hide At;
      LookAround(h, root, k, t);
      SiblingRecolored(h, root, k, t, k.color);
      h := h[w := h[w].(color := h[p].color)];
      ghost var k1 := k.(sib := k.sib.(color := k.color));
      FrameRecolored(h, root, k1, t, Black);
      h := h[p := h[p].(color := Black)];
      k1 := k1.(color := Black);
      LookAround(h, root, k1, t);
      NephewRecolored(h, root, k1, t, true, Black);
      var f := if onLeft then h[w].right else h[w].left;
      h := h[f := h[f].(color := Black)];
      ghost var f1 := Far(k, k.sib);
      k1 := k1.(sib := WithFar(k1, f1.(color := Black)));
      ZoomOut(h, root, k1, t);
      if onLeft {
        LeftRotate(p, k.up, Grow(k1, t));
      } else {
        RightRotate(p, k.up, Grow(k1, t));
      }
    }

    /** Cases 2, 3 and 4, once the sibling is black. */
    method DeleteFixupBlack(x: Ref, p: Ref, w0: Ref, onLeft: bool, ghost k: Ctx, ghost t: Tree, ghost n: nat)
      returns (x': Ref, ghost k': Ctx, ghost t': Tree, ghost n': nat)
      requires At(h, root, k, t) && DeleteInv(k, t, n) && !k.Root? && ColorOf(t) == Black
      requires k.sib.Br? && k.sib.color == Black
      requires x == IdOf(t) && p == k.id && w0 == k.sib.id && onLeft == k.InLeft?
      modifies this`h, this`root
      ensures At(h, root, k', t') && x' == IdOf(t') && DeleteInv(k', t', n')
      ensures Walk(Plug(k', t')) == Walk(Plug(k, t)) && Ids(Plug(k', t')) == Ids(Plug(k, t))
      ensures h.Keys == old(h.Keys) && (k' == Root || (k' == k.up && t'.Br? && t'.color == k.color))
      ensures t'.Leaf? ==> k' == Root
    {
      hide At, Walk, Ids, Bal, CtxBal, NoRedRed, CtxNoRedRed, Plug;
      var w := w0;
      LookAround(h, root, k, t);
      DeleteCasesKeep(k, t);
      if h[h[w].left].color == Black && h[h[w].right].color == Black {
        SiblingRecolored(h, root, k, t, Red);
        ShiftedRestores(k, t, n);
        h := h[w := h[w].(color := Red)];
        ZoomOut(h, root, k.(sib := k.sib.(color := Red)), t);
        SameContents(k.up, Grow(k, t), ShiftedTree(k, t));
        PlugStep(k, t);
        return p, k.up, ShiftedTree(k, t), if k.color == Red then n else n + 1;
      }
      ghost var k1 := k;
      if (onLeft && h[h[w].right].color == Black) || (!onLeft && h[h[w].left].color == Black) {
        TuckedRestores(k, t, n);
        w := TuckSibling(p, w, onLeft, k, t);
        k1 := k.(sib := TuckedSib(k));
        SameSibling(k, t, TuckedSib(k));
        DeleteCasesKeep(k1, t);
      }
      MendedRestores(k1, t, n);
      MendHole(p, w, onLeft, k1, t);
      SameContents(k.up, Grow(k1, t), MendedTree(k1, t));
      PlugStep(k1, t);
      PlugStep(k, t);
      ZoomToRoot(h, root, k.up, MendedTree(k1, t));
      k', t' := Root, Plug(k.up, MendedTree(k1, t));
      ghost var m: nat :| Bal(t', m);
      n' := m;
      x' := root;
      RootOfCtx(h, root, Root, t');
      WholeTree(t', m);
    }

    method DeleteFixup(x0: Ref, ghost k0: Ctx, ghost t0: Tree, ghost n0: nat) returns (ghost tree: Tree)
      requires At(h, root, k0, t0) && x0 == IdOf(t0) && DeleteInv(k0, t0, n0)
      requires t0.Leaf? ==> h[NIL].parent == CtxId(k0)
      modifies this`h, this`root
      ensures At(h, root, Root, tree) && RedBlack(tree)
      ensures Walk(tree) == Walk(Plug(k0, t0)) && Ids(tree) == Ids(Plug(k0, t0))
      ensures h.Keys == old(h.Keys)
    {
      hide At, Walk, Ids, Bal, CtxBal, NoRedRed, CtxNoRedRed, Plug, DeleteInv;
      var x := x0;
      ghost var k, t, n := k0, t0, n0;
      Look(h, root, k, t);
      RootOfCtx(h, root, k, t);
      while x != root && h[x].color == Black
        invariant At(h, root, k, t) && x == IdOf(t) && DeleteInv(k, t, n)
        invariant NIL in h && (t.Leaf? && !k.Root? ==> h[NIL].parent == CtxId(k))
        invariant Walk(Plug(k, t)) == Walk(Plug(k0, t0)) && Ids(Plug(k, t)) == Ids(Plug(k0, t0))
        invariant h.Keys == old(h.Keys) && x in h && (k.Root? <==> x == root) && h[x].color == ColorOf(t)
        decreases Depth(k) + (if ColorOf(t) == Black then 1 else 0)
      {
        x, k, t, n := DeleteFixupStep(x, k, t, n);
        Look(h, root, k, t);
        RootOfCtx(h, root, k, t);
      }
      tree := BlackenHole(x, k, t, n);
    }

    method DeleteFixupStep(x: Ref, ghost k: Ctx, ghost t: Tree, ghost n: nat)
      returns (x': Ref, ghost k': Ctx, ghost t': Tree, ghost n': nat)
      requires At(h, root, k, t) && x == IdOf(t) && DeleteInv(k, t, n) && !k.Root? && ColorOf(t) == Black
      requires t.Leaf? ==> h[NIL].parent == CtxId(k)
      modifies this`h, this`root
      ensures At(h, root, k', t') && x' == IdOf(t') && DeleteInv(k', t', n')
      ensures t'.Leaf? ==> k'.Root?
      ensures Walk(Plug(k', t')) == Walk(Plug(k, t)) && Ids(Plug(k', t')) == Ids(Plug(k, t))
      ensures h.Keys == old(h.Keys)
      ensures Depth(k') + (if ColorOf(t') == Black then 1 else 0) < Depth(k) + 1
    {
      SiblingIsNode(k, t, n);
      hide At, Walk, Ids, Bal, CtxBal, NoRedRed, CtxNoRedRed, Plug, DeleteInv;
      Look(h, root, k, t);
      LookAround(h, root, k, t);
      var p := h[x].parent;
      var onLeft := x == h[p].left;
      var w := if onLeft then h[p].right else h[p].left;
      ghost var k1 := k;
      if h[w].color == Red {
        RaisedRestores(k, t, n);
        w := RaiseSibling(x, p, w, onLeft, k, t);
        k1 := RaisedCtx(k);
        SiblingIsNode(k1, t, n);
        RaisedKeeps(k, t);
      }
      x', k', t', n' := DeleteFixupBlack(x, p, w, onLeft, k1, t, n);
    }

    method BlackenHole(x: Ref, ghost k: Ctx, ghost t: Tree, ghost n: nat) returns (ghost tree: Tree)
      requires At(h, root, k, t) && x == IdOf(t) && DeleteInv(k, t, n) && (k.Root? || ColorOf(t) == Red)
      modifies this`h
      ensures At(h, root, Root, tree) && RedBlack(tree)
      ensures Walk(tree) == Walk(Plug(k, t)) && Ids(tree) == Ids(Plug(k, t))
      ensures h.Keys == old(h.Keys)
    {
      hide At;
      Look(h, root, k, t);
      if t.Br? {
        Recolored(h, root, k, t, Black);
      } else {
        assert h == h[x := h[x].(color := Black)];
      }
      h := h[x := h[x].(color := Black)];
      ghost var b := Blacken(t);
      PlugRedBlack(k, b, if ColorOf(t) == Red then n + 1 else n);
      ZoomToRoot(h, root, k, b);
      SameContents(k, t, b);
      tree := Plug(k, b);
    }

    /** The leftmost node below x. */
    method Minimum(x: Ref, ghost k: Ctx, ghost t: Tree) returns (m: Ref, ghost km: Ctx, ghost tm: Tree)
      requires At(h, root, k, t) && t.Br? && x == t.id
      ensures At(h, root, km, tm) && tm.Br? && m == tm.id && tm.left.Leaf?
      ensures LeftPath(km, k) && Plug(km, tm) == Plug(k, t)
    {
      hide At;
      m, km, tm := x, k, t;
      Look(h, root, km, tm);
      while h[m].left != NIL
        invariant At(h, root, km, tm) && tm.Br? && m == tm.id && m in h && h[m].left == IdOf(tm.left)
        invariant LeftPath(km, k) && Plug(km, tm) == Plug(k, t)
        decreases tm
      {
        ZoomLeft(h, root, km, tm);
        m := h[m].left;
        km, tm := InLeft(tm.id, tm.color, tm.e, tm.right, km), tm.left;
        Look(h, root, km, tm);
      }
      Look(h, root, InLeft(tm.id, tm.color, tm.e, tm.right, km), tm.left) by {
        ZoomLeft(h, root, km, tm);
      }
    }

    /** Link the only child of y past y. */
    method SpliceOut(y: Ref, ghost k: Ctx, ghost t: Tree) returns (x: Ref)
      requires At(h, root, k, t) && t.Br? && y == t.id && (t.left.Leaf? || t.right.Leaf?)
      modifies this`h, this`root
      ensures At(h, root, k, OnlyChild(t)) && x == IdOf(OnlyChild(t))
      ensures OnlyChild(t).Leaf? ==> h[NIL].parent == CtxId(k)
      ensures h.Keys == old(h.Keys) && y in h && h[y].color == t.color && h[y].e == t.e
    {
      hide At;
      SpliceLook(h, root, k, t);
      x := NIL;
      if h[y].left != NIL {
        x := h[y].left;
      } else if h[y].right != NIL {
        x := h[y].right;
      }
      h := h[x := h[x].(parent := h[y].parent)];
      Relink(y, x, k);
      SplicedOut(old(h), old(root), k, t, h, root);
    }

    /** z has at most one child and leaves the tree itself. */
    method DeleteThin(z: Ref, ghost k: Ctx, ghost t: Tree) returns (y: Ref)
      requires At(h, root, k, t) && Plug(k, t) == tree && t.Br? && z == t.id && RedBlack(tree)
      requires t.left.Leaf? || t.right.Leaf?
      modifies this
      ensures y == z && At(h, root, Root, tree) && RedBlack(tree) && h.Keys == old(h.Keys) && y in old(Ids(tree))
      ensures Walk(tree) == Walk(Plug(k, OnlyChild(t))) && Ids(tree) == old(Ids(tree)) - {y}
    {
      y := z;
      ghost var m: nat :| Bal(tree, m);
      ghost var n := SpliceShape(k, t, m);
      SpliceIds(k, t);
      IdsPlug(k, t);
      hide At, Walk, Plug, CtxBal, Bal, NoRedRed, CtxNoRedRed, Distinct, CtxDistinct;
      var x := SpliceOut(y, k, t);
      ghost var c := OnlyChild(t);
      if h[y].color == Black {
        tree := DeleteFixup(x, k, c, n);
      } else {
        PlugRedBlack(k, c, n);
        ZoomToRoot(h, root, k, c);
        tree := Plug(k, c);
      }
    }

    /** z has two children: its successor leaves, and z takes over its key and value but not its expiry. */
    method DeleteWide(z: Ref, ghost k: Ctx, ghost t: Tree) returns (y: Ref)
      requires At(h, root, k, t) && Plug(k, t) == tree && t.Br? && z == t.id && RedBlack(tree)
      requires t.left.Br? && t.right.Br?
      modifies this
      ensures At(h, root, Root, tree) && RedBlack(tree) && h.Keys == old(h.Keys)
      ensures y in old(Ids(tree)) && Ids(tree) == old(Ids(tree)) - {y}
      ensures Rank(k, t) + 1 < |old(Walk(tree))|
      ensures Walk(tree) == Removed(old(Walk(tree)), Rank(k, t), true)
    {
      hide At, Walk, Plug, CtxBal, Bal, NoRedRed, CtxNoRedRed, Distinct, CtxDistinct, Ids, CtxIds, LeftPath, SetEntry;
      hide RedBlack, Removed, DeleteInv, OnPath, PathEntry;
      ghost var kz := InRight(t.id, t.color, t.e, t.left, k);
      Children(h, root, k, t);
      ZoomRight(h, root, k, t);
      PlugStep(kz, t.right);
      ghost var km, tm;
      y, km, tm := Minimum(h[z].right, kz, t.right);
      ghost var c, e := OnlyChild(tm), tm.e.(expire := t.e.expire);
      AtDistinct(h, root, km, tm);
      ghost var n := WidePlan(k, t, km, tm);
      var x := SpliceOut(y, km, tm);
      TakeOver(z, y, km, c, e);
      ghost var k' := SetEntry(km, z, e);
      if h[y].color == Black {
        tree := DeleteFixup(x, k', c, n);
      } else {
        PlugRedBlack(k', c, n);
        ZoomToRoot(h, root, k', c);
        tree := Plug(k', c);
      }
    }

    /** Exchange key and value of z and y; y is no longer in the tree. */
    method TakeOver(z: Ref, y: Ref, ghost k: Ctx, ghost t: Tree, ghost e: Entry)
      requires At(h, root, k, t) && OnPath(k, z) && y != z && y != NIL && y in h
      requires y !in Ids(t) && y !in CtxIds(k)
      requires e == h[y].e.(expire := PathEntry(k, z).expire)
      modifies this`h
      ensures At(h, root, SetEntry(k, z, e), t)
      ensures h.Keys == old(h.Keys) && h[NIL] == old(h[NIL]) && h[y].color == old(h[y].color)
    {
      OnPathNode(h, k, IdOf(t), z);
      OnPathInCtx(k, z);
      CtxDistinctApart(k, Ids(t));
      var ez, ey := h[z].e, h[y].e;
      PathRewritten(h, root, k, t, z, e);
      h := h[z := h[z].(e := ez.(key := ey.key, value := ey.value))];
      SetEntryRep(old(h), k, IdOf(t), Ids(t), z, e);
      OutsideWritten(h, root, SetEntry(k, z, e), t, y, h[y].(e := ey.(key := ez.key, value := ez.value)));
      h := h[y := h[y].(e := ey.(key := ez.key, value := ez.value))];
    }

    /** The removal itself: z, or its successor when z has two children, leaves the tree. */
    method Delete(z: Ref, ghost k: Ctx, ghost t: Tree, ghost extra: set<Ref>) returns (y: Ref)
      requires Holds(extra) && At(h, root, k, t) && Plug(k, t) == tree && t.Br? && z == t.id
      modifies this
      ensures Holds(extra + {y}) && y in old(Ids(tree)) && Ids(tree) == old(Ids(tree)) - {y}
      ensures Rank(k, t) < |old(Walk(tree))| && (t.left.Br? && t.right.Br? ==> Rank(k, t) + 1 < |old(Walk(tree))|)
      ensures Walk(tree) == Removed(old(Walk(tree)), Rank(k, t), t.left.Br? && t.right.Br?)
    {
      hide At, RedBlack, Walk, Plug, Removed, CtxBal, Bal, NoRedRed, CtxNoRedRed;
      RankInRange(k, t);
      RemovedSorted(Walk(tree), Rank(k, t), t.left.Br? && t.right.Br?);
      Children(h, root, k, t);
      AtDistinct(h, root, Root, tree);
      DistinctNotNil(tree);
      if h[z].left == NIL || h[z].right == NIL {
        y := DeleteThin(z, k, t);
        SpliceWalk(k, t);
      } else {
        y := DeleteWide(z, k, t);
      }
    }

    constructor ()
      ensures Holds({}) && Walk(tree) == []
    {
      h := map[NIL := Node(Black, NIL, NIL, NIL, Entry([], [], 0))];
      root := NIL;
      tree := Leaf;
      assert Bal(Leaf, 0);
    }

    /** Descend from the root towards `key`: where the search ends, and the last node passed on the way. */
    method Descend(key: Key, ghost extra: set<Ref>) returns (x: Ref, y: Ref, ghost k: Ctx, ghost t: Tree)
      requires Holds(extra)
      ensures At(h, root, k, t) && Plug(k, t) == tree && x == IdOf(t) && y == CtxId(k)
      ensures x in h && (x == NIL <==> t.Leaf?)
      ensures t.Br? ==> t.e.key == key && h[x].e == t.e
      ensures AllBelow(Before(k), key) && AllAbove(After(k), key)
    {
      hide At, Plug, RedBlack, Less, Ids, AllAbove, AllBelow, Sorted, Walk;
      x, y, k, t := root, NIL, Root, tree;
      PlugRoot(tree, key);
      RootOfCtx(h, root, k, t);
      Look(h, root, k, t);
      while x != NIL
        invariant At(h, root, k, t) && Plug(k, t) == tree && x == IdOf(t) && y == CtxId(k)
        invariant x in h && (x == NIL <==> t.Leaf?)
        invariant t.Br? ==> h[x].e == t.e && h[x].left == IdOf(t.left) && h[x].right == IdOf(t.right)
        invariant AllBelow(Before(k), key) && AllAbove(After(k), key)
        decreases t
      {
        if Less(key, h[x].e.key) {
          ZoomLeft(h, root, k, t);
          DescendLeft(k, t, key);
          x, y := h[x].left, x;
          k, t := InLeft(t.id, t.color, t.e, t.right, k), t.left;
        } else if Less(h[x].e.key, key) {
          ZoomRight(h, root, k, t);
          DescendRight(k, t, key);
          x, y := h[x].right, x;
          k, t := InRight(t.id, t.color, t.e, t.left, k), t.right;
        } else {
          LessTrichotomy(key, t.e.key);
          return;
        }
        Look(h, root, k, t);
      }
    }

    /** Hang the new red node below the last node passed. */
    method LinkNew(z: Ref, y: Ref, e: Entry, ghost k: Ctx)
      requires At(h, root, k, Leaf) && z in h && h[z].e == e && z != NIL && z !in CtxIds(k) && y == CtxId(k)
      requires AllBelow(Before(k), e.key) && AllAbove(After(k), e.key)
      modifies this`h, this`root
      ensures At(h, root, k, Br(z, Red, Leaf, e, Leaf)) && h.Keys == old(h.Keys)
    {
      Look(h, root, k, Leaf);
      if !k.Root? {
        SideOfHole(k, e.key);
      }
      ghost var t := Br(z, Red, Leaf, e, Leaf);
      h := h[z := Node(Red, NIL, NIL, y, e)];
      RepCtxFrame(old(h), h, k, NIL);
      CtxDistinctGrows(k, {}, z);
      assert Ids(t) == {z} == {} + {z};
      if y == NIL {
        root := z;
      } else {
        ChildSet(h, k, NIL, z, {z});
        CtxDistinctApart(k, {z});
        if Less(e.key, h[y].e.key) {
          h := h[y := h[y].(left := z)];
        } else {
          h := h[y := h[y].(right := z)];
        }
      }
    }

    /** Insert the node z, already holding its entry; a key already present leaves the tree alone. */
    method Insert(z: Ref, ghost extra: set<Ref>) returns (inserted: bool, ghost k: Ctx, ghost t: Tree)
      requires Holds(extra) && z in extra
      modifies this
      ensures Plug(k, t) == old(tree) && (inserted <==> t.Leaf?)
      ensures AllBelow(Before(k), old(h[z].e).key) && AllAbove(After(k), old(h[z].e).key)
      ensures inserted ==> Holds(extra - {z}) && Ids(tree) == old(Ids(tree)) + {z}
      ensures inserted ==> Walk(tree) == Before(k) + [old(h[z].e)] + After(k)
      ensures !inserted ==> t.e.key == old(h[z].e).key && h == old(h) && root == old(root) && tree == old(tree)
    {
      hide At, Plug, RedBlack, Less, AllAbove, AllBelow, Walk, Sorted, Bal, CtxBal, NoRedRed, CtxNoRedRed, CtxDistinct,
           Distinct;
      var e := h[z].e;
      var x, y;
      x, y, k, t := Descend(e.key, extra);
      if x != NIL {
        return false, k, t;
      }
      HoleFacts(h, root, k, tree, e);
      ghost var n := LeafShape(k, e, z);
      LinkNew(z, y, e, k);
      tree := InsertFixup(z, k, Br(z, Red, Leaf, e, Leaf), n);
      NewNode(k, z, e);
      inserted := true;
    }

    /** The node holding `key`, or the sentinel. */
    method Search(key: Key, ghost extra: set<Ref>) returns (r: Ref, ghost k: Ctx, ghost t: Tree)
      requires Holds(extra)
      ensures At(h, root, k, t) && Plug(k, t) == tree && r == IdOf(t)
      ensures r in h && (r == NIL <==> t.Leaf?)
      ensures t.Br? ==> t.e.key == key && h[r].e == t.e
      ensures AllBelow(Before(k), key) && AllAbove(After(k), key)
    {
      var y;
      r, y, k, t := Descend(key, extra);
    }

    ghost function Items(): map<Key, Item>
      reads this
    {
      Dict(Walk(tree))
    }

    method RemoveFound(node: Ref, key: Key, ghost k: Ctx, ghost t: Tree, ghost extra: set<Ref>)
      returns (ghost moved: Option<Key>)
      requires Holds(extra) && At(h, root, k, t) && Plug(k, t) == tree && t.Br? && node == t.id && t.e.key == key
      modifies this
      ensures Holds(extra) && Ids(tree) < old(Ids(tree)) && Deleted(old(tree), key, moved, Items())
    {
      hide At, Plug, Walk, RedBlack, Sorted, Removed, Dict, Ids, Rank, Less, Wide;
      RankInRange(k, t);
      WideFound(k, t);
      ghost var s, i, two := Walk(tree), Rank(k, t), t.left.Br? && t.right.Br?;
      DictRemoved(s, i, two);
      moved := if two then Some(s[i + 1].key) else None;
      if two {
        NextKey(s, i);
      }
      var y := Delete(node, k, t, extra);
      FreedOutside(h, root, tree, y);
      h := h - {y};
    }

    /** RDEL: 1 for a missing key, 0 after removing it. */
    method Del(key: Key) returns (ret: int, ghost moved: Option<Key>)
      requires Holds({})
      modifies this
      ensures Holds({})
      ensures ret == (if key in old(Items()) then 0 else 1)
      ensures ret == 1 ==> Items() == old(Items())
      ensures ret == 0 ==> Deleted(old(tree), key, moved, Items())
    {
      hide At, Plug, Walk, RedBlack, Sorted, Dict, Ids, Less, Deleted, AllAbove, AllBelow;
      moved := None;
      var node, k, t := Search(key, {});
      FoundIff(k, t, key);
      if node == NIL {
        return 1, None;
      }
      moved := RemoveFound(node, key, k, t, {});
      ret := 0;
    }

    /** Allocate a node for the entry and insert it; the key is known to be absent. */
    method InsertNew(key: Key, value: bytes, expire: int, node: Ref)
      requires Holds({}) && node !in h && key !in Items()
      modifies this
      ensures Holds({}) && Items() == old(Items())[key := Item(value, expire)]
    {
      hide At, Plug, Walk, RedBlack, Sorted, Dict, Ids, Less, AllAbove, AllBelow;
      ghost var e := Entry(key, value, expire);
      AllocatedOutside(h, root, tree, node, Node(Red, NIL, NIL, NIL, e));
      h := h[node := Node(Red, NIL, NIL, NIL, Entry(key, value, expire))];
      var inserted, k, t := Insert(node, {node});
      FoundIff(k, t, key);
      DictAround(Before(k), e, After(k));
      LeafWalk(k);
    }

    /** RSET: an existing node of that key is deleted first, then a new node is inserted. */
    method Set(key: Key, value: bytes, expire: int, node: Ref)
      returns (ret: int, ghost d: map<Key, Item>, ghost moved: Option<Key>)
      requires Holds({}) && node !in h
      modifies this
      ensures Holds({}) && ret == 0 && Items() == d[key := Item(value, expire)]
      ensures key !in old(Items()) ==> d == old(Items())
      ensures key in old(Items()) ==> Deleted(old(tree), key, moved, d)
    {
      hide At, Plug, Walk, RedBlack, Sorted, Dict, Ids, AllAbove, AllBelow, Less;
      moved := None;
      var exist, k, t := Search(key, {});
      FoundIff(k, t, key);
      if exist != NIL {
        moved := RemoveFound(exist, key, k, t, {});
        LessTrichotomy(key, key);
      }
      d := Items();
      InsertNew(key, value, expire, node);
      ret := 0;
    }

    /** RGET: the live value; an expired entry is deleted on the way. */
    method Get(key: Key, now: int) returns (r: Option<bytes>, ghost moved: Option<Key>)
      requires Holds({})
      modifies this
      ensures Holds({})
      ensures key !in old(Items()) ==> r == None && Items() == old(Items())
      ensures key in old(Items()) && (old(Items())[key].expire == -1 || now < old(Items())[key].expire) ==>
              r == Some(old(Items())[key].value) && Items() == old(Items())
      ensures key in old(Items()) && old(Items())[key].expire != -1 && old(Items())[key].expire <= now ==>
              r == None && key !in Items() && Deleted(old(tree), key, moved, Items())
    {
      hide At, Plug, Walk, RedBlack, Sorted, Dict, Ids, Less, Deleted, AllAbove, AllBelow;
      moved := None;
      var node, k, t := Search(key, {});
      FoundIff(k, t, key);
      if node == NIL {
        return None, None;
      }
      if h[node].e.expire != -1 && h[node].e.expire <= now {
        moved := RemoveFound(node, key, k, t, {});
        DeletedGone(old(tree), key, moved, Items());
        return None, moved;
      }
      r := Some(h[node].e.value);
    }

    /** Overwrite the entry of the node at the hole, keeping its key. */
    method Rewrite(node: Ref, e: Entry, ghost k: Ctx, ghost t: Tree)
      requires Holds({}) && At(h, root, k, t) && Plug(k, t) == tree && t.Br? && node == t.id && e.key == t.e.key
      modifies this
      ensures Holds({}) && Items() == old(Items())[e.key := Item(e.value, e.expire)]
    {
      ghost var t' := t.(e := e);
      Rewritten(h, root, k, t, e);
      AtDistinct(h, root, Root, tree);
      h := h[node := h[node].(e := e)];
      RewrittenTree(k, t, e);
      hide Plug, Walk, Sorted, Dict, Ids, Less, RedBlack;
      ZoomToRoot(h, root, k, t');
      tree := Plug(k, t');
    }

    /** RMOD: 1 for a missing key; otherwise the value changes and the expiry time stays. */
    method Mod(key: Key, value: bytes) returns (ret: int)
      requires Holds({})
      modifies this
      ensures Holds({})
      ensures ret == (if key in old(Items()) then 0 else 1)
      ensures Items() == if ret == 0 then old(Items())[key := old(Items())[key].(value := value)] else old(Items())
    {
      hide At, Plug, Walk, RedBlack, Sorted, Dict, Ids, Less, AllAbove, AllBelow;
      var node, k, t := Search(key, {});
      FoundIff(k, t, key);
      if node == NIL {
        return 1;
      }
      Rewrite(node, h[node].e.(value := value), k, t);
      ret := 0;
    }

    /** REXPIRE: 1 for a missing key; deadline 0 deletes; otherwise the expiry time changes. */
    method Expire(key: Key, deadline: int) returns (ret: int, ghost moved: Option<Key>)
      requires Holds({})
      modifies this
      ensures Holds({})
      ensures ret == (if key in old(Items()) then 0 else 1)
      ensures if ret == 1 then Items() == old(Items())
              else if deadline == 0 then Deleted(old(tree), key, moved, Items())
              else Items() == old(Items())[key := old(Items())[key].(expire := deadline)]
    {
      hide At, Plug, Walk, RedBlack, Sorted, Dict, Ids, Less, Deleted, AllAbove, AllBelow;
      moved := None;
      var node, k, t := Search(key, {});
      FoundIff(k, t, key);
      if node == NIL {
        return 1, None;
      }
      if deadline == 0 {
        ret, moved := Del(key);
        return;
      }
      Rewrite(node, h[node].e.(expire := deadline), k, t);
      ret := 0;
    }
  }
}
