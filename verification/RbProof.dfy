/**
 The pure side of the red-black tree engine: what rotations, recolourings and splices do to the
 tree seen through its zipper, and what a deletion does to the dictionary.
 */
module RbProof {
  import opened Common
  import opened Keys
  import opened OrderedMap
  import opened RbShape
  import opened RbStore

  function RotL(t: Tree): Tree
    requires t.Br? && t.right.Br?
  {
    var y := t.right;
    Br(y.id, y.color, Br(t.id, t.color, t.left, t.e, y.left), y.e, y.right)
  }

  function RotR(t: Tree): Tree
    requires t.Br? && t.left.Br?
  {
    var x := t.left;
    Br(x.id, x.color, x.left, x.e, Br(t.id, t.color, x.right, t.e, t.right))
  }

  lemma Regroup(a: seq<Entry>, x: Entry, b: seq<Entry>, y: Entry, c: seq<Entry>)
    ensures a + [x] + (b + [y] + c) == a + [x] + b + [y] + c
  {
  }

  lemma DistinctRotL(t: Tree)
    requires t.Br? && t.right.Br?
    ensures Ids(RotL(t)) == Ids(t)
    ensures Distinct(t) ==> Distinct(RotL(t))
  {
    var y := t.right;
    var x := Br(t.id, t.color, t.left, t.e, y.left);
    assert Ids(x) == {t.id} + Ids(t.left) + Ids(y.left);
    if Distinct(t) {
      assert Distinct(y) && Distinct(x);
    }
  }

  lemma RotLKeeps(t: Tree)
    requires t.Br? && t.right.Br?
    ensures Walk(RotL(t)) == Walk(t)
    ensures Ids(RotL(t)) == Ids(t)
    ensures Distinct(t) ==> Distinct(RotL(t))
  {
    var y := t.right;
    var x := Br(t.id, t.color, t.left, t.e, y.left);
    assert Walk(x) == Walk(t.left) + [t.e] + Walk(y.left) && Walk(y) == Walk(y.left) + [y.e] + Walk(y.right);
    assert Walk(t) == Walk(t.left) + [t.e] + Walk(y) && Walk(RotL(t)) == Walk(x) + [y.e] + Walk(y.right);
    hide Walk, Ids, Distinct, RotL;
    Regroup(Walk(t.left), t.e, Walk(y.left), y.e, Walk(y.right));
    DistinctRotL(t);
  }

  lemma DistinctRotR(t: Tree)
    requires t.Br? && t.left.Br?
    ensures Ids(RotR(t)) == Ids(t)
    ensures Distinct(t) ==> Distinct(RotR(t))
  {
    var x := t.left;
    var y := Br(t.id, t.color, x.right, t.e, t.right);
    assert Ids(y) == {t.id} + Ids(x.right) + Ids(t.right);
    if Distinct(t) {
      assert Distinct(x) && Distinct(y);
    }
  }

  lemma RotRKeeps(t: Tree)
    requires t.Br? && t.left.Br?
    ensures Walk(RotR(t)) == Walk(t)
    ensures Ids(RotR(t)) == Ids(t)
    ensures Distinct(t) ==> Distinct(RotR(t))
  {
    var x := t.left;
    var y := Br(t.id, t.color, x.right, t.e, t.right);
    assert Walk(x) == Walk(x.left) + [x.e] + Walk(x.right) && Walk(y) == Walk(x.right) + [t.e] + Walk(t.right);
    assert Walk(t) == Walk(x) + [t.e] + Walk(t.right) && Walk(RotR(t)) == Walk(x.left) + [x.e] + Walk(y);
    hide Walk, Ids, Distinct, RotR;
    Regroup(Walk(x.left), x.e, Walk(x.right), t.e, Walk(t.right));
    DistinctRotR(t);
  }

  /** The heap after the six assignments of a rotation at node x, whose child y comes up and passes b on. */
  ghost predicate Turned(h: Heap, h': Heap, k: Ctx, x: Ref, y: Ref, b: Tree) {
    && h'.Keys == h.Keys
    && (b.Br? && b.id in h ==> h'[b.id] == h[b.id].(parent := x))
    && (!k.Root? && k.id in h ==> h'[k.id] == SetChild(h, k, y)[k.id])
    && (forall i :: i in h && i != x && i != y && i != IdOf(b) && i != CtxId(k) ==> h'[i] == h[i])
    && (NIL in h ==> h'[NIL] == h[NIL])
  }

  lemma TurnedParts(h: Heap, root: Ref, h': Heap, k: Ctx, t: Tree, x: Ref, y: Ref, b: Tree, sub: Tree, p: Ref)
    requires At(h, root, k, t) && Turned(h, h', k, x, y, b) && x in Ids(t) && y in Ids(t)
    requires Ids(b) <= Ids(t) && Ids(sub) <= Ids(t) && Rep(h, sub, p)
    requires x !in Ids(sub) && y !in Ids(sub) && Ids(sub) !! Ids(b)
    ensures Rep(h', sub, p)
  {
    CtxDistinctApart(k, Ids(t));
    forall i | i in Ids(sub) && i in h
      ensures h'[i] == h[i]
    {
      DistinctNotNil(t);
    }
    RepFrame(h, h', sub, p);
  }

  lemma TurnedMiddle(h: Heap, root: Ref, h': Heap, k: Ctx, t: Tree, x: Ref, y: Ref, b: Tree)
    requires At(h, root, k, t) && Turned(h, h', k, x, y, b) && x in Ids(t) && y in Ids(t)
    requires Ids(b) <= Ids(t) && Rep(h, b, y) && Distinct(b) && x !in Ids(b) && y !in Ids(b)
    ensures Rep(h', b, x)
  {
    if b.Br? {
      CtxDistinctApart(k, Ids(t));
      DistinctNotNil(t);
      Reparented(h, b, y, x);
      RepFrame(h[b.id := h[b.id].(parent := x)], h', b, x);
    }
  }

  lemma TurnedCtx(h: Heap, root: Ref, h': Heap, k: Ctx, t: Tree, x: Ref, y: Ref, b: Tree)
    requires At(h, root, k, t) && Turned(h, h', k, x, y, b) && x in Ids(t) && y in Ids(t) && Ids(b) <= Ids(t)
    ensures RepCtx(h', k, y)
  {
    if !k.Root? {
      CtxDistinctApart(k, Ids(t));
      ChildSet(h, k, IdOf(t), y, Ids(t));
      RepCtxFrame(SetChild(h, k, y), h', k, y);
    }
  }

  lemma RotatedLeft(h: Heap, root: Ref, h': Heap, root': Ref, k: Ctx, t: Tree)
    requires At(h, root, k, t) && t.Br? && t.right.Br?
    requires var y := t.right;
             && y.id in h && Turned(h, h', k, t.id, y.id, y.left)
             && h'[t.id] == h[t.id].(right := IdOf(y.left), parent := y.id)
             && h'[y.id] == h[y.id].(left := t.id, parent := CtxId(k))
             && root' == if k.Root? then y.id else root
    ensures At(h', root', k, RotL(t))
  {
    var y := t.right;
    assert Rep(h, y, t.id) && Distinct(y);
    RotLKeeps(t);
    TurnedParts(h, root, h', k, t, t.id, y.id, y.left, t.left, t.id);
    TurnedParts(h, root, h', k, t, t.id, y.id, y.left, y.right, y.id);
    TurnedMiddle(h, root, h', k, t, t.id, y.id, y.left);
    TurnedCtx(h, root, h', k, t, t.id, y.id, y.left);
  }

  lemma RotatedRight(h: Heap, root: Ref, h': Heap, root': Ref, k: Ctx, t: Tree)
    requires At(h, root, k, t) && t.Br? && t.left.Br?
    requires var x := t.left;
             && x.id in h && Turned(h, h', k, t.id, x.id, x.right)
             && h'[t.id] == h[t.id].(left := IdOf(x.right), parent := x.id)
             && h'[x.id] == h[x.id].(right := t.id, parent := CtxId(k))
             && root' == if k.Root? then x.id else root
    ensures At(h', root', k, RotR(t))
  {
    var x := t.left;
    assert Rep(h, x, t.id) && Distinct(x);
    RotRKeeps(t);
    TurnedParts(h, root, h', k, t, t.id, x.id, x.right, t.right, t.id);
    TurnedParts(h, root, h', k, t, t.id, x.id, x.right, x.left, x.id);
    TurnedMiddle(h, root, h', k, t, t.id, x.id, x.right);
    TurnedCtx(h, root, h', k, t, t.id, x.id, x.right);
  }

  /** Node x, its child y, that child's child b and the frame above x are present and different. */
  ghost predicate Ready(h: Heap, k: Ctx, x: Ref, y: Ref, b: Ref) {
    && NIL in h && x in h && y in h && b in h && x != NIL && y != NIL && x != y && b != x && b != y
    && h[x].parent == CtxId(k)
    && (!k.Root? ==> k.id in h && k.id != NIL && k.id != x && k.id != y && k.id != b)
    && (!k.Root? ==> (k.InLeft? <==> h[k.id].left == x))
  }

  /** The nodes a rotation at t touches are all present and all different. */
  lemma ReadyToRotate(h: Heap, root: Ref, k: Ctx, t: Tree, s: Tree, b: Tree)
    requires At(h, root, k, t) && t.Br? && s.Br?
    requires (s == t.right && b == s.left) || (s == t.left && b == s.right)
    ensures t.id in h && h[t.id] == Node(t.color, IdOf(t.left), IdOf(t.right), CtxId(k), t.e)
    ensures s.id in h && h[s.id] == Node(s.color, IdOf(s.left), IdOf(s.right), t.id, s.e)
    ensures IdOf(b) in h && (b.Br? ==> b.id != NIL && b.id != t.id && b.id != s.id)
    ensures NIL in h && t.id != NIL && s.id != NIL && t.id != s.id
    ensures !k.Root? ==> k.id in h && k.id != NIL && k.id != t.id && k.id != s.id && k.id != IdOf(b)
    ensures !k.Root? ==> (k.InLeft? <==> h[k.id].left == t.id) && (k.InRight? <==> h[k.id].right == t.id)
  {
    Look(h, root, k, t);
    CtxDistinctApart(k, Ids(t));
    DistinctNotNil(t);
    assert Rep(h, s, t.id) && Rep(h, b, s.id) && Distinct(s) && s.id in Ids(s);
    if b.Br? {
      assert b.id in Ids(b);
    }
    if !k.Root? && k.sib.Br? {
      assert k.sib.id in Ids(k.sib) && t.id in Ids(t);
    }
  }

  function Depth(k: Ctx): nat {
    if k.Root? then 0 else 1 + Depth(k.up)
  }

  lemma SameContents(k: Ctx, t: Tree, t': Tree)
    requires Walk(t') == Walk(t) && Ids(t') == Ids(t)
    ensures Walk(Plug(k, t')) == Walk(Plug(k, t))
    ensures Ids(Plug(k, t')) == Ids(Plug(k, t))
  {
    WalkPlug(k, t);
    WalkPlug(k, t');
    IdsPlug(k, t);
    IdsPlug(k, t');
  }

  /** Everything holds except that the red node at the hole may have a red parent, or be the root. */
  ghost predicate InsertInv(k: Ctx, t: Tree, n: nat) {
    && t.Br? && t.color == Red
    && Bal(t, n) && NoRedRed(t) && CtxBal(k, n) && CtxNoRedRed(k)
  }

  // ---------- Insertion fix-up, one case at a time ----------

  /** The grandparent's subtree once parent and uncle are black and the grandparent red. */
  function UncleTree(k: Ctx, t: Tree): Tree
    requires !k.Root? && !k.up.Root? && k.up.sib.Br?
  {
    var G := Grow(k, t);
    var P, U := G.(color := Black), k.up.sib.(color := Black);
    if k.up.InLeft? then Br(k.up.id, Red, P, k.up.e, U) else Br(k.up.id, Red, U, k.up.e, P)
  }

  lemma UncleRestores(k: Ctx, t: Tree, n: nat)
    requires InsertInv(k, t, n) && CtxColor(k) == Red && ColorOf(k.up.sib) == Red
    ensures InsertInv(k.up.up, UncleTree(k, t), n + 1)
  {
    var G, U := Grow(k, t), k.up.sib;
    var P := G.(color := Black);
    assert CtxBal(k.up, n) && CtxNoRedRed(k.up);
    assert Bal(P, n + 1) && NoRedRed(P);
    assert Bal(U.(color := Black), n + 1) && NoRedRed(U.(color := Black));
  }

  lemma UncleKeeps(k: Ctx, t: Tree)
    requires !k.Root? && !k.up.Root? && k.up.sib.Br?
    ensures Walk(Plug(k.up.up, UncleTree(k, t))) == Walk(Plug(k, t))
    ensures Ids(Plug(k.up.up, UncleTree(k, t))) == Ids(Plug(k, t))
  {
    var P, U := Grow(k, t), k.up.sib;
    assert Walk(P.(color := Black)) == Walk(P) && Ids(P.(color := Black)) == Ids(P);
    assert Walk(U.(color := Black)) == Walk(U) && Ids(U.(color := Black)) == Ids(U);
    SameContents(k.up.up, Grow(k.up, P), UncleTree(k, t));
  }

  lemma UncleRecolored(h: Heap, root: Ref, k: Ctx, t: Tree)
    requires At(h, root, k, t) && !k.Root? && !k.up.Root? && k.up.sib.Br?
    ensures k.id in h && k.up.id in h && k.up.sib.id in h
    ensures var h1 := h[k.id := h[k.id].(color := Black)];
            var h2 := h1[k.up.sib.id := h1[k.up.sib.id].(color := Black)];
            At(h2[k.up.id := h2[k.up.id].(color := Red)], root, k.up.up, UncleTree(k, t))
  {
    var top, U := k.up.up, k.up.sib;
    var P := Grow(k, t);
    ZoomOut(h, root, k, t);
    ZoomOut(h, root, k.up, P);
    assert Rep(h, U, k.up.id) && k.up.id in h && k.id in h;
    hide At, Rep;
    Recolored(h, root, k.up, P, Black);
    var h1, P1 := h[k.id := h[k.id].(color := Black)], P.(color := Black);
    var G := Grow(k.up, P1);
    ZoomOut(h1, root, k.up, P1);
    var h2, U1 := h1[U.id := h1[U.id].(color := Black)], U.(color := Black);
    if k.up.InLeft? {
      var ku := InRight(G.id, G.color, G.e, P1, top);
      ZoomRight(h1, root, top, G);
      Recolored(h1, root, ku, U, Black);
      ZoomOut(h2, root, ku, U1);
      Recolored(h2, root, top, Grow(ku, U1), Red);
    } else {
      var ku := InLeft(G.id, G.color, G.e, P1, top);
      ZoomLeft(h1, root, top, G);
      Recolored(h1, root, ku, U, Black);
      ZoomOut(h2, root, ku, U1);
      Recolored(h2, root, top, Grow(ku, U1), Red);
    }
  }

  /** The red node and its red parent lie on different sides of their parents. */
  predicate Inner(k: Ctx) {
    !k.Root? && !k.up.Root? && k.InLeft? != k.up.InLeft?
  }

  /** The hole after rotating at the parent: the old parent hangs below the old child. */
  function OuterCtx(k: Ctx, t: Tree): Ctx
    requires Inner(k) && t.Br?
  {
    if k.InRight? then InLeft(t.id, t.color, t.e, t.right, k.up) else InRight(t.id, t.color, t.e, t.left, k.up)
  }

  function OuterTree(k: Ctx, t: Tree): Tree
    requires Inner(k) && t.Br?
  {
    if k.InRight? then Br(k.id, k.color, k.sib, k.e, t.left) else Br(k.id, k.color, t.right, k.e, k.sib)
  }

  lemma OuterRestores(k: Ctx, t: Tree, n: nat)
    requires InsertInv(k, t, n) && CtxColor(k) == Red && Inner(k)
    ensures InsertInv(OuterCtx(k, t), OuterTree(k, t), n) && CtxColor(OuterCtx(k, t)) == Red
    ensures OuterCtx(k, t).up == k.up && !Inner(OuterCtx(k, t))
  {
  }

  lemma OuterKeeps(k: Ctx, t: Tree)
    requires Inner(k) && t.Br?
    ensures Walk(Plug(OuterCtx(k, t), OuterTree(k, t))) == Walk(Plug(k, t))
    ensures Ids(Plug(OuterCtx(k, t), OuterTree(k, t))) == Ids(Plug(k, t))
  {
    var P := Grow(k, t);
    if k.InRight? {
      RotLKeeps(P);
      SameContents(k.up, P, RotL(P));
    } else {
      RotRKeeps(P);
      SameContents(k.up, P, RotR(P));
    }
  }

  /** The context of the red node after the final rotation at the grandparent. */
  function FinalCtx(k: Ctx): Ctx
    requires !k.Root? && !k.up.Root? && !Inner(k)
  {
    var g := k.up;
    if k.InLeft? then InLeft(k.id, Black, k.e, Br(g.id, Red, k.sib, g.e, g.sib), g.up)
    else InRight(k.id, Black, k.e, Br(g.id, Red, g.sib, g.e, k.sib), g.up)
  }

  lemma FinalRestores(k: Ctx, t: Tree, n: nat)
    requires InsertInv(k, t, n) && CtxColor(k) == Red && !Inner(k) && ColorOf(k.up.sib) == Black
    ensures InsertInv(FinalCtx(k), t, n) && CtxColor(FinalCtx(k)) == Black
  {
    assert CtxBal(k.up, n) && CtxNoRedRed(k.up);
  }

  lemma FinalKeeps(k: Ctx, t: Tree)
    requires !k.Root? && !k.up.Root? && !Inner(k)
    ensures Walk(Plug(FinalCtx(k), t)) == Walk(Plug(k, t))
    ensures Ids(Plug(FinalCtx(k), t)) == Ids(Plug(k, t))
  {
    var G := Grow(k.up, Grow(k, t));
    if k.InLeft? {
      RotRKeeps(G);
    } else {
      RotLKeeps(G);
    }
    var F := Grow(FinalCtx(k), t);
    var R := if k.InLeft? then RotR(G) else RotL(G);
    assert F.left.Br? && R.left.Br? ==> Walk(F.left) == Walk(R.left) && Ids(F.left) == Ids(R.left);
    assert F.right.Br? && R.right.Br? ==> Walk(F.right) == Walk(R.right) && Ids(F.right) == Ids(R.right);
    assert Walk(F) == Walk(G) && Ids(F) == Ids(G);
    SameContents(k.up.up, G, F);
  }

  lemma UncleColor(h: Heap, root: Ref, k: Ctx, t: Tree)
    requires At(h, root, k, t) && !k.Root? && !k.up.Root?
    ensures IdOf(k.up.sib) in h && h[IdOf(k.up.sib)].color == ColorOf(k.up.sib)
  {
    ZoomOut(h, root, k, t);
    assert Rep(h, k.up.sib, k.up.id);
  }

  lemma {:induction false} RootIsBlack(h: Heap, root: Ref, k: Ctx, t: Tree)
    requires At(h, root, k, t) && !k.Root? && CtxNoRedRed(k)
    ensures root in h && h[root].color == Black
    decreases k
  {
    if k.up.Root? {
      Look(h, root, k, t);
      assert RootOf(k, IdOf(t)) == RootOf(k.up, k.id) == k.id;
    } else {
      ZoomOut(h, root, k, t);
      RootIsBlack(h, root, k.up, Grow(k, t));
    }
  }

  // ---------- Deletion fix-up, one case at a time ----------

  /** The subtree at the hole is one black node short of what its context expects. */
  ghost predicate DeleteInv(k: Ctx, t: Tree, n: nat) {
    Bal(t, n) && NoRedRed(Blacken(t)) && CtxBal(k, n + 1) && CtxNoRedRed(k)
  }

  /** The child of the sibling w nearer to the hole, and the farther one. */
  function Near(k: Ctx, w: Tree): Tree
    requires w.Br?
  {
    if k.InLeft? then w.left else w.right
  }

  function Far(k: Ctx, w: Tree): Tree
    requires w.Br?
  {
    if k.InLeft? then w.right else w.left
  }

  /** A red sibling comes up; the hole's parent, now red, gets a black sibling. */
  function RaisedCtx(k: Ctx): Ctx
    requires !k.Root? && k.sib.Br?
  {
    var w := k.sib;
    if k.InLeft? then InLeft(k.id, Red, k.e, w.left, InLeft(w.id, Black, w.e, w.right, k.up))
    else InRight(k.id, Red, k.e, w.right, InRight(w.id, Black, w.e, w.left, k.up))
  }

  lemma RaisedRestores(k: Ctx, t: Tree, n: nat)
    requires !k.Root? && DeleteInv(k, t, n) && ColorOf(k.sib) == Red
    ensures DeleteInv(RaisedCtx(k), t, n) && ColorOf(RaisedCtx(k).sib) == Black
    ensures Depth(RaisedCtx(k)) == Depth(k) + 1
  {
    assert Depth(RaisedCtx(k)) == 1 + Depth(RaisedCtx(k).up) == 2 + Depth(k.up);
  }

  /** A black sibling with black children turns red: the shortage moves to the parent. */
  function ShiftedTree(k: Ctx, t: Tree): Tree
    requires !k.Root? && k.sib.Br?
  {
    Grow(k.(sib := k.sib.(color := Red)), t)
  }

  lemma ShiftedRestores(k: Ctx, t: Tree, n: nat)
    requires !k.Root? && k.sib.Br? && DeleteInv(k, t, n) && ColorOf(t) == ColorOf(k.sib) == Black
    requires ColorOf(k.sib.left) == ColorOf(k.sib.right) == Black
    ensures DeleteInv(k.up, ShiftedTree(k, t), if k.color == Red then n else n + 1)
  {
    var w := k.sib.(color := Red);
    assert Bal(w, n) && NoRedRed(w);
  }

  /** A black sibling whose near child alone is red is replaced by that child. */
  function TuckedSib(k: Ctx): Tree
    requires !k.Root? && k.sib.Br? && Near(k, k.sib).Br?
  {
    var w, v := k.sib, Near(k, k.sib);
    if k.InLeft? then Br(v.id, Black, v.left, v.e, Br(w.id, Red, v.right, w.e, w.right))
    else Br(v.id, Black, Br(w.id, Red, w.left, w.e, v.left), v.e, v.right)
  }

  lemma TuckedRestores(k: Ctx, t: Tree, n: nat)
    requires !k.Root? && k.sib.Br? && DeleteInv(k, t, n) && ColorOf(k.sib) == Black
    requires ColorOf(Near(k, k.sib)) == Red && ColorOf(Far(k, k.sib)) == Black
    ensures DeleteInv(k.(sib := TuckedSib(k)), t, n) && ColorOf(Far(k, TuckedSib(k))) == Red
  {
    var w, v := k.sib, Near(k, k.sib);
    var w' := Far(k, TuckedSib(k));
    assert Bal(w.left, n) && Bal(w.right, n) && NoRedRed(w.left) && NoRedRed(w.right);
    assert Bal(v.left, n) && Bal(v.right, n);
    assert Bal(w', n) && NoRedRed(w');
    assert Bal(TuckedSib(k), n + 1) && NoRedRed(TuckedSib(k));
  }

  /** The far child of the sibling is red: one rotation supplies the missing black node. */
  function MendedTree(k: Ctx, t: Tree): Tree
    requires !k.Root? && k.sib.Br? && Far(k, k.sib).Br?
  {
    var w := k.sib;
    if k.InLeft? then Br(w.id, k.color, Br(k.id, Black, t, k.e, w.left), w.e, w.right.(color := Black))
    else Br(w.id, k.color, w.left.(color := Black), w.e, Br(k.id, Black, w.right, k.e, t))
  }

  lemma MendedRestores(k: Ctx, t: Tree, n: nat)
    requires !k.Root? && k.sib.Br? && DeleteInv(k, t, n) && ColorOf(t) == ColorOf(k.sib) == Black
    requires ColorOf(Far(k, k.sib)) == Red
    ensures RedBlack(Plug(k.up, MendedTree(k, t)))
  {
    var w, f := k.sib, Far(k, k.sib);
    var f' := f.(color := Black);
    var p := if k.InLeft? then Br(k.id, Black, t, k.e, w.left) else Br(k.id, Black, w.right, k.e, t);
    assert Bal(w.left, n) && Bal(w.right, n) && NoRedRed(w.left) && NoRedRed(w.right);
    assert Bal(f', n + 1) && NoRedRed(f');
    assert Bal(p, n + 1) && NoRedRed(p);
    PlugRedBlack(k.up, MendedTree(k, t), if k.color == Red then n + 1 else n + 2);
  }

  lemma DeleteCasesKeep(k: Ctx, t: Tree)
    requires !k.Root? && k.sib.Br?
    ensures Walk(Grow(RaisedCtx(k).up, Grow(RaisedCtx(k), t))) == Walk(Grow(k, t))
    ensures Ids(Grow(RaisedCtx(k).up, Grow(RaisedCtx(k), t))) == Ids(Grow(k, t))
    ensures Walk(ShiftedTree(k, t)) == Walk(Grow(k, t)) && Ids(ShiftedTree(k, t)) == Ids(Grow(k, t))
    ensures Far(k, k.sib).Br? ==> Walk(MendedTree(k, t)) == Walk(Grow(k, t)) && Ids(MendedTree(k, t)) == Ids(Grow(k, t))
    ensures Near(k, k.sib).Br? ==> Walk(TuckedSib(k)) == Walk(k.sib) && Ids(TuckedSib(k)) == Ids(k.sib)
  {
    var G, w := Grow(k, t), k.sib;
    if k.InLeft? {
      RotLKeeps(G);
      var p := RotL(G).left;
      assert Walk(p.(color := Red)) == Walk(p) && Walk(p.(color := Black)) == Walk(p);
      assert Ids(p.(color := Red)) == Ids(p) && Ids(p.(color := Black)) == Ids(p);
      if w.left.Br? {
        RotRKeeps(w);
      }
    } else {
      RotRKeeps(G);
      var p := RotR(G).right;
      assert Walk(p.(color := Red)) == Walk(p) && Walk(p.(color := Black)) == Walk(p);
      assert Ids(p.(color := Red)) == Ids(p) && Ids(p.(color := Black)) == Ids(p);
      if w.right.Br? {
        RotLKeeps(w);
      }
    }
  }

  /** parent->color = c, seen from the hole. */
  lemma FrameRecolored(h: Heap, root: Ref, k: Ctx, t: Tree, c: Color)
    requires At(h, root, k, t) && !k.Root?
    ensures k.id in h && At(h[k.id := h[k.id].(color := c)], root, k.(color := c), t)
  {
    hide At;
    Look(h, root, k, t);
    var G := Grow(k, t);
    ZoomOut(h, root, k, t);
    Recolored(h, root, k.up, G, c);
    var h' := h[k.id := h[k.id].(color := c)];
    if k.InLeft? {
      ZoomLeft(h', root, k.up, G.(color := c));
    } else {
      ZoomRight(h', root, k.up, G.(color := c));
    }
  }

  /** The same tree, seen from the sibling instead of from the hole. */
  function SibCtx(k: Ctx, t: Tree): Ctx
    requires !k.Root?
  {
    if k.InLeft? then InRight(k.id, k.color, k.e, t, k.up) else InLeft(k.id, k.color, k.e, t, k.up)
  }

  lemma CrossOver(h: Heap, root: Ref, k: Ctx, t: Tree)
    requires At(h, root, k, t) && !k.Root?
    ensures At(h, root, SibCtx(k, t), k.sib)
  {
    hide At;
    ZoomOut(h, root, k, t);
    if k.InLeft? {
      ZoomRight(h, root, k.up, Grow(k, t));
    } else {
      ZoomLeft(h, root, k.up, Grow(k, t));
    }
  }

  /** sibling->color = c, seen from the hole. */
  lemma SiblingRecolored(h: Heap, root: Ref, k: Ctx, t: Tree, c: Color)
    requires At(h, root, k, t) && !k.Root? && k.sib.Br?
    ensures k.sib.id in h
    ensures At(h[k.sib.id := h[k.sib.id].(color := c)], root, k.(sib := k.sib.(color := c)), t)
  {
    hide At;
    CrossOver(h, root, k, t);
    Look(h, root, SibCtx(k, t), k.sib);
    Recolored(h, root, SibCtx(k, t), k.sib, c);
    CrossOver(h[k.sib.id := h[k.sib.id].(color := c)], root, SibCtx(k, t), k.sib.(color := c));
  }

  function WithFar(k: Ctx, f: Tree): Tree
    requires !k.Root? && k.sib.Br?
  {
    if k.InLeft? then k.sib.(right := f) else k.sib.(left := f)
  }

  function WithNear(k: Ctx, f: Tree): Tree
    requires !k.Root? && k.sib.Br?
  {
    if k.InLeft? then k.sib.(left := f) else k.sib.(right := f)
  }

  /** The colour of a nephew written, seen from the hole. */
  lemma NephewRecolored(h: Heap, root: Ref, k: Ctx, t: Tree, far: bool, c: Color)
    requires At(h, root, k, t) && !k.Root? && k.sib.Br?
    requires var v := if far then Far(k, k.sib) else Near(k, k.sib); v.Br?
    ensures var v := if far then Far(k, k.sib) else Near(k, k.sib);
            && v.id in h
            && At(h[v.id := h[v.id].(color := c)], root,
                  k.(sib := if far then WithFar(k, v.(color := c)) else WithNear(k, v.(color := c))), t)
  {
    hide At;
    var ks, w := SibCtx(k, t), k.sib;
    CrossOver(h, root, k, t);
    var onRight := far == k.InLeft?;
    var v := if onRight then w.right else w.left;
    var kv := if onRight then InRight(w.id, w.color, w.e, w.left, ks) else InLeft(w.id, w.color, w.e, w.right, ks);
    if onRight {
      ZoomRight(h, root, ks, w);
    } else {
      ZoomLeft(h, root, ks, w);
    }
    Look(h, root, kv, v);
    Recolored(h, root, kv, v, c);
    var h' := h[v.id := h[v.id].(color := c)];
    ZoomOut(h', root, kv, v.(color := c));
    CrossOver(h', root, ks, Grow(kv, v.(color := c)));
  }

  /** What the deletion loop reads around the hole. */
  lemma LookAround(h: Heap, root: Ref, k: Ctx, t: Tree)
    requires At(h, root, k, t) && !k.Root? && k.sib.Br?
    ensures k.id in h && k.sib.id in h && k.id != NIL && k.sib.id != NIL
    ensures IdOf(k.sib.left) in h && IdOf(k.sib.right) in h
    ensures h[k.id].color == k.color && h[k.sib.id].color == k.sib.color
    ensures h[IdOf(k.sib.left)].color == ColorOf(k.sib.left) && h[IdOf(k.sib.right)].color == ColorOf(k.sib.right)
    ensures h[k.sib.id].left == IdOf(k.sib.left) && h[k.sib.id].right == IdOf(k.sib.right)
    ensures k.InLeft? ==> h[k.id].left == IdOf(t) && h[k.id].right == k.sib.id
    ensures k.InRight? ==> h[k.id].right == IdOf(t) && h[k.id].left == k.sib.id && k.sib.id != IdOf(t)
  {
    Look(h, root, k, t);
    assert Rep(h, k.sib, k.id) && Rep(h, k.sib.left, k.sib.id) && Rep(h, k.sib.right, k.sib.id);
    assert Distinct(k.sib);
  }

  lemma PlugStep(k: Ctx, t: Tree)
    requires !k.Root?
    ensures Plug(k, t) == Plug(k.up, Grow(k, t))
  {
  }

  lemma SameSibling(k: Ctx, t: Tree, s: Tree)
    requires !k.Root? && Walk(s) == Walk(k.sib) && Ids(s) == Ids(k.sib)
    ensures Walk(Plug(k.(sib := s), t)) == Walk(Plug(k, t)) && Ids(Plug(k.(sib := s), t)) == Ids(Plug(k, t))
  {
    SameContents(k.up, Grow(k, t), Grow(k.(sib := s), t));
  }

  lemma WholeTree(t: Tree, m: nat)
    requires RedBlack(t) && Bal(t, m)
    ensures DeleteInv(Root, t, m) && Plug(Root, t) == t
  {
  }

  // ---------- Taking a node out ----------

  function OnlyChild(t: Tree): Tree
    requires t.Br?
  {
    if t.left.Br? then t.left else t.right
  }

  /** The heap after linking x, the only child of t, to t's parent in both directions. */
  lemma SplicedOut(h: Heap, root: Ref, k: Ctx, t: Tree, h': Heap, root': Ref)
    requires At(h, root, k, t) && t.Br? && (t.left.Leaf? || t.right.Leaf?)
    requires var x := IdOf(OnlyChild(t));
             && x in h
             && var h1 := h[x := h[x].(parent := CtxId(k))];
             && (k.Root? ==> h' == h1 && root' == x)
             && (!k.Root? ==> k.id in h1 && h' == SetChild(h1, k, x) && root' == root)
    ensures At(h', root', k, OnlyChild(t))
    ensures OnlyChild(t).Leaf? ==> h'[NIL].parent == CtxId(k)
    ensures h'.Keys == h.Keys
  {
    var c := OnlyChild(t);
    var x := IdOf(c);
    var h1 := h[x := h[x].(parent := CtxId(k))];
    CtxDistinctApart(k, Ids(t));
    DistinctNotNil(t);
    assert Rep(h, c, t.id) && Distinct(c) && Ids(c) <= Ids(t);
    if c.Br? {
      assert x in Ids(c);
      Reparented(h, c, t.id, CtxId(k));
      RepFrame(h1, h', c, CtxId(k));
    }
    RepCtxFrame(h, h1, k, t.id);
    CtxDistinctShrinks(k, Ids(t), Ids(c));
    if !k.Root? {
      ChildSet(h1, k, t.id, x, Ids(c));
    }
  }

  lemma {:induction false} CtxDistinctShrinks(k: Ctx, inside: set<Ref>, fewer: set<Ref>)
    requires CtxDistinct(k, inside) && fewer <= inside
    ensures CtxDistinct(k, fewer)
    decreases k
  {
    if !k.Root? {
      CtxDistinctShrinks(k.up, {k.id} + Ids(k.sib) + inside, {k.id} + Ids(k.sib) + fewer);
    }
  }

  /** km goes down from k by left turns only. */
  predicate LeftPath(km: Ctx, k: Ctx)
    decreases km
  {
    km == k || (km.InLeft? && LeftPath(km.up, k))
  }

  function SetEntry(k: Ctx, z: Ref, e: Entry): Ctx
    decreases k
  {
    if k.Root? then k
    else if k.id == z then k.(e := e)
    else k.(up := SetEntry(k.up, z, e))
  }

  lemma {:induction false} SetEntryRep(h: Heap, k: Ctx, child: Ref, inside: set<Ref>, z: Ref, e: Entry)
    requires RepCtx(h, k, child) && CtxDistinct(k, inside) && z in h
    requires z !in inside && z != NIL
    ensures CtxId(SetEntry(k, z, e)) == CtxId(k) && CtxIds(SetEntry(k, z, e)) == CtxIds(k)
    ensures CtxDistinct(SetEntry(k, z, e), inside)
    ensures RootOf(SetEntry(k, z, e), child) == RootOf(k, child)
    ensures OnPath(k, z) ==> RepCtx(h[z := h[z].(e := e)], SetEntry(k, z, e), child)
    decreases k
  {
    var h' := h[z := h[z].(e := e)];
    if !k.Root? {
      var more := {k.id} + Ids(k.sib) + inside;
      if k.id == z {
        CtxDistinctApart(k.up, more);
        RepFrame(h, h', k.sib, k.id);
        RepCtxFrame(h, h', k.up, k.id);
      } else if z in Ids(k.sib) {
        SetEntryOff(k.up, z, e, more);
      } else {
        SetEntryRep(h, k.up, k.id, more, z, e);
        RepFrame(h, h', k.sib, k.id);
      }
    }
  }

  /** z is one of the nodes between the hole and the root. */
  predicate OnPath(k: Ctx, z: Ref)
    decreases k
  {
    !k.Root? && (k.id == z || OnPath(k.up, z))
  }

  lemma {:induction false} SetEntryOff(k: Ctx, z: Ref, e: Entry, inside: set<Ref>)
    requires CtxDistinct(k, inside) && z in inside
    ensures SetEntry(k, z, e) == k && !OnPath(k, z)
    decreases k
  {
    if !k.Root? {
      SetEntryOff(k.up, z, e, {k.id} + Ids(k.sib) + inside);
    }
  }

  lemma {:induction false} SetEntryShape(k: Ctx, z: Ref, e: Entry, n: nat)
    ensures CtxBal(SetEntry(k, z, e), n) == CtxBal(k, n)
    ensures CtxNoRedRed(SetEntry(k, z, e)) == CtxNoRedRed(k)
    ensures CtxColor(SetEntry(k, z, e)) == CtxColor(k) && SetEntry(k, z, e).Root? == k.Root?
    decreases k
  {
    if !k.Root? {
      SetEntryShape(k.up, z, e, if k.color == Red then n else n + 1);
    }
  }

  lemma SiblingIsNode(k: Ctx, t: Tree, n: nat)
    requires !k.Root? && DeleteInv(k, t, n)
    ensures k.sib.Br?
  {
  }

  lemma RaisedKeeps(k: Ctx, t: Tree)
    requires !k.Root? && k.sib.Br?
    ensures Walk(Plug(RaisedCtx(k), t)) == Walk(Plug(k, t)) && Ids(Plug(RaisedCtx(k), t)) == Ids(Plug(k, t))
  {
    DeleteCasesKeep(k, t);
    SameContents(k.up, Grow(k, t), Grow(RaisedCtx(k).up, Grow(RaisedCtx(k), t)));
  }

  // ---------- What deleting an entry does to the sequence of entries ----------

  /**
   The entry at position i is gone.  When its node had two children, the successor's key and
   value moved into that node, which kept its own expiry time.
   */
  function Removed(s: seq<Entry>, i: nat, twoChildren: bool): seq<Entry>
    requires i < |s| && (twoChildren ==> i + 1 < |s|)
  {
    if twoChildren then s[..i] + [s[i + 1].(expire := s[i].expire)] + s[i + 2..]
    else s[..i] + s[i + 1..]
  }

  lemma {:induction false} LeftPathFacts(km: Ctx, k: Ctx, z: Ref, e: Entry, inside: set<Ref>)
    requires LeftPath(km, k) && !k.Root? && k.id == z && CtxDistinct(km, inside)
    ensures OnPath(km, z) && LeftPath(SetEntry(km, z, e), k.(e := e))
    ensures Before(km) == Before(k)
    ensures Before(SetEntry(km, z, e)) == Before(k.(e := e))
    ensures k.InRight? ==> After(SetEntry(km, z, e)) == After(km)
    decreases km
  {
    if km != k {
      LeftPathFacts(km.up, k, z, e, {km.id} + Ids(km.sib) + inside);
      CtxDistinctApart(km.up, {km.id} + Ids(km.sib) + inside);
      OnPathInCtx(km.up, z);
    }
  }

  lemma {:induction false} OnPathInCtx(k: Ctx, z: Ref)
    requires OnPath(k, z)
    ensures z in CtxIds(k)
    decreases k
  {
    if k.id != z {
      OnPathInCtx(k.up, z);
    }
  }

  lemma RemovedOne(a: seq<Entry>, e: Entry, b: seq<Entry>)
    ensures Removed(a + [e] + b, |a|, false) == a + b
  {
    var s := a + [e] + b;
    assert s[..|a|] == a && s[|a| + 1..] == b;
  }

  lemma RemovedTwo(a: seq<Entry>, e: Entry, f: Entry, b: seq<Entry>)
    ensures Removed(a + [e] + ([f] + b), |a|, true) == a + [f.(expire := e.expire)] + b
  {
    var s := a + [e] + ([f] + b);
    assert s[..|a|] == a && s[|a| + 2..] == b && s[|a|] == e && s[|a| + 1] == f;
  }

  lemma JoinOne(a: seq<Entry>, b: seq<Entry>, c: seq<Entry>, d: seq<Entry>)
    ensures b == [] ==> a + c + d == (a + b) + (c + d)
    ensures c == [] ==> a + b + d == (a + b) + (c + d)
  {
  }

  /** Position of the node at the hole in the walk of the whole tree. */
  function Rank(k: Ctx, t: Tree): nat
    requires t.Br?
  {
    |Before(k) + Walk(t.left)|
  }

  lemma RankInRange(k: Ctx, t: Tree)
    requires t.Br?
    ensures Rank(k, t) < |Walk(Plug(k, t))| && Walk(Plug(k, t))[Rank(k, t)] == t.e
    ensures t.right.Br? ==> Rank(k, t) + 1 < |Walk(Plug(k, t))|
  {
    WalkAround(k, t);
    hide Plug, Before, After;
    assert t.right.Br? ==> |Walk(t.right)| > 0;
  }

  /** The walk after a node with at most one child is spliced out. */
  lemma SpliceWalk(k: Ctx, t: Tree)
    requires t.Br? && (t.left.Leaf? || t.right.Leaf?)
    ensures Rank(k, t) < |Walk(Plug(k, t))|
    ensures Walk(Plug(k, OnlyChild(t))) == Removed(Walk(Plug(k, t)), Rank(k, t), false)
  {
    RankInRange(k, t);
    WalkAround(k, t);
    RemovedOne(Before(k) + Walk(t.left), t.e, Walk(t.right) + After(k));
    WalkPlug(k, OnlyChild(t));
    JoinOne(Before(k), Walk(t.left), Walk(t.right), After(k));
    hide Plug, Before, After, Removed;
  }

  lemma SpliceIds(k: Ctx, t: Tree)
    requires t.Br? && (t.left.Leaf? || t.right.Leaf?) && Distinct(t) && CtxDistinct(k, Ids(t))
    ensures Ids(Plug(k, OnlyChild(t))) == Ids(Plug(k, t)) - {t.id}
  {
    CtxDistinctApart(k, Ids(t));
    IdsPlug(k, t);
    IdsPlug(k, OnlyChild(t));
  }

  lemma MoveEntry(a: seq<Entry>, e: Entry, r: seq<Entry>, z: seq<Entry>)
    ensures (a + [e]) + r + z == a + [e] + (r + z)
  {
  }

  /** The walk after the successor m of z is spliced out and z took over its key and value. */
  lemma SuccessorWalk(k: Ctx, t: Tree, km: Ctx, tm: Tree)
    requires t.Br? && tm.Br? && tm.left.Leaf?
    requires LeftPath(km, InRight(t.id, t.color, t.e, t.left, k)) && CtxDistinct(km, Ids(tm))
    requires Plug(km, tm) == Plug(k, t)
    ensures Rank(k, t) + 1 < |Walk(Plug(k, t))|
    ensures Walk(Plug(SetEntry(km, t.id, tm.e.(expire := t.e.expire)), tm.right)) ==
            Removed(Walk(Plug(k, t)), Rank(k, t), true)
  {
    var kz := InRight(t.id, t.color, t.e, t.left, k);
    var e := tm.e.(expire := t.e.expire);
    var k' := SetEntry(km, t.id, e);
    BeforeRight(k, t, e);
    ThinWalk(tm);
    hide Walk, Before, After, Plug, SetEntry, LeftPath, CtxDistinct, Removed;
    LeftPathFacts(km, kz, t.id, e, Ids(tm));
    WalkPlug(km, tm);
    WalkPlug(k', tm.right);
    SuccessorSeq(Before(k) + Walk(t.left), t.e, tm.e, Walk(tm.right), After(km));
  }

  lemma BeforeRight(k: Ctx, t: Tree, e: Entry)
    requires t.Br?
    ensures Before(InRight(t.id, t.color, t.e, t.left, k)) == Before(k) + Walk(t.left) + [t.e]
    ensures Before(InRight(t.id, t.color, e, t.left, k)) == Before(k) + Walk(t.left) + [e]
  {
  }

  lemma ThinWalk(t: Tree)
    requires t.Br? && t.left.Leaf?
    ensures Walk(t) == [t.e] + Walk(t.right)
  {
    assert Walk(t.left) == [];
  }

  lemma SuccessorSeq(a: seq<Entry>, e: Entry, f: Entry, r: seq<Entry>, z: seq<Entry>)
    ensures var s := (a + [e]) + ([f] + r) + z;
            |a| + 1 < |s| && Removed(s, |a|, true) == (a + [f.(expire := e.expire)]) + r + z
  {
    RemovedTwo(a, e, f, r + z);
    assert (a + [e]) + ([f] + r) + z == a + [e] + ([f] + (r + z));
    MoveEntry(a, f.(expire := e.expire), r, z);
  }

  /** A node that is not part of the tree may be written freely. */
  lemma OutsideWritten(h: Heap, root: Ref, k: Ctx, t: Tree, y: Ref, v: Node)
    requires At(h, root, k, t) && y != NIL && y !in Ids(t) && y !in CtxIds(k)
    ensures At(h[y := v], root, k, t)
  {
    RepFrame(h, h[y := v], t, CtxId(k));
    RepCtxFrame(h, h[y := v], k, IdOf(t));
  }

  /** key and value of a node above the hole written. */
  lemma PathRewritten(h: Heap, root: Ref, k: Ctx, t: Tree, z: Ref, e: Entry)
    requires At(h, root, k, t) && OnPath(k, z)
    ensures z in h && At(h[z := h[z].(e := e)], root, SetEntry(k, z, e), t)
  {
    CtxDistinctApart(k, Ids(t));
    OnPathInCtx(k, z);
    OnPathNode(h, k, IdOf(t), z);
    SetEntryRep(h, k, IdOf(t), Ids(t), z, e);
    RepFrame(h, h[z := h[z].(e := e)], t, CtxId(k));
  }

  lemma {:induction false} OnPathNode(h: Heap, k: Ctx, child: Ref, z: Ref)
    requires RepCtx(h, k, child) && OnPath(k, z)
    ensures z in h && h[z].e == PathEntry(k, z)
    decreases k
  {
    if k.id != z {
      OnPathNode(h, k.up, k.id, z);
    }
  }

  function PathEntry(k: Ctx, z: Ref): Entry
    requires OnPath(k, z)
    decreases k
  {
    if k.id == z then k.e else PathEntry(k.up, z)
  }

  lemma {:induction false} LeftPathEntry(km: Ctx, k: Ctx, inside: set<Ref>)
    requires LeftPath(km, k) && !k.Root? && CtxDistinct(km, inside)
    ensures OnPath(km, k.id) && PathEntry(km, k.id) == k.e
    decreases km
  {
    if km != k {
      LeftPathEntry(km.up, k, {km.id} + Ids(km.sib) + inside);
      CtxDistinctApart(km.up, {km.id} + Ids(km.sib) + inside);
      OnPathInCtx(km.up, k.id);
    }
  }

  /** Splicing out y leaves a red-black tree if y was red, and one shortage of black if it was black. */
  lemma SpliceShape(k: Ctx, t: Tree, m: nat) returns (n: nat)
    requires Bal(Plug(k, t), m) && NoRedRed(Plug(k, t)) && ColorOf(Plug(k, t)) == Black
    requires t.Br? && (t.left.Leaf? || t.right.Leaf?)
    ensures t.color == Black ==> DeleteInv(k, OnlyChild(t), n)
    ensures t.color == Red ==> Bal(OnlyChild(t), n) && CtxBal(k, n) && NoRedRed(OnlyChild(t)) && CtxNoRedRed(k)
    ensures t.color == Red ==> ColorOf(OnlyChild(t)) == Black
  {
    n := UnplugRedBlack(k, t, m);
    if t.color == Black {
      n := n - 1;
      assert NoRedRed(Blacken(OnlyChild(t)));
    }
  }

  lemma RemovedKey(s: seq<Entry>, i: nat, two: bool, a: nat)
    requires i < |s| && (two ==> i + 1 < |s|) && a < |Removed(s, i, two)|
    ensures |Removed(s, i, two)| == |s| - 1
    ensures Removed(s, i, two)[a].key == s[if a < i then a else a + 1].key
    ensures Removed(s, i, two)[a].value == s[if a < i then a else a + 1].value
  {
  }

  lemma RemovedSorted(s: seq<Entry>, i: nat, two: bool)
    requires Sorted(s) && i < |s| && (two ==> i + 1 < |s|)
    ensures Sorted(Removed(s, i, two))
  {
    var r := Removed(s, i, two);
    forall a, b | 0 <= a < b < |r|
      ensures Less(r[a].key, r[b].key)
    {
      RemovedKey(s, i, two, a);
      RemovedKey(s, i, two, b);
    }
    hide Removed, Less;
  }

  lemma Children(h: Heap, root: Ref, k: Ctx, t: Tree)
    requires At(h, root, k, t) && t.Br?
    ensures t.id in h && t.id != NIL
    ensures h[t.id].left == NIL <==> t.left.Leaf?
    ensures h[t.id].right == NIL <==> t.right.Leaf?
    ensures h[t.id].left == IdOf(t.left) && h[t.id].right == IdOf(t.right)
  {
    Look(h, root, k, t);
    DistinctNotNil(t);
    assert t.left.Br? ==> t.left.id in Ids(t.left);
    assert t.right.Br? ==> t.right.id in Ids(t.right);
  }

  lemma SpliceLook(h: Heap, root: Ref, k: Ctx, t: Tree)
    requires At(h, root, k, t) && t.Br?
    ensures t.id in h && h[t.id] == Node(t.color, IdOf(t.left), IdOf(t.right), CtxId(k), t.e) && t.id != NIL
    ensures IdOf(t.left) in h && IdOf(t.right) in h && t.id != IdOf(t.left) && t.id != IdOf(t.right)
    ensures h[t.id].left == NIL <==> t.left.Leaf?
    ensures h[t.id].right == NIL <==> t.right.Leaf?
    ensures !k.Root? ==> k.id in h && k.id != NIL && k.id != t.id && k.id != IdOf(t.left) && k.id != IdOf(t.right)
    ensures !k.Root? ==> (k.InLeft? <==> h[k.id].left == t.id)
  {
    Look(h, root, k, t);
    Children(h, root, k, t);
    CtxDistinctApart(k, Ids(t));
    assert Rep(h, t.left, t.id) && Rep(h, t.right, t.id);
    assert t.left.Br? ==> t.left.id in Ids(t.left);
    assert t.right.Br? ==> t.right.id in Ids(t.right);
    if !k.Root? && k.sib.Br? {
      assert k.sib.id in Ids(k.sib) && t.id in Ids(t);
    }
  }

  /** z and its successor are different nodes, and the successor is not above itself. */
  lemma DeleteWideFacts(k: Ctx, t: Tree, km: Ctx, tm: Tree)
    requires t.Br? && tm.Br? && tm.left.Leaf?
    requires LeftPath(km, InRight(t.id, t.color, t.e, t.left, k)) && Distinct(tm) && CtxDistinct(km, Ids(tm))
    ensures tm.id != t.id && tm.id != NIL && tm.id !in Ids(OnlyChild(tm)) && tm.id !in CtxIds(km)
    ensures OnlyChild(tm) == tm.right
    ensures Ids(Plug(SetEntry(km, t.id, tm.e.(expire := t.e.expire)), OnlyChild(tm))) == Ids(Plug(km, OnlyChild(tm)))
    ensures tm.id in Ids(Plug(km, tm))
  {
    LeftPathEntry(km, InRight(t.id, t.color, t.e, t.left, k), Ids(tm));
    OnPathInCtx(km, t.id);
    CtxDistinctApart(km, Ids(tm));
    IdsPlug(km, OnlyChild(tm));
    IdsPlug(km, tm);
    IdsPlug(SetEntry(km, t.id, tm.e.(expire := t.e.expire)), OnlyChild(tm));
    SetEntryIds(km, t.id, tm.e.(expire := t.e.expire));
  }

  lemma AtDistinct(h: Heap, root: Ref, k: Ctx, t: Tree)
    requires At(h, root, k, t)
    ensures Distinct(t) && CtxDistinct(k, Ids(t))
  {
  }

  /** Everything needed to delete z by splicing out its successor, which lies at the hole of km. */
  lemma WidePlan(k: Ctx, t: Tree, km: Ctx, tm: Tree) returns (n: nat)
    requires t.Br? && tm.Br? && tm.left.Leaf? && RedBlack(Plug(k, t)) && Plug(km, tm) == Plug(k, t)
    requires LeftPath(km, InRight(t.id, t.color, t.e, t.left, k)) && Distinct(tm) && CtxDistinct(km, Ids(tm))
    ensures var c, e := OnlyChild(tm), tm.e.(expire := t.e.expire);
            var k' := SetEntry(km, t.id, e);
            && OnPath(km, t.id) && PathEntry(km, t.id) == t.e && CtxId(k') == CtxId(km)
            && tm.id != t.id && tm.id != NIL && tm.id !in Ids(c) && tm.id !in CtxIds(km)
            && (tm.color == Black ==> DeleteInv(k', c, n))
            && (tm.color == Red ==> Bal(c, n) && CtxBal(k', n) && NoRedRed(c) && CtxNoRedRed(k') && ColorOf(c) == Black)
            && Rank(k, t) + 1 < |Walk(Plug(k, t))|
            && Walk(Plug(k', c)) == Removed(Walk(Plug(k, t)), Rank(k, t), true)
            && tm.id in Ids(Plug(k, t)) && Ids(Plug(k', c)) == Ids(Plug(k, t)) - {tm.id}
  {
    var m: nat :| Bal(Plug(k, t), m);
    hide Walk, Plug, Bal, NoRedRed, Distinct, CtxDistinct, Ids, CtxIds, LeftPath, SetEntry, Removed, OnPath, PathEntry,
         CtxBal, CtxNoRedRed;
    var e := tm.e.(expire := t.e.expire);
    n := SpliceShape(km, tm, m);
    SpliceIds(km, tm);
    SuccessorWalk(k, t, km, tm);
    LeftPathEntry(km, InRight(t.id, t.color, t.e, t.left, k), Ids(tm));
    DeleteWideFacts(k, t, km, tm);
    SetEntryIds(km, t.id, e);
    SetEntryShape(km, t.id, e, n);
    SetEntryShape(km, t.id, e, n + 1);
  }

  lemma {:induction false} SetEntryIds(k: Ctx, z: Ref, e: Entry)
    ensures CtxIds(SetEntry(k, z, e)) == CtxIds(k) && CtxId(SetEntry(k, z, e)) == CtxId(k)
    decreases k
  {
    if !k.Root? {
      SetEntryIds(k.up, z, e);
    }
  }

  // ---------- Searching and hanging a new node ----------

  lemma PlugRoot(t: Tree, key: Key)
    ensures Plug(Root, t) == t && AllBelow(Before(Root), key) && AllAbove(After(Root), key)
  {
  }

  lemma AboveJoin(a: seq<Entry>, b: seq<Entry>, key: Key)
    requires AllAbove(a, key) && AllAbove(b, key)
    ensures AllAbove(a + b, key)
  {
  }

  lemma BelowJoin(a: seq<Entry>, b: seq<Entry>, key: Key)
    requires AllBelow(a, key) && AllBelow(b, key)
    ensures AllBelow(a + b, key)
  {
  }

  /** Everything right of a node greater than key is greater than key. */
  lemma DescendLeft(k: Ctx, t: Tree, key: Key)
    requires t.Br? && Sorted(Walk(Plug(k, t))) && Less(key, t.e.key)
    ensures AllAbove(After(InLeft(t.id, t.color, t.e, t.right, k)), key)
    ensures Before(InLeft(t.id, t.color, t.e, t.right, k)) == Before(k)
    ensures Plug(InLeft(t.id, t.color, t.e, t.right, k), t.left) == Plug(k, t)
  {
    WalkAround(k, t);
    SortedSplit(Before(k) + Walk(t.left), t.e, Walk(t.right) + After(k));
    AboveWeaken(Walk(t.right) + After(k), key, t.e.key);
    AboveJoin([t.e], Walk(t.right) + After(k), key);
    assert [t.e] + Walk(t.right) + After(k) == [t.e] + (Walk(t.right) + After(k));
    hide Less, Sorted, AllAbove, AllBelow;
  }

  lemma DescendRight(k: Ctx, t: Tree, key: Key)
    requires t.Br? && Sorted(Walk(Plug(k, t))) && Less(t.e.key, key)
    ensures AllBelow(Before(InRight(t.id, t.color, t.e, t.left, k)), key)
    ensures After(InRight(t.id, t.color, t.e, t.left, k)) == After(k)
    ensures Plug(InRight(t.id, t.color, t.e, t.left, k), t.right) == Plug(k, t)
  {
    WalkAround(k, t);
    SortedSplit(Before(k) + Walk(t.left), t.e, Walk(t.right) + After(k));
    BelowWeaken(Before(k) + Walk(t.left), t.e.key, key);
    BelowJoin(Before(k) + Walk(t.left), [t.e], key);
    hide Less, Sorted, AllAbove, AllBelow;
  }

  /** The comparison made before linking agrees with the side on which the search ended. */
  lemma SideOfHole(k: Ctx, key: Key)
    requires AllBelow(Before(k), key) && AllAbove(After(k), key) && !k.Root?
    ensures k.InLeft? <==> Less(key, k.e.key)
  {
    LessTrichotomy(key, k.e.key);
    if k.InLeft? {
      assert After(k)[0] == k.e;
    } else {
      assert Before(k)[|Before(k)| - 1] == k.e;
    }
  }

  lemma {:induction false} CtxDistinctGrows(k: Ctx, inside: set<Ref>, z: Ref)
    requires CtxDistinct(k, inside) && z !in CtxIds(k)
    ensures CtxDistinct(k, inside + {z})
    decreases k
  {
    if !k.Root? {
      CtxDistinctGrows(k.up, {k.id} + Ids(k.sib) + inside, z);
      assert {k.id} + Ids(k.sib) + inside + {z} == {k.id} + Ids(k.sib) + (inside + {z});
    }
  }

  lemma HoleFacts(h: Heap, root: Ref, k: Ctx, tree: Tree, e: Entry)
    requires At(h, root, k, Leaf) && Plug(k, Leaf) == tree && Sorted(Walk(tree))
    requires AllBelow(Before(k), e.key) && AllAbove(After(k), e.key)
    ensures CtxIds(k) == Ids(tree) && Sorted(Before(k) + [e] + After(k))
  {
    IdsPlug(k, Leaf);
    WalkPlug(k, Leaf);
    var a, b := Before(k), After(k);
    assert Walk(tree) == a + b;
    forall i, j | 0 <= i < j < |a|
      ensures Less(a[i].key, a[j].key)
    {
      assert (a + b)[i] == a[i] && (a + b)[j] == a[j];
    }
    forall i, j | 0 <= i < j < |b|
      ensures Less(b[i].key, b[j].key)
    {
      assert (a + b)[|a| + i] == b[i] && (a + b)[|a| + j] == b[j];
    }
    SortedJoin(a, e, b);
  }

  lemma LeafShape(k: Ctx, e: Entry, z: Ref) returns (n: nat)
    requires RedBlack(Plug(k, Leaf))
    ensures InsertInv(k, Br(z, Red, Leaf, e, Leaf), n)
  {
    var m: nat :| Bal(Plug(k, Leaf), m);
    n := UnplugRedBlack(k, Leaf, m);
  }

  lemma NewNode(k: Ctx, z: Ref, e: Entry)
    ensures Walk(Plug(k, Br(z, Red, Leaf, e, Leaf))) == Before(k) + [e] + After(k)
    ensures Ids(Plug(k, Br(z, Red, Leaf, e, Leaf))) == CtxIds(k) + {z}
  {
    var t := Br(z, Red, Leaf, e, Leaf);
    assert Walk(t) == [e];
    assert Ids(t) == {z} + Ids(Leaf) + Ids(Leaf) == {z};
    hide Plug, Walk, Ids;
    WalkPlug(k, t);
    IdsPlug(k, t);
  }

  // ---------- What a deletion does to the dictionary ----------

  lemma MovedEntry(s: seq<Entry>, i: nat)
    requires i + 1 < |s|
    ensures var r := s[..i] + s[i + 1..];
            i < |r| && r[i] == s[i + 1] && Removed(s, i, true) == r[i := s[i + 1].(expire := s[i].expire)]
  {
  }

  /** Exactly what deleting the entry at position i does to the dictionary. */
  lemma DictRemoved(s: seq<Entry>, i: nat, two: bool)
    requires Sorted(s) && i < |s| && (two ==> i + 1 < |s|)
    ensures s[i].key in Dict(s) && Dict(s)[s[i].key] == Item(s[i].value, s[i].expire)
    ensures two ==>
            && s[i + 1].key in Dict(s) && s[i + 1].key != s[i].key
            && Dict(s)[s[i + 1].key] == Item(s[i + 1].value, s[i + 1].expire)
    ensures Dict(Removed(s, i, two)) ==
            if two then (Dict(s) - {s[i].key})[s[i + 1].key := Item(s[i + 1].value, s[i].expire)]
                else Dict(s) - {s[i].key}
  {
    if two {
      assert Less(s[i].key, s[i + 1].key);
    }
    hide Less, Sorted, Dict;
    DictWithout(s, i);
    if two {
      LessTrichotomy(s[i].key, s[i + 1].key);
      hide Removed;
      DictWithout(s, i + 1);
      MovedEntry(s, i);
      DictReplaced(s[..i] + s[i + 1..], i, s[i + 1].(expire := s[i].expire));
    }
  }

  /** The node of the key, found by descending, has two children. */
  predicate Wide(t: Tree, key: Key) {
    match t
    case Leaf => false
    case Br(_, _, l, e, r) =>
      if Less(key, e.key) then Wide(l, key) else if Less(e.key, key) then Wide(r, key) else l.Br? && r.Br?
  }

  /** Descending to the hole decides it. */
  lemma {:induction false} WideDown(k: Ctx, t: Tree, key: Key)
    requires AllBelow(Before(k), key) && AllAbove(After(k), key)
    ensures Wide(Plug(k, t), key) <==> Wide(t, key)
    decreases k
  {
    if !k.Root? {
      UpBounds(k, key);
      LessTrichotomy(key, k.e.key);
      hide Less, AllBelow, AllAbove, Before, After;
      WideDown(k.up, Grow(k, t), key);
    }
  }

  lemma UpBounds(k: Ctx, key: Key)
    requires !k.Root? && AllBelow(Before(k), key) && AllAbove(After(k), key)
    ensures AllBelow(Before(k.up), key) && AllAbove(After(k.up), key)
    ensures if k.InLeft? then Less(key, k.e.key) else Less(k.e.key, key)
  {
    hide Less, Walk;
    if k.InLeft? {
      var s, z := Walk(k.sib), After(k.up);
      assert After(k) == [k.e] + s + z && After(k)[0] == k.e;
      forall i | 0 <= i < |z|
        ensures Less(key, z[i].key)
      {
        assert After(k)[1 + |s| + i] == z[i];
      }
    } else {
      var s, a := Walk(k.sib), Before(k.up);
      assert Before(k) == a + s + [k.e] && Before(k)[|a| + |s|] == k.e;
      forall i | 0 <= i < |a|
        ensures Less(a[i].key, key)
      {
        assert Before(k)[i] == a[i];
      }
    }
  }

  lemma WideFound(k: Ctx, t: Tree)
    requires t.Br? && Sorted(Walk(Plug(k, t)))
    ensures Wide(Plug(k, t), t.e.key) <==> t.left.Br? && t.right.Br?
  {
    WalkAround(k, t);
    SortedSplit(Before(k) + Walk(t.left), t.e, Walk(t.right) + After(k));
    hide Sorted, Walk, Plug, Before, After, Less;
    var l, r := Before(k) + Walk(t.left), Walk(t.right) + After(k);
    forall i | 0 <= i < |Before(k)|
      ensures Less(Before(k)[i].key, t.e.key)
    {
      assert l[i] == Before(k)[i];
    }
    forall i | 0 <= i < |After(k)|
      ensures Less(t.e.key, After(k)[i].key)
    {
      assert r[|Walk(t.right)| + i] == After(k)[i];
    }
    WideDown(k, t, t.e.key);
    LessTrichotomy(t.e.key, t.e.key);
  }

  /** The least key above `key`. */
  ghost predicate IsNext(d: map<Key, Item>, key: Key, next: Key) {
    next in d && Less(key, next) && forall j :: j in d && Less(key, j) ==> j == next || Less(next, j)
  }

  /** What removing `key` does to the dictionary; `moved` is the successor whose expiry time is overwritten. */
  ghost predicate Without(d: map<Key, Item>, key: Key, moved: Option<Key>, r: map<Key, Item>) {
    && key in d
    && match moved
       case None => r == d - {key}
       case Some(k) => IsNext(d, key, k) && r == (d - {key})[k := d[k].(expire := d[key].expire)]
  }

  /** The dictionary after deleting a key: the successor is affected exactly if the key's node has two children. */
  ghost predicate Deleted(t: Tree, key: Key, moved: Option<Key>, r: map<Key, Item>) {
    Without(Dict(Walk(t)), key, moved, r) && (moved.Some? <==> Wide(t, key))
  }

  /**
   Deleting a key keeps every other key's expiry time exactly when the key's node had at most one
   child or its successor expires at the same time; the values always stay.
   */
  lemma ExpiryKeptIff(t: Tree, key: Key, moved: Option<Key>, r: map<Key, Item>)
    requires Deleted(t, key, moved, r)
    ensures var d := Dict(Walk(t));
            (forall j :: j in d && j != key ==> j in r && r[j].expire == d[j].expire)
            <==> (Wide(t, key) ==> forall j :: IsNext(d, key, j) ==> d[j].expire == d[key].expire)
    ensures var d := Dict(Walk(t)); r.Keys == d.Keys - {key} && forall j :: j in r ==> r[j].value == d[j].value
  {
    hide Walk, Dict, Wide, Less;
    var d := Dict(Walk(t));
    if moved.Some? {
      NextIsOther(d, key, moved.value);
      forall j | IsNext(d, key, j)
        ensures j == moved.value
      {
        NextUnique(d, key, j, moved.value);
      }
    }
  }

  lemma DeletedGone(t: Tree, key: Key, moved: Option<Key>, r: map<Key, Item>)
    requires Deleted(t, key, moved, r)
    ensures key !in r
  {
    hide Walk, Dict, Wide, Less;
    if moved.Some? {
      NextIsOther(Dict(Walk(t)), key, moved.value);
    }
  }

  lemma NextIsOther(d: map<Key, Item>, key: Key, next: Key)
    requires IsNext(d, key, next)
    ensures next != key && next in d
  {
    LessTrichotomy(key, next);
  }

  lemma NextUnique(d: map<Key, Item>, key: Key, a: Key, b: Key)
    requires IsNext(d, key, a) && IsNext(d, key, b)
    ensures a == b
  {
    LessTrichotomy(a, b);
  }

  const LOW := Entry([97], [], -1)
  const MIDDLE := Entry([98], [], 50)
  const HIGH := Entry([99], [], -1)

  /** Three keys, the middle one at the root with an expiry time. */
  const THREE := Br(1, Black, Br(2, Red, Leaf, LOW, Leaf), MIDDLE, Br(3, Red, Leaf, HIGH, Leaf))

  lemma ThreeShape()
    ensures RedBlack(THREE) && Walk(THREE) == [LOW, MIDDLE, HIGH]
  {
    var l, r := THREE.left, THREE.right;
    assert Bal(l, 0) && Bal(r, 0) && Bal(THREE, 1);
    assert Walk(l) == [LOW] && Walk(r) == [HIGH];
  }

  lemma ThreeKeys()
    ensures Sorted([LOW, MIDDLE, HIGH]) && Wide(THREE, MIDDLE.key)
  {
    LessTrichotomy(MIDDLE.key, MIDDLE.key);
  }

  /** A three-node tree in which every deletion of the middle key changes the expiry time of another key. */
  lemma DeleteMovesExpiry(moved: Option<Key>, d: map<Key, Item>)
    ensures RedBlack(THREE) && Sorted(Walk(THREE)) && Wide(THREE, MIDDLE.key)
    ensures HIGH.key in Dict(Walk(THREE)) && Dict(Walk(THREE))[HIGH.key].expire == -1
    ensures Deleted(THREE, MIDDLE.key, moved, d) ==> HIGH.key in d && d[HIGH.key].expire == 50
  {
    ThreeShape();
    ThreeKeys();
    var s := [LOW, MIDDLE, HIGH];
    hide Walk, Dict, Wide, Less, Sorted, RedBlack;
    DictRemoved(s, 1, true);
    NextKey(s, 1);
    if Deleted(THREE, MIDDLE.key, moved, d) {
      NextUnique(Dict(s), MIDDLE.key, moved.value, HIGH.key);
    }
  }

  /** In a sorted sequence nothing lies between an entry and the next. */
  lemma NextKey(s: seq<Entry>, i: nat)
    requires Sorted(s) && i + 1 < |s|
    ensures Less(s[i].key, s[i + 1].key)
    ensures forall j :: j in Dict(s) && Less(s[i].key, j) ==> j == s[i + 1].key || Less(s[i + 1].key, j)
  {
    forall j | j in Dict(s) && Less(s[i].key, j)
      ensures j == s[i + 1].key || Less(s[i + 1].key, j)
    {
      DictKeys(s, j);
      var m :| 0 <= m < |s| && s[m].key == j;
      if m <= i {
        LessTrichotomy(s[i].key, j);
      }
    }
  }

  lemma FreedOutside(h: Heap, root: Ref, t: Tree, y: Ref)
    requires At(h, root, Root, t) && y != NIL && y !in Ids(t)
    ensures At(h - {y}, root, Root, t)
  {
    RepFrame(h, h - {y}, t, NIL);
  }

  lemma LeafWalk(k: Ctx)
    ensures Walk(Plug(k, Leaf)) == Before(k) + After(k)
  {
    WalkPlug(k, Leaf);
    assert Before(k) + [] + After(k) == Before(k) + After(k);
  }

  /** The search finds a node exactly when the dictionary has the key, and that node holds its item. */
  lemma FoundIff(k: Ctx, t: Tree, key: Key)
    requires AllBelow(Before(k), key) && AllAbove(After(k), key) && (t.Br? ==> t.e.key == key)
    requires Sorted(Walk(Plug(k, t)))
    ensures key in Dict(Walk(Plug(k, t))) <==> t.Br?
    ensures t.Br? ==> Dict(Walk(Plug(k, t)))[key] == Item(t.e.value, t.e.expire)
  {
    if t.Br? {
      RankInRange(k, t);
      DictWithout(Walk(Plug(k, t)), Rank(k, t));
    } else {
      LeafWalk(k);
      NotInBounds(Before(k), After(k), key);
      DictJoin(Before(k), After(k));
    }
  }

  lemma AllocatedOutside(h: Heap, root: Ref, t: Tree, z: Ref, v: Node)
    requires At(h, root, Root, t) && z !in h && Ids(t) <= h.Keys
    ensures z != NIL && z !in Ids(t) && At(h[z := v], root, Root, t)
  {
    RepFrame(h, h[z := v], t, NIL);
  }

  lemma RewrittenShape(k: Ctx, t: Tree, e: Entry)
    requires t.Br? && RedBlack(Plug(k, t))
    ensures RedBlack(Plug(k, t.(e := e))) && Ids(Plug(k, t.(e := e))) == Ids(Plug(k, t))
  {
    var m: nat :| Bal(Plug(k, t), m);
    var n := UnplugRedBlack(k, t, m);
    assert Bal(t.(e := e), n) && NoRedRed(t.(e := e));
    hide Plug;
    PlugRedBlack(k, t.(e := e), n);
    IdsPlug(k, t);
    IdsPlug(k, t.(e := e));
  }

  lemma UpdateMiddle(a: seq<Entry>, e: Entry, f: Entry, b: seq<Entry>)
    ensures (a + [e] + b)[|a| := f] == a + [f] + b
  {
  }

  lemma RewrittenTree(k: Ctx, t: Tree, e: Entry)
    requires t.Br? && t.e.key == e.key && RedBlack(Plug(k, t)) && Sorted(Walk(Plug(k, t)))
    ensures var r := Plug(k, t.(e := e));
            && RedBlack(r) && Sorted(Walk(r)) && Ids(r) == Ids(Plug(k, t))
            && Dict(Walk(r)) == Dict(Walk(Plug(k, t)))[e.key := Item(e.value, e.expire)]
  {
    hide Plug, Walk, Dict, Sorted, Ids, RedBlack, Before, After;
    var t' := t.(e := e);
    RewrittenShape(k, t, e);
    RankInRange(k, t);
    WalkAround(k, t);
    WalkAround(k, t');
    UpdateMiddle(Before(k) + Walk(t.left), t.e, e, Walk(t.right) + After(k));
    DictReplaced(Walk(Plug(k, t)), Rank(k, t), e);
  }
}
