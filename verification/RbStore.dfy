/**
 How a heap of nodes with parent pointers and one shared sentinel stands for a tree seen from
 one of its nodes, and how single assignments to node fields act on that view.
 */
module RbStore {
  import opened OrderedMap
  import opened RbShape

  datatype Node = Node(color: Color, left: Ref, right: Ref, parent: Ref, e: Entry)

  type Heap = map<Ref, Node>

  /** The subtree t is laid out in the heap below `parent`. */
  ghost predicate Rep(h: Heap, t: Tree, parent: Ref) {
    match t
    case Leaf => true
    case Br(id, c, l, e, r) =>
      id in h && h[id] == Node(c, IdOf(l), IdOf(r), parent, e) && Rep(h, l, id) && Rep(h, r, id)
  }

  /** The frames of k are laid out in the heap around a child called `child`. */
  ghost predicate RepCtx(h: Heap, k: Ctx, child: Ref) {
    match k
    case Root => true
    case InLeft(id, c, e, sib, up) =>
      id in h && h[id] == Node(c, child, IdOf(sib), CtxId(up), e) && Rep(h, sib, id) && RepCtx(h, up, id)
    case InRight(id, c, e, sib, up) =>
      id in h && h[id] == Node(c, IdOf(sib), child, CtxId(up), e) && Rep(h, sib, id) && RepCtx(h, up, id)
  }

  function RootOf(k: Ctx, child: Ref): Ref
    decreases k
  {
    if k.Root? then child else RootOf(k.up, k.id)
  }

  /** The heap, entered at `root`, holds the subtree t in the hole of k. */
  ghost predicate At(h: Heap, root: Ref, k: Ctx, t: Tree) {
    && NIL in h && h[NIL].color == Black
    && root == RootOf(k, IdOf(t))
    && Rep(h, t, CtxId(k)) && RepCtx(h, k, IdOf(t))
    && Distinct(t) && CtxDistinct(k, Ids(t))
  }

  // ---------- What a change elsewhere leaves alone ----------

  lemma {:induction false} RepFrame(h: Heap, h': Heap, t: Tree, parent: Ref)
    requires Rep(h, t, parent)
    requires forall i :: i in Ids(t) && i in h ==> i in h' && h'[i] == h[i]
    ensures Rep(h', t, parent)
    decreases t
  {
    if t.Br? {
      RepFrame(h, h', t.left, t.id);
      RepFrame(h, h', t.right, t.id);
    }
  }

  lemma {:induction false} RepCtxFrame(h: Heap, h': Heap, k: Ctx, child: Ref)
    requires RepCtx(h, k, child)
    requires forall i :: i in CtxIds(k) && i in h ==> i in h' && h'[i] == h[i]
    ensures RepCtx(h', k, child)
    decreases k
  {
    if !k.Root? {
      RepFrame(h, h', k.sib, k.id);
      RepCtxFrame(h, h', k.up, k.id);
    }
  }

  // ---------- Moving the hole ----------

  lemma ZoomOut(h: Heap, root: Ref, k: Ctx, t: Tree)
    requires At(h, root, k, t) && !k.Root?
    ensures At(h, root, k.up, Grow(k, t))
  {
    assert Ids(Grow(k, t)) == {k.id} + Ids(k.sib) + Ids(t);
  }

  lemma ZoomLeft(h: Heap, root: Ref, k: Ctx, t: Tree)
    requires At(h, root, k, t) && t.Br?
    ensures At(h, root, InLeft(t.id, t.color, t.e, t.right, k), t.left)
  {
    assert {t.id} + Ids(t.right) + Ids(t.left) == Ids(t);
  }

  lemma ZoomRight(h: Heap, root: Ref, k: Ctx, t: Tree)
    requires At(h, root, k, t) && t.Br?
    ensures At(h, root, InRight(t.id, t.color, t.e, t.left, k), t.right)
  {
    assert {t.id} + Ids(t.left) + Ids(t.right) == Ids(t);
  }

  lemma {:induction false} ZoomToRoot(h: Heap, root: Ref, k: Ctx, t: Tree)
    requires At(h, root, k, t)
    ensures At(h, root, Root, Plug(k, t))
    decreases k
  {
    if !k.Root? {
      ZoomOut(h, root, k, t);
      ZoomToRoot(h, root, k.up, Grow(k, t));
    }
  }

  /** Facts a pointer program reads off at the hole. */
  lemma Look(h: Heap, root: Ref, k: Ctx, t: Tree)
    requires At(h, root, k, t)
    ensures t.Br? ==> t.id != NIL && t.id in h && h[t.id] == Node(t.color, IdOf(t.left), IdOf(t.right), CtxId(k), t.e)
    ensures NIL in h && h[NIL].color == Black
    ensures !k.Root? ==>
            k.id != NIL && k.id in h && h[k.id].e == k.e && h[k.id].color == k.color && h[k.id].parent == CtxId(k.up)
    ensures k.InLeft? ==> h[k.id].left == IdOf(t) && h[k.id].right == IdOf(k.sib)
    ensures k.InRight? ==> h[k.id].right == IdOf(t) && h[k.id].left == IdOf(k.sib)
    ensures !k.Root? && k.sib.Br? ==> IdOf(k.sib) != IdOf(t)
  {
    if t.Br? {
      assert t.id in Ids(t);
    }
  }

  lemma {:induction false} RootOfCtx(h: Heap, root: Ref, k: Ctx, t: Tree)
    requires At(h, root, k, t)
    ensures k.Root? <==> root == IdOf(t)
    ensures !k.Root? ==> root in CtxIds(k) && root != NIL
    decreases k
  {
    if !k.Root? {
      ZoomOut(h, root, k, t);
      RootOfCtx(h, root, k.up, Grow(k, t));
      CtxDistinctApart(k, Ids(t));
    }
  }

  // ---------- Single assignments ----------

  /** node->color = c at the hole. */
  lemma Recolored(h: Heap, root: Ref, k: Ctx, t: Tree, c: Color)
    requires At(h, root, k, t) && t.Br?
    ensures At(h[t.id := h[t.id].(color := c)], root, k, t.(color := c))
  {
    var h' := h[t.id := h[t.id].(color := c)];
    CtxDistinctApart(k, Ids(t));
    RepFrame(h, h', t.left, t.id);
    RepFrame(h, h', t.right, t.id);
    RepCtxFrame(h, h', k, t.id);
  }

  /** node->key, node->value or node->expire_ms written at the hole. */
  lemma Rewritten(h: Heap, root: Ref, k: Ctx, t: Tree, e: Entry)
    requires At(h, root, k, t) && t.Br?
    ensures At(h[t.id := h[t.id].(e := e)], root, k, t.(e := e))
  {
    var h' := h[t.id := h[t.id].(e := e)];
    CtxDistinctApart(k, Ids(t));
    RepFrame(h, h', t.left, t.id);
    RepFrame(h, h', t.right, t.id);
    RepCtxFrame(h, h', k, t.id);
  }

  /** Writing the parent of a subtree's top node re-roots its layout. */
  lemma Reparented(h: Heap, t: Tree, parent: Ref, p: Ref)
    requires Rep(h, t, parent) && Distinct(t) && t.Br?
    ensures Rep(h[t.id := h[t.id].(parent := p)], t, p)
  {
    var h' := h[t.id := h[t.id].(parent := p)];
    RepFrame(h, h', t.left, t.id);
    RepFrame(h, h', t.right, t.id);
  }

  /** Store the child pointer of k's innermost frame. */
  function SetChild(h: Heap, k: Ctx, child: Ref): Heap
    requires !k.Root? && k.id in h
  {
    if k.InLeft? then h[k.id := h[k.id].(left := child)] else h[k.id := h[k.id].(right := child)]
  }

  lemma ChildSet(h: Heap, k: Ctx, child: Ref, child': Ref, inside: set<Ref>)
    requires RepCtx(h, k, child) && CtxDistinct(k, inside) && !k.Root?
    ensures RepCtx(SetChild(h, k, child'), k, child')
  {
    var h' := SetChild(h, k, child');
    CtxDistinctApart(k.up, {k.id} + Ids(k.sib) + inside);
    RepFrame(h, h', k.sib, k.id);
    RepCtxFrame(h, h', k.up, k.id);
  }
}
