/**
 Red-black trees as values, and the path from a node up to the root.  A tree seen from one of
 its nodes is a context with a subtree in its hole; the fix-up loops move that hole upwards.
 */
module RbShape {
  import opened Common
  import opened OrderedMap

  type Ref = nat

  const NIL: Ref := 0

  datatype Color = Red | Black

  datatype Tree = Leaf | Br(id: Ref, color: Color, left: Tree, e: Entry, right: Tree)

  /** InLeft: the hole is the left child of node id; InRight: it is the right child. */
  datatype Ctx =
    | Root
    | InLeft(id: Ref, color: Color, e: Entry, sib: Tree, up: Ctx)
    | InRight(id: Ref, color: Color, e: Entry, sib: Tree, up: Ctx)

  function IdOf(t: Tree): Ref {
    if t.Leaf? then NIL else t.id
  }

  function ColorOf(t: Tree): Color {
    if t.Leaf? then Black else t.color
  }

  function CtxId(k: Ctx): Ref {
    if k.Root? then NIL else k.id
  }

  function CtxColor(k: Ctx): Color {
    if k.Root? then Black else k.color
  }

  function Grow(k: Ctx, t: Tree): (r: Tree)
    requires !k.Root?
    ensures r.Br? && r.id == k.id
  {
    if k.InLeft? then Br(k.id, k.color, t, k.e, k.sib) else Br(k.id, k.color, k.sib, k.e, t)
  }

  function Plug(k: Ctx, t: Tree): Tree
    decreases k
  {
    if k.Root? then t else Plug(k.up, Grow(k, t))
  }

  function Blacken(t: Tree): Tree {
    if t.Leaf? then t else t.(color := Black)
  }

  // ---------- Contents ----------

  function Walk(t: Tree): seq<Entry> {
    match t
    case Leaf => []
    case Br(_, _, l, e, r) => Walk(l) + [e] + Walk(r)
  }

  function Before(k: Ctx): seq<Entry> {
    match k
    case Root => []
    case InLeft(_, _, _, _, up) => Before(up)
    case InRight(_, _, e, sib, up) => Before(up) + Walk(sib) + [e]
  }

  function After(k: Ctx): seq<Entry> {
    match k
    case Root => []
    case InLeft(_, _, e, sib, up) => [e] + Walk(sib) + After(up)
    case InRight(_, _, _, _, up) => After(up)
  }

  lemma WalkGrow(k: Ctx, t: Tree)
    requires !k.Root?
    ensures Before(k.up) + Walk(Grow(k, t)) + After(k.up) == Before(k) + Walk(t) + After(k)
  {
    var a, z, s, w := Before(k.up), After(k.up), Walk(k.sib), Walk(t);
    assert k.InLeft? ==> a + (w + [k.e] + s) + z == a + w + ([k.e] + s + z);
    assert k.InRight? ==> a + (s + [k.e] + w) + z == (a + s + [k.e]) + w + z;
  }

  lemma {:induction false} WalkPlug(k: Ctx, t: Tree)
    ensures Walk(Plug(k, t)) == Before(k) + Walk(t) + After(k)
    decreases k
  {
    if !k.Root? {
      WalkPlug(k.up, Grow(k, t));
      WalkGrow(k, t);
    }
  }

  lemma Regroup(a: seq<Entry>, b: seq<Entry>, e: Entry, c: seq<Entry>, d: seq<Entry>)
    ensures a + (b + [e] + c) + d == (a + b) + [e] + (c + d)
  {
  }

  /** Around a node, the walk splits into what precedes it, the node, and what follows it. */
  lemma WalkAround(k: Ctx, t: Tree)
    requires t.Br?
    ensures Walk(Plug(k, t)) == (Before(k) + Walk(t.left)) + [t.e] + (Walk(t.right) + After(k))
  {
    WalkPlug(k, t);
    Regroup(Before(k), Walk(t.left), t.e, Walk(t.right), After(k));
  }

  // ---------- Identities ----------

  function Ids(t: Tree): set<Ref> {
    match t
    case Leaf => {}
    case Br(id, _, l, _, r) => {id} + Ids(l) + Ids(r)
  }

  function CtxIds(k: Ctx): set<Ref> {
    match k
    case Root => {}
    case InLeft(id, _, _, sib, up) => {id} + Ids(sib) + CtxIds(up)
    case InRight(id, _, _, sib, up) => {id} + Ids(sib) + CtxIds(up)
  }

  /** No node occurs twice, and none is the sentinel. */
  ghost predicate Distinct(t: Tree) {
    match t
    case Leaf => true
    case Br(id, _, l, _, r) =>
      id != NIL && id !in Ids(l) && id !in Ids(r) && Ids(l) !! Ids(r) && Distinct(l) && Distinct(r)
  }

  ghost predicate CtxDistinct(k: Ctx, inside: set<Ref>) {
    match k
    case Root => true
    case InLeft(id, _, _, sib, up) =>
      id != NIL && id !in inside && id !in Ids(sib) && Ids(sib) !! inside && Distinct(sib)
      && CtxDistinct(up, {id} + Ids(sib) + inside)
    case InRight(id, _, _, sib, up) =>
      id != NIL && id !in inside && id !in Ids(sib) && Ids(sib) !! inside && Distinct(sib)
      && CtxDistinct(up, {id} + Ids(sib) + inside)
  }

  lemma {:induction false} CtxDistinctApart(k: Ctx, inside: set<Ref>)
    requires CtxDistinct(k, inside)
    ensures CtxIds(k) !! inside && NIL !in CtxIds(k)
    decreases k
  {
    if !k.Root? {
      CtxDistinctApart(k.up, {k.id} + Ids(k.sib) + inside);
      DistinctNotNil(k.sib);
    }
  }

  lemma {:induction false} DistinctNotNil(t: Tree)
    requires Distinct(t)
    ensures NIL !in Ids(t)
  {
    if t.Br? {
      DistinctNotNil(t.left);
      DistinctNotNil(t.right);
    }
  }

  lemma {:induction false} IdsPlug(k: Ctx, t: Tree)
    ensures Ids(Plug(k, t)) == CtxIds(k) + Ids(t)
    decreases k
  {
    if !k.Root? {
      IdsPlug(k.up, Grow(k, t));
    }
  }

  // ---------- Balance ----------

  /** Every path from the top of t to a leaf meets exactly n black nodes. */
  predicate Bal(t: Tree, n: nat) {
    match t
    case Leaf => n == 0
    case Br(_, Red, l, _, r) => Bal(l, n) && Bal(r, n)
    case Br(_, Black, l, _, r) => n >= 1 && Bal(l, n - 1) && Bal(r, n - 1)
  }

  /** No red node has a red child. */
  predicate NoRedRed(t: Tree) {
    match t
    case Leaf => true
    case Br(_, c, l, _, r) =>
      (c == Red ==> ColorOf(l) == Black && ColorOf(r) == Black) && NoRedRed(l) && NoRedRed(r)
  }

  /** The context is balanced around a subtree of black height n. */
  predicate CtxBal(k: Ctx, n: nat)
    decreases k
  {
    if k.Root? then true
    else Bal(k.sib, n) && CtxBal(k.up, if k.color == Red then n else n + 1)
  }

  /** Inside the context no red node has a red child, and its root, if any, is black. */
  predicate CtxNoRedRed(k: Ctx)
    decreases k
  {
    if k.Root? then true
    else
      && NoRedRed(k.sib) && CtxNoRedRed(k.up)
      && (k.color == Red ==> ColorOf(k.sib) == Black && !k.up.Root? && k.up.color == Black)
  }

  ghost predicate RedBlack(t: Tree) {
    ColorOf(t) == Black && NoRedRed(t) && exists n: nat :: Bal(t, n)
  }

  lemma {:induction false} PlugRedBlack(k: Ctx, t: Tree, n: nat)
    requires Bal(t, n) && CtxBal(k, n) && NoRedRed(t) && CtxNoRedRed(k)
    requires ColorOf(t) == Red ==> !k.Root? && CtxColor(k) == Black
    ensures RedBlack(Plug(k, t))
    decreases k
  {
    if !k.Root? {
      PlugRedBlack(k.up, Grow(k, t), if k.color == Red then n else n + 1);
    }
  }

  /** The context of any node of a red-black tree. */
  lemma {:induction false} UnplugRedBlack(k: Ctx, t: Tree, m: nat) returns (n: nat)
    requires Bal(Plug(k, t), m) && NoRedRed(Plug(k, t)) && ColorOf(Plug(k, t)) == Black
    ensures Bal(t, n) && CtxBal(k, n) && NoRedRed(t) && CtxNoRedRed(k)
    ensures ColorOf(t) == Red ==> !k.Root? && CtxColor(k) == Black
    decreases k
  {
    if k.Root? {
      n := m;
    } else {
      var p := UnplugRedBlack(k.up, Grow(k, t), m);
      n := if k.color == Red then p else p - 1;
    }
  }

  // ---------- Height ----------

  function Height(t: Tree): nat {
    match t
    case Leaf => 0
    case Br(_, _, l, _, r) => 1 + Max(Height(l), Height(r))
  }

  function Size(t: Tree): nat {
    |Walk(t)|
  }

  function Pow2(n: nat): nat {
    if n == 0 then 1 else 2 * Pow2(n - 1)
  }

  lemma {:induction false} BlackHeightBounds(t: Tree, n: nat)
    requires Bal(t, n) && NoRedRed(t)
    ensures Size(t) + 1 >= Pow2(n)
    ensures Height(t) <= 2 * n + (if ColorOf(t) == Red then 1 else 0)
  {
    if t.Br? {
      var m := if t.color == Red then n else n - 1;
      BlackHeightBounds(t.left, m);
      BlackHeightBounds(t.right, m);
    }
  }

  lemma {:induction false} Pow2Monotone(a: nat, b: nat)
    requires a <= b
    ensures Pow2(a) <= Pow2(b)
    decreases b
  {
    if a < b {
      Pow2Monotone(a, b - 1);
    }
  }

  lemma {:induction false} Pow2Double(n: nat)
    ensures Pow2(2 * n) == Pow2(n) * Pow2(n)
  {
    if n > 0 {
      Pow2Double(n - 1);
      assert Pow2(2 * n) == 2 * (2 * Pow2(2 * (n - 1)));
    }
  }

  lemma SquareMonotone(a: nat, b: nat)
    requires a <= b
    ensures a * a <= b * b
  {
    assert a * a <= a * b <= b * b;
  }

  /** Height at most 2 * log2(size + 1), stated without logarithms. */
  lemma HeightIsLogarithmic(t: Tree)
    requires RedBlack(t)
    ensures Pow2(Height(t)) <= (Size(t) + 1) * (Size(t) + 1)
  {
    var n: nat :| Bal(t, n);
    BlackHeightBounds(t, n);
    Pow2Monotone(Height(t), 2 * n);
    Pow2Double(n);
    SquareMonotone(Pow2(n), Size(t) + 1);
  }
}
