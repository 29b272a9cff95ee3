/**
 The dirty-region compositor of the splash preview: sprites over a black screen, redrawn only
 inside the rectangles of sprites that changed. Pixel blending is a parameter throughout.
 Positions and opacities are reals; whole-pixel positions are truncations of them.
 */
module Compositor {
  import opened Common

  type Pixel = int
  type Texel = int
  type Blend = (Pixel, Texel, real) -> Pixel

  const BLACK: Pixel := 0

  /** An image has a size and a texel at every position inside it. */
  datatype Image = Image(w: nat, h: nat, texel: (int, int) -> Texel)

  /** How a sprite looks; nothing is shown without an image. */
  datatype Look = Look(image: Option<Image>, x: real, y: real, z: real, opacity: real)

  /** Truncation towards zero. */
  function Trunc(r: real): int {
    if r >= 0.0 then r.Floor else -((-r).Floor)
  }

  function Abs(r: real): real {
    if r < 0.0 then -r else r
  }

  /** The nearest whole number towards zero. */
  lemma TruncIs(r: real)
    ensures r >= 0.0 ==> Trunc(r) as real <= r < Trunc(r) as real + 1.0
    ensures r <= 0.0 ==> Trunc(r) as real - 1.0 < r <= Trunc(r) as real
  {
  }

  // ---- the full picture ----

  predicate Covers(l: Look, px: int, py: int) {
    && l.image.Some?
    && Trunc(l.x) <= px < Trunc(l.x) + l.image.value.w
    && Trunc(l.y) <= py < Trunc(l.y) + l.image.value.h
  }

  /** Sprites dimmer than this are skipped. */
  predicate Visible(opacity: real) {
    opacity >= 0.011
  }

  predicate Shows(l: Look, px: int, py: int) {
    Covers(l, px, py) && Visible(l.opacity)
  }

  /** What a sprite over a pixel contributes to it. */
  datatype Layer = Layer(texel: Texel, opacity: real)

  function LayerOf(l: Look, px: int, py: int): Layer
    requires Covers(l, px, py)
  {
    Layer(l.image.value.texel(px - Trunc(l.x), py - Trunc(l.y)), l.opacity)
  }

  /** One sprite drawn over what is below it. */
  function Paint(blend: Blend, below: Pixel, l: Look, px: int, py: int): Pixel {
    if Shows(l, px, py)
    then blend(below, l.image.value.texel(px - Trunc(l.x), py - Trunc(l.y)), l.opacity)
    else below
  }

  function PaintAll(blend: Blend, below: Pixel, ls: seq<Look>, px: int, py: int): Pixel {
    if ls == [] then below else Paint(blend, PaintAll(blend, below, ls[..|ls|-1], px, py), ls[|ls|-1], px, py)
  }

  /** Into a list sorted by depth, after everything not above it. */
  function Insert(ls: seq<Look>, l: Look): seq<Look> {
    if ls == [] then [l]
    else if ls[|ls|-1].z <= l.z then ls + [l]
    else Insert(ls[..|ls|-1], l) + [ls[|ls|-1]]
  }

  /** Stable order by depth. */
  function ZOrder(ls: seq<Look>): seq<Look> {
    if ls == [] then [] else Insert(ZOrder(ls[..|ls|-1]), ls[|ls|-1])
  }

  /** What a pixel should be: every sprite, bottom to top, over black. */
  function Composition(blend: Blend, ls: seq<Look>, px: int, py: int): Pixel {
    PaintAll(blend, BLACK, ZOrder(ls), px, py)
  }

  // ---- the order is a stable sort ----

  predicate Sorted(ls: seq<Look>) {
    forall i, j :: 0 <= i < j < |ls| ==> ls[i].z <= ls[j].z
  }

  predicate AllBelow(ls: seq<Look>, z: real) {
    forall i :: 0 <= i < |ls| ==> ls[i].z <= z
  }

  lemma {:induction false} InsertBelow(ls: seq<Look>, l: Look, z: real)
    requires AllBelow(ls, z) && l.z <= z
    ensures AllBelow(Insert(ls, l), z)
  {
    if ls != [] && l.z < ls[|ls|-1].z {
      InsertBelow(ls[..|ls|-1], l, z);
    }
  }

  lemma {:induction false} InsertSorted(ls: seq<Look>, l: Look)
    requires Sorted(ls)
    ensures Sorted(Insert(ls, l))
  {
    if ls != [] && l.z < ls[|ls|-1].z {
      InsertSorted(ls[..|ls|-1], l);
      InsertBelow(ls[..|ls|-1], l, ls[|ls|-1].z);
    } else {
      assert forall i :: 0 <= i < |ls| ==> ls[i].z <= ls[|ls|-1].z;
    }
  }

  lemma LastCounts(ls: seq<Look>)
    requires ls != []
    ensures multiset(ls) == multiset(ls[..|ls|-1]) + multiset{ls[|ls|-1]}
  {
    assert ls == ls[..|ls|-1] + [ls[|ls|-1]];
  }

  lemma {:induction false} InsertPermutes(ls: seq<Look>, l: Look)
    ensures multiset(Insert(ls, l)) == multiset(ls) + multiset{l}
  {
    if ls != [] && l.z < ls[|ls|-1].z {
      InsertPermutes(ls[..|ls|-1], l);
      LastCounts(ls);
    }
  }

  lemma {:induction false} ZOrderSorted(ls: seq<Look>)
    ensures Sorted(ZOrder(ls))
  {
    if ls != [] {
      ZOrderSorted(ls[..|ls|-1]);
      InsertSorted(ZOrder(ls[..|ls|-1]), ls[|ls|-1]);
    }
  }

  lemma {:induction false} ZOrderPermutes(ls: seq<Look>)
    ensures multiset(ZOrder(ls)) == multiset(ls)
  {
    if ls != [] {
      var init, last := ls[..|ls|-1], ls[|ls|-1];
      ZOrderPermutes(init);
      InsertPermutes(ZOrder(init), last);
      LastCounts(ls);
    }
  }

  /** The sprites of one depth, in list order. */
  function AtDepth(ls: seq<Look>, z: real): seq<Look> {
    if ls == [] then []
    else AtDepth(ls[..|ls|-1], z) + (if ls[|ls|-1].z == z then [ls[|ls|-1]] else [])
  }

  lemma AtDepthAppend(ls: seq<Look>, l: Look, z: real)
    ensures AtDepth(ls + [l], z) == AtDepth(ls, z) + (if l.z == z then [l] else [])
  {
    assert (ls + [l])[..|ls|] == ls;
  }

  /** Of two sprites of different depths at most one is of depth `z`. */
  lemma OneAtDepth(base: seq<Look>, k: Look, l: Look, z: real)
    requires k.z != l.z
    ensures base + (if k.z == z then [k] else []) + (if l.z == z then [l] else [])
         == base + (if l.z == z then [l] else []) + (if k.z == z then [k] else [])
  {
  }

  lemma {:induction false} InsertAtDepth(ls: seq<Look>, l: Look, z: real)
    requires Sorted(ls)
    ensures AtDepth(Insert(ls, l), z) == AtDepth(ls, z) + (if l.z == z then [l] else [])
  {
    if ls == [] || ls[|ls|-1].z <= l.z {
      AtDepthAppend(ls, l, z);
    } else {
      var init, top := ls[..|ls|-1], ls[|ls|-1];
      InsertAtDepth(init, l, z);
      AtDepthAppend(Insert(init, l), top, z);
      OneAtDepth(AtDepth(init, z), l, top, z);
    }
  }

  /** Sprites of equal depth are drawn in the order in which they were added. */
  lemma {:induction false} ZOrderStable(ls: seq<Look>, z: real)
    ensures AtDepth(ZOrder(ls), z) == AtDepth(ls, z)
  {
    if ls != [] {
      ZOrderStable(ls[..|ls|-1], z);
      ZOrderSorted(ls[..|ls|-1]);
      InsertAtDepth(ZOrder(ls[..|ls|-1]), ls[|ls|-1], z);
    }
  }

  /** The sprites that show at one pixel, in list order. */
  function Showing(ls: seq<Look>, px: int, py: int): seq<Look> {
    if ls == [] then []
    else
      var init := Showing(ls[..|ls|-1], px, py);
      if Shows(ls[|ls|-1], px, py) then init + [ls[|ls|-1]] else init
  }

  lemma {:induction false} ShowingBelow(ls: seq<Look>, px: int, py: int, z: real)
    requires AllBelow(ls, z)
    ensures AllBelow(Showing(ls, px, py), z)
  {
    if ls != [] {
      ShowingBelow(ls[..|ls|-1], px, py, z);
    }
  }

  lemma ShowingAppend(ls: seq<Look>, l: Look, px: int, py: int)
    ensures Showing(ls + [l], px, py) == if Shows(l, px, py) then Showing(ls, px, py) + [l] else Showing(ls, px, py)
  {
    assert (ls + [l])[..|ls|] == ls;
  }

  lemma InsertTop(ls: seq<Look>, top: Look, l: Look)
    ensures l.z < top.z ==> Insert(ls + [top], l) == Insert(ls, l) + [top]
    ensures AllBelow(ls, l.z) ==> Insert(ls, l) == ls + [l]
  {
    assert (ls + [top])[..|ls|] == ls;
  }

  /** Sorting and picking out one pixel's sprites commute: this is where stability matters. */
  lemma {:induction false} ShowingInsert(ls: seq<Look>, l: Look, px: int, py: int)
    requires Sorted(ls)
    ensures Showing(Insert(ls, l), px, py) ==
              if Shows(l, px, py) then Insert(Showing(ls, px, py), l) else Showing(ls, px, py)
  {
    if ls == [] || ls[|ls|-1].z <= l.z {
      assert Insert(ls, l) == ls + [l];
      ShowingAppend(ls, l, px, py);
      ShowingBelow(ls, px, py, l.z);
      InsertTop(Showing(ls, px, py), l, l);
    } else {
      var init, top := ls[..|ls|-1], ls[|ls|-1];
      ShowingInsert(init, l, px, py);
      ShowingAppend(Insert(init, l), top, px, py);
      InsertTop(Showing(init, px, py), top, l);
    }
  }

  lemma ZOrderAppend(ls: seq<Look>, l: Look)
    ensures ZOrder(ls + [l]) == Insert(ZOrder(ls), l)
  {
    assert (ls + [l])[..|ls|] == ls;
  }

  lemma {:induction false} ShowingZOrder(ls: seq<Look>, px: int, py: int)
    ensures Showing(ZOrder(ls), px, py) == ZOrder(Showing(ls, px, py))
  {
    if ls != [] {
      var init, last := ls[..|ls|-1], ls[|ls|-1];
      ShowingZOrder(init, px, py);
      ZOrderSorted(init);
      ShowingInsert(ZOrder(init), last, px, py);
      ZOrderAppend(Showing(init, px, py), last);
    }
  }

  lemma PaintAppend(blend: Blend, below: Pixel, ls: seq<Look>, l: Look, px: int, py: int)
    ensures PaintAll(blend, below, ls + [l], px, py) == Paint(blend, PaintAll(blend, below, ls, px, py), l, px, py)
  {
    assert (ls + [l])[..|ls|] == ls;
  }

  // ---- when two lists of sprites make the same pixel ----

  predicate AllCover(ls: seq<Look>, px: int, py: int) {
    forall i :: 0 <= i < |ls| ==> Covers(ls[i], px, py)
  }

  function LayersOf(ls: seq<Look>, px: int, py: int): seq<Layer>
    requires AllCover(ls, px, py)
  {
    seq(|ls|, i requires 0 <= i < |ls| => LayerOf(ls[i], px, py))
  }

  lemma {:induction false} ShowingCovers(ls: seq<Look>, px: int, py: int)
    ensures AllCover(Showing(ls, px, py), px, py)
  {
    if ls != [] {
      ShowingCovers(ls[..|ls|-1], px, py);
    }
  }

  /** The layers a pixel is made of, bottom to top. */
  function Stack(ls: seq<Look>, px: int, py: int): seq<Layer> {
    ShowingCovers(ZOrder(ls), px, py);
    LayersOf(Showing(ZOrder(ls), px, py), px, py)
  }

  function Mix(blend: Blend, layers: seq<Layer>): Pixel {
    if layers == [] then BLACK
    else
      var top := layers[|layers|-1];
      blend(Mix(blend, layers[..|layers|-1]), top.texel, top.opacity)
  }

  lemma {:induction false} PaintIsMix(blend: Blend, ls: seq<Look>, px: int, py: int)
    ensures AllCover(Showing(ls, px, py), px, py)
    ensures PaintAll(blend, BLACK, ls, px, py) == Mix(blend, LayersOf(Showing(ls, px, py), px, py))
  {
    ShowingCovers(ls, px, py);
    if ls != [] {
      var init, top := ls[..|ls|-1], ls[|ls|-1];
      PaintIsMix(blend, init, px, py);
      if Shows(top, px, py) {
        var layers := LayersOf(Showing(ls, px, py), px, py);
        assert layers[..|layers|-1] == LayersOf(Showing(init, px, py), px, py);
      }
    }
  }

  /** A blend that counts how far up a given stack it has come, and is lost once it differs. */
  function Follower(a: seq<Layer>): Blend {
    (below: Pixel, t: Texel, o: real) => if 0 <= below < |a| && a[below] == Layer(t, o) then below + 1 else -1
  }

  lemma {:induction false} Followed(a: seq<Layer>, b: seq<Layer>)
    ensures Mix(Follower(a), b) == if b <= a then |b| else -1
  {
    if b != [] {
      var init, top := b[..|b|-1], b[|b|-1];
      Followed(a, init);
      assert b == init + [top];
      assert b <= a <==> init <= a && |init| < |a| && a[|init|] == top;
    }
  }

  /** Two lists of sprites make the same pixel whatever blending does exactly when their stacks agree. */
  lemma CompositionDecided(ls: seq<Look>, ms: seq<Look>, px: int, py: int)
    ensures (forall blend: Blend :: Composition(blend, ls, px, py) == Composition(blend, ms, px, py))
            <==> Stack(ls, px, py) == Stack(ms, px, py)
  {
    var a, b := Stack(ls, px, py), Stack(ms, px, py);
    forall blend: Blend
      ensures Composition(blend, ls, px, py) == Mix(blend, a) && Composition(blend, ms, px, py) == Mix(blend, b)
    {
      PaintIsMix(blend, ZOrder(ls), px, py);
      PaintIsMix(blend, ZOrder(ms), px, py);
    }
    if forall blend: Blend :: Composition(blend, ls, px, py) == Composition(blend, ms, px, py) {
      var telling := Follower(a);
      assert Composition(telling, ls, px, py) == Composition(telling, ms, px, py);
      Followed(a, a);
      Followed(a, b);
    }
  }

  lemma SameShowing(ls: seq<Look>, ms: seq<Look>, px: int, py: int)
    requires Showing(ls, px, py) == Showing(ms, px, py)
    ensures Stack(ls, px, py) == Stack(ms, px, py)
  {
    ShowingZOrder(ls, px, py);
    ShowingZOrder(ms, px, py);
  }

  /** One sprite alone: inside its image's rectangle, and at least 0.011 opaque, its texel over black. */
  lemma LoneSprite(blend: Blend, l: Look, px: int, py: int)
    ensures Composition(blend, [l], px, py) ==
              if l.image.Some? && 0 <= px - Trunc(l.x) < l.image.value.w && 0 <= py - Trunc(l.y) < l.image.value.h
                 && l.opacity >= 0.011
              then blend(0, l.image.value.texel(px - Trunc(l.x), py - Trunc(l.y)), l.opacity) else 0
  {
    assert [] + [l] == [l];
    ZOrderAppend([], l);
    PaintAppend(blend, BLACK, [], l, px, py);
  }

  /** Two over one pixel: the deeper one first, and of equals the one added first. */
  lemma TwoSpritesDrawn(blend: Blend, k: Look, l: Look, px: int, py: int)
    requires Shows(k, px, py) && Shows(l, px, py)
    ensures var a, b := LayerOf(k, px, py), LayerOf(l, px, py);
            Composition(blend, [k, l], px, py) ==
              if k.z <= l.z then blend(blend(0, a.texel, a.opacity), b.texel, b.opacity)
              else blend(blend(0, b.texel, b.opacity), a.texel, a.opacity)
  {
    assert [] + [k] == [k] && [k] + [l] == [k, l] && [l] + [k] == [l, k] && [] + [l] == [l];
    ZOrderAppend([], k);
    ZOrderAppend([k], l);
    assert [k][..0] == [];
    PaintAppend(blend, BLACK, [], k, px, py);
    PaintAppend(blend, BLACK, [], l, px, py);
    PaintAppend(blend, BLACK, [k], l, px, py);
    PaintAppend(blend, BLACK, [l], k, px, py);
  }

  // ---- sprite by sprite ----

  ghost predicate AgreeAt(a: Look, b: Look, px: int, py: int) {
    a == b || (!Shows(a, px, py) && !Shows(b, px, py))
  }

  ghost predicate AllAgree(ls: seq<Look>, ms: seq<Look>, px: int, py: int)
    requires |ls| == |ms|
  {
    forall i :: 0 <= i < |ls| ==> AgreeAt(ls[i], ms[i], px, py)
  }

  lemma {:induction false} ShowingAgree(ls: seq<Look>, ms: seq<Look>, px: int, py: int)
    requires |ls| == |ms| && AllAgree(ls, ms, px, py)
    ensures Showing(ls, px, py) == Showing(ms, px, py)
  {
    if ls != [] {
      ShowingAgree(ls[..|ls|-1], ms[..|ms|-1], px, py);
      assert AgreeAt(ls[|ls|-1], ms[|ms|-1], px, py);
    }
  }

  /** `b` is `a` with another opacity. */
  ghost predicate Dimmed(a: Look, b: Look) {
    b == a.(opacity := b.opacity)
  }

  ghost predicate AllDimmed(ls: seq<Look>, ms: seq<Look>) {
    |ls| == |ms| && forall i :: 0 <= i < |ls| ==> Dimmed(ls[i], ms[i])
  }

  /** Opacity does not matter to the order, and the order can be undone. */
  lemma {:induction false} InsertDimmed(ls: seq<Look>, l: Look, ms: seq<Look>, m: Look)
    requires AllDimmed(ls, ms) && Dimmed(l, m)
    ensures AllDimmed(Insert(ls, l), Insert(ms, m))
    ensures Insert(ls, l) == Insert(ms, m) ==> ls == ms && l == m
  {
    if ls != [] {
      var top, top' := ls[|ls|-1], ms[|ms|-1];
      assert Dimmed(top, top');
      if l.z < top.z {
        InsertDimmed(ls[..|ls|-1], l, ms[..|ms|-1], m);
        LastApart(Insert(ls[..|ls|-1], l), top, Insert(ms[..|ms|-1], m), top');
        LastApart(ls[..|ls|-1], top, ms[..|ms|-1], top');
        assert ls == ls[..|ls|-1] + [top] && ms == ms[..|ms|-1] + [top'];
      } else {
        LastApart(ls, l, ms, m);
      }
    }
  }

  lemma LastApart(ls: seq<Look>, l: Look, ms: seq<Look>, m: Look)
    ensures ls + [l] == ms + [m] <==> ls == ms && l == m
  {
    if ls + [l] == ms + [m] {
      assert ls == (ls + [l])[..|ls|] && ms == (ms + [m])[..|ms|];
      assert (ls + [l])[|ls|] == (ms + [m])[|ms|];
    }
  }

  lemma {:induction false} ZOrderDimmed(ls: seq<Look>, ms: seq<Look>)
    requires AllDimmed(ls, ms)
    ensures AllDimmed(ZOrder(ls), ZOrder(ms))
    ensures ZOrder(ls) == ZOrder(ms) ==> ls == ms
  {
    if ls != [] {
      var init, init' := ls[..|ls|-1], ms[..|ms|-1];
      ZOrderDimmed(init, init');
      InsertDimmed(ZOrder(init), ls[|ls|-1], ZOrder(init'), ms[|ms|-1]);
      assert ls == init + [ls[|ls|-1]] && ms == init' + [ms[|ms|-1]];
    }
  }

  /** `b` shows only where `a` does, and then as `a` but for the opacity. */
  ghost predicate Fades(a: Look, b: Look, px: int, py: int) {
    Shows(b, px, py) ==> Shows(a, px, py) && Dimmed(a, b)
  }

  ghost predicate AllFade(ls: seq<Look>, ms: seq<Look>, px: int, py: int)
    requires |ls| == |ms|
  {
    forall i :: 0 <= i < |ls| ==> Fades(ls[i], ms[i], px, py)
  }

  /** If nothing new shows, fewer sprites show or the same ones do, at other opacities. */
  lemma {:induction false} FadedShowing(ls: seq<Look>, ms: seq<Look>, px: int, py: int)
    requires |ls| == |ms| && AllFade(ls, ms, px, py)
    ensures |Showing(ms, px, py)| <= |Showing(ls, px, py)|
    ensures |Showing(ms, px, py)| == |Showing(ls, px, py)| ==> AllDimmed(Showing(ls, px, py), Showing(ms, px, py))
    ensures Showing(ms, px, py) == Showing(ls, px, py) ==> AllAgree(ls, ms, px, py)
  {
    if ls != [] {
      var init, init' := ls[..|ls|-1], ms[..|ms|-1];
      var l, m := ls[|ls|-1], ms[|ms|-1];
      FadedShowing(init, init', px, py);
      assert Fades(l, m, px, py);
      LastApart(Showing(init, px, py), l, Showing(init', px, py), m);
      if Showing(ms, px, py) == Showing(ls, px, py) {
        forall i | 0 <= i < |ls| ensures AgreeAt(ls[i], ms[i], px, py) {
          assert i < |ls| - 1 ==> AgreeAt(init[i], init'[i], px, py);
        }
      }
    }
  }

  /** Two coverings of one pixel, the second dimmed, have the same layers only if they are the same. */
  lemma DimmedLayers(ls: seq<Look>, ms: seq<Look>, px: int, py: int)
    requires AllDimmed(ls, ms) && AllCover(ls, px, py) && AllCover(ms, px, py)
    requires LayersOf(ls, px, py) == LayersOf(ms, px, py)
    ensures ls == ms
  {
    forall i | 0 <= i < |ls| ensures ls[i] == ms[i] {
      assert Dimmed(ls[i], ms[i]);
      assert LayersOf(ls, px, py)[i] == LayersOf(ms, px, py)[i];
    }
  }

  /** If nothing new shows at a pixel, its stack stays the same exactly when no sprite showing there changed. */
  lemma FadedStack(ls: seq<Look>, ms: seq<Look>, px: int, py: int)
    requires |ls| == |ms| && AllFade(ls, ms, px, py)
    ensures Stack(ls, px, py) == Stack(ms, px, py) <==> AllAgree(ls, ms, px, py)
  {
    if AllAgree(ls, ms, px, py) {
      ShowingAgree(ls, ms, px, py);
      SameShowing(ls, ms, px, py);
    }
    if Stack(ls, px, py) == Stack(ms, px, py) {
      var a, b := Showing(ls, px, py), Showing(ms, px, py);
      ShowingZOrder(ls, px, py);
      ShowingZOrder(ms, px, py);
      ZOrderLength(a);
      ZOrderLength(b);
      assert |Stack(ls, px, py)| == |Stack(ms, px, py)|;
      FadedShowing(ls, ms, px, py);
      ZOrderDimmed(a, b);
      ShowingCovers(ZOrder(ls), px, py);
      ShowingCovers(ZOrder(ms), px, py);
      DimmedLayers(ZOrder(a), ZOrder(b), px, py);
    }
  }

  lemma ZOrderLength(ls: seq<Look>)
    ensures |ZOrder(ls)| == |ls|
  {
    ZOrderPermutes(ls);
    assert |multiset(ZOrder(ls))| == |multiset(ls)|;
  }

  // ---- sprites and their dirty rectangles ----

  /** A sprite as it was last drawn: position, size and opacity. */
  datatype Drawn = Drawn(x: real, y: real, z: real, w: nat, h: nat, opacity: real)

  datatype Sprite = Sprite(
    image: Option<Image>, x: real, y: real, z: real, opacity: real,
    last: Option<Drawn>, refreshMe: bool)

  datatype Rect = Rect(x0: int, y0: int, x1: int, y1: int)

  predicate InRect(r: Rect, px: int, py: int) {
    r.x0 <= px < r.x1 && r.y0 <= py < r.y1
  }

  function NewSprite(image: Option<Image>): Sprite {
    Sprite(image, 0.0, 0.0, 0.0, 1.0, None, image.Some?)
  }

  function LookOf(s: Sprite): Look {
    Look(s.image, s.x, s.y, s.z, s.opacity)
  }

  function Looks(ss: seq<Sprite>): seq<Look> {
    seq(|ss|, i requires 0 <= i < |ss| => LookOf(ss[i]))
  }

  /** The redraw test. */
  predicate Changed(s: Sprite) {
    && s.image.Some?
    && (|| s.last.None? || s.x != s.last.value.x || s.y != s.last.value.y || s.z != s.last.value.z
        || Abs(s.last.value.opacity - s.opacity) > 0.01 || s.refreshMe)
  }

  function RectAt(x: real, y: real, w: nat, h: nat): Rect {
    Rect(Trunc(x), Trunc(y), Trunc(x) + w, Trunc(y) + h)
  }

  function DirtyRects(s: Sprite): seq<Rect> {
    if !Changed(s) then []
    else
      [RectAt(s.x, s.y, s.image.value.w, s.image.value.h)]
      + (if s.last.Some? then [RectAt(s.last.value.x, s.last.value.y, s.last.value.w, s.last.value.h)] else [])
  }

  function AllDirty(ss: seq<Sprite>): seq<Rect> {
    if ss == [] then [] else AllDirty(ss[..|ss|-1]) + DirtyRects(ss[|ss|-1])
  }

  predicate Touched(rects: seq<Rect>, px: int, py: int) {
    exists k :: 0 <= k < |rects| && InRect(rects[k], px, py)
  }

  function Settle(s: Sprite): Sprite {
    if Changed(s)
    then s.(last := Some(Drawn(s.x, s.y, s.z, s.image.value.w, s.image.value.h, s.opacity)), refreshMe := false)
    else s
  }

  function SettleAll(ss: seq<Sprite>): seq<Sprite> {
    seq(|ss|, i requires 0 <= i < |ss| => Settle(ss[i]))
  }

  // ---- a screen over time ----

  /** The calls a script makes; one about a sprite that does not exist changes nothing. */
  datatype Op =
    | Add(image: Option<Image>)
    | SetImage(i: nat, image: Option<Image>)
    | SetPosition(i: nat, x: real, y: real, z: real)
    | SetOpacity(i: nat, opacity: real)
    | Refresh

  function Step(ss: seq<Sprite>, op: Op): seq<Sprite> {
    match op
    case Add(image) => ss + [NewSprite(image)]
    case SetImage(i, image) => if i < |ss| then ss[i := ss[i].(image := image, refreshMe := true)] else ss
    case SetPosition(i, x, y, z) => if i < |ss| then ss[i := ss[i].(x := x, y := y, z := z)] else ss
    case SetOpacity(i, o) => if i < |ss| then ss[i := ss[i].(opacity := o)] else ss
    case Refresh => SettleAll(ss)
  }

  /** The sprites after a run. */
  function After(ops: seq<Op>): seq<Sprite> {
    if ops == [] then [] else Step(After(ops[..|ops|-1]), ops[|ops|-1])
  }

  /** Whether a refresh after a run redraws a pixel. */
  predicate Redrawn(ops: seq<Op>, px: int, py: int) {
    Touched(AllDirty(After(ops)), px, py)
  }

  /** The full picture of the sprites after a run. */
  function Picture(blend: Blend, ops: seq<Op>, px: int, py: int): Pixel {
    Composition(blend, Looks(After(ops)), px, py)
  }

  /** What the frame buffer holds after a run: a refresh redraws dirty pixels and leaves the others. */
  function FrameAt(blend: Blend, ops: seq<Op>, px: int, py: int): Pixel {
    if ops == [] then BLACK
    else
      var init := ops[..|ops|-1];
      if ops[|ops|-1].Refresh? && Redrawn(init, px, py) then Picture(blend, init, px, py)
      else FrameAt(blend, init, px, py)
  }

  const UNSEEN := Look(None, 0.0, 0.0, 0.0, 1.0)

  /** What one call does to how each sprite looked when a pixel was last redrawn. */
  function Reshown(ss: seq<Sprite>, vs: seq<Look>, op: Op, px: int, py: int): (ws: seq<Look>)
    requires |vs| == |ss|
    ensures |ws| == |Step(ss, op)|
  {
    match op
    case Add(_) => vs + [UNSEEN]
    case Refresh => if Touched(AllDirty(ss), px, py) then Looks(ss) else vs
    case _ => vs
  }

  /** How each sprite looked when a pixel was last redrawn. */
  function Shown(ops: seq<Op>, px: int, py: int): (ls: seq<Look>)
    ensures |ls| == |After(ops)|
  {
    if ops == [] then []
    else Reshown(After(ops[..|ops|-1]), Shown(ops[..|ops|-1], px, py), ops[|ops|-1], px, py)
  }

  /** In every run each pixel is the full picture of the sprites as they were when it was last redrawn. */
  lemma {:induction false} FrameIsShown(blend: Blend, ops: seq<Op>, px: int, py: int)
    ensures FrameAt(blend, ops, px, py) == Composition(blend, Shown(ops, px, py), px, py)
  {
    if ops != [] {
      var init := ops[..|ops|-1];
      FrameIsShown(blend, init, px, py);
      if ops[|ops|-1].Add? {
        ShowingAppend(Shown(init, px, py), UNSEEN, px, py);
        SameShowing(Shown(init, px, py), Shown(ops, px, py), px, py);
        CompositionDecided(Shown(init, px, py), Shown(ops, px, py), px, py);
      }
    }
  }

  /** One more refresh leaves the full picture at a pixel, whatever blending does. */
  ghost predicate RefreshedRight(ops: seq<Op>, px: int, py: int) {
    forall blend: Blend :: FrameAt(blend, ops + [Refresh], px, py) == Picture(blend, ops, px, py)
  }

  lemma OneRefresh(blend: Blend, ops: seq<Op>, px: int, py: int)
    ensures FrameAt(blend, ops + [Refresh], px, py) ==
              if Redrawn(ops, px, py) then Picture(blend, ops, px, py) else FrameAt(blend, ops, px, py)
  {
    assert (ops + [Refresh])[..|ops|] == ops;
  }

  /** Exactly when incremental redraw agrees with full redraw, after any run. */
  lemma RefreshExact(ops: seq<Op>, px: int, py: int)
    ensures RefreshedRight(ops, px, py) <==>
              Redrawn(ops, px, py) || Stack(Shown(ops, px, py), px, py) == Stack(Looks(After(ops)), px, py)
  {
    forall blend: Blend
      ensures FrameAt(blend, ops + [Refresh], px, py) ==
                if Redrawn(ops, px, py) then Picture(blend, ops, px, py)
                else Composition(blend, Shown(ops, px, py), px, py)
    {
      OneRefresh(blend, ops, px, py);
      FrameIsShown(blend, ops, px, py);
    }
    var shown, now := Shown(ops, px, py), Looks(After(ops));
    CompositionDecided(shown, now, px, py);
    if RefreshedRight(ops, px, py) && !Redrawn(ops, px, py) {
      forall blend: Blend ensures Composition(blend, shown, px, py) == Composition(blend, now, px, py) {
        assert FrameAt(blend, ops + [Refresh], px, py) == Picture(blend, ops, px, py);
      }
    }
  }

  // ---- what can make the stacks differ ----

  function LastRect(d: Drawn): Rect {
    RectAt(d.x, d.y, d.w, d.h)
  }

  /** What a sprite remembers of its last drawing fits its image until that is replaced. */
  predicate SpriteOk(s: Sprite) {
    s.last.Some? && !s.refreshMe ==>
      s.image.Some? && s.image.value.w == s.last.value.w && s.image.value.h == s.last.value.h
  }

  /** How a sprite is related to how it looked when the pixel was last redrawn. */
  ghost predicate Tracks(s: Sprite, v: Look, px: int, py: int) {
    && SpriteOk(s)
    && (Covers(v, px, py) ==>
          && s.last.Some? && InRect(LastRect(s.last.value), px, py)
          && v.x == s.last.value.x && v.y == s.last.value.y && v.z == s.last.value.z
          && Abs(s.last.value.opacity - v.opacity) <= 0.01
          && (!s.refreshMe ==> s.image == v.image))
    && (s.last.Some? && !s.refreshMe && InRect(LastRect(s.last.value), px, py) ==> Covers(v, px, py))
  }

  ghost predicate AllTrack(ss: seq<Sprite>, vs: seq<Look>, px: int, py: int) {
    |ss| == |vs| && forall i :: 0 <= i < |ss| ==> Tracks(ss[i], vs[i], px, py)
  }

  lemma TouchedAppend(rects: seq<Rect>, more: seq<Rect>, px: int, py: int)
    ensures Touched(rects, px, py) || Touched(more, px, py) ==> Touched(rects + more, px, py)
  {
    var all := rects + more;
    if Touched(rects, px, py) {
      var k :| 0 <= k < |rects| && InRect(rects[k], px, py);
      assert all[k] == rects[k];
    }
    if Touched(more, px, py) {
      var k :| 0 <= k < |more| && InRect(more[k], px, py);
      assert all[|rects| + k] == more[k];
    }
  }

  lemma {:induction false} DirtyOf(ss: seq<Sprite>, i: nat, r: Rect, px: int, py: int)
    requires i < |ss| && r in DirtyRects(ss[i]) && InRect(r, px, py)
    ensures Touched(AllDirty(ss), px, py)
    decreases |ss|
  {
    if i < |ss| - 1 {
      DirtyOf(ss[..|ss|-1], i, r, px, py);
    }
    TouchedAppend(AllDirty(ss[..|ss|-1]), DirtyRects(ss[|ss|-1]), px, py);
  }

  /** At an untouched pixel a changed sprite shows neither as it is nor as it was. */
  lemma UntouchedRects(ss: seq<Sprite>, i: nat, px: int, py: int)
    requires i < |ss| && Changed(ss[i]) && !Touched(AllDirty(ss), px, py)
    ensures !Covers(LookOf(ss[i]), px, py)
    ensures ss[i].last.Some? ==> !InRect(LastRect(ss[i].last.value), px, py)
  {
    var rects := DirtyRects(ss[i]);
    if InRect(rects[0], px, py) {
      DirtyOf(ss, i, rects[0], px, py);
    }
    if ss[i].last.Some? && InRect(rects[1], px, py) {
      DirtyOf(ss, i, rects[1], px, py);
    }
  }

  lemma TouchedTracks(s: Sprite, px: int, py: int)
    requires SpriteOk(s)
    ensures Tracks(Settle(s), LookOf(s), px, py)
  {
  }

  lemma UntouchedTracks(ss: seq<Sprite>, i: nat, v: Look, px: int, py: int)
    requires i < |ss| && Tracks(ss[i], v, px, py) && !Touched(AllDirty(ss), px, py)
    ensures Tracks(Settle(ss[i]), v, px, py)
  {
    if Changed(ss[i]) {
      UntouchedRects(ss, i, px, py);
    }
  }

  lemma StepTracks(ss: seq<Sprite>, vs: seq<Look>, op: Op, px: int, py: int)
    requires AllTrack(ss, vs, px, py)
    ensures AllTrack(Step(ss, op), Reshown(ss, vs, op, px, py), px, py)
  {
    var tt, ws := Step(ss, op), Reshown(ss, vs, op, px, py);
    forall i | 0 <= i < |tt| ensures Tracks(tt[i], ws[i], px, py) {
      assert i < |ss| ==> Tracks(ss[i], vs[i], px, py);
      if op.Refresh? {
        if Touched(AllDirty(ss), px, py) {
          TouchedTracks(ss[i], px, py);
        } else {
          UntouchedTracks(ss, i, vs[i], px, py);
        }
      }
    }
  }

  lemma {:induction false} RunTracks(ops: seq<Op>, px: int, py: int)
    ensures AllTrack(After(ops), Shown(ops, px, py), px, py)
  {
    if ops != [] {
      RunTracks(ops[..|ops|-1], px, py);
      StepTracks(After(ops[..|ops|-1]), Shown(ops[..|ops|-1], px, py), ops[|ops|-1], px, py);
    }
  }

  /** A drawn sprite has since lost its image, or its opacity has crept by at most two hundredths. */
  ghost predicate DriftOrLoss(v: Look, now: Look) {
    now.image.None? || (Dimmed(v, now) && Abs(now.opacity - v.opacity) <= 0.02)
  }

  /**
   After any run, at a pixel a refresh does not redraw, a sprite covered it at its last redraw
   unless it does not cover it now, and has then only drifted or lost its image.
   */
  lemma OnlyDriftOrLoss(ops: seq<Op>, i: nat, px: int, py: int)
    requires i < |After(ops)| && !Redrawn(ops, px, py)
    ensures var v, now := Shown(ops, px, py)[i], LookOf(After(ops)[i]);
            && (Covers(now, px, py) ==> Covers(v, px, py))
            && (Covers(v, px, py) ==> DriftOrLoss(v, now))
  {
    RunTracks(ops, px, py);
    var s, v := After(ops)[i], Shown(ops, px, py)[i];
    assert Tracks(s, v, px, py);
    if Changed(s) {
      UntouchedRects(After(ops), i, px, py);
    }
  }

  /** No sprite that shows in `ms` was out of sight in `ls`. */
  ghost predicate NoneAppears(ls: seq<Look>, ms: seq<Look>, px: int, py: int)
    requires |ls| == |ms|
  {
    forall i :: 0 <= i < |ls| && Shows(ms[i], px, py) ==> Shows(ls[i], px, py)
  }

  /**
   The condition on sprites: at a pixel that is not redrawn, unless one sprite has come into sight
   there and another has gone out of it, a refresh is right exactly when each sprite shows as it
   did or shows neither then nor now.
   */
  lemma RefreshExactBySprite(ops: seq<Op>, px: int, py: int)
    requires !Redrawn(ops, px, py)
    requires var vs, ms := Shown(ops, px, py), Looks(After(ops));
             NoneAppears(vs, ms, px, py) || NoneAppears(ms, vs, px, py)
    ensures RefreshedRight(ops, px, py) <==> AllAgree(Shown(ops, px, py), Looks(After(ops)), px, py)
  {
    var vs, ms := Shown(ops, px, py), Looks(After(ops));
    RefreshExact(ops, px, py);
    forall i | 0 <= i < |vs|
      ensures Shows(ms[i], px, py) && Shows(vs[i], px, py) ==> Dimmed(vs[i], ms[i]) && Dimmed(ms[i], vs[i])
    {
      OnlyDriftOrLoss(ops, i, px, py);
    }
    if NoneAppears(vs, ms, px, py) {
      assert AllFade(vs, ms, px, py);
      FadedStack(vs, ms, px, py);
    } else {
      assert AllFade(ms, vs, px, py);
      FadedStack(ms, vs, px, py);
      AgreeEitherWay(vs, ms, px, py);
    }
  }

  lemma AgreeEitherWay(ls: seq<Look>, ms: seq<Look>, px: int, py: int)
    requires |ls| == |ms|
    ensures AllAgree(ls, ms, px, py) <==> AllAgree(ms, ls, px, py)
  {
    forall i | 0 <= i < |ls| ensures AgreeAt(ls[i], ms[i], px, py) <==> AgreeAt(ms[i], ls[i], px, py) {
    }
  }

  /** Whatever comes into sight, it is enough that each sprite agrees with itself. */
  lemma AgreeingSpritesSuffice(ops: seq<Op>, px: int, py: int)
    requires Redrawn(ops, px, py) || AllAgree(Shown(ops, px, py), Looks(After(ops)), px, py)
    ensures RefreshedRight(ops, px, py)
  {
    RefreshExact(ops, px, py);
    if !Redrawn(ops, px, py) {
      ShowingAgree(Shown(ops, px, py), Looks(After(ops)), px, py);
      SameShowing(Shown(ops, px, py), Looks(After(ops)), px, py);
    }
  }

  // ---- a bargain a script can keep ----

  /** Two opacities that look the same to the compositor. */
  predicate SameShade(a: real, b: real) {
    a == b || (!Visible(a) && !Visible(b))
  }

  /** Nothing visible has drifted unnoticed since its sprite was drawn or been taken away. */
  predicate Settled(s: Sprite) {
    s.last.Some? && !Changed(s) ==>
      if s.image.Some? then SameShade(s.opacity, s.last.value.opacity) else !Visible(s.last.value.opacity)
  }

  ghost predicate AllSettled(ss: seq<Sprite>) {
    forall i :: 0 <= i < |ss| ==> Settled(ss[i])
  }

  /** Every refresh of the run found the sprites settled. */
  ghost predicate AlwaysSettled(ops: seq<Op>) {
    ops != [] ==>
      && AlwaysSettled(ops[..|ops|-1])
      && (ops[|ops|-1].Refresh? ==> AllSettled(After(ops[..|ops|-1])))
  }

  /** How a sprite was seen where the pixel was last redrawn is how it was last drawn. */
  ghost predicate ShadeKept(s: Sprite, v: Look, px: int, py: int) {
    Covers(v, px, py) && s.last.Some? ==> SameShade(v.opacity, s.last.value.opacity)
  }

  lemma RefreshShade(ss: seq<Sprite>, i: nat, v: Look, px: int, py: int)
    requires i < |ss| && Tracks(ss[i], v, px, py) && Settled(ss[i]) && ShadeKept(ss[i], v, px, py)
    ensures ShadeKept(Settle(ss[i]), if Touched(AllDirty(ss), px, py) then LookOf(ss[i]) else v, px, py)
  {
    if !Touched(AllDirty(ss), px, py) && Changed(ss[i]) {
      UntouchedRects(ss, i, px, py);
    }
  }

  lemma {:induction false} SettledShade(ops: seq<Op>, i: nat, px: int, py: int)
    requires AlwaysSettled(ops) && i < |After(ops)|
    ensures ShadeKept(After(ops)[i], Shown(ops, px, py)[i], px, py)
  {
    if ops != [] {
      var init, op := ops[..|ops|-1], ops[|ops|-1];
      if i < |After(init)| {
        SettledShade(init, i, px, py);
        RunTracks(init, px, py);
        assert Tracks(After(init)[i], Shown(init, px, py)[i], px, py);
        if op.Refresh? {
          RefreshShade(After(init), i, Shown(init, px, py)[i], px, py);
        }
      }
    }
  }

  /** While it is kept, every refresh shows exactly the full composition everywhere. */
  lemma EveryRefreshIsComplete(ops: seq<Op>, px: int, py: int)
    requires AlwaysSettled(ops + [Refresh])
    ensures RefreshedRight(ops, px, py)
  {
    assert (ops + [Refresh])[..|ops|] == ops;
    if !Redrawn(ops, px, py) {
      var vs, ms := Shown(ops, px, py), Looks(After(ops));
      forall i | 0 <= i < |vs| ensures AgreeAt(vs[i], ms[i], px, py) {
        OnlyDriftOrLoss(ops, i, px, py);
        SettledShade(ops, i, px, py);
        RunTracks(ops, px, py);
        assert Settled(After(ops)[i]) && Tracks(After(ops)[i], vs[i], px, py);
        if Changed(After(ops)[i]) {
          UntouchedRects(After(ops), i, px, py);
        }
      }
    }
    AgreeingSpritesSuffice(ops, px, py);
  }

  // ---- runs that end in a wrong pixel, and one that does not ----

  const DOT := Image(1, 1, (x: int, y: int) => 0)

  function Dot(opacity: real): Look {
    Look(Some(DOT), 0.0, 0.0, 0.0, opacity)
  }

  function DrawnDot(opacity: real): Sprite {
    Sprite(Some(DOT), 0.0, 0.0, 0.0, opacity, Some(Drawn(0.0, 0.0, 0.0, 1, 1, opacity)), false)
  }

  /** A dot added at some opacity and drawn. */
  function DotDrawn(opacity: real): seq<Op> {
    [Add(Some(DOT)), SetOpacity(0, opacity), Refresh]
  }

  lemma AfterOp(ops: seq<Op>, op: Op)
    ensures After(ops + [op]) == Step(After(ops), op)
    ensures forall px, py :: !op.Refresh? && !op.Add? ==> Shown(ops + [op], px, py) == Shown(ops, px, py)
    ensures forall px, py :: op.Refresh? && Redrawn(ops, px, py) ==> Shown(ops + [op], px, py) == Looks(After(ops))
  {
    assert (ops + [op])[..|ops|] == ops;
  }

  lemma OneDirty(s: Sprite)
    ensures AllDirty([s]) == DirtyRects(s)
  {
    assert [s][..0] == [];
  }

  lemma DotIsDrawn(o: real)
    ensures After(DotDrawn(o)) == [DrawnDot(o)]
    ensures Shown(DotDrawn(o), 0, 0) == [Dot(o)]
  {
    var added, dimmed := [Add(Some(DOT))], [Add(Some(DOT)), SetOpacity(0, o)];
    assert [] + [Add(Some(DOT))] == added && added + [SetOpacity(0, o)] == dimmed && dimmed + [Refresh] == DotDrawn(o);
    AfterOp([], Add(Some(DOT)));
    AfterOp(added, SetOpacity(0, o));
    var s := NewSprite(Some(DOT)).(opacity := o);
    assert After(dimmed) == [s];
    OneDirty(s);
    assert InRect(DirtyRects(s)[0], 0, 0);
    assert Redrawn(dimmed, 0, 0);
    AfterOp(dimmed, Refresh);
    assert Looks([s]) == [Dot(o)];
  }

  lemma OneLayer(l: Look, px: int, py: int)
    ensures Stack([l], px, py) == if Shows(l, px, py) then [LayerOf(l, px, py)] else []
  {
    assert [] + [l] == [l];
    ZOrderAppend([], l);
    assert ZOrder([l]) == [l];
    ShowingAppend([], l, px, py);
  }

  lemma OneSprite(ops: seq<Op>, s: Sprite, v: Look)
    requires After(ops) == [s] && Shown(ops, 0, 0) == [v]
    ensures RefreshedRight(ops, 0, 0) <==>
              || Touched(DirtyRects(s), 0, 0)
              || (!Shows(v, 0, 0) && !Shows(LookOf(s), 0, 0))
              || (Shows(v, 0, 0) && Shows(LookOf(s), 0, 0) && LayerOf(v, 0, 0) == LayerOf(LookOf(s), 0, 0))
  {
    OneDirty(s);
    assert Looks([s]) == [LookOf(s)];
    RefreshExact(ops, 0, 0);
    OneLayer(v, 0, 0);
    OneLayer(LookOf(s), 0, 0);
  }

  /** A drift of at most a hundredth is missed exactly when it can be seen, and a larger one never. */
  lemma DriftIsNotRedrawn(o: real, o': real)
    ensures RefreshedRight(DotDrawn(o) + [SetOpacity(0, o')], 0, 0) <==>
              o - o' > 0.01 || o' - o > 0.01 || o == o' || (o < 0.011 && o' < 0.011)
  {
    DotIsDrawn(o);
    AfterOp(DotDrawn(o), SetOpacity(0, o'));
    var s := DrawnDot(o).(opacity := o');
    if Abs(o - o') > 0.01 {
      assert InRect(DirtyRects(s)[0], 0, 0);
    }
    OneSprite(DotDrawn(o) + [SetOpacity(0, o')], s, Dot(o));
  }

  /** A sprite whose image is taken away stays on the screen exactly when it could be seen. */
  lemma LossIsNotRedrawn(o: real)
    ensures RefreshedRight(DotDrawn(o) + [SetImage(0, None)], 0, 0) <==> o < 0.011
  {
    DotIsDrawn(o);
    AfterOp(DotDrawn(o), SetImage(0, None));
    OneSprite(DotDrawn(o) + [SetImage(0, None)], DrawnDot(o).(image := None, refreshMe := true), Dot(o));
  }

  /** A dot at the edge of sight and a second one, just out of it, drawn under it. */
  function TwoDots(): seq<Op> {
    [Add(Some(DOT)), Add(Some(DOT)), SetOpacity(0, 0.011), SetOpacity(1, 0.005), Refresh]
  }

  /** The first is taken away and the second drifts to where it was. */
  function Trade(): seq<Op> {
    TwoDots() + [SetImage(0, None)] + [SetOpacity(1, 0.011)]
  }

  lemma TwoDotsAreAdded()
    ensures After(TwoDots()[..4]) == [NewSprite(Some(DOT)).(opacity := 0.011), NewSprite(Some(DOT)).(opacity := 0.005)]
  {
    var ops := TwoDots();
    assert [] + [ops[0]] == ops[..1] && ops[..1] + [ops[1]] == ops[..2] && ops[..2] + [ops[2]] == ops[..3]
        && ops[..3] + [ops[3]] == ops[..4];
    AfterOp([], ops[0]);
    AfterOp(ops[..1], ops[1]);
    AfterOp(ops[..2], ops[2]);
    AfterOp(ops[..3], ops[3]);
  }

  lemma TwoDotsAreDrawn()
    ensures After(TwoDots()) == [DrawnDot(0.011), DrawnDot(0.005)]
    ensures Shown(TwoDots(), 0, 0) == [Dot(0.011), Dot(0.005)]
  {
    var ops := TwoDots()[..4];
    assert ops + [Refresh] == TwoDots();
    TwoDotsAreAdded();
    var ss := After(ops);
    assert DirtyRects(ss[0]) == [RectAt(0.0, 0.0, 1, 1)];
    DirtyOf(ss, 0, DirtyRects(ss[0])[0], 0, 0);
    AfterOp(ops, Refresh);
    assert Looks(ss) == [Dot(0.011), Dot(0.005)];
  }

  lemma AfterTrade()
    ensures After(Trade()) == [DrawnDot(0.011).(image := None, refreshMe := true), DrawnDot(0.005).(opacity := 0.011)]
    ensures Shown(Trade(), 0, 0) == [Dot(0.011), Dot(0.005)]
  {
    TwoDotsAreDrawn();
    AfterOp(TwoDots(), SetImage(0, None));
    AfterOp(TwoDots() + [SetImage(0, None)], SetOpacity(1, 0.011));
  }

  lemma TwoShowing(a: Look, b: Look)
    ensures Showing([a, b], 0, 0) == (if Shows(a, 0, 0) then [a] else []) + (if Shows(b, 0, 0) then [b] else [])
  {
    assert [] + [a] == [a] && [a] + [b] == [a, b];
    ShowingAppend([], a, 0, 0);
    ShowingAppend([a], b, 0, 0);
  }

  lemma TwoClean(s: Sprite, t: Sprite)
    requires !Changed(s) && !Changed(t)
    ensures AllDirty([s, t]) == []
  {
    assert [s, t][..1] == [s];
    OneDirty(s);
  }

  lemma TradedStack(gone: Look)
    requires gone.image.None?
    ensures Stack([Dot(0.011), Dot(0.005)], 0, 0) == Stack([gone, Dot(0.011)], 0, 0)
  {
    TwoShowing(Dot(0.011), Dot(0.005));
    TwoShowing(gone, Dot(0.011));
    SameShowing([Dot(0.011), Dot(0.005)], [gone, Dot(0.011)], 0, 0);
  }

  lemma TwoSprites(ops: seq<Op>, s: Sprite, t: Sprite, v: Look, w: Look)
    requires After(ops) == [s, t] && Shown(ops, 0, 0) == [v, w] && !Changed(s) && !Changed(t)
    requires Stack([v, w], 0, 0) == Stack([LookOf(s), LookOf(t)], 0, 0)
    ensures !Redrawn(ops, 0, 0) && RefreshedRight(ops, 0, 0)
    ensures v != LookOf(s) && Shows(v, 0, 0) ==> !AllAgree(Shown(ops, 0, 0), Looks(After(ops)), 0, 0)
  {
    TwoClean(s, t);
    assert Looks([s, t]) == [LookOf(s), LookOf(t)];
    RefreshExact(ops, 0, 0);
    assert Shown(ops, 0, 0)[0] == v && Looks(After(ops))[0] == LookOf(s);
  }

  /** When one sprite comes into sight and another goes, the pixel can be right by coincidence. */
  lemma TradeCanGoUnnoticed()
    ensures !Redrawn(Trade(), 0, 0) && RefreshedRight(Trade(), 0, 0)
    ensures !AllAgree(Shown(Trade(), 0, 0), Looks(After(Trade())), 0, 0)
  {
    AfterTrade();
    var s, t := DrawnDot(0.011).(image := None, refreshMe := true), DrawnDot(0.005).(opacity := 0.011);
    TradedStack(LookOf(s));
    TwoSprites(Trade(), s, t, Dot(0.011), Dot(0.005));
  }

  // ---- the screen as it is updated in place ----

  function Max(a: int, b: int): int { if a < b then b else a }
  function Min(a: int, b: int): int { if a < b then a else b }

  /** `ops` is history: the calls made so far. */
  class Screen {
    const w: nat
    const h: nat
    const blend: Blend
    const fb: array2<Pixel>
    var sprites: seq<Sprite>
    ghost var ops: seq<Op>

    predicate Sized() {
      fb.Length0 == h && fb.Length1 == w
    }

    /** Sprites and pixels are those of the run so far. */
    ghost predicate Valid()
      reads this, fb
    {
      && Sized()
      && sprites == After(ops)
      && forall px, py :: OnScreen(px, py) ==> fb[py, px] == FrameAt(blend, ops, px, py)
    }

    constructor (w: nat, h: nat, blend: Blend)
      ensures Valid() && fresh(fb) && ops == [] && this.w == w && this.h == h && this.blend == blend
    {
      this.w, this.h, this.blend := w, h, blend;
      fb := new Pixel[h, w]((i, j) => BLACK);
      sprites, ops := [], [];
    }

    /** A call that changes sprites leaves every pixel of the run alone. */
    ghost method Record(op: Op)
      requires Sized() && sprites == Step(After(ops), op)
      requires forall px, py :: OnScreen(px, py) ==> fb[py, px] == FrameAt(blend, ops, px, py)
      requires !op.Refresh?
      modifies this`ops
      ensures Valid() && ops == old(ops) + [op]
    {
      assert (ops + [op])[..|ops|] == ops;
      ops := ops + [op];
    }

    method AddSprite(image: Option<Image>) returns (i: nat)
      requires Valid()
      modifies this
      ensures Valid() && ops == old(ops) + [Add(image)]
      ensures i < |sprites| && sprites[..i] == old(sprites)
      ensures sprites[i] == Sprite(image, 0.0, 0.0, 0.0, 1.0, None, image.Some?)
    {
      i := |sprites|;
      sprites := sprites + [Sprite(image, 0.0, 0.0, 0.0, 1.0, None, image.Some?)];
      Record(Add(image));
    }

    method ChangeImage(i: nat, image: Option<Image>)
      requires Valid() && i < |sprites|
      modifies this
      ensures Valid() && ops == old(ops) + [SetImage(i, image)]
    {
      sprites := sprites[i := sprites[i].(image := image, refreshMe := true)];
      Record(SetImage(i, image));
    }

    method ChangePosition(i: nat, x: real, y: real, z: real)
      requires Valid() && i < |sprites|
      modifies this
      ensures Valid() && ops == old(ops) + [SetPosition(i, x, y, z)]
    {
      sprites := sprites[i := sprites[i].(x := x, y := y, z := z)];
      Record(SetPosition(i, x, y, z));
    }

    method ChangeOpacity(i: nat, opacity: real)
      requires Valid() && i < |sprites|
      modifies this
      ensures Valid() && ops == old(ops) + [SetOpacity(i, opacity)]
    {
      sprites := sprites[i := sprites[i].(opacity := opacity)];
      Record(SetOpacity(i, opacity));
    }

    predicate OnScreen(px: int, py: int) {
      0 <= px < w && 0 <= py < h
    }

    /** Blend one image into the part of the frame buffer a clip rectangle leaves it. */
    method BlendInto(image: Image, x0: int, y0: int, opacity: real, clip: Rect)
      requires Sized() && 0 <= clip.x0 && clip.x1 <= w && 0 <= clip.y0 && clip.y1 <= h
      modifies fb
      ensures forall px, py :: OnScreen(px, py) ==>
                fb[py, px] ==
                  if InRect(clip, px, py) && InRect(Rect(x0, y0, x0 + image.w, y0 + image.h), px, py)
                  then blend(old(fb[py, px]), image.texel(px - x0, py - y0), opacity)
                  else old(fb[py, px])
    {
      var left, top := Max(x0, clip.x0), Max(y0, clip.y0);
      var right, bottom := Min(x0 + image.w, clip.x1), Min(y0 + image.h, clip.y1);
      if left >= right || top >= bottom { return; }
      forall py, px | top <= py < bottom && left <= px < right {
        fb[py, px] := blend(fb[py, px], image.texel(px - x0, py - y0), opacity);
      }
    }

    method DrawSprite(s: Look, clip: Rect)
      requires Sized() && 0 <= clip.x0 && clip.x1 <= w && 0 <= clip.y0 && clip.y1 <= h
      modifies fb
      ensures forall px, py :: OnScreen(px, py) ==>
                fb[py, px] == if InRect(clip, px, py) then Paint(blend, old(fb[py, px]), s, px, py) else old(fb[py, px])
    {
      if s.image.None? || s.opacity < 0.011 { return; }
      BlendInto(s.image.value, Trunc(s.x), Trunc(s.y), s.opacity, clip);
    }

    /** Clear a rectangle and draw everything into it, bottom to top. */
    method DrawRect(r: Rect, order: seq<Look>)
      requires Sized()
      modifies fb
      ensures forall px, py :: OnScreen(px, py) ==>
                fb[py, px] == if InRect(r, px, py) then PaintAll(blend, BLACK, order, px, py) else old(fb[py, px])
    {
      var clip := Rect(Max(r.x0, 0), Max(r.y0, 0), Min(r.x1, w), Min(r.y1, h));
      if clip.x0 >= clip.x1 || clip.y0 >= clip.y1 { return; }
      forall py, px | clip.y0 <= py < clip.y1 && clip.x0 <= px < clip.x1 {
        fb[py, px] := BLACK;
      }
      for k := 0 to |order|
        invariant forall px, py :: OnScreen(px, py) ==>
                    fb[py, px] == if InRect(clip, px, py) then PaintAll(blend, BLACK, order[..k], px, py)
                                  else old(fb[py, px])
      {
        ghost var lower, upper := order[..k], order[..k + 1];
        assert upper == lower + [order[k]];
        forall px, py
          ensures PaintAll(blend, BLACK, upper, px, py) ==
                    Paint(blend, PaintAll(blend, BLACK, lower, px, py), order[k], px, py)
        {
          PaintAppend(blend, BLACK, lower, order[k], px, py);
        }
        DrawSprite(order[k], clip);
      }
      assert order[..|order|] == order;
    }

    /** Collect the dirty rectangles and remember what is about to be drawn. */
    method CollectDirty() returns (rects: seq<Rect>)
      modifies this`sprites
      ensures rects == AllDirty(old(sprites)) && sprites == SettleAll(old(sprites))
    {
      rects := [];
      ghost var was := sprites;
      for i := 0 to |sprites|
        invariant |sprites| == |was| && rects == AllDirty(was[..i])
        invariant forall k :: 0 <= k < i ==> sprites[k] == Settle(was[k])
        invariant forall k :: i <= k < |was| ==> sprites[k] == was[k]
      {
        var s := sprites[i];
        assert was[..i + 1][..i] == was[..i];
        if Changed(s) {
          rects := rects + DirtyRects(s);
          sprites := sprites[i := Settle(s)];
        }
      }
      assert was[..|was|] == was;
      assert sprites == SettleAll(was);
    }

    /** Redraw the dirty rectangles one after the other. */
    method DrawDirty(rects: seq<Rect>, order: seq<Look>)
      requires Sized()
      modifies fb
      ensures forall px, py :: OnScreen(px, py) ==>
                fb[py, px] == if Touched(rects, px, py) then PaintAll(blend, BLACK, order, px, py) else old(fb[py, px])
    {
      for k := 0 to |rects|
        invariant forall px, py :: OnScreen(px, py) ==>
                    fb[py, px] == if Touched(rects[..k], px, py) then PaintAll(blend, BLACK, order, px, py)
                                  else old(fb[py, px])
      {
        forall px, py
          ensures Touched(rects[..k + 1], px, py) <==> Touched(rects[..k], px, py) || InRect(rects[k], px, py)
        {
          TouchedMore(rects, k, px, py);
        }
        DrawRect(rects[k], order);
      }
      assert rects[..|rects|] == rects;
    }

    method RefreshScreen() returns (n: nat)
      requires Valid()
      modifies this, fb
      ensures Valid() && ops == old(ops) + [Refresh]
      ensures n == |AllDirty(old(sprites))| && sprites == SettleAll(old(sprites))
      ensures forall px, py :: OnScreen(px, py) ==>
                fb[py, px] == if Touched(AllDirty(old(sprites)), px, py)
                              then Composition(blend, Looks(old(sprites)), px, py)
                              else old(fb[py, px])
    {
      ghost var was := sprites;
      var rects := CollectDirty();
      assert Looks(sprites) == Looks(was);
      DrawDirty(rects, ZOrder(Looks(sprites)));
      n := |rects|;
      ghost var before := ops;
      ops := before + [Refresh];
      AfterOp(before, Refresh);
      forall px, py | OnScreen(px, py) ensures fb[py, px] == FrameAt(blend, ops, px, py) {
        OneRefresh(blend, before, px, py);
      }
    }
  }

  lemma TouchedMore(rects: seq<Rect>, k: nat, px: int, py: int)
    requires k < |rects|
    ensures Touched(rects[..k + 1], px, py) <==> Touched(rects[..k], px, py) || InRect(rects[k], px, py)
  {
    var more, less := rects[..k + 1], rects[..k];
    assert more[k] == rects[k];
    if Touched(less, px, py) {
      var i :| 0 <= i < |less| && InRect(less[i], px, py);
      assert more[i] == less[i];
    }
    if Touched(more, px, py) {
      var i :| 0 <= i < |more| && InRect(more[i], px, py);
      assert i < k ==> less[i] == more[i];
    }
  }
}
