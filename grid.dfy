/**
 * The dashboard grid of the client-side item stores: size clamping,
 * rectangle collision, the row-major first-fit search for a free cell, and
 * the id-keyed updates of the `apps` and `widgets` lists.
 *
 * Grid items are 6 columns wide (`x + w <= 6`) and the search looks at the
 * first 50 rows. A widget whose `dim` has been overwritten with `undefined`
 * is an item with `dim == None`. Reading `dim.w` of it throws a TypeError,
 * so a search that reaches such an item, or is asked to place an undefined
 * size, throws instead of returning a spot.
 */
module Grid {
  import opened Common
  import opened AppSchema

  const Columns := 6
  const Rows := 50

  datatype Kind = AppItem | WidgetItem

  /**
   * An entry of the `apps` or `widgets` store. `title` holds an app's `name`;
   * `widgetType` and `color` are the fields `addWidget` defaults, the first
   * from the draft's `type` key.
   */
  datatype Item = Item(
    id: string, kind: Kind, title: string, widgetType: string, color: string,
    pos: Point, dim: Option<Dimensions>, visible: bool)
  {
    /** The part of a sized item that `collide` reads. */
    function Footprint(): Box
      requires dim.Some?
    {
      Box(pos, dim.value)
    }
  }

  /** A placed rectangle of defined size. */
  datatype Box = Box(pos: Point, dim: Dimensions)

  function Max(a: int, b: int): int { if a < b then b else a }
  function Min(a: int, b: int): int { if a < b then a else b }

  /** `clampSize` on integers (`Math.round` is the identity there). */
  function ClampSize(n: int): (r: int)
    ensures MinSize <= r <= MaxSize
    ensures MinSize <= n <= MaxSize ==> r == n
    ensures n < MinSize ==> r == MinSize
    ensures n > MaxSize ==> r == MaxSize
  {
    Max(MinSize, Min(MaxSize, n))
  }

  /** `v || 1` for a numeric side: the falsy 0 becomes 1. */
  function OrOne(v: int): int {
    if v == 0 then 1 else v
  }

  /** `normalizeDim({kind, dim})`. */
  function NormalizeDim(kind: Kind, dim: Option<Dimensions>): (r: Dimensions)
    ensures ValidDimensions(r)
    ensures kind == AppItem || dim.None? ==> r == Dimensions(1, 1)
    ensures kind == WidgetItem && dim.Some? && ValidDimensions(dim.value) ==> r == dim.value
    ensures kind == WidgetItem && dim.Some? && dim.value.w == 0 ==> r.w == 1
    ensures kind == WidgetItem && dim.Some? && dim.value.h == 0 ==> r.h == 1
    ensures kind == WidgetItem && dim.Some? ==>
      && (dim.value.w < MinSize ==> r.w == MinSize)
      && (dim.value.w > MaxSize ==> r.w == MaxSize)
      && (MinSize <= dim.value.w <= MaxSize ==> r.w == dim.value.w)
      && (dim.value.h < MinSize ==> r.h == MinSize)
      && (dim.value.h > MaxSize ==> r.h == MaxSize)
      && (MinSize <= dim.value.h <= MaxSize ==> r.h == dim.value.h)
  {
    if kind == AppItem then Dimensions(1, 1)
    else
      var w := if dim.Some? then dim.value.w else 0;
      var h := if dim.Some? then dim.value.h else 0;
      Dimensions(ClampSize(OrOne(w)), ClampSize(OrOne(h)))
  }

  /**
   * `collide(a, b)` on two sized boxes: the negation of "one lies entirely
   * left of or above the other".
   */
  predicate Collide(a: Box, b: Box) {
    !(|| a.pos.x + a.dim.w <= b.pos.x
      || b.pos.x + b.dim.w <= a.pos.x
      || a.pos.y + a.dim.h <= b.pos.y
      || b.pos.y + b.dim.h <= a.pos.y)
  }

  lemma CollideSymmetric(a: Box, b: Box)
    ensures Collide(a, b) == Collide(b, a)
  {
  }

  /** Boxes that only share a vertical edge do not collide. */
  lemma TouchingEdgesDoNotCollide(a: Box, b: Box)
    requires a.pos.x + a.dim.w == b.pos.x
    ensures !Collide(a, b) && !Collide(b, a)
  {
  }

  /** For valid sizes, colliding is exactly a positive-area intersection. */
  lemma CollideIffPositiveArea(a: Box, b: Box)
    requires ValidDimensions(a.dim) && ValidDimensions(b.dim)
    ensures Collide(a, b) <==>
      && Max(a.pos.x, b.pos.x) < Min(a.pos.x + a.dim.w, b.pos.x + b.dim.w)
      && Max(a.pos.y, b.pos.y) < Min(a.pos.y + a.dim.h, b.pos.y + b.dim.h)
  {
  }

  // ----- items.some(item => collide(candidate, item)) -----

  /**
   * The outcome of `items.some(item => collide(candidate, item))`: `some`
   * stops at the first item the candidate hits, and an item of undefined
   * size that it reaches first throws a TypeError.
   */
  datatype Probe = Hit | Clear | Fault

  function ProbeItems(items: seq<Item>, c: Box): Probe {
    if |items| == 0 then Clear
    else if items[0].dim.None? then Fault
    else if Collide(c, items[0].Footprint()) then Hit
    else ProbeItems(items[1..], c)
  }

  /** The first `k` items are sized and miss the candidate. */
  predicate Passes(items: seq<Item>, c: Box, k: int)
    requires 0 <= k <= |items|
  {
    forall j | 0 <= j < k :: items[j].dim.Some? && !Collide(c, items[j].Footprint())
  }

  lemma PassesShift(items: seq<Item>, c: Box, k: int)
    requires 0 <= k < |items|
    ensures Passes(items, c, k + 1) <==>
      items[0].dim.Some? && !Collide(c, items[0].Footprint()) && Passes(items[1..], c, k)
  {
    if items[0].dim.Some? && !Collide(c, items[0].Footprint()) && Passes(items[1..], c, k) {
      forall j | 0 <= j < k + 1
        ensures items[j].dim.Some? && !Collide(c, items[j].Footprint())
      {
        if j > 0 {
          assert items[j] == items[1..][j - 1];
        }
      }
    }
    if Passes(items, c, k + 1) {
      forall j | 0 <= j < k
        ensures items[1..][j].dim.Some? && !Collide(c, items[1..][j].Footprint())
      {
        assert items[1..][j] == items[j + 1];
      }
    }
  }

  /**
   * The scan answers `Clear` exactly when every item is sized and missed,
   * `Fault` exactly when an unsized item comes before any hit, and `Hit`
   * exactly when a sized item is hit before any unsized one.
   */
  lemma {:induction false} ProbeMeaning(items: seq<Item>, c: Box)
    ensures ProbeItems(items, c).Clear? <==> Passes(items, c, |items|)
    ensures ProbeItems(items, c).Fault? <==>
      exists k | 0 <= k < |items| :: items[k].dim.None? && Passes(items, c, k)
    ensures ProbeItems(items, c).Hit? <==>
      exists k | 0 <= k < |items| :: items[k].dim.Some? && Collide(c, items[k].Footprint()) && Passes(items, c, k)
    decreases |items|
  {
    if |items| > 0 {
      var t := items[1..];
      assert Passes(items, c, 0);
      if items[0].dim.Some? && !Collide(c, items[0].Footprint()) {
        ProbeMeaning(t, c);
        PassesShift(items, c, |t|);
        assert t[..] == t;
        // an index of the tail is the next index of the list
        forall k | 0 <= k < |t|
          ensures (items[k + 1].dim.None? && Passes(items, c, k + 1)) <==> (t[k].dim.None? && Passes(t, c, k))
          ensures (items[k + 1].dim.Some? && Collide(c, items[k + 1].Footprint()) && Passes(items, c, k + 1))
            <==> (t[k].dim.Some? && Collide(c, t[k].Footprint()) && Passes(t, c, k))
        {
          PassesShift(items, c, k);
        }
        if ProbeItems(t, c).Fault? {
          var k :| 0 <= k < |t| && t[k].dim.None? && Passes(t, c, k);
          assert items[k + 1].dim.None? && Passes(items, c, k + 1);
        }
        if ProbeItems(t, c).Hit? {
          var k :| 0 <= k < |t| && t[k].dim.Some? && Collide(c, t[k].Footprint()) && Passes(t, c, k);
          assert items[k + 1].dim.Some? && Collide(c, items[k + 1].Footprint()) && Passes(items, c, k + 1);
        }
        if exists k | 0 <= k < |items| :: items[k].dim.None? && Passes(items, c, k) {
          var k :| 0 <= k < |items| && items[k].dim.None? && Passes(items, c, k);
          assert k != 0;
          assert t[k - 1].dim.None? && Passes(t, c, k - 1);
        }
        if exists k | 0 <= k < |items| :: items[k].dim.Some? && Collide(c, items[k].Footprint()) && Passes(items, c, k) {
          var k :| 0 <= k < |items| && items[k].dim.Some? && Collide(c, items[k].Footprint()) && Passes(items, c, k);
          assert k != 0;
          assert t[k - 1].dim.Some? && Collide(c, t[k - 1].Footprint()) && Passes(t, c, k - 1);
        }
      } else {
        assert !Passes(items, c, |items|);
        forall k | 0 < k < |items|
          ensures !Passes(items, c, k)
        {
        }
        if items[0].dim.None? {
          assert items[0].dim.None? && Passes(items, c, 0);
        } else {
          assert items[0].dim.Some? && Collide(c, items[0].Footprint()) && Passes(items, c, 0);
        }
      }
    }
  }

  /** Every item has a defined size. */
  predicate AllSized(items: seq<Item>) {
    forall i | 0 <= i < |items| :: items[i].dim.Some?
  }

  /** Over sized items the scan never throws. */
  lemma SizedNeverFaults(items: seq<Item>, c: Box)
    ensures AllSized(items) ==> !ProbeItems(items, c).Fault?
  {
    ProbeMeaning(items, c);
  }

  // ----- findFreeSpot -----

  /** The candidate at `p` is clear of every item, each of which is sized. */
  predicate Free(items: seq<Item>, p: Point, dim: Dimensions) {
    Passes(items, Box(p, dim), |items|)
  }

  /** The scan for the candidate at `p` stops on a hit. */
  predicate Blocked(items: seq<Item>, p: Point, dim: Dimensions) {
    ProbeItems(items, Box(p, dim)).Hit?
  }

  /** The scan for the candidate at `p` throws. */
  predicate Throws(items: seq<Item>, p: Point, dim: Dimensions) {
    ProbeItems(items, Box(p, dim)).Fault?
  }

  /** `p` is one of the origins the two loops visit. */
  predicate InSearch(p: Point, dim: Dimensions) {
    0 <= p.y < Rows && 0 <= p.x <= Columns - dim.w
  }

  /** Row-major order: `a` is visited before `b`. */
  predicate Before(a: Point, b: Point) {
    a.y < b.y || (a.y == b.y && a.x < b.x)
  }

  /** How a run of the loops ends: a clear spot, no spot at all, or a throw. */
  datatype Search = Found(spot: Point) | Exhausted | Threw

  /** The inner loop from column `x` on, in row `y`. */
  function SearchRow(items: seq<Item>, dim: Dimensions, y: int, x: int): (r: Search)
    requires 0 <= x
    decreases Columns - dim.w - x + 1
    ensures r.Found? ==> r.spot.y == y && x <= r.spot.x <= Columns - dim.w
  {
    if x > Columns - dim.w then Exhausted
    else match ProbeItems(items, Box(Point(x, y), dim))
      case Clear => Found(Point(x, y))
      case Fault => Threw
      case Hit => SearchRow(items, dim, y, x + 1)
  }

  /**
   * A spot the inner loop finds lies in the row, within `0..6-w`, is clear,
   * and every earlier column of the row is blocked; running out means every
   * column in range is blocked; a throw comes from a column whose scan
   * throws, after blocked ones.
   */
  lemma {:induction false} SearchRowSound(items: seq<Item>, dim: Dimensions, y: int, x: int)
    requires 0 <= x
    decreases Columns - dim.w - x + 1
    ensures var r := SearchRow(items, dim, y, x);
      && (r.Found? ==> && r.spot.y == y && x <= r.spot.x <= Columns - dim.w
                       && ProbeItems(items, Box(r.spot, dim)).Clear?
                       && forall x' | x <= x' < r.spot.x :: Blocked(items, Point(x', y), dim))
      && (r.Exhausted? ==> forall x' | x <= x' <= Columns - dim.w :: Blocked(items, Point(x', y), dim))
      && (r.Threw? ==> exists x' | x <= x' <= Columns - dim.w ::
                         && Throws(items, Point(x', y), dim)
                         && forall x'' | x <= x'' < x' :: Blocked(items, Point(x'', y), dim))
  {
    if x <= Columns - dim.w {
      var probe := ProbeItems(items, Box(Point(x, y), dim));
      if probe.Hit? {
        SearchRowSound(items, dim, y, x + 1);
        var r := SearchRow(items, dim, y, x + 1);
        if r.Threw? {
          var x' :| x + 1 <= x' <= Columns - dim.w && Throws(items, Point(x', y), dim)
                    && forall x'' | x + 1 <= x'' < x' :: Blocked(items, Point(x'', y), dim);
          assert forall x'' | x <= x'' < x' :: Blocked(items, Point(x'', y), dim);
        }
      } else if probe.Fault? {
        assert Throws(items, Point(x, y), dim);
      }
    }
  }

  /** The outer loop from row `y` on. */
  function SearchFrom(items: seq<Item>, dim: Dimensions, y: int): (r: Search)
    requires 0 <= y
    decreases Rows - y
    ensures r.Found? ==> InSearch(r.spot, dim) && y <= r.spot.y
  {
    if y >= Rows then Exhausted
    else
      var row := SearchRow(items, dim, y, 0);
      if row.Exhausted? then SearchFrom(items, dim, y + 1) else row
  }

  /**
   * A spot the outer loop finds from row `y` on is in the search area, clear,
   * and every origin before it in row-major order is blocked; running out
   * means every origin from row `y` on is blocked; a throw comes from an
   * origin whose scan throws, with every origin before it blocked.
   */
  lemma {:induction false} SearchFromSound(items: seq<Item>, dim: Dimensions, y: int)
    requires 0 <= y
    decreases Rows - y
    ensures var r := SearchFrom(items, dim, y);
      && (r.Found? ==> && InSearch(r.spot, dim) && y <= r.spot.y
                       && ProbeItems(items, Box(r.spot, dim)).Clear?
                       && forall q | InSearch(q, dim) && y <= q.y && Before(q, r.spot) :: Blocked(items, q, dim))
      && (r.Exhausted? ==> forall q | InSearch(q, dim) && y <= q.y :: Blocked(items, q, dim))
      && (r.Threw? ==> exists q | InSearch(q, dim) && y <= q.y ::
                         && Throws(items, q, dim)
                         && forall q' | InSearch(q', dim) && y <= q'.y && Before(q', q) :: Blocked(items, q', dim))
  {
    if y < Rows {
      var row := SearchRow(items, dim, y, 0);
      SearchRowSound(items, dim, y, 0);
      if row.Found? {
        RowPrefixBlocked(items, dim, y, row.spot.x);
      } else if row.Threw? {
        var x' :| 0 <= x' <= Columns - dim.w && Throws(items, Point(x', y), dim)
                  && forall x'' | 0 <= x'' < x' :: Blocked(items, Point(x'', y), dim);
        RowPrefixBlocked(items, dim, y, x');
        assert InSearch(Point(x', y), dim);
      } else {
        assert forall q | InSearch(q, dim) && q.y == y :: Blocked(items, q, dim) by {
          assert forall q | InSearch(q, dim) && q.y == y :: q == Point(q.x, y);
        }
        SearchFromSound(items, dim, y + 1);
        var r := SearchFrom(items, dim, y + 1);
        if r.Threw? {
          var q :| InSearch(q, dim) && y + 1 <= q.y && Throws(items, q, dim)
                   && forall q' | InSearch(q', dim) && y + 1 <= q'.y && Before(q', q) :: Blocked(items, q', dim);
          BlockedRowExtends(items, dim, y, q);
        }
      }
    }
  }

  /** Helper for `SearchFromSound`: in row `y`, the origins before column `x` are those of the row. */
  lemma RowPrefixBlocked(items: seq<Item>, dim: Dimensions, y: int, x: int)
    requires forall x'' | 0 <= x'' < x :: Blocked(items, Point(x'', y), dim)
    ensures forall q | InSearch(q, dim) && y <= q.y && Before(q, Point(x, y)) :: Blocked(items, q, dim)
  {
    forall q | InSearch(q, dim) && y <= q.y && Before(q, Point(x, y)) ensures Blocked(items, q, dim) {
      assert q == Point(q.x, y);
    }
  }

  /** Helper for `SearchFromSound`: a fully blocked row `y` extends a blocked prefix from row `y + 1` to row `y`. */
  lemma BlockedRowExtends(items: seq<Item>, dim: Dimensions, y: int, q: Point)
    requires forall p | InSearch(p, dim) && p.y == y :: Blocked(items, p, dim)
    requires forall q' | InSearch(q', dim) && y + 1 <= q'.y && Before(q', q) :: Blocked(items, q', dim)
    ensures forall q' | InSearch(q', dim) && y <= q'.y && Before(q', q) :: Blocked(items, q', dim)
  {
  }

  /**
   * `findFreeSpot(items, dim)`, with `None` for the TypeError it throws. An
   * undefined size throws at `6 - dim.w`. Otherwise the result is the first
   * origin in row-major order that is clear of every item, and `{0, 0}` when
   * every origin is blocked; a scan that reaches an unsized item before any
   * hit throws. Over sized items it never throws.
   */
  function FreeSpot(items: seq<Item>, dim: Option<Dimensions>): (r: Option<Point>)
    ensures dim.None? ==> r.None?
    ensures dim.Some? && r.Some? && (exists q :: InSearch(q, dim.value) && !Blocked(items, q, dim.value)) ==>
      && InSearch(r.value, dim.value) && Free(items, r.value, dim.value)
      && forall q | InSearch(q, dim.value) && Before(q, r.value) :: Blocked(items, q, dim.value)
    ensures dim.Some? && (forall q | InSearch(q, dim.value) :: Blocked(items, q, dim.value)) ==>
      r == Some(Point(0, 0))
    ensures dim.Some? && r.None? ==> exists q | InSearch(q, dim.value) ::
      && Throws(items, q, dim.value)
      && forall q' | InSearch(q', dim.value) && Before(q', q) :: Blocked(items, q', dim.value)
    ensures dim.Some? && AllSized(items) ==> r.Some?
  {
    if dim.None? then None
    else
      SearchFromSound(items, dim.value, 0);
      match SearchFrom(items, dim.value, 0)
      case Found(p) =>
        ProbeMeaning(items, Box(p, dim.value));
        Some(p)
      case Exhausted => Some(Point(0, 0))
      case Threw =>
        var q :| InSearch(q, dim.value) && Throws(items, q, dim.value);
        SizedNeverFaults(items, Box(q, dim.value));
        None
  }

  /**
   * Over sized items the search is plain first fit: the first free origin
   * in row-major order when there is one, `{0, 0}` when there is none.
   */
  lemma SizedSearchIsFirstFit(items: seq<Item>, dim: Dimensions)
    requires AllSized(items)
    ensures FreeSpot(items, Some(dim)).Some?
    ensures (exists q :: InSearch(q, dim) && Free(items, q, dim)) ==>
      && InSearch(FreeSpot(items, Some(dim)).value, dim) && Free(items, FreeSpot(items, Some(dim)).value, dim)
      && forall q | InSearch(q, dim) && Before(q, FreeSpot(items, Some(dim)).value) :: !Free(items, q, dim)
    ensures (forall q | InSearch(q, dim) :: !Free(items, q, dim)) ==> FreeSpot(items, Some(dim)) == Some(Point(0, 0))
  {
    forall q ensures Blocked(items, q, dim) <==> !Free(items, q, dim) {
      ProbeMeaning(items, Box(q, dim));
      SizedNeverFaults(items, Box(q, dim));
    }
  }

  /**
   * With an unsized item in the list no placement lands on a free spot: it
   * throws, or falls back to `{0, 0}` with every origin blocked.
   */
  lemma UnsizedItemDefeatsPlacement(items: seq<Item>, dim: Dimensions, k: int)
    requires 0 <= k < |items| && items[k].dim.None?
    ensures var r := FreeSpot(items, Some(dim));
      r.None? || (r == Some(Point(0, 0)) && forall q | InSearch(q, dim) :: Blocked(items, q, dim))
  {
    forall q ensures !Free(items, q, dim) {
      assert items[k].dim.None?;
    }
  }

  /** A size wider than the grid visits no column, so the fallback is taken. */
  lemma TooWideFallsBack(items: seq<Item>, dim: Dimensions)
    requires dim.w > Columns
    ensures FreeSpot(items, Some(dim)) == Some(Point(0, 0))
  {
  }

  /** On an empty grid every size that fits is placed at the origin. */
  lemma {:induction false} EmptyGridOrigin(dim: Dimensions)
    requires dim.w <= Columns
    ensures FreeSpot([], Some(dim)) == Some(Point(0, 0))
  {
    assert InSearch(Point(0, 0), dim) && !Blocked([], Point(0, 0), dim);
  }

  /** A full-width item in row 0 pushes a 1x1 item to the start of row 1. */
  lemma {:induction false} FullFirstRowDropsToNextRow(blocker: Item)
    requires blocker.pos == Point(0, 0) && blocker.dim == Some(Dimensions(6, 1))
    ensures FreeSpot([blocker], Some(Dimensions(1, 1))) == Some(Point(0, 1))
  {
    var dim := Dimensions(1, 1);
    var p := FreeSpot([blocker], Some(dim));
    assert ProbeItems([blocker][1..], Box(Point(0, 1), dim)) == Clear;
    assert InSearch(Point(0, 1), dim) && !Blocked([blocker], Point(0, 1), dim);
    forall x | 0 <= x <= Columns - 1
      ensures Blocked([blocker], Point(x, 0), dim)
    {
      assert Collide(Box(Point(x, 0), dim), [blocker][0].Footprint());
    }
  }

  /** `findFreeSpot`, as the two nested loops with an early return. */
  method FindFreeSpot(items: seq<Item>, dim: Option<Dimensions>) returns (r: Option<Point>)
    ensures r == FreeSpot(items, dim)
  {
    var y := 0;
    while y < Rows
      invariant 0 <= y <= Rows
      invariant dim.None? ==> y == 0
      invariant dim.Some? ==> SearchFrom(items, dim.value, 0) == SearchFrom(items, dim.value, y)
    {
      if dim.None? {
        // `6 - dim.w` reads a property of `undefined`
        return None;
      }
      var x := 0;
      while x <= Columns - dim.value.w
        invariant 0 <= x
        invariant SearchRow(items, dim.value, y, 0) == SearchRow(items, dim.value, y, x)
        decreases Columns - dim.value.w - x + 1
      {
        var probe := ProbeItems(items, Box(Point(x, y), dim.value));
        if probe.Fault? {
          return None;
        }
        if probe.Clear? {
          return Some(Point(x, y));
        }
        x := x + 1;
      }
      y := y + 1;
    }
    return Some(Point(0, 0));
  }

  // ----- id-keyed list updates -----

  predicate HasId(items: seq<Item>, id: string) {
    exists i | 0 <= i < |items| :: items[i].id == id
  }

  predicate UniqueIds(items: seq<Item>) {
    forall i, j | 0 <= i < j < |items| :: items[i].id != items[j].id
  }

  /** The keys an `updateWidget` call may carry; absent keys are `None`. */
  datatype ItemPatch = ItemPatch(
    id: Option<string>, title: Option<string>, widgetType: Option<string>, color: Option<string>,
    pos: Option<Point>, dim: Option<Dimensions>, visible: Option<bool>)

  /**
   * `{ ...widget, ...normalizedUpdates }`: every key the patch carries
   * overrides, and `dim` is written in any case, with `undefined` when the
   * patch has none.
   */
  function Spread(w: Item, u: ItemPatch): (r: Item)
    ensures r.kind == w.kind
    ensures u.dim.Some? ==> r.dim.Some? && ValidDimensions(r.dim.value) && (ValidDimensions(u.dim.value) ==> r.dim == u.dim)
    ensures u.dim.Some? ==> r.dim == Some(NormalizeDim(WidgetItem, u.dim))
    ensures u.dim.None? ==> r.dim.None?
  {
    w.(id := u.id.GetOr(w.id), title := u.title.GetOr(w.title),
       widgetType := u.widgetType.GetOr(w.widgetType), color := u.color.GetOr(w.color),
       pos := u.pos.GetOr(w.pos), visible := u.visible.GetOr(w.visible),
       dim := if u.dim.Some? then Some(NormalizeDim(WidgetItem, u.dim)) else None)
  }

  /** The updater of `updateWidget(id, updates)`. */
  function UpdatedWidgets(ws: seq<Item>, id: string, u: ItemPatch): (r: seq<Item>)
    ensures |r| == |ws|
    ensures forall i | 0 <= i < |ws| && ws[i].id != id :: r[i] == ws[i]
    ensures forall i | 0 <= i < |ws| && ws[i].id == id ::
      && r[i].kind == ws[i].kind
      && (u.id.Some? ==> r[i].id == u.id.value) && (u.id.None? ==> r[i].id == id)
      && (u.title.Some? ==> r[i].title == u.title.value) && (u.title.None? ==> r[i].title == ws[i].title)
      && (u.widgetType.Some? ==> r[i].widgetType == u.widgetType.value)
      && (u.widgetType.None? ==> r[i].widgetType == ws[i].widgetType)
      && (u.color.Some? ==> r[i].color == u.color.value) && (u.color.None? ==> r[i].color == ws[i].color)
      && (u.pos.Some? ==> r[i].pos == u.pos.value) && (u.pos.None? ==> r[i].pos == ws[i].pos)
      && (u.visible.Some? ==> r[i].visible == u.visible.value)
      && (u.visible.None? ==> r[i].visible == ws[i].visible)
      && (u.dim.Some? ==> && r[i].dim == Some(NormalizeDim(WidgetItem, u.dim))
                          && ValidDimensions(r[i].dim.value)
                          && (ValidDimensions(u.dim.value) ==> r[i].dim == u.dim))
      && (u.dim.None? ==> r[i].dim.None?)
  {
    seq(|ws|, i requires 0 <= i < |ws| => if ws[i].id == id then Spread(ws[i], u) else ws[i])
  }

  /**
   * An update without `dim` leaves the widget with an undefined size. From
   * then on no placement over a list that holds it lands on a free spot, and
   * a placement whose first scan reaches it throws.
   */
  lemma {:induction false} UpdateWithoutDimBreaksPlacement(apps: seq<Item>, ws: seq<Item>, id: string, u: ItemPatch, dim: Dimensions)
    requires HasId(ws, id) && u.dim.None?
    ensures var items := apps + UpdatedWidgets(ws, id, u);
      var r := FreeSpot(items, Some(dim));
      r.None? || (r == Some(Point(0, 0)) && forall q | InSearch(q, dim) :: Blocked(items, q, dim))
    ensures ws[0].id == id && dim.w <= Columns ==> FreeSpot(UpdatedWidgets(ws, id, u), Some(dim)).None?
  {
    var r := UpdatedWidgets(ws, id, u);
    var k :| 0 <= k < |ws| && ws[k].id == id;
    assert (apps + r)[|apps| + k] == r[k];
    UnsizedItemDefeatsPlacement(apps + r, dim, |apps| + k);
    if ws[0].id == id && dim.w <= Columns {
      assert ProbeItems(r, Box(Point(0, 0), dim)) == Fault;
      assert SearchRow(r, dim, 0, 0) == Threw;
      assert SearchFrom(r, dim, 0) == Threw;
    }
  }

  /** `filter(item => item.id !== id)`, the updater of `deleteWidget` and `deleteApp`. */
  function WithoutId(items: seq<Item>, id: string): (r: seq<Item>)
    ensures forall x :: x in r <==> x in items && x.id != id
    ensures !HasId(items, id) ==> r == items
    ensures |r| == |items| ==> !HasId(items, id)
    ensures IsSubsequence(r, items)
    ensures forall x :: multiset(r)[x] == if x.id != id then multiset(items)[x] else 0
  {
    var keep := (x: Item) => x.id != id;
    FilterKeepsOrder(items, id, keep);
    if !HasId(items, id) then
      FilterAllKept(items, keep);
      Filter(items, keep)
    else
      var k :| 0 <= k < |items| && items[k].id == id;
      FilterDropsRejected(items, keep, k);
      Filter(items, keep)
  }
  /** Helper for `WithoutId`: the filter keeps the survivors' order and multiplicity. */
  lemma FilterKeepsOrder(items: seq<Item>, id: string, keep: Item -> bool)
    requires forall x :: keep(x) == (x.id != id)
    ensures IsSubsequence(Filter(items, keep), items)
    ensures forall x :: multiset(Filter(items, keep))[x] == if x.id != id then multiset(items)[x] else 0
  {
    FilterInOrder(items, keep);
    forall x ensures multiset(Filter(items, keep))[x] == if x.id != id then multiset(items)[x] else 0 {
      FilterCount(items, keep, x);
    }
  }

  /** The updater of `toggleWidgetVisibility(id)`. */
  function VisibilityToggled(ws: seq<Item>, id: string): (r: seq<Item>)
    ensures |r| == |ws|
    ensures forall i | 0 <= i < |ws| :: r[i].visible == (if ws[i].id == id then !ws[i].visible else ws[i].visible)
    ensures forall i | 0 <= i < |ws| :: r[i].(visible := ws[i].visible) == ws[i]
  {
    seq(|ws|, i requires 0 <= i < |ws| => if ws[i].id == id then ws[i].(visible := !ws[i].visible) else ws[i])
  }

  /** Toggling twice gives back the list. */
  lemma ToggleTwiceIsIdentity(ws: seq<Item>, id: string)
    ensures VisibilityToggled(VisibilityToggled(ws, id), id) == ws
  {
    var r := VisibilityToggled(VisibilityToggled(ws, id), id);
    assert forall i | 0 <= i < |ws| :: r[i] == ws[i];
  }

  /** The updater of `moveItem(id, pos)`, applied to each store. */
  function Moved(items: seq<Item>, id: string, pos: Point): (r: seq<Item>)
    ensures |r| == |items|
    ensures forall i | 0 <= i < |items| :: r[i].pos == (if items[i].id == id then pos else items[i].pos)
    ensures forall i | 0 <= i < |items| :: r[i].(pos := items[i].pos) == items[i]
  {
    seq(|items|, i requires 0 <= i < |items| => if items[i].id == id then items[i].(pos := pos) else items[i])
  }

  /** The updater of `resizeItem(id, dim)`: the new size is normalised. */
  function Resized(ws: seq<Item>, id: string, dim: Dimensions): (r: seq<Item>)
    ensures |r| == |ws|
    ensures forall i | 0 <= i < |ws| && ws[i].id != id :: r[i] == ws[i]
    ensures forall i | 0 <= i < |ws| && ws[i].id == id ::
      && r[i] == ws[i].(dim := r[i].dim)
      && r[i].dim == Some(NormalizeDim(WidgetItem, Some(dim)))
      && ValidDimensions(r[i].dim.value)
      && (ValidDimensions(dim) ==> r[i].dim == Some(dim))
  {
    seq(|ws|, i requires 0 <= i < |ws| =>
      if ws[i].id == id then ws[i].(dim := Some(NormalizeDim(WidgetItem, Some(dim)))) else ws[i])
  }

  /**
   * The id-keyed updaters compose as field writes: a second move wins over
   * the first, moving and resizing commute, and none of them (nor an update
   * that does not carry an `id`) changes the ids, so unique ids stay unique.
   */
  lemma {:induction false} UpdatersCompose(ws: seq<Item>, id: string, p: Point, q: Point, d: Dimensions, u: ItemPatch)
    ensures Moved(Moved(ws, id, p), id, q) == Moved(ws, id, q)
    ensures Moved(Resized(ws, id, d), id, p) == Resized(Moved(ws, id, p), id, d)
    ensures UniqueIds(ws) ==> UniqueIds(Moved(ws, id, p)) && UniqueIds(Resized(ws, id, d)) && UniqueIds(VisibilityToggled(ws, id))
    ensures UniqueIds(ws) && u.id.None? ==> UniqueIds(UpdatedWidgets(ws, id, u))
  {
    var a := Moved(Moved(ws, id, p), id, q);
    var b := Moved(ws, id, q);
    forall i | 0 <= i < |ws| ensures a[i] == b[i] {
      assert Moved(ws, id, p)[i].id == ws[i].id;
    }
    var c := Moved(Resized(ws, id, d), id, p);
    var e := Resized(Moved(ws, id, p), id, d);
    forall i | 0 <= i < |ws| ensures c[i] == e[i] {
      assert Resized(ws, id, d)[i].id == ws[i].id;
      assert Moved(ws, id, p)[i].id == ws[i].id;
    }
    assert forall i | 0 <= i < |ws| :: Resized(ws, id, d)[i].id == ws[i].id;
    assert forall i | 0 <= i < |ws| :: Moved(ws, id, p)[i].id == ws[i].id;
    assert forall i | 0 <= i < |ws| :: VisibilityToggled(ws, id)[i].id == ws[i].id;
  }


  /**
   * The copy `duplicateWidget` appends for widget `w`, placed at `pos`: the
   * fresh id, the title with a suffix, and every other field of `w`.
   */
  function CopyOf(w: Item, freshId: string, pos: Point): (r: Item)
    ensures r.id == freshId && r.pos == pos && r.title == w.title + " (Kopie)"
    ensures r.(id := w.id, title := w.title, pos := w.pos) == w
  {
    w.(id := freshId, title := w.title + " (Kopie)", pos := pos)
  }

  /**
   * The updater of `duplicateWidget(id)`, with the fresh id as a parameter.
   * `None` stands for the TypeError that placing the copy throws inside the
   * updater, which leaves the store unchanged.
   */
  function WithDuplicate(ws: seq<Item>, id: string, freshId: string): (r: Option<seq<Item>>)
    ensures !HasId(ws, id) ==> r == Some(ws)
    ensures HasId(ws, id) ==> exists k | 0 <= k < |ws| ::
      && ws[k].id == id && (forall j | 0 <= j < k :: ws[j].id != id)
      && (r.None? <==> FreeSpot(ws, ws[k].dim).None?)
      && (r.Some? ==> r.value == ws + [CopyOf(ws[k], freshId, FreeSpot(ws, ws[k].dim).value)])
    ensures HasId(ws, id) && r.Some? ==>
      && |r.value| == |ws| + 1 && r.value[..|ws|] == ws
      && r.value[|ws|].id == freshId && r.value[|ws|].dim == Find(ws, (w: Item) => w.id == id).value.dim
      && r.value[|ws|].title == Find(ws, (w: Item) => w.id == id).value.title + " (Kopie)"
      && r.value[|ws|].dim.Some?
      && ((exists q :: InSearch(q, r.value[|ws|].dim.value) && !Blocked(ws, q, r.value[|ws|].dim.value)) ==>
            && InSearch(r.value[|ws|].pos, r.value[|ws|].dim.value)
            && Free(ws, r.value[|ws|].pos, r.value[|ws|].dim.value))
    ensures HasId(ws, id) && Find(ws, (w: Item) => w.id == id).value.dim.None? ==> r.None?
    ensures AllSized(ws) ==> r.Some?
    ensures UniqueIds(ws) && !HasId(ws, freshId) && r.Some? ==> UniqueIds(r.value)
  {
    var k := FirstIndex(ws, (w: Item) => w.id == id);
    if k < 0 then Some(ws)
    else
      match FreeSpot(ws, ws[k].dim)
      case None => None
      case Some(p) =>
        var r := ws + [CopyOf(ws[k], freshId, p)];
        assert r[..|ws|] == ws;
        Some(r)
  }

  /**
   * Every updater but an update without `dim` keeps every item sized, so
   * the placements of `addApp`, `addWidget` and `duplicateWidget` over such
   * lists never throw.
   */
  lemma SizesStayDefined(ws: seq<Item>, id: string, p: Point, d: Dimensions, u: ItemPatch, freshId: string)
    requires AllSized(ws)
    ensures AllSized(WithoutId(ws, id)) && AllSized(VisibilityToggled(ws, id))
    ensures AllSized(Moved(ws, id, p)) && AllSized(Resized(ws, id, d))
    ensures u.dim.Some? ==> AllSized(UpdatedWidgets(ws, id, u))
    ensures WithDuplicate(ws, id, freshId).Some? && AllSized(WithDuplicate(ws, id, freshId).value)
  {
    DeleteStaysSized(ws, id);
    ToggleAndMoveStaySized(ws, id, p);
    ResizeStaysSized(ws, id, d);
    if u.dim.Some? {
      UpdateStaysSized(ws, id, u);
    }
    DuplicateStaysSized(ws, id, freshId);
  }

  /** Helper for `SizesStayDefined`: a resize writes a normalized `dim` or keeps the old one. */
  lemma ResizeStaysSized(ws: seq<Item>, id: string, d: Dimensions)
    requires AllSized(ws)
    ensures AllSized(Resized(ws, id, d))
  {
    var r := Resized(ws, id, d);
    forall i | 0 <= i < |r| ensures r[i].dim.Some? {
      assert r[i].id == id || r[i] == ws[i];
    }
  }

  /** Helper for `SizesStayDefined`: an update carrying `dim` writes a normalized one. */
  lemma UpdateStaysSized(ws: seq<Item>, id: string, u: ItemPatch)
    requires AllSized(ws) && u.dim.Some?
    ensures AllSized(UpdatedWidgets(ws, id, u))
  {
    var r := UpdatedWidgets(ws, id, u);
    forall i | 0 <= i < |r| ensures r[i].dim.Some? {
      assert ws[i].dim.Some?;
    }
  }

  /** Helper for `SizesStayDefined`: a delete keeps only items of the list. */
  lemma DeleteStaysSized(ws: seq<Item>, id: string)
    requires AllSized(ws)
    ensures AllSized(WithoutId(ws, id))
  {
    var r := WithoutId(ws, id);
    forall i | 0 <= i < |r| ensures r[i].dim.Some? {
      assert r[i] in ws;
    }
  }

  /** Helper for `SizesStayDefined`: toggling and moving leave `dim` alone. */
  lemma ToggleAndMoveStaySized(ws: seq<Item>, id: string, p: Point)
    requires AllSized(ws)
    ensures AllSized(VisibilityToggled(ws, id)) && AllSized(Moved(ws, id, p))
  {
    var t := VisibilityToggled(ws, id);
    forall i | 0 <= i < |t| ensures t[i].dim.Some? {
      assert t[i].(visible := ws[i].visible) == ws[i];
    }
    var m := Moved(ws, id, p);
    forall i | 0 <= i < |m| ensures m[i].dim.Some? {
      assert m[i].(pos := ws[i].pos) == ws[i];
    }
  }

  /** Helper for `SizesStayDefined`: the copy carries its original's size. */
  lemma DuplicateStaysSized(ws: seq<Item>, id: string, freshId: string)
    requires AllSized(ws)
    ensures WithDuplicate(ws, id, freshId).Some? && AllSized(WithDuplicate(ws, id, freshId).value)
  {
    var dup := WithDuplicate(ws, id, freshId);
    if HasId(ws, id) {
      var k := FirstIndex(ws, (w: Item) => w.id == id);
      assert dup.value[|ws|] == CopyOf(ws[k], freshId, FreeSpot(ws, ws[k].dim).value);
    }
  }

  // ----- the two stores -----

  /** The fields of the object passed to `addApp` that the new app keeps. */
  datatype AppDraft = AppDraft(name: string, color: string)

  /**
   * The fields of the object passed to `addWidget` that it reads; "" is a
   * missing key. `widgetType` holds the object's `type` key.
   */
  datatype WidgetDraft = WidgetDraft(title: string, widgetType: string, color: string, dim: Option<Dimensions>)

  /** The app `addApp` builds, before its position is found. */
  function NewApp(draft: AppDraft, freshId: string): (a: Item)
    ensures a.id == freshId && a.kind == AppItem && a.dim == Some(Dimensions(1, 1))
  {
    Item(freshId, AppItem, draft.name, "", draft.color, Point(0, 0), Some(Dimensions(1, 1)), true)
  }

  /** The widget `addWidget` builds, before its position is found. */
  function NewWidget(draft: WidgetDraft, freshId: string): (w: Item)
    ensures w.id == freshId && w.kind == WidgetItem && w.visible
    ensures w.dim.Some? && ValidDimensions(w.dim.value)
    ensures draft.dim.None? ==> w.dim == Some(Dimensions(2, 2))
    ensures draft.dim.Some? ==> w.dim == Some(NormalizeDim(WidgetItem, draft.dim))
    ensures draft.dim.Some? && ValidDimensions(draft.dim.value) ==> w.dim == draft.dim
    ensures w.title == draft.title
    ensures w.widgetType == (if draft.widgetType == "" then "markdown" else draft.widgetType)
    ensures w.color == (if draft.color == "" then "blue" else draft.color)
  {
    var dim := NormalizeDim(WidgetItem, Some(draft.dim.GetOr(Dimensions(2, 2))));
    Item(freshId, WidgetItem, draft.title,
         if draft.widgetType == "" then "markdown" else draft.widgetType,
         if draft.color == "" then "blue" else draft.color,
         Point(0, 0), Some(dim), true)
  }

  /**
   * The `apps` and `widgets` stores. Each method applies its updater to the
   * store it names; `addApp` and `addWidget` place the new item on the first
   * free cell of the combined list before appending it. The methods that
   * place an item report whether the placement returned; when it throws,
   * neither store changes.
   */
  class ItemStores {
    var apps: seq<Item>
    var widgets: seq<Item>

    constructor (initialApps: seq<Item>, initialWidgets: seq<Item>)
      ensures apps == initialApps && widgets == initialWidgets
    {
      apps := initialApps;
      widgets := initialWidgets;
    }

    /** The `dashboardItems` store: apps first, then widgets. */
    function DashboardItems(): seq<Item>
      reads this
    {
      apps + widgets
    }

    method AddApp(draft: AppDraft, freshId: string) returns (placed: bool)
      modifies this
      ensures widgets == old(widgets)
      ensures placed <==> FreeSpot(old(DashboardItems()), Some(Dimensions(1, 1))).Some?
      ensures placed ==> apps == old(apps) + [NewApp(draft, freshId).(pos := FreeSpot(old(DashboardItems()), Some(Dimensions(1, 1))).value)]
      ensures !placed ==> apps == old(apps)
      ensures AllSized(old(DashboardItems())) ==> placed
    {
      var newApp := NewApp(draft, freshId);
      var spot := FindFreeSpot(DashboardItems(), newApp.dim);
      if spot.None? {
        return false;
      }
      newApp := newApp.(pos := spot.value);
      apps := apps + [newApp];
      return true;
    }

    method AddWidget(draft: WidgetDraft, freshId: string) returns (placed: bool)
      modifies this
      ensures apps == old(apps)
      ensures placed <==> FreeSpot(old(DashboardItems()), NewWidget(draft, freshId).dim).Some?
      ensures placed ==> widgets == old(widgets) + [NewWidget(draft, freshId).(pos := FreeSpot(old(DashboardItems()), NewWidget(draft, freshId).dim).value)]
      ensures !placed ==> widgets == old(widgets)
      ensures AllSized(old(DashboardItems())) ==> placed
    {
      var newWidget := NewWidget(draft, freshId);
      var spot := FindFreeSpot(DashboardItems(), newWidget.dim);
      if spot.None? {
        return false;
      }
      newWidget := newWidget.(pos := spot.value);
      widgets := widgets + [newWidget];
      return true;
    }

    method DeleteApp(id: string)
      modifies this
      ensures apps == WithoutId(old(apps), id) && widgets == old(widgets)
    {
      apps := WithoutId(apps, id);
    }

    method UpdateWidget(id: string, updates: ItemPatch)
      modifies this
      ensures widgets == UpdatedWidgets(old(widgets), id, updates) && apps == old(apps)
    {
      widgets := UpdatedWidgets(widgets, id, updates);
    }

    method DeleteWidget(id: string)
      modifies this
      ensures widgets == WithoutId(old(widgets), id) && apps == old(apps)
    {
      widgets := WithoutId(widgets, id);
    }

    method ToggleWidgetVisibility(id: string)
      modifies this
      ensures widgets == VisibilityToggled(old(widgets), id) && apps == old(apps)
    {
      widgets := VisibilityToggled(widgets, id);
    }

    method DuplicateWidget(id: string, freshId: string) returns (placed: bool)
      modifies this
      ensures placed <==> WithDuplicate(old(widgets), id, freshId).Some?
      ensures placed ==> widgets == WithDuplicate(old(widgets), id, freshId).value
      ensures !placed ==> widgets == old(widgets)
      ensures apps == old(apps)
    {
      var k := FirstIndex(widgets, (w: Item) => w.id == id);
      if k >= 0 {
        var widget := widgets[k];
        var spot := FindFreeSpot(widgets, widget.dim);
        if spot.None? {
          return false;
        }
        widgets := widgets + [widget.(id := freshId, title := widget.title + " (Kopie)", pos := spot.value)];
      }
      return true;
    }

    method MoveItem(id: string, pos: Point)
      modifies this
      ensures apps == Moved(old(apps), id, pos) && widgets == Moved(old(widgets), id, pos)
    {
      apps := Moved(apps, id, pos);
      widgets := Moved(widgets, id, pos);
    }

    method ResizeItem(id: string, dim: Dimensions)
      modifies this
      ensures widgets == Resized(old(widgets), id, dim) && apps == old(apps)
    {
      widgets := Resized(widgets, id, dim);
    }
  }
}
