/**
 * The floating-window manager: the list of open windows and the list of
 * minimized ones. Windows are opened with a cascading position, closed,
 * moved between the two lists, maximized and restored, brought to the
 * front, moved and resized. Fresh ids, the clock (used as the z-index) and
 * the viewport size are parameters.
 */
module Windows {
  import opened Common

  datatype Size = Size(width: int, height: int)

  datatype Window = Window(
    id: string, title: string, position: Point, width: int, height: int,
    isMaximized: bool, originalPosition: Option<Point>, originalSize: Option<Size>,
    zIndex: int, iframeSrc: Option<string>, content: Option<string>)

  /** A maximized window remembers where it came from: every operation keeps this. */
  predicate WellFormed(w: Window) {
    w.isMaximized ==> w.originalPosition.Some? && w.originalSize.Some?
  }

  predicate AllWellFormed(ws: seq<Window>) {
    forall i | 0 <= i < |ws| :: WellFormed(ws[i])
  }

  function Ids(ws: seq<Window>): (r: seq<string>)
    ensures |r| == |ws| && forall i | 0 <= i < |ws| :: r[i] == ws[i].id
  {
    seq(|ws|, i requires 0 <= i < |ws| => ws[i].id)
  }

  /** The window `openWindow` appends as the `n`-th one: cascaded by 20 pixels per open window. */
  function NewWindow(n: int, id: string, title: string, iframeSrc: Option<string>, content: Option<string>, now: int): (w: Window)
    ensures WellFormed(w) && !w.isMaximized
    ensures w.position == Point(100 + 20 * n, 100 + 20 * n) && w.width == 320 && w.height == 240
  {
    Window(id, title, Point(100 + n * 20, 100 + n * 20), 320, 240, false, None, None, now, iframeSrc, content)
  }

  /** `openWindow`. */
  function Opened(ws: seq<Window>, id: string, title: string, iframeSrc: Option<string>, content: Option<string>, now: int): (r: seq<Window>)
    ensures |r| == |ws| + 1 && r[..|ws|] == ws
    ensures r[|ws|] == NewWindow(|ws|, id, title, iframeSrc, content, now)
    ensures AllWellFormed(ws) ==> AllWellFormed(r)
  {
    ws + [NewWindow(|ws|, id, title, iframeSrc, content, now)]
  }

  /** `closeWindow`: every window with the id goes, the others stay in order. */
  function Closed(ws: seq<Window>, id: string): (r: seq<Window>)
    ensures forall w | w in r :: w in ws && w.id != id
    ensures forall w | w in ws && w.id != id :: w in r
    ensures AllWellFormed(ws) ==> AllWellFormed(r)
  {
    Filter(ws, (w: Window) => w.id != id)
  }

  /**
   * Closing keeps the remaining windows in their order, each as often as it
   * occurred, and drops every occurrence of the id.
   */
  lemma ClosedKeepsOrder(ws: seq<Window>, id: string)
    ensures IsSubsequence(Closed(ws, id), ws)
    ensures forall w :: multiset(Closed(ws, id))[w] == if w.id != id then multiset(ws)[w] else 0
  {
    var keep := (w: Window) => w.id != id;
    FilterInOrder(ws, keep);
    forall w ensures multiset(Filter(ws, keep))[w] == if w.id != id then multiset(ws)[w] else 0 {
      FilterCount(ws, keep, w);
    }
  }

  /** Applies `f` to the windows with the given id, in place in the list. */
  function UpdateMatching(ws: seq<Window>, id: string, f: Window -> Window): (r: seq<Window>)
    ensures |r| == |ws|
    ensures forall i | 0 <= i < |ws| && ws[i].id != id :: r[i] == ws[i]
    ensures forall i | 0 <= i < |ws| && ws[i].id == id :: r[i] == f(ws[i])
  {
    seq(|ws|, i requires 0 <= i < |ws| => if ws[i].id == id then f(ws[i]) else ws[i])
  }

  /** `bringToFront`. */
  function Fronted(ws: seq<Window>, id: string, z: int): (r: seq<Window>)
    ensures Ids(r) == Ids(ws)
    ensures forall i | 0 <= i < |ws| :: r[i].zIndex == (if ws[i].id == id then z else ws[i].zIndex)
    ensures forall i | 0 <= i < |ws| :: r[i].(zIndex := ws[i].zIndex) == ws[i]
  {
    UpdateMatching(ws, id, (w: Window) => w.(zIndex := z))
  }

  /** `moveWindow`. */
  function Moved(ws: seq<Window>, id: string, p: Point): (r: seq<Window>)
    ensures Ids(r) == Ids(ws)
    ensures forall i | 0 <= i < |ws| :: r[i].position == (if ws[i].id == id then p else ws[i].position)
    ensures forall i | 0 <= i < |ws| :: r[i].(position := ws[i].position) == ws[i]
  {
    UpdateMatching(ws, id, (w: Window) => w.(position := p))
  }

  /** `resizeWindow`. */
  function Resized(ws: seq<Window>, id: string, width: int, height: int): (r: seq<Window>)
    ensures Ids(r) == Ids(ws)
    ensures forall i | 0 <= i < |ws| && ws[i].id == id :: r[i].width == width && r[i].height == height
    ensures forall i | 0 <= i < |ws| :: r[i].(width := ws[i].width, height := ws[i].height) == ws[i]
    ensures forall i | 0 <= i < |ws| && ws[i].id != id :: r[i] == ws[i]
  {
    UpdateMatching(ws, id, (w: Window) => w.(width := width, height := height))
  }

  /** `w || fallback` on a number: zero is falsy. */
  function OrElse(n: int, fallback: int): (r: int)
    ensures r != 0 || fallback == 0
    ensures n != 0 ==> r == n
  {
    if n != 0 then n else fallback
  }

  /**
   * `maximizeWindow` on one window: un-maximizing puts back the remembered
   * position and size; maximizing remembers them (a zero size as the
   * default 320 by 240) and fills the viewport less an 80-pixel bar.
   */
  function ToggledMaximized(w: Window, viewWidth: int, viewHeight: int): (r: Window)
    requires WellFormed(w)
    ensures WellFormed(r) && r.isMaximized == !w.isMaximized
    ensures !w.isMaximized ==>
      && r.originalPosition == Some(w.position)
      && r.originalSize == Some(Size(OrElse(w.width, 320), OrElse(w.height, 240)))
      && r.position == Point(0, 0) && r.width == viewWidth && r.height == viewHeight - 80
    ensures w.isMaximized ==>
      && r.originalPosition == w.originalPosition && r.originalSize == w.originalSize
      && r.position == w.originalPosition.value
      && r.width == w.originalSize.value.width && r.height == w.originalSize.value.height
    ensures r.(isMaximized := w.isMaximized, originalPosition := w.originalPosition, originalSize := w.originalSize,
               position := w.position, width := w.width, height := w.height) == w
  {
    if w.isMaximized then
      w.(isMaximized := false, position := w.originalPosition.value,
         width := w.originalSize.value.width, height := w.originalSize.value.height)
    else
      w.(isMaximized := true, originalPosition := Some(w.position),
         originalSize := Some(Size(OrElse(w.width, 320), OrElse(w.height, 240))),
         position := Point(0, 0), width := viewWidth, height := viewHeight - 80)
  }

  /** `maximizeWindow` on the list. */
  function Maximized(ws: seq<Window>, id: string, viewWidth: int, viewHeight: int): (r: seq<Window>)
    requires AllWellFormed(ws)
    ensures Ids(r) == Ids(ws) && AllWellFormed(r)
    ensures forall i | 0 <= i < |ws| :: r[i] == (if ws[i].id == id then ToggledMaximized(ws[i], viewWidth, viewHeight) else ws[i])
  {
    seq(|ws|, i requires 0 <= i < |ws| =>
      if ws[i].id == id then ToggledMaximized(ws[i], viewWidth, viewHeight) else ws[i])
  }

  /**
   * Maximizing and then un-maximizing a window puts back its position and,
   * when they were non-zero, its width and height; only the remembered
   * originals are left behind.
   */
  lemma MaximizeTwiceRestores(w: Window, vw: int, vh: int, vw2: int, vh2: int)
    requires WellFormed(w) && !w.isMaximized
    ensures var r := ToggledMaximized(ToggledMaximized(w, vw, vh), vw2, vh2);
      && !r.isMaximized && r.position == w.position
      && r.width == OrElse(w.width, 320) && r.height == OrElse(w.height, 240)
      && (w.width != 0 && w.height != 0 ==>
            r == w.(originalPosition := Some(w.position), originalSize := Some(Size(w.width, w.height))))
  {
  }

  /** The same on the list: every window with the id is back where it was. */
  lemma {:induction false} MaximizeTwiceRestoresList(ws: seq<Window>, id: string, vw: int, vh: int, vw2: int, vh2: int)
    requires AllWellFormed(ws)
    requires forall i | 0 <= i < |ws| && ws[i].id == id :: !ws[i].isMaximized && ws[i].width != 0 && ws[i].height != 0
    ensures var r := Maximized(Maximized(ws, id, vw, vh), id, vw2, vh2);
      && |r| == |ws|
      && forall i | 0 <= i < |ws| ::
           r[i] == (if ws[i].id == id
                    then ws[i].(originalPosition := Some(ws[i].position), originalSize := Some(Size(ws[i].width, ws[i].height)))
                    else ws[i])
  {
    var r := Maximized(Maximized(ws, id, vw, vh), id, vw2, vh2);
    forall i | 0 <= i < |ws| && ws[i].id == id
      ensures r[i] == ws[i].(originalPosition := Some(ws[i].position), originalSize := Some(Size(ws[i].width, ws[i].height)))
    {
      MaximizeTwiceRestores(ws[i], vw, vh, vw2, vh2);
    }
  }

  /** Moving twice is moving to the second place; moving and resizing commute; closing forgets both. */
  lemma {:induction false} ListUpdatesCompose(ws: seq<Window>, id: string, p: Point, q: Point, width: int, height: int)
    ensures Moved(Moved(ws, id, p), id, q) == Moved(ws, id, q)
    ensures Moved(Resized(ws, id, width, height), id, p) == Resized(Moved(ws, id, p), id, width, height)
    ensures Closed(Moved(ws, id, p), id) == Closed(ws, id)
  {
    var a := Moved(Moved(ws, id, p), id, q);
    var b := Moved(ws, id, q);
    assert |a| == |b|;
    forall i | 0 <= i < |a| ensures a[i] == b[i] {
      assert Ids(Moved(ws, id, p))[i] == ws[i].id;
    }
    var c := Moved(Resized(ws, id, width, height), id, p);
    var d := Resized(Moved(ws, id, p), id, width, height);
    forall i | 0 <= i < |c| ensures c[i] == d[i] {
      assert Ids(Resized(ws, id, width, height))[i] == ws[i].id;
      assert Ids(Moved(ws, id, p))[i] == ws[i].id;
    }
    ClosedIgnoresMatching(ws, Moved(ws, id, p), id);
  }

  /** Lists that agree except on the windows with `id` close to the same list. */
  lemma {:induction false} ClosedIgnoresMatching(ws: seq<Window>, vs: seq<Window>, id: string)
    requires |vs| == |ws|
    requires forall i | 0 <= i < |ws| :: vs[i].id == ws[i].id && (ws[i].id != id ==> vs[i] == ws[i])
    ensures Closed(vs, id) == Closed(ws, id)
    decreases |ws|
  {
    if ws != [] {
      ClosedIgnoresMatching(ws[1..], vs[1..], id);
      assert Closed(ws, id) == (if ws[0].id != id then [ws[0]] else []) + Closed(ws[1..], id);
      assert Closed(vs, id) == (if vs[0].id != id then [vs[0]] else []) + Closed(vs[1..], id);
    }
  }

  /** Both lists of the manager. */
  datatype Desk = Desk(windows: seq<Window>, minimized: seq<Window>)

  /** `minimizeWindow`: the first window with the id joins the end of the minimized list and every window with the id leaves the open list. */
  function MinimizeStep(d: Desk, id: string): (r: Desk)
    ensures (exists i | 0 <= i < |d.windows| :: d.windows[i].id == id) ==>
      && r.windows == Closed(d.windows, id)
      && |r.minimized| == |d.minimized| + 1 && r.minimized[..|d.minimized|] == d.minimized
      && r.minimized[|d.minimized|] in d.windows && r.minimized[|d.minimized|].id == id
      && exists k | 0 <= k < |d.windows| ::
           && d.windows[k].id == id && (forall j | 0 <= j < k :: d.windows[j].id != id)
           && r.minimized[|d.minimized|] == d.windows[k]
    ensures (forall i | 0 <= i < |d.windows| :: d.windows[i].id != id) ==> r == d
  {
    match Find(d.windows, (w: Window) => w.id == id)
    case Some(w) => Desk(Filter(d.windows, (w: Window) => w.id != id), d.minimized + [w])
    case None => d
  }

  /** `restoreWindow`: the same in the other direction, with the restored window stamped `now` as its z-index. */
  function RestoreStep(d: Desk, id: string, now: int): (r: Desk)
    ensures (exists i | 0 <= i < |d.minimized| :: d.minimized[i].id == id) ==>
      && r.minimized == Closed(d.minimized, id)
      && |r.windows| == |d.windows| + 1 && r.windows[..|d.windows|] == d.windows
      && r.windows[|d.windows|].id == id
      && exists k | 0 <= k < |d.minimized| ::
           && d.minimized[k].id == id && (forall j | 0 <= j < k :: d.minimized[j].id != id)
           && r.windows[|d.windows|] == d.minimized[k].(zIndex := now)
    ensures (forall i | 0 <= i < |d.minimized| :: d.minimized[i].id != id) ==> r == d
  {
    match Find(d.minimized, (w: Window) => w.id == id)
    case Some(w) => Desk(d.windows + [w.(zIndex := now)], Filter(d.minimized, (w: Window) => w.id != id))
    case None => d
  }

  predicate DeskWellFormed(d: Desk) {
    AllWellFormed(d.windows) && AllWellFormed(d.minimized)
  }

  /** Minimizing keeps every window well formed. */
  lemma MinimizeKeepsWellFormed(d: Desk, id: string)
    requires DeskWellFormed(d)
    ensures DeskWellFormed(MinimizeStep(d, id))
  {
    var m := MinimizeStep(d, id);
    if exists i | 0 <= i < |d.windows| :: d.windows[i].id == id {
      forall i | 0 <= i < |m.minimized| ensures WellFormed(m.minimized[i]) {
        if i < |d.minimized| {
          assert m.minimized[i] == m.minimized[..|d.minimized|][i];
        }
      }
    }
  }

  /** Restoring keeps every window well formed: the z-index plays no part in it. */
  lemma RestoreKeepsWellFormed(d: Desk, id: string, now: int)
    requires DeskWellFormed(d)
    ensures DeskWellFormed(RestoreStep(d, id, now))
  {
    var r := RestoreStep(d, id, now);
    if exists i | 0 <= i < |d.minimized| :: d.minimized[i].id == id {
      forall i | 0 <= i < |r.windows| ensures WellFormed(r.windows[i]) {
        if i < |d.windows| {
          assert r.windows[i] == r.windows[..|d.windows|][i];
        } else {
          var k :| 0 <= k < |d.minimized| && r.windows[i] == d.minimized[k].(zIndex := now);
          assert WellFormed(d.minimized[k]);
        }
      }
    }
  }

  /**
   * Minimizing a window whose id is unique on the desk and then restoring it
   * gives the open list without it plus the window, stamped `now`, at the
   * end; the minimized list is as before.
   */
  lemma MinimizeThenRestore(d: Desk, id: string, now: int, k: int)
    requires 0 <= k < |d.windows| && d.windows[k].id == id
    requires forall i | 0 <= i < |d.windows| && i != k :: d.windows[i].id != id
    requires forall i | 0 <= i < |d.minimized| :: d.minimized[i].id != id
    ensures RestoreStep(MinimizeStep(d, id), id, now)
         == Desk(Closed(d.windows, id) + [d.windows[k].(zIndex := now)], d.minimized)
  {
    MinimizeUnique(d, id, k);
    RestoreLast(d.windows, d.minimized, d.windows[k], now);
  }

  /** Helper for `MinimizeThenRestore`: minimizing a unique id moves that window to the end of the minimized list. */
  lemma MinimizeUnique(d: Desk, id: string, k: int)
    requires 0 <= k < |d.windows| && d.windows[k].id == id
    requires forall i | 0 <= i < |d.windows| && i != k :: d.windows[i].id != id
    ensures MinimizeStep(d, id) == Desk(Closed(d.windows, id), d.minimized + [d.windows[k]])
  {
    var m := MinimizeStep(d, id);
    assert m.minimized[..|d.minimized|] == d.minimized;
    assert m.minimized == m.minimized[..|d.minimized|] + [m.minimized[|d.minimized|]];
  }

  /** Helper for `MinimizeThenRestore`: restoring the only minimized window with its id, held last, gives the lists back. */
  lemma RestoreLast(ws: seq<Window>, ms: seq<Window>, w: Window, now: int)
    requires forall i | 0 <= i < |ms| :: ms[i].id != w.id
    ensures RestoreStep(Desk(ws, ms + [w]), w.id, now) == Desk(ws + [w.(zIndex := now)], ms)
  {
    var isId := (x: Window) => x.id == w.id;
    var notId := (x: Window) => x.id != w.id;
    assert Find(ms + [w], isId) == Some(w) by {
      assert (ms + [w])[|ms|] == w;
      assert forall j | 0 <= j < |ms| :: (ms + [w])[j] == ms[j];
    }
    FilterAppend(ms, [w], notId);
    FilterAllKept(ms, notId);
    assert Filter([w], notId) == [];
  }

  /** The window manager: the two lists the operations update. */
  class WindowManager {
    var windows: seq<Window>
    var minimized: seq<Window>

    predicate Valid()
      reads this
    {
      AllWellFormed(windows) && AllWellFormed(minimized)
    }

    constructor ()
      ensures windows == [] && minimized == [] && Valid()
    {
      windows := [];
      minimized := [];
    }

    method Open(id: string, title: string, iframeSrc: Option<string>, content: Option<string>, now: int)
      requires Valid()
      modifies this
      ensures windows == Opened(old(windows), id, title, iframeSrc, content, now)
      ensures minimized == old(minimized) && Valid()
    {
      windows := windows + [NewWindow(|windows|, id, title, iframeSrc, content, now)];
    }

    method Close(id: string)
      requires Valid()
      modifies this
      ensures windows == Closed(old(windows), id) && minimized == old(minimized) && Valid()
    {
      windows := Filter(windows, (w: Window) => w.id != id);
    }

    /** The open list's updater also appends to the minimized list. */
    method Minimize(id: string)
      requires Valid()
      modifies this
      ensures Desk(windows, minimized) == MinimizeStep(Desk(old(windows), old(minimized)), id)
      ensures Valid()
    {
      MinimizeKeepsWellFormed(Desk(windows, minimized), id);
      var found := Find(windows, (w: Window) => w.id == id);
      if found.Some? {
        minimized := minimized + [found.value];
        windows := Filter(windows, (w: Window) => w.id != id);
      }
    }

    /** The minimized list's updater also appends to the open list. */
    method Restore(id: string, now: int)
      requires Valid()
      modifies this
      ensures Desk(windows, minimized) == RestoreStep(Desk(old(windows), old(minimized)), id, now)
      ensures Valid()
    {
      RestoreKeepsWellFormed(Desk(windows, minimized), id, now);
      var found := Find(minimized, (w: Window) => w.id == id);
      if found.Some? {
        windows := windows + [found.value.(zIndex := now)];
        minimized := Filter(minimized, (w: Window) => w.id != id);
      }
    }

    method Maximize(id: string, viewWidth: int, viewHeight: int)
      requires Valid()
      modifies this
      ensures windows == Maximized(old(windows), id, viewWidth, viewHeight)
      ensures minimized == old(minimized) && Valid()
    {
      windows := Maximized(windows, id, viewWidth, viewHeight);
    }

    method BringToFront(id: string, now: int)
      requires Valid()
      modifies this
      ensures windows == Fronted(old(windows), id, now) && minimized == old(minimized) && Valid()
    {
      windows := Fronted(windows, id, now);
      assert forall i | 0 <= i < |windows| :: windows[i].(zIndex := old(windows)[i].zIndex) == old(windows)[i];
    }

    method Move(id: string, p: Point)
      requires Valid()
      modifies this
      ensures windows == Moved(old(windows), id, p) && minimized == old(minimized) && Valid()
    {
      windows := Moved(windows, id, p);
      assert forall i | 0 <= i < |windows| :: windows[i].(position := old(windows)[i].position) == old(windows)[i];
    }

    method Resize(id: string, width: int, height: int)
      requires Valid()
      modifies this
      ensures windows == Resized(old(windows), id, width, height) && minimized == old(minimized) && Valid()
    {
      windows := Resized(windows, id, width, height);
      assert forall i | 0 <= i < |windows| ::
        windows[i].(width := old(windows)[i].width, height := old(windows)[i].height) == old(windows)[i];
    }
  }
}
