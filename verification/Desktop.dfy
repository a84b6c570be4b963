/** The desktop as the user sees it: a front-to-back list of windows.

    This is the specification of kernel/src/desktop/wm.ts.  It has no z-counters: raising a window
    moves it to the front of the list, launching pushes one, closing deletes one.  WindowManager.dfy
    proves the program's window manager against it.
 */
module Desktop {
  import opened Wrappers

  // ----- kernel/src/desktop/theme.ts -----

  const PANEL_H := 28
  const TITLE_H := 22
  const W := 1100
  const H := 720

  datatype App = App(id: string, title: string, w: int, h: int)

  const APPS := [
    App("files", "FILES", 460, 300),
    App("system", "SYSTEM", 430, 250),
    App("services", "SERVICES", 430, 250),
    App("procs", "PROCESSES", 540, 250),
    App("net", "SERVERS", 470, 210),
    App("cron", "CRON", 470, 210),
    App("audit", "AUDIT", 540, 300)
  ]

  const TILE := 50
  const GAP := 12
  const PAD := 14
  const BOTTOM := 18

  /** The app whose dock tile, right and bottom edge included, holds the point. */
  function DockHit(x: int, y: int): Option<string> {
    var dockW := |APPS| * TILE + (|APPS| - 1) * GAP + PAD * 2;
    DockHitFrom(0, (W - dockW) / 2 + PAD, H - TILE - PAD * 2 - BOTTOM + PAD, x, y)
  }

  function DockHitFrom(i: nat, left: int, top: int, x: int, y: int): Option<string>
    requires i <= |APPS|
    decreases |APPS| - i, left  // a second component keeps Dafny from unrolling the whole table
  {
    if i == |APPS| then None
    else if left <= x <= left + TILE && top <= y <= top + TILE then Some(APPS[i].id)
    else DockHitFrom(i + 1, left + TILE + GAP, top, x, y)
  }

  function FindApp(id: string): Option<App> {
    FindAppFrom(0, id)
  }

  function FindAppFrom(i: nat, id: string): (r: Option<App>)
    requires i <= |APPS|
    ensures r.Some? ==> r.value in APPS && r.value.id == id
    decreases |APPS| - i, id
  {
    if i == |APPS| then None else if APPS[i].id == id then Some(APPS[i]) else FindAppFrom(i + 1, id)
  }

  // ----- windows -----

  datatype View = View(id: nat, app: string, title: string, x: int, y: int, w: int, h: int)

  datatype Drag = Drag(id: nat, ox: int, oy: int)

  /** `front` lists the windows front to back; `issued` counts the windows ever opened. */
  datatype Desk = Desk(front: seq<View>, issued: nat, drag: Option<Drag>)

  datatype Event =
    | Launch(app: string)
    | Raise(id: nat)
    | Close(id: nat)
    | PointerDown(x: int, y: int)
    | PointerMove(x: int, y: int)
    | PointerUp

  /** Right and bottom edge included, as in hit testing. */
  predicate Hits(v: View, x: int, y: int) {
    v.x <= x <= v.x + v.w && v.y <= y <= v.y + v.h
  }

  /** The position of a window in the list, or its length. */
  function IndexOf(front: seq<View>, id: nat): (k: nat)
    ensures k <= |front|
    ensures k < |front| ==> front[k].id == id
    ensures forall j :: 0 <= j < k ==> front[j].id != id
  {
    if front == [] || front[0].id == id then 0 else 1 + IndexOf(front[1..], id)
  }

  function IndexOfApp(front: seq<View>, app: string): (k: nat)
    ensures k <= |front|
    ensures k < |front| ==> front[k].app == app
    ensures forall j :: 0 <= j < k ==> front[j].app != app
  {
    if front == [] || front[0].app == app then 0 else 1 + IndexOfApp(front[1..], app)
  }

  /** The position of the first window that holds the point, or the length of the list. */
  function TopAt(front: seq<View>, x: int, y: int): (k: nat)
    ensures k <= |front|
    ensures k < |front| ==> Hits(front[k], x, y)
    ensures forall j :: 0 <= j < k ==> !Hits(front[j], x, y)
  {
    if front == [] || Hits(front[0], x, y) then 0 else 1 + TopAt(front[1..], x, y)
  }

  function Without<T>(s: seq<T>, k: nat): seq<T> {
    if k < |s| then s[..k] + s[k + 1..] else s
  }

  function ToFront<T>(s: seq<T>, k: nat): seq<T> {
    if k < |s| then [s[k]] + Without(s, k) else s
  }

  function RaiseIn(d: Desk, id: nat): Desk {
    d.(front := ToFront(d.front, IndexOf(d.front, id)))
  }

  function CloseIn(d: Desk, id: nat): Desk {
    d.(front := Without(d.front, IndexOf(d.front, id)))
  }

  function NewView(app: App, id: nat, n: nat): View {
    View(id, app.id, app.title, 40 + n % 6 * 36, PANEL_H + 18 + n % 6 * 30, app.w, app.h)
  }

  function LaunchIn(d: Desk, app: string): Desk {
    match FindApp(app)
    case None => d
    case Some(def) =>
      var k := IndexOfApp(d.front, app);
      if k < |d.front| then d.(front := ToFront(d.front, k))
      else d.(front := [NewView(def, d.issued + 1, |d.front|)] + d.front, issued := d.issued + 1)
  }

  function Clamp(lo: int, hi: int, v: int): int {
    var m := if v < hi then v else hi;
    if m < lo then lo else m
  }

  function DraggedTo(v: View, g: Drag, x: int, y: int): View {
    v.(x := Clamp(-v.w + 80, W - 80, x - g.ox), y := Clamp(PANEL_H, H - 40, y - g.oy))
  }

  predicate OnCloseButton(v: View, x: int, y: int) {
    var dx, dy := x - (v.x + 14), y - (v.y + 11);
    dx * dx + dy * dy <= 49
  }

  function DownIn(d: Desk, x: int, y: int): Desk {
    var k := TopAt(d.front, x, y);
    if k == |d.front| then
      match DockHit(x, y)
      case None => d
      case Some(app) => LaunchIn(d, app)
    else
      var v, d1 := d.front[k], d.(front := ToFront(d.front, k));
      if OnCloseButton(v, x, y) then d1.(front := d1.front[1..])
      else if y <= v.y + TITLE_H then d1.(drag := Some(Drag(v.id, x - v.x, y - v.y)))
      else d1
  }

  function MoveIn(d: Desk, x: int, y: int): Desk {
    if d.drag.None? then d
    else
      var k := IndexOf(d.front, d.drag.value.id);
      if k == |d.front| then d else d.(front := d.front[k := DraggedTo(d.front[k], d.drag.value, x, y)])
  }

  function Step(d: Desk, e: Event): Desk {
    match e
    case Launch(app) => LaunchIn(d, app)
    case Raise(id) => RaiseIn(d, id)
    case Close(id) => CloseIn(d, id)
    case PointerDown(x, y) => DownIn(d, x, y)
    case PointerMove(x, y) => MoveIn(d, x, y)
    case PointerUp => d.(drag := None)
  }

  function Run(d: Desk, es: seq<Event>): Desk
    decreases |es|
  {
    if es == [] then d else Run(Step(d, es[0]), es[1..])
  }

  const EMPTY_DESK := Desk([], 0, None)

  /** A fresh desktop opens with three windows. */
  function FreshDesk(): Desk {
    LaunchIn(LaunchIn(LaunchIn(EMPTY_DESK, "system"), "services"), "audit")
  }

  // ----- what every desktop keeps -----

  /** Ids and apps are not shared, and every window can be reached with the pointer. */
  predicate Inv(d: Desk) {
    && (forall i :: 0 <= i < |d.front| ==> Good(d.front[i], d.issued))
    && (forall i, j :: 0 <= i < j < |d.front| ==>
          d.front[i].id != d.front[j].id && d.front[i].app != d.front[j].app)
  }

  predicate Good(v: View, issued: nat) {
    1 <= v.id <= issued && Reachable(v) && App(v.app, v.title, v.w, v.h) in APPS
  }

  predicate Reachable(v: View) {
    PANEL_H <= v.y <= H - 40 && 80 - v.w <= v.x <= W - 80
  }

  lemma AppsAreWide(a: App)
    requires a in APPS
    ensures a.w >= 80
  {}

  /** Some of the windows of a desktop, in any order, each at most once. */
  lemma RearrangedKeeps(d: Desk, t: seq<View>, from: seq<nat>)
    requires Inv(d) && |from| == |t|
    requires forall i :: 0 <= i < |t| ==> from[i] < |d.front| && t[i] == d.front[from[i]]
    requires forall i, j :: 0 <= i < j < |t| ==> from[i] != from[j]
    ensures Inv(d.(front := t))
  {
    forall i, j | 0 <= i < j < |t| ensures t[i].id != t[j].id && t[i].app != t[j].app {
      assert from[i] < from[j] || from[j] < from[i];
    }
  }

  function Skip(n: nat, k: nat): (from: seq<nat>)
    requires k < n
    ensures |from| == n - 1
    ensures forall i :: 0 <= i < n - 1 ==> from[i] == if i < k then i else i + 1
  {
    seq(n - 1, i => if i < k then i else i + 1)
  }

  function FirstThenSkip(n: nat, k: nat): (from: seq<nat>)
    requires k < n
    ensures |from| == n
    ensures forall i :: 0 <= i < n ==> from[i] == if i == 0 then k else if i <= k then i - 1 else i
  {
    seq(n, i => if i == 0 then k else if i <= k then i - 1 else i)
  }

  lemma WithoutKeeps(d: Desk, k: nat)
    requires Inv(d) && k < |d.front|
    ensures Inv(d.(front := Without(d.front, k)))
  {
    RearrangedKeeps(d, Without(d.front, k), Skip(|d.front|, k));
  }

  lemma ToFrontKeeps(d: Desk, k: nat)
    requires Inv(d) && k < |d.front|
    ensures Inv(d.(front := ToFront(d.front, k)))
  {
    ToFrontAt(d.front, k);
    RearrangedKeeps(d, ToFront(d.front, k), FirstThenSkip(|d.front|, k));
  }

  lemma ToFrontAt<T>(s: seq<T>, k: nat)
    requires k < |s|
    ensures |ToFront(s, k)| == |s| && ToFront(s, k)[1..] == Without(s, k)
    ensures forall i :: 0 <= i < |s| ==> ToFront(s, k)[i] == s[FirstThenSkip(|s|, k)[i]]
  {
    var rest := Without(s, k);
    assert forall i :: 0 <= i < |rest| ==> rest[i] == s[if i < k then i else i + 1];
    assert forall i :: 1 <= i < |s| ==> ToFront(s, k)[i] == rest[i - 1];
  }

  /** A new window in front. */
  lemma OpenedKeeps(d: Desk, v: View)
    requires Inv(d) && Good(v, d.issued + 1) && v.id == d.issued + 1
    requires forall i :: 0 <= i < |d.front| ==> d.front[i].app != v.app
    ensures Inv(d.(front := [v] + d.front, issued := d.issued + 1))
  {
    var t := [v] + d.front;
    forall i | 0 <= i < |t| ensures Good(t[i], d.issued + 1) {
      if i > 0 { assert t[i] == d.front[i - 1]; }
    }
    forall i, j | 0 <= i < j < |t| ensures t[i].id != t[j].id && t[i].app != t[j].app {
      assert t[j] == d.front[j - 1];
      if i > 0 { assert t[i] == d.front[i - 1]; }
    }
  }

  lemma LaunchKeeps(d: Desk, app: string)
    requires Inv(d)
    ensures Inv(LaunchIn(d, app))
  {
    var def, k := FindApp(app), IndexOfApp(d.front, app);
    if def.Some? {
      if k < |d.front| {
        ToFrontKeeps(d, k);
      } else {
        AppsAreWide(def.value);
        OpenedKeeps(d, NewView(def.value, d.issued + 1, |d.front|));
      }
    }
  }

  lemma DownKeeps(d: Desk, x: int, y: int)
    requires Inv(d)
    ensures Inv(DownIn(d, x, y))
  {
    var k := TopAt(d.front, x, y);
    if k == |d.front| {
      if DockHit(x, y).Some? { LaunchKeeps(d, DockHit(x, y).value); }
    } else {
      ToFrontKeeps(d, k);
      WithoutKeeps(d, k);
      ToFrontAt(d.front, k);
    }
  }

  lemma MoveKeeps(d: Desk, x: int, y: int)
    requires Inv(d)
    ensures Inv(MoveIn(d, x, y))
  {
    if d.drag.Some? {
      var k := IndexOf(d.front, d.drag.value.id);
      if k < |d.front| {
        var v := d.front[k];
        AppsAreWide(App(v.app, v.title, v.w, v.h));
        assert Good(DraggedTo(v, d.drag.value, x, y), d.issued);
      }
    }
  }

  lemma StepKeeps(d: Desk, e: Event)
    requires Inv(d)
    ensures Inv(Step(d, e))
  {
    match e
    case Launch(app) => LaunchKeeps(d, app);
    case Raise(id) => if IndexOf(d.front, id) < |d.front| { ToFrontKeeps(d, IndexOf(d.front, id)); }
    case Close(id) => if IndexOf(d.front, id) < |d.front| { WithoutKeeps(d, IndexOf(d.front, id)); }
    case PointerDown(x, y) => DownKeeps(d, x, y);
    case PointerMove(x, y) => MoveKeeps(d, x, y);
    case PointerUp =>
  }

  lemma {:induction false} RunKeeps(d: Desk, es: seq<Event>)
    requires Inv(d)
    ensures Inv(Run(d, es))
    decreases |es|
  {
    if es != [] {
      StepKeeps(d, es[0]);
      RunKeeps(Step(d, es[0]), es[1..]);
    }
  }

  /** In every state a fresh desktop can reach, there is at most one window per app, ids are unique,
      and every window lies below the panel with its whole title bar's height and at least 80 pixels
      of its width on screen. */
  lemma EveryWindowIsReachable(es: seq<Event>)
    ensures var d := Run(FreshDesk(), es);
            && (forall i, j :: 0 <= i < j < |d.front| ==>
                  d.front[i].id != d.front[j].id && d.front[i].app != d.front[j].app)
            && (forall i :: 0 <= i < |d.front| ==> OnScreen(d.front[i]))
  {
    FreshKeeps();
    RunKeeps(FreshDesk(), es);
    var d := Run(FreshDesk(), es);
    forall i | 0 <= i < |d.front| ensures OnScreen(d.front[i]) {
      var v := d.front[i];
      assert Good(v, d.issued);
      AppsAreWide(App(v.app, v.title, v.w, v.h));
    }
  }

  /** The title bar is below the panel, on screen in its whole height and in 80 pixels of its width. */
  predicate OnScreen(v: View) {
    PANEL_H <= v.y && v.y + TITLE_H <= H && Min(v.x + v.w, W) - Max(v.x, 0) >= 80
  }

  lemma FreshKeeps()
    ensures Inv(FreshDesk())
  {
    LaunchKeeps(EMPTY_DESK, "system");
    LaunchKeeps(LaunchIn(EMPTY_DESK, "system"), "services");
    LaunchKeeps(LaunchIn(LaunchIn(EMPTY_DESK, "system"), "services"), "audit");
  }

  // ----- dragging -----

  predicate AllMoves(es: seq<Event>) {
    forall e :: e in es ==> e.PointerMove?
  }

  lemma MovedTwice(v: View, g: Drag, x: int, y: int, x': int, y': int)
    ensures DraggedTo(DraggedTo(v, g, x, y), g, x', y') == DraggedTo(v, g, x', y')
  {}

  /** A window keeps its place when it is replaced by one with its id. */
  lemma IndexKept(front: seq<View>, id: nat, v: View)
    requires v.id == id && IndexOf(front, id) < |front|
    ensures var k := IndexOf(front, id); IndexOf(front[k := v], id) == k
  {
    var k := IndexOf(front, id);
    var t := front[k := v];
    assert t[k].id == id;
    assert forall j :: 0 <= j < k ==> t[j] == front[j];
  }

  /** One move of a window that is open. */
  lemma MovesOnce(d: Desk, x: int, y: int)
    requires d.drag.Some? && IndexOf(d.front, d.drag.value.id) < |d.front|
    ensures var g, k := d.drag.value, IndexOf(d.front, d.drag.value.id);
            && MoveIn(d, x, y) == d.(front := d.front[k := DraggedTo(d.front[k], g, x, y)])
            && IndexOf(MoveIn(d, x, y).front, g.id) == k
  {
    var g, k := d.drag.value, IndexOf(d.front, d.drag.value.id);
    IndexKept(d.front, g.id, DraggedTo(d.front[k], g, x, y));
  }

  lemma {:induction false} DragIsOneMove(d: Desk, es: seq<Event>)
    requires d.drag.Some? && IndexOf(d.front, d.drag.value.id) < |d.front|
    requires es != [] && AllMoves(es)
    ensures var last := es[|es| - 1]; last.PointerMove? && Run(d, es) == MoveIn(d, last.x, last.y)
    decreases |es|
  {
    var e, last := es[0], es[|es| - 1];
    assert e in es && last in es;
    MovesOnce(d, e.x, e.y);
    if |es| == 1 {
      assert es[1..] == [] && Run(Step(d, e), []) == Step(d, e);
    } else {
      assert es[1..][|es| - 2] == last;
      DragIsOneMove(Step(d, e), es[1..]);
      MovesTwice(d, e.x, e.y, last.x, last.y);
    }
  }

  lemma MovesTwice(d: Desk, x: int, y: int, x': int, y': int)
    requires d.drag.Some? && IndexOf(d.front, d.drag.value.id) < |d.front|
    ensures MoveIn(MoveIn(d, x, y), x', y') == MoveIn(d, x', y')
  {
    var g, k := d.drag.value, IndexOf(d.front, d.drag.value.id);
    MovesOnce(d, x, y);
    MovesOnce(d, x', y');
    MovesOnce(MoveIn(d, x, y), x', y');
    MovedTwice(d.front[k], g, x, y, x', y');
  }

  /** Within one drag only the last pointer position counts: whatever moves came before, and wherever
      clamping stopped them, the window ends where a single move would have put it; nothing else
      changes, not even the order. */
  lemma DragIsPathIndependent(d: Desk, es: seq<Event>)
    requires d.drag.Some? && IndexOf(d.front, d.drag.value.id) < |d.front|
    requires es != [] && AllMoves(es)
    ensures var k, last := IndexOf(d.front, d.drag.value.id), es[|es| - 1];
            && last.PointerMove?
            && Run(d, es) == d.(front := d.front[k := DraggedTo(d.front[k], d.drag.value, last.x, last.y)])
  {
    DragIsOneMove(d, es);
    MovesOnce(d, es[|es| - 1].x, es[|es| - 1].y);
  }

  // ----- what the pointer does -----

  /** The point is on the round close button, 7 pixels about (14, 11) inside the window. */
  predicate OnClose(v: View, x: int, y: int) {
    (x - v.x - 14) * (x - v.x - 14) + (y - v.y - 11) * (y - v.y - 11) <= 49
  }

  lemma OnCloseIs(v: View, x: int, y: int)
    ensures OnClose(v, x, y) <==> OnCloseButton(v, x, y)
  {
    assert x - v.x - 14 == x - (v.x + 14) && y - v.y - 11 == y - (v.y + 11);
  }

  /** The list with its k-th window gone, and with it in front. */
  function Dropped(front: seq<View>, k: nat): seq<View>
    requires k < |front|
  {
    front[..k] + front[k + 1..]
  }

  /** A press acts on the first window that holds the point: it closes it on the close button, and
      elsewhere brings it to the front, others keeping their order.  Above or on the lower edge of the
      title bar, 22 pixels high, it also starts a drag of that window, and below it leaves the drag alone. */
  lemma PressDoes(d: Desk, x: int, y: int, k: nat)
    requires k == TopAt(d.front, x, y) < |d.front|
    ensures var v, d' := d.front[k], DownIn(d, x, y);
            && d'.issued == d.issued
            && d'.front == (if OnClose(v, x, y) then [] else [v]) + Dropped(d.front, k)
            && (OnClose(v, x, y) || y > v.y + 22 ==> d'.drag == d.drag)
            && (!OnClose(v, x, y) && y <= v.y + 22 ==> d'.drag.Some? && d'.drag.value.id == v.id)
  {
    OnCloseIs(d.front[k], x, y);
    ToFrontAt(d.front, k);
  }

  /** On the title bar, off the close button. */
  predicate OnTitleBar(v: View, x: int, y: int) {
    Hits(v, x, y) && !OnClose(v, x, y) && y <= v.y + 22
  }

  lemma PressGrabs(d: Desk, x: int, y: int, k: nat, v: View)
    requires k == TopAt(d.front, x, y) < |d.front| && v == d.front[k] && OnTitleBar(v, x, y)
    ensures DownIn(d, x, y).front == [v] + Dropped(d.front, k)
    ensures DownIn(d, x, y).drag == Some(Drag(v.id, x - v.x, y - v.y))
  {
    PressDoes(d, x, y, k);
    OnCloseIs(v, x, y);
  }

  /** The head of the list, dragged with a grab offset. */
  lemma HeadIsDragged(d: Desk, v: View, rest: seq<View>, g: Drag, es: seq<Event>)
    requires d.front == [v] + rest && d.drag == Some(g) && g.id == v.id
    requires es != [] && AllMoves(es)
    ensures var last := es[|es| - 1];
            last.PointerMove? && Run(d, es).front == [DraggedTo(v, g, last.x, last.y)] + rest
  {
    assert d.front[0] == v && IndexOf(d.front, v.id) == 0;
    DragIsPathIndependent(d, es);
    HeadReplaced(v, DraggedTo(v, g, es[|es| - 1].x, es[|es| - 1].y), rest);
  }

  lemma HeadReplaced(v: View, v': View, rest: seq<View>)
    ensures ([v] + rest)[0 := v'] == [v'] + rest
  {}

  /** A window carried along with the pointer, the way from (x, y) to (x', y'). */
  function Carried(v: View, x: int, y: int, x': int, y': int): View {
    v.(x := Clamp(80 - v.w, 1020, v.x + (x' - x)), y := Clamp(28, 680, v.y + (y' - y)))
  }

  lemma DraggedIsCarried(v: View, id: nat, x: int, y: int, x': int, y': int)
    ensures DraggedTo(v, Drag(id, x - v.x, y - v.y), x', y') == Carried(v, x, y, x', y')
  {
    assert x' - (x - v.x) == v.x + (x' - x) && y' - (y - v.y) == v.y + (y' - y);
  }

  lemma GrabbedFollows(d: Desk, v: View, rest: seq<View>, x: int, y: int, es: seq<Event>)
    requires d.front == [v] + rest && d.drag == Some(Drag(v.id, x - v.x, y - v.y))
    requires es != [] && AllMoves(es)
    ensures var last := es[|es| - 1];
            last.PointerMove? && Run(d, es).front == [Carried(v, x, y, last.x, last.y)] + rest
  {
    var last := es[|es| - 1];
    HeadIsDragged(d, v, rest, Drag(v.id, x - v.x, y - v.y), es);
    DraggedIsCarried(v, v.id, x, y, last.x, last.y);
  }

  /** The window follows the pointer: pressed on its title bar at (x, y) and moved anyhow, it stands where
      the pointer's way from there takes it, clamped, in front of the others, and nothing else changed. */
  lemma WindowFollowsPointer(d: Desk, x: int, y: int, k: nat, es: seq<Event>)
    requires k == TopAt(d.front, x, y) < |d.front| && OnTitleBar(d.front[k], x, y)
    requires es != [] && AllMoves(es)
    ensures var last := es[|es| - 1];
            last.PointerMove?
            && Run(DownIn(d, x, y), es).front == [Carried(d.front[k], x, y, last.x, last.y)] + Dropped(d.front, k)
  {
    var v, d1, rest := d.front[k], DownIn(d, x, y), Dropped(d.front, k);
    assert d1.front == [v] + rest && d1.drag == Some(Drag(v.id, x - v.x, y - v.y)) by {
      PressGrabs(d, x, y, k, v);
    }
    GrabbedFollows(d1, v, rest, x, y, es);
  }

  /** What Clamp does: the nearest number between lo and hi, when there is any. */
  lemma ClampIsNearest(lo: int, hi: int, v: int, m: int)
    requires lo <= m <= hi
    ensures lo <= Clamp(lo, hi, v) <= hi
    ensures v <= Clamp(lo, hi, v) <= m || m <= Clamp(lo, hi, v) <= v || Clamp(lo, hi, v) == v
  {}

  lemma {:induction false} NoDragNoMove(d: Desk, es: seq<Event>)
    requires d.drag.None? && AllMoves(es)
    ensures Run(d, es) == d
    decreases |es|
  {
    if es != [] {
      assert es[0] in es;
      assert forall e :: e in es[1..] ==> e in es;
      NoDragNoMove(d, es[1..]);
    }
  }

  /** Once the pointer is up, moves change nothing. */
  lemma ReleaseEndsDrag(d: Desk, es: seq<Event>)
    requires AllMoves(es)
    ensures Run(Step(d, PointerUp), es) == d.(drag := None)
  {
    NoDragNoMove(d.(drag := None), es);
  }

  lemma DockBegins(x: int, y: int)
    ensures DockHit(x, y) == DockHitFrom(0, 339, 638, x, y)
  {}

  /** Off all windows, a press within dock tile i launches app i, the tiles being 50 by 50 from (339, 638)
      on, 62 apart, with their edges. */
  lemma PressOnDock(d: Desk, x: int, y: int, i: nat)
    requires TopAt(d.front, x, y) == |d.front| && i < |APPS|
    requires 339 + 62 * i <= x <= 389 + 62 * i && 638 <= y <= 688
    ensures DownIn(d, x, y) == Step(d, Launch(APPS[i].id))
  {
    assert DockHit(x, y) == Some(APPS[i].id) by {
      DockBegins(x, y);
      DockFrom(0, 339, x, y, i);
    }
  }

  lemma {:induction false} DockFrom(j: nat, left: int, x: int, y: int, i: nat)
    requires j <= i < |APPS| && left == 339 + 62 * j
    requires 339 + 62 * i <= x <= 389 + 62 * i && 638 <= y <= 688
    ensures DockHitFrom(j, left, 638, x, y) == Some(APPS[i].id)
    decreases i - j
  {
    if j < i {
      DockFrom(j + 1, left + 62, x, y, i);
    }
  }

  /** And between and outside the tiles it does nothing. */
  lemma PressBesideDock(d: Desk, x: int, y: int)
    requires TopAt(d.front, x, y) == |d.front|
    requires forall i :: 0 <= i < |APPS| ==> !(339 + 62 * i <= x <= 389 + 62 * i && 638 <= y <= 688)
    ensures DownIn(d, x, y) == d
  {
    assert DockHit(x, y) == None by {
      DockBegins(x, y);
      NoTileFrom(0, 339, x, y);
    }
  }

  lemma {:induction false} NoTileFrom(j: nat, left: int, x: int, y: int)
    requires j <= |APPS| && left == 339 + 62 * j
    requires forall i :: 0 <= i < |APPS| ==> !(339 + 62 * i <= x <= 389 + 62 * i && 638 <= y <= 688)
    ensures DockHitFrom(j, left, 638, x, y) == None
    decreases |APPS| - j
  {
    if j < |APPS| {
      NoTileFrom(j + 1, left + 62, x, y);
    }
  }

  // ----- what launching does -----

  lemma UnknownAppOpensNothing(d: Desk, app: string)
    requires forall a :: a in APPS ==> a.id != app
    ensures LaunchIn(d, app) == d
  {}

  /** Launching an app that has a window brings that window to the front. */
  lemma LaunchRaises(d: Desk, a: App, k: nat)
    requires a in APPS && k < |d.front| && d.front[k].app == a.id
    requires forall j :: 0 <= j < k ==> d.front[j].app != a.id
    ensures LaunchIn(d, a.id) == d.(front := [d.front[k]] + Dropped(d.front, k))
  {
    AppIsFound(a);
    assert IndexOfApp(d.front, a.id) == k;
  }

  /** Launching an app that has none puts a new window there, of the app's size, each 36 further right and
      30 further down than with one window less, from (40, 46) on and over again after six. */
  lemma LaunchOpens(d: Desk, a: App, n: nat)
    requires a in APPS && n < 6 && |d.front| % 6 == n
    requires forall j :: 0 <= j < |d.front| ==> d.front[j].app != a.id
    ensures LaunchIn(d, a.id) == d.(
              front := [View(d.issued + 1, a.id, a.title, 40 + 36 * n, 46 + 30 * n, a.w, a.h)] + d.front,
              issued := d.issued + 1)
  {
    AppIsFound(a);
  }

  lemma AppIsFound(a: App)
    requires a in APPS
    ensures FindApp(a.id) == Some(a)
  {
    var i :| 0 <= i < |APPS| && APPS[i] == a;
    AppFrom(0, i);
  }

  lemma {:induction false} AppFrom(j: nat, i: nat)
    requires j <= i < |APPS|
    ensures FindAppFrom(j, APPS[i].id) == Some(APPS[i])
    decreases i - j
  {
    if j < i {
      AppFrom(j + 1, i);
    }
  }

  predicate IsOpen(d: Desk, id: nat) {
    IndexOf(d.front, id) < |d.front|
  }

  /** No window of the list has the id. */
  predicate Absent(front: seq<View>, id: nat) {
    forall i :: 0 <= i < |front| ==> front[i].id != id
  }

  lemma NotOpenMeans(d: Desk, id: nat)
    ensures !IsOpen(d, id) <==> Absent(d.front, id)
  {}

  lemma AbsentRearranged(front: seq<View>, k: nat, id: nat)
    requires Absent(front, id) && k < |front|
    ensures Absent(Without(front, k), id) && Absent(ToFront(front, k), id)
  {
    var s := Without(front, k);
    assert forall i :: 0 <= i < |s| ==> s[i] == front[if i < k then i else i + 1];
  }

  lemma LaunchOpensOnlyNew(d: Desk, app: string, id: nat)
    requires id <= d.issued && Absent(d.front, id)
    ensures id <= LaunchIn(d, app).issued && Absent(LaunchIn(d, app).front, id)
  {
    var k := IndexOfApp(d.front, app);
    if k < |d.front| { AbsentRearranged(d.front, k, id); }
  }

  lemma DownOpensOnlyNew(d: Desk, x: int, y: int, id: nat)
    requires id <= d.issued && Absent(d.front, id)
    ensures id <= DownIn(d, x, y).issued && Absent(DownIn(d, x, y).front, id)
  {
    var k := TopAt(d.front, x, y);
    if k < |d.front| {
      AbsentRearranged(d.front, k, id);
      ToFrontAt(d.front, k);
    } else if DockHit(x, y).Some? {
      LaunchOpensOnlyNew(d, DockHit(x, y).value, id);
    }
  }

  lemma StepOpensOnlyNew(d: Desk, e: Event, id: nat)
    requires id <= d.issued && !IsOpen(d, id)
    ensures id <= Step(d, e).issued && !IsOpen(Step(d, e), id)
  {
    NotOpenMeans(d, id);
    NotOpenMeans(Step(d, e), id);
    match e
    case Launch(app) => LaunchOpensOnlyNew(d, app, id);
    case Raise(r) => if IndexOf(d.front, r) < |d.front| { AbsentRearranged(d.front, IndexOf(d.front, r), id); }
    case Close(r) => if IndexOf(d.front, r) < |d.front| { AbsentRearranged(d.front, IndexOf(d.front, r), id); }
    case PointerDown(x, y) => DownOpensOnlyNew(d, x, y, id);
    case PointerMove(x, y) =>
    case PointerUp =>
  }

  /** A closed window's id never comes back, so a drag left over from it moves nothing, ever. */
  lemma {:induction false} StaleDragIsHarmless(d: Desk, es: seq<Event>, id: nat, x: int, y: int)
    requires Inv(d) && id <= d.issued && !IsOpen(d, id)
    ensures !IsOpen(Run(d, es), id)
    ensures Run(d, es).drag.Some? && Run(d, es).drag.value.id == id ==>
              Step(Run(d, es), PointerMove(x, y)) == Run(d, es)
    decreases |es|
  {
    if es != [] {
      StepOpensOnlyNew(d, es[0], id);
      StepKeeps(d, es[0]);
      StaleDragIsHarmless(Step(d, es[0]), es[1..], id, x, y);
    }
  }
}
