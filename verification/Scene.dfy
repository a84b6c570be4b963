/** The window loop of `composeDesktop` in kernel/src/desktop/scene.ts, as far as it decides which
    window a point of the screen shows.

    A window paints the rectangle from its corner up to, but not including, its right and bottom edge
    line; hit testing includes those lines.  Shadows, rounded corners and the dock are not counted.
 */
module Scene {
  import opened Wrappers
  import opened Desktop
  import opened WindowManager

  predicate Paints(v: View, x: int, y: int) {
    v.x <= x < v.x + v.w && v.y <= y < v.y + v.h
  }

  /** The window that a point shows after painting the windows in the given order. */
  method PaintPoint(windows: seq<Window>, x: int, y: int) returns (shown: Option<nat>)
    ensures shown == Shown(Views(windows), x, y)
  {
    shown := None;
    var i := 0;
    while i < |windows|
      invariant 0 <= i <= |windows|
      invariant shown == Shown(Views(windows)[..i], x, y)
    {
      if Paints(ViewOf(windows[i]), x, y) {
        shown := Some(windows[i].id);
      }
      assert Views(windows)[..i + 1] == Views(windows)[..i] + [ViewOf(windows[i])];
      ShownSnoc(Views(windows)[..i], ViewOf(windows[i]), x, y);
      i := i + 1;
    }
    assert Views(windows)[..i] == Views(windows);
  }

  /** The window loop of `composeDesktop`, for one point. */
  method ComposePoint(wm: WindowManagerObject, x: int, y: int) returns (shown: Option<nat>)
    requires wm.Valid()
    ensures shown == Shown(Reverse(wm.Model().front), x, y)
  {
    var order := wm.Ordered();
    shown := PaintPoint(order, x, y);
  }

  /** The last of the windows to paint the point. */
  function Shown(order: seq<View>, x: int, y: int): Option<nat> {
    if order == [] then None
    else
      var later := Shown(order[1..], x, y);
      if later.Some? then later else if Paints(order[0], x, y) then Some(order[0].id) else None
  }

  lemma {:induction false} ShownSnoc(order: seq<View>, v: View, x: int, y: int)
    ensures Shown(order + [v], x, y)
         == if Paints(v, x, y) then Some(v.id) else Shown(order, x, y)
  {
    if order == [] {
      assert order + [v] == [v] && [v][1..] == [];
    } else {
      assert (order + [v])[1..] == order[1..] + [v];
      ShownSnoc(order[1..], v, x, y);
    }
  }

  /** The window hit testing finds. */
  function HitId(front: seq<View>, x: int, y: int): Option<nat> {
    var k := TopAt(front, x, y);
    if k < |front| then Some(front[k].id) else None
  }

  /** Painting the list from its end shows the first window that covers the point. */
  lemma {:induction false} ShownInReverse(front: seq<View>, x: int, y: int)
    ensures Shown(Reverse(front), x, y)
         == if front == [] then None
            else if Paints(front[0], x, y) then Some(front[0].id)
            else Shown(Reverse(front[1..]), x, y)
  {
    if front != [] {
      assert Reverse(front) == Reverse(front[1..]) + [front[0]];
      ShownSnoc(Reverse(front[1..]), front[0], x, y);
    }
  }

  predicate OnFarEdge(v: View, x: int, y: int) {
    x == v.x + v.w || y == v.y + v.h
  }

  /** The front window that is hit decides: unless the point is on its right or bottom edge line,
      it is also the one that is shown. */
  lemma {:induction false} ShownIsHit(front: seq<View>, x: int, y: int)
    requires var k := TopAt(front, x, y); k < |front| ==> !OnFarEdge(front[k], x, y)
    ensures Shown(Reverse(front), x, y) == HitId(front, x, y)
  {
    ShownInReverse(front, x, y);
    if front != [] && !Hits(front[0], x, y) {
      ShownIsHit(front[1..], x, y);
    }
  }

  /** On such a line, the window below is shown or nothing is, and the click goes elsewhere. */
  lemma {:induction false} EdgeIsNotShown(front: seq<View>, x: int, y: int, k: nat)
    requires k == TopAt(front, x, y) < |front| && OnFarEdge(front[k], x, y)
    requires forall i, j :: 0 <= i < j < |front| ==> front[i].id != front[j].id
    ensures Shown(Reverse(front), x, y) != Some(front[k].id)
  {
    ShownInReverse(front, x, y);
    if k > 0 {
      EdgeIsNotShown(front[1..], x, y, k - 1);
    } else {
      ShownIsListed(front[1..], x, y);
    }
  }

  lemma {:induction false} ShownIsListed(front: seq<View>, x: int, y: int)
    ensures Shown(Reverse(front), x, y).Some? ==>
      exists j :: 0 <= j < |front| && front[j].id == Shown(Reverse(front), x, y).value
  {
    ShownInReverse(front, x, y);
    if front != [] && !Paints(front[0], x, y) {
      ShownIsListed(front[1..], x, y);
      if Shown(Reverse(front[1..]), x, y).Some? {
        var j :| 0 <= j < |front[1..]| && front[1..][j].id == Shown(Reverse(front), x, y).value;
        assert front[j + 1] == front[1..][j];
      }
    }
  }

  /** In every desktop that can be reached, the window under the pointer is the window on show,
      exactly at the points that are not on the right or bottom edge line of the window hit. */
  lemma PainterAgreesWithHitTesting(es: seq<Event>, x: int, y: int)
    ensures var front := Run(FreshDesk(), es).front;
            var k := TopAt(front, x, y);
            Shown(Reverse(front), x, y) == HitId(front, x, y)
            <==> (k == |front| || !OnFarEdge(front[k], x, y))
  {
    FreshKeeps();
    RunKeeps(FreshDesk(), es);
    var front := Run(FreshDesk(), es).front;
    var k := TopAt(front, x, y);
    if k == |front| || !OnFarEdge(front[k], x, y) {
      ShownIsHit(front, x, y);
    } else {
      EdgeIsNotShown(front, x, y, k);
    }
  }

  /** On the fresh desktop, a click on the right edge line of the audit window, in front at (112, 106)
      and 540 wide, goes to that window, but the screen shows no window there. */
  lemma EdgeClickMisses()
    ensures var front := FreshDesk().front;
            HitId(front, 652, 200) == Some(3) && Shown(Reverse(front), 652, 200) == None
  {
    FreshFront();
    var front := FreshDesk().front;
    var a, b, c := front[0], front[1], front[2];
    assert front[1..] == [b, c] && front[1..][1..] == [c];
    ShownInReverse(front, 652, 200);
    ShownInReverse([b, c], 652, 200);
    ShownInReverse([c], 652, 200);
    assert [b, c][1..] == [c] && [c][1..] == [];
    assert Hits(a, 652, 200);
  }

  lemma FreshFront()
    ensures FreshDesk().front == [View(3, "audit", "AUDIT", 112, 106, 540, 300),
                                  View(2, "services", "SERVICES", 76, 76, 430, 250),
                                  View(1, "system", "SYSTEM", 40, 46, 430, 250)]
  {
    assert FindApp("system") == Some(App("system", "SYSTEM", 430, 250));
    assert FindApp("services") == Some(App("services", "SERVICES", 430, 250));
    assert FindApp("audit") == Some(App("audit", "AUDIT", 540, 300));
    var d1 := LaunchIn(EMPTY_DESK, "system");
    assert d1.front == [View(1, "system", "SYSTEM", 40, 46, 430, 250)];
    var d2 := LaunchIn(d1, "services");
    assert d2.front == [View(2, "services", "SERVICES", 76, 76, 430, 250)] + d1.front;
  }
}
