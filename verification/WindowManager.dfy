/** The window manager of kernel/src/desktop/wm.ts: an unordered array of windows, each with a
    z-counter that grows whenever the window is raised.

    `Model` sorts the array by falling z and forgets the z values.  Every operation is proved to act
    on that list as Desktop.Step says, so the counters implement a plain front-to-back list.
 */
module WindowManager {
  import opened Wrappers
  import opened Desktop

  datatype Window = Window(id: nat, app: string, title: string, x: int, y: int, w: int, h: int, z: nat)

  function ViewOf(v: Window): View {
    View(v.id, v.app, v.title, v.x, v.y, v.w, v.h)
  }

  function Views(s: seq<Window>): (r: seq<View>)
    ensures |r| == |s|
    ensures forall i :: 0 <= i < |s| ==> r[i] == ViewOf(s[i])
  {
    seq(|s|, i requires 0 <= i < |s| => ViewOf(s[i]))
  }

  // ----- sorting by z -----

  predicate Falling(s: seq<Window>) {
    forall i, j :: 0 <= i < j < |s| ==> s[i].z > s[j].z
  }

  predicate DistinctZ(s: seq<Window>) {
    forall i, j :: 0 <= i < j < |s| ==> s[i].z != s[j].z
  }

  predicate DistinctWindows(s: seq<Window>) {
    forall i, j :: 0 <= i < j < |s| ==> s[i] != s[j]
  }

  predicate DistinctIds(s: seq<Window>) {
    forall i, j :: 0 <= i < j < |s| ==> s[i].id != s[j].id
  }

  predicate DistinctApps(s: seq<Window>) {
    forall i, j :: 0 <= i < j < |s| ==> s[i].app != s[j].app
  }

  /** s holds the windows of t, front to back. */
  ghost predicate Sorts(s: seq<Window>, t: seq<Window>) {
    Falling(s) && forall v :: v in s <==> v in t
  }

  function Insert(v: Window, s: seq<Window>): (r: seq<Window>)
    ensures |r| == |s| + 1
  {
    if s == [] || v.z > s[0].z then [v] + s else [s[0]] + Insert(v, s[1..])
  }

  /** `[...windows].sort((a, b) => b.z - a.z)` */
  function SortDown(t: seq<Window>): (r: seq<Window>)
    ensures |r| == |t|
  {
    if t == [] then [] else Insert(t[0], SortDown(t[1..]))
  }

  lemma {:induction false} InsertSorts(v: Window, s: seq<Window>)
    requires Falling(s) && forall i :: 0 <= i < |s| ==> s[i].z != v.z
    ensures Falling(Insert(v, s)) && forall u :: u in Insert(v, s) <==> u == v || u in s
  {
    if s != [] && v.z < s[0].z {
      InsertSorts(v, s[1..]);
      var r := Insert(v, s[1..]);
      forall j | 0 <= j < |r| ensures s[0].z > r[j].z {
        assert r[j] in r;
        if r[j] != v {
          var k :| 0 <= k < |s[1..]| && s[1..][k] == r[j];
          assert s[k + 1] == r[j];
        }
      }
      assert forall u :: u in s <==> u == s[0] || u in s[1..];
    }
  }

  lemma {:induction false} SortDownSorts(t: seq<Window>)
    requires DistinctZ(t)
    ensures Sorts(SortDown(t), t)
  {
    if t != [] {
      SortDownSorts(t[1..]);
      var s := SortDown(t[1..]);
      forall i | 0 <= i < |s| ensures s[i].z != t[0].z {
        assert s[i] in s;
        var k :| 0 <= k < |t[1..]| && t[1..][k] == s[i];
        assert t[k + 1] == s[i];
      }
      InsertSorts(t[0], s);
      assert forall u :: u in t <==> u == t[0] || u in t[1..];
    }
  }

  /** There is only one way to sort windows with different z. */
  lemma {:induction false} SortIsUnique(a: seq<Window>, b: seq<Window>)
    requires Falling(a) && Falling(b) && forall v :: v in a <==> v in b
    ensures a == b
    decreases |a|
  {
    assert a != [] ==> a[0] in a;
    assert b != [] ==> b[0] in b;
    if a != [] {
      var k :| 0 <= k < |b| && b[k] == a[0];
      var l :| 0 <= l < |a| && a[l] == b[0];
      assert a[0] == b[0];
      TailMembers(a);
      TailMembers(b);
      SortIsUnique(a[1..], b[1..]);
    }
  }

  lemma TailMembers(a: seq<Window>)
    requires Falling(a) && a != []
    ensures forall v :: v in a[1..] <==> v in a && v != a[0]
  {
    forall v | v in a && v != a[0] ensures v in a[1..] {
      var k :| 0 <= k < |a| && a[k] == v;
      assert a[1..][k - 1] == v;
    }
    forall v | v in a[1..] ensures v != a[0] {
      var k :| 0 <= k < |a[1..]| && a[1..][k] == v;
      assert a[k + 1] == v;
    }
  }

  lemma SortIs(s: seq<Window>, t: seq<Window>)
    requires Sorts(s, t) && DistinctZ(t)
    ensures SortDown(t) == s
  {
    SortDownSorts(t);
    SortIsUnique(SortDown(t), s);
  }

  predicate Rising(s: seq<Window>) {
    forall i, j :: 0 <= i < j < |s| ==> s[i].z < s[j].z
  }

  function InsertUp(v: Window, s: seq<Window>): (r: seq<Window>)
    ensures |r| == |s| + 1
  {
    if s == [] || v.z < s[0].z then [v] + s else [s[0]] + InsertUp(v, s[1..])
  }

  /** `[...windows].sort((a, b) => a.z - b.z)` */
  function SortUp(t: seq<Window>): (r: seq<Window>)
    ensures |r| == |t|
  {
    if t == [] then [] else InsertUp(t[0], SortUp(t[1..]))
  }

  lemma {:induction false} InsertUpSorts(v: Window, s: seq<Window>)
    requires Rising(s) && forall i :: 0 <= i < |s| ==> s[i].z != v.z
    ensures Rising(InsertUp(v, s)) && forall u :: u in InsertUp(v, s) <==> u == v || u in s
  {
    if s != [] && v.z > s[0].z {
      InsertUpSorts(v, s[1..]);
      var r := InsertUp(v, s[1..]);
      forall j | 0 <= j < |r| ensures s[0].z < r[j].z {
        assert r[j] in r;
        if r[j] != v {
          var k :| 0 <= k < |s[1..]| && s[1..][k] == r[j];
          assert s[k + 1] == r[j];
        }
      }
      assert forall u :: u in s <==> u == s[0] || u in s[1..];
    }
  }

  lemma {:induction false} SortUpSorts(t: seq<Window>)
    requires DistinctZ(t)
    ensures Rising(SortUp(t)) && forall v :: v in SortUp(t) <==> v in t
  {
    if t != [] {
      SortUpSorts(t[1..]);
      var s := SortUp(t[1..]);
      forall i | 0 <= i < |s| ensures s[i].z != t[0].z {
        assert s[i] in s;
        var k :| 0 <= k < |t[1..]| && t[1..][k] == s[i];
        assert t[k + 1] == s[i];
      }
      InsertUpSorts(t[0], s);
      assert forall u :: u in t <==> u == t[0] || u in t[1..];
    }
  }

  /** The program's two sorts, one up and one down, are each other's reverse. */
  lemma SortsAreReverse(t: seq<Window>)
    requires DistinctZ(t)
    ensures SortUp(t) == Reverse(SortDown(t))
  {
    SortUpSorts(t);
    SortDownSorts(t);
    var up := SortUp(t);
    ReverseMembers(up);
    assert Falling(Reverse(up));
    SortIsUnique(Reverse(up), SortDown(t));
    assert up == Reverse(Reverse(up));
  }

  function Reverse<T>(s: seq<T>): (r: seq<T>)
    ensures |r| == |s|
    ensures forall i :: 0 <= i < |s| ==> r[i] == s[|s| - 1 - i]
  {
    seq(|s|, i requires 0 <= i < |s| => s[|s| - 1 - i])
  }

  // ----- what the operations do to the sorted list -----

  /** The array of a window manager whose counters stand at topZ and count. */
  predicate Kept(ws: seq<Window>, topZ: nat, count: nat) {
    && DistinctZ(ws) && DistinctIds(ws) && DistinctApps(ws)
    && (forall i :: 0 <= i < |ws| ==> ws[i].z <= topZ && 1 <= ws[i].id <= count)
  }

  lemma MembersOfUpdate(ws: seq<Window>, i: nat, v: Window)
    requires i < |ws| && DistinctIds(ws)
    ensures forall u :: u in ws[i := v] <==> u == v || (u in ws && u != ws[i])
  {
    var t := ws[i := v];
    forall u | u in ws && u != ws[i] ensures u in t {
      var j :| 0 <= j < |ws| && ws[j] == u;
      assert t[j] == u;
    }
    assert t[i] == v;
    forall u | u in t ensures u == v || (u in ws && u != ws[i]) {
      var j :| 0 <= j < |t| && t[j] == u;
      if j != i { assert ws[j] == u; }
    }
  }

  lemma MembersOfWithout(ws: seq<Window>, i: nat)
    requires i < |ws| && DistinctWindows(ws)
    ensures forall u :: u in Without(ws, i) <==> u in ws && u != ws[i]
  {
    var t := Without(ws, i);
    forall u | u in ws && u != ws[i] ensures u in t {
      var j :| 0 <= j < |ws| && ws[j] == u;
      assert t[if j < i then j else j - 1] == u;
    }
    forall u | u in t ensures u in ws && u != ws[i] {
      var j :| 0 <= j < |t| && t[j] == u;
      assert ws[if j < i then j else j + 1] == u;
    }
  }

  /** The window at position i of the array, by its id, in the sorted list. */
  lemma Located(ws: seq<Window>, topZ: nat, count: nat, i: nat)
    requires Kept(ws, topZ, count) && i < |ws|
    ensures var front := SortDown(ws);
            var k := IndexOf(Views(front), ws[i].id);
            Sorts(front, ws) && k < |front| && front[k] == ws[i]
  {
    SortDownSorts(ws);
    var front := SortDown(ws);
    assert ws[i] in front;
    var j :| 0 <= j < |front| && front[j] == ws[i];
    assert Views(front)[j].id == ws[i].id;
    var k := IndexOf(Views(front), ws[i].id);
    assert front[k] in ws;
  }

  /** The same, by its app. */
  lemma LocatedByApp(ws: seq<Window>, topZ: nat, count: nat, i: nat)
    requires Kept(ws, topZ, count) && i < |ws|
    ensures IndexOfApp(Views(SortDown(ws)), ws[i].app) == IndexOf(Views(SortDown(ws)), ws[i].id)
  {
    Located(ws, topZ, count, i);
    var front := SortDown(ws);
    var k, l := IndexOf(Views(front), ws[i].id), IndexOfApp(Views(front), ws[i].app);
    assert Views(front)[k].app == ws[i].app;
    assert front[l] in ws;
  }

  lemma Absentees(ws: seq<Window>, id: nat, app: string)
    requires DistinctZ(ws)
    ensures (forall i :: 0 <= i < |ws| ==> ws[i].id != id) ==> IndexOf(Views(SortDown(ws)), id) == |ws|
    ensures (forall i :: 0 <= i < |ws| ==> ws[i].app != app) ==> IndexOfApp(Views(SortDown(ws)), app) == |ws|
  {
    SortDownSorts(ws);
    var front := SortDown(ws);
    forall j | 0 <= j < |front| ensures front[j] in ws {
      assert front[j] in front;
    }
  }

  // Each operation has two lemmas: the array stays well kept, and the list changes as it should.

  lemma RaisedKept(ws: seq<Window>, topZ: nat, count: nat, i: nat)
    requires Kept(ws, topZ, count) && i < |ws|
    ensures Kept(ws[i := ws[i].(z := topZ + 1)], topZ + 1, count)
  {}

  lemma WithoutFalls(s: seq<Window>, k: nat)
    requires Falling(s) && k < |s|
    ensures Falling(Without(s, k)) && DistinctWindows(s)
  {
    var t := Without(s, k);
    assert forall i :: 0 <= i < |t| ==> t[i] == s[if i < k then i else i + 1];
  }

  lemma ViewsOfWithout(s: seq<Window>, k: nat)
    requires k < |s|
    ensures Views(Without(s, k)) == Without(Views(s), k)
  {}

  lemma ViewsOfCons(v: Window, s: seq<Window>)
    ensures Views([v] + s) == [ViewOf(v)] + Views(s)
  {}

  lemma ConsFalls(v: Window, s: seq<Window>, topZ: nat)
    requires Falling(s) && v.z == topZ + 1 && forall u :: u in s ==> u.z <= topZ
    ensures Falling([v] + s)
  {
    forall i, j | 0 <= i < j < |[v] + s| ensures ([v] + s)[i].z > ([v] + s)[j].z {
      assert ([v] + s)[j] == s[j - 1] && s[j - 1] in s;
      if i > 0 { assert ([v] + s)[i] == s[i - 1]; }
    }
  }

  /** Giving a window the next z moves it to the front. */
  lemma RaisedFront(ws: seq<Window>, topZ: nat, count: nat, i: nat)
    requires Kept(ws, topZ, count) && i < |ws|
    ensures var ws', front := ws[i := ws[i].(z := topZ + 1)], SortDown(ws);
            Views(SortDown(ws')) == ToFront(Views(front), IndexOf(Views(front), ws[i].id))
  {
    Located(ws, topZ, count, i);
    var front, v := SortDown(ws), ws[i].(z := topZ + 1);
    var k := IndexOf(Views(front), ws[i].id);
    RaisedSorts(ws, topZ, count, i, k);
    RaisedKept(ws, topZ, count, i);
    SortIs([v] + Without(front, k), ws[i := v]);
    ViewsOfWithout(front, k);
    ViewsOfCons(v, Without(front, k));
  }

  lemma RaisedSorts(ws: seq<Window>, topZ: nat, count: nat, i: nat, k: nat)
    requires Kept(ws, topZ, count) && i < |ws| && k < |SortDown(ws)| && SortDown(ws)[k] == ws[i]
    ensures var v := ws[i].(z := topZ + 1);
            Sorts([v] + Without(SortDown(ws), k), ws[i := v])
  {
    SortDownSorts(ws);
    var front, v := SortDown(ws), ws[i].(z := topZ + 1);
    WithoutFalls(front, k);
    MembersOfWithout(front, k);
    MembersOfUpdate(ws, i, v);
    var a, b := [v] + Without(front, k), ws[i := v];
    forall u ensures u in a <==> u in b {
      assert u in front <==> u in ws;
    }
    forall u | u in Without(front, k) ensures u.z <= topZ {
      assert u in ws;
    }
    ConsFalls(v, Without(front, k), topZ);
  }

  lemma ClosedKept(ws: seq<Window>, topZ: nat, count: nat, i: nat)
    requires Kept(ws, topZ, count) && i < |ws|
    ensures Kept(Without(ws, i), topZ, count) && DistinctWindows(ws)
  {
    var t := Without(ws, i);
    assert forall j :: 0 <= j < |t| ==> t[j] == ws[if j < i then j else j + 1];
  }

  /** Dropping a window from the array drops it from the list. */
  lemma ClosedFront(ws: seq<Window>, topZ: nat, count: nat, i: nat)
    requires Kept(ws, topZ, count) && i < |ws|
    ensures var front := SortDown(ws);
            Views(SortDown(Without(ws, i))) == Without(Views(front), IndexOf(Views(front), ws[i].id))
  {
    Located(ws, topZ, count, i);
    var front := SortDown(ws);
    var k := IndexOf(Views(front), ws[i].id);
    WithoutFalls(front, k);
    ClosedKept(ws, topZ, count, i);
    MembersOfWithout(front, k);
    MembersOfWithout(ws, i);
    SortIs(Without(front, k), Without(ws, i));
    ViewsOfWithout(front, k);
  }

  lemma OpenedKept(ws: seq<Window>, topZ: nat, count: nat, v: Window)
    requires Kept(ws, topZ, count) && v.z == topZ + 1 && v.id == count + 1
    requires forall i :: 0 <= i < |ws| ==> ws[i].app != v.app
    ensures Kept(ws + [v], topZ + 1, count + 1)
  {}

  /** A window with the next z joins at the front. */
  lemma OpenedFront(ws: seq<Window>, topZ: nat, count: nat, v: Window)
    requires Kept(ws, topZ, count) && v.z == topZ + 1 && v.id == count + 1
    requires forall i :: 0 <= i < |ws| ==> ws[i].app != v.app
    ensures Views(SortDown(ws + [v])) == [ViewOf(v)] + Views(SortDown(ws))
  {
    var front := SortDown(ws);
    OpenedSorts(ws, topZ, count, v);
    OpenedKept(ws, topZ, count, v);
    SortIs([v] + front, ws + [v]);
    ViewsOfCons(v, front);
  }

  lemma OpenedSorts(ws: seq<Window>, topZ: nat, count: nat, v: Window)
    requires Kept(ws, topZ, count) && v.z == topZ + 1
    ensures Sorts([v] + SortDown(ws), ws + [v])
  {
    SortDownSorts(ws);
    forall u | u in SortDown(ws) ensures u.z <= topZ {
      assert u in ws;
    }
    ConsFalls(v, SortDown(ws), topZ);
  }

  lemma MovedKept(ws: seq<Window>, topZ: nat, count: nat, i: nat, v: Window)
    requires Kept(ws, topZ, count) && i < |ws| && v == ws[i].(x := v.x, y := v.y)
    ensures Kept(ws[i := v], topZ, count)
  {}

  lemma MovedFalls(s: seq<Window>, k: nat, v: Window)
    requires Falling(s) && k < |s| && v.z == s[k].z
    ensures Falling(s[k := v])
  {}

  /** Moving a window leaves it in its place in the list. */
  lemma MovedFront(ws: seq<Window>, topZ: nat, count: nat, i: nat, v: Window)
    requires Kept(ws, topZ, count) && i < |ws| && v == ws[i].(x := v.x, y := v.y)
    ensures var front := SortDown(ws);
            var k := IndexOf(Views(front), v.id);
            k < |front| && Views(SortDown(ws[i := v])) == Views(front)[k := ViewOf(v)]
  {
    Located(ws, topZ, count, i);
    var front := SortDown(ws);
    var k := IndexOf(Views(front), v.id);
    MovedSorts(ws, topZ, count, i, k, v);
    MovedKept(ws, topZ, count, i, v);
    SortIs(front[k := v], ws[i := v]);
    assert Views(front[k := v]) == Views(front)[k := ViewOf(v)];
  }

  lemma MovedSorts(ws: seq<Window>, topZ: nat, count: nat, i: nat, k: nat, v: Window)
    requires Kept(ws, topZ, count) && i < |ws| && v == ws[i].(x := v.x, y := v.y)
    requires k < |SortDown(ws)| && SortDown(ws)[k] == ws[i]
    ensures Sorts(SortDown(ws)[k := v], ws[i := v])
  {
    SortDownSorts(ws);
    MembersOfUpdate(ws, i, v);
    SortedIdsDiffer(ws, topZ, count);
    MembersOfUpdate(SortDown(ws), k, v);
    MovedFalls(SortDown(ws), k, v);
    var a, b := SortDown(ws)[k := v], ws[i := v];
    forall u ensures u in a <==> u in b {
      assert u in SortDown(ws) <==> u in ws;
    }
  }

  /** `windows.filter((w) => w.id !== id)` */
  function DropId(ws: seq<Window>, id: nat): seq<Window> {
    if ws == [] then []
    else (if ws[0].id != id then [ws[0]] else []) + DropId(ws[1..], id)
  }

  lemma {:induction false} DroppedIsAll(ws: seq<Window>, id: nat)
    requires forall j :: 0 <= j < |ws| ==> ws[j].id != id
    ensures DropId(ws, id) == ws
  {
    if ws != [] {
      DroppedIsAll(ws[1..], id);
    }
  }

  lemma {:induction false} DroppedIsWithout(ws: seq<Window>, i: nat)
    requires i < |ws| && DistinctIds(ws)
    ensures DropId(ws, ws[i].id) == Without(ws, i)
  {
    var t := ws[1..];
    if i == 0 {
      DroppedIsAll(t, ws[0].id);
    } else {
      assert ws[0].id != ws[i].id && t[i - 1] == ws[i];
      TailIdsDiffer(ws);
      DroppedIsWithout(t, i - 1);
      WithoutTail(ws, i);
    }
  }

  lemma TailIdsDiffer(ws: seq<Window>)
    requires ws != [] && DistinctIds(ws)
    ensures DistinctIds(ws[1..])
  {
    assert forall a :: 0 <= a < |ws[1..]| ==> ws[1..][a] == ws[a + 1];
  }

  lemma WithoutTail<T>(s: seq<T>, i: nat)
    requires 0 < i < |s|
    ensures Without(s, i) == [s[0]] + Without(s[1..], i - 1)
  {}

  lemma SortedIdsDiffer(ws: seq<Window>, topZ: nat, count: nat)
    requires Kept(ws, topZ, count)
    ensures DistinctIds(SortDown(ws))
  {
    SortDownSorts(ws);
    var front := SortDown(ws);
    forall a, b | 0 <= a < b < |front| ensures front[a].id != front[b].id {
      assert front[a] in ws && front[b] in ws;
      assert front[a] != front[b];
    }
  }

  // ----- the operations on values -----

  function ModelOf(ws: seq<Window>, count: nat, drag: Option<Drag>): Desk {
    Desk(Views(SortDown(ws)), count, drag)
  }

  /** i is the position of the window with this id, or the length of the array. */
  predicate IsPosition(ws: seq<Window>, id: nat, i: nat) {
    i <= |ws| && if i < |ws| then ws[i].id == id else forall j :: 0 <= j < |ws| ==> ws[j].id != id
  }

  function RaiseAt(ws: seq<Window>, i: nat, z: nat): seq<Window> {
    if i < |ws| then ws[i := ws[i].(z := z)] else ws
  }

  lemma RaiseRefines(ws: seq<Window>, topZ: nat, count: nat, drag: Option<Drag>, id: nat, i: nat)
    requires Kept(ws, topZ, count) && IsPosition(ws, id, i)
    ensures Kept(RaiseAt(ws, i, topZ + 1), topZ + 1, count)
    ensures ModelOf(RaiseAt(ws, i, topZ + 1), count, drag) == RaiseIn(ModelOf(ws, count, drag), id)
  {
    if i < |ws| {
      RaisedKept(ws, topZ, count, i);
      RaisedFront(ws, topZ, count, i);
    } else {
      Absentees(ws, id, "");
    }
  }

  lemma CloseRefines(ws: seq<Window>, topZ: nat, count: nat, drag: Option<Drag>, id: nat, i: nat)
    requires Kept(ws, topZ, count) && IsPosition(ws, id, i)
    ensures Kept(DropId(ws, id), topZ, count)
    ensures ModelOf(DropId(ws, id), count, drag) == CloseIn(ModelOf(ws, count, drag), id)
  {
    if i < |ws| {
      ClosedFront(ws, topZ, count, i);
      ClosedKept(ws, topZ, count, i);
      DroppedIsWithout(ws, i);
    } else {
      Absentees(ws, id, "");
      DroppedIsAll(ws, id);
    }
  }

  function MoveAt(ws: seq<Window>, i: nat, g: Drag, x: int, y: int): seq<Window> {
    if i < |ws| then ws[i := MovedBy(ws[i], g, x, y)] else ws
  }

  function MovedBy(v: Window, g: Drag, x: int, y: int): Window {
    var to := DraggedTo(ViewOf(v), g, x, y);
    v.(x := to.x, y := to.y)
  }

  lemma MoveRefines(ws: seq<Window>, topZ: nat, count: nat, g: Drag, i: nat, x: int, y: int)
    requires Kept(ws, topZ, count) && IsPosition(ws, g.id, i)
    ensures Kept(MoveAt(ws, i, g, x, y), topZ, count)
    ensures ModelOf(MoveAt(ws, i, g, x, y), count, Some(g)) == MoveIn(ModelOf(ws, count, Some(g)), x, y)
  {
    if i < |ws| {
      var v := MoveAt(ws, i, g, x, y)[i];
      MovedKept(ws, topZ, count, i, v);
      MovedFront(ws, topZ, count, i, v);
      Located(ws, topZ, count, i);
    } else {
      Absentees(ws, g.id, "");
    }
  }

  /** Launching an app that has a window, at position i. */
  lemma RelaunchRefines(ws: seq<Window>, topZ: nat, count: nat, drag: Option<Drag>, app: string, i: nat)
    requires Kept(ws, topZ, count) && i < |ws| && ws[i].app == app && FindApp(app).Some?
    ensures RaiseIn(ModelOf(ws, count, drag), ws[i].id) == LaunchIn(ModelOf(ws, count, drag), app)
    ensures LaunchIn(ModelOf(ws, count, drag), app).front[0].id == ws[i].id
  {
    Located(ws, topZ, count, i);
    LocatedByApp(ws, topZ, count, i);
  }

  /** What a press on the window v does, in terms of raising and closing it by its id. */
  function Pressed(d: Desk, v: View, x: int, y: int): Desk {
    var d1 := RaiseIn(d, v.id);
    if OnCloseButton(v, x, y) then CloseIn(d1, v.id)
    else if y <= v.y + TITLE_H then d1.(drag := Some(Drag(v.id, x - v.x, y - v.y)))
    else d1
  }

  /** A press acts on the topmost window at the point. */
  lemma DownRefines(ws: seq<Window>, topZ: nat, count: nat, drag: Option<Drag>, x: int, y: int)
    requires Kept(ws, topZ, count) && TopAt(ModelOf(ws, count, drag).front, x, y) < |ws|
    ensures var d := ModelOf(ws, count, drag);
            DownIn(d, x, y) == Pressed(d, d.front[TopAt(d.front, x, y)], x, y)
  {
    var d := ModelOf(ws, count, drag);
    var k := TopAt(d.front, x, y);
    IdAtPosition(ws, topZ, count, k);
    ToFrontAt(d.front, k);
    var d1 := RaiseIn(d, d.front[k].id);
    assert d1.front[0].id == d.front[k].id;
    assert IndexOf(d1.front, d.front[k].id) == 0;
    assert Without(d1.front, 0) == d1.front[1..];
  }

  /** The window at position k of the list is the one its id stands for. */
  lemma IdAtPosition(ws: seq<Window>, topZ: nat, count: nat, k: nat)
    requires Kept(ws, topZ, count) && k < |ws|
    ensures var front := SortDown(ws); IndexOf(Views(front), Views(front)[k].id) == k
  {
    SortedIdsDiffer(ws, topZ, count);
    ViewIdsDiffer(SortDown(ws));
    IndexOfDistinct(Views(SortDown(ws)), k);
  }

  lemma ViewIdsDiffer(s: seq<Window>)
    requires DistinctIds(s)
    ensures forall a, b :: 0 <= a < b < |s| ==> Views(s)[a].id != Views(s)[b].id
  {}

  lemma IndexOfDistinct(vs: seq<View>, k: nat)
    requires k < |vs| && forall a, b :: 0 <= a < b < |vs| ==> vs[a].id != vs[b].id
    ensures IndexOf(vs, vs[k].id) == k
  {}

  function Opened(def: App, topZ: nat, count: nat, n: nat): Window {
    Window(count + 1, def.id, def.title, 40 + n % 6 * 36, PANEL_H + 18 + n % 6 * 30, def.w, def.h, topZ + 1)
  }

  lemma LaunchesNew(d: Desk, def: App)
    requires FindApp(def.id) == Some(def) && IndexOfApp(d.front, def.id) == |d.front|
    ensures LaunchIn(d, def.id)
         == Desk([NewView(def, d.issued + 1, |d.front|)] + d.front, d.issued + 1, d.drag)
  {}

  /** Launching an app that has none. */
  lemma LaunchRefines(ws: seq<Window>, topZ: nat, count: nat, drag: Option<Drag>, def: App)
    requires Kept(ws, topZ, count) && FindApp(def.id) == Some(def)
    requires forall j :: 0 <= j < |ws| ==> ws[j].app != def.id
    ensures var v := Opened(def, topZ, count, |ws|);
            && Kept(ws + [v], topZ + 1, count + 1)
            && ModelOf(ws + [v], count + 1, drag) == LaunchIn(ModelOf(ws, count, drag), def.id)
  {
    var v := Opened(def, topZ, count, |ws|);
    OpenedFront(ws, topZ, count, v);
    OpenedKept(ws, topZ, count, v);
    Absentees(ws, 0, def.id);
    LaunchesNew(ModelOf(ws, count, drag), def);
    assert ViewOf(v) == NewView(def, count + 1, |ws|);
  }

  // ----- the object -----

  class WindowManagerObject {
    var windows: seq<Window>
    var count: nat   // the program's `seq`
    var topZ: nat
    var drag: Option<Drag>

    predicate Valid()
      reads this
    {
      Kept(windows, topZ, count)
    }

    function Model(): Desk
      reads this
    {
      ModelOf(windows, count, drag)
    }

    constructor ()
      ensures Valid() && Model() == FreshDesk()
    {
      windows, count, topZ, drag := [], 0, 0, None;
      new;
      assert Model() == EMPTY_DESK;
      var _ := LaunchApp("system");
      var _ := LaunchApp("services");
      var _ := LaunchApp("audit");
    }

    /** `byId`: the position of the window in the array, or its length. */
    method ById(id: nat) returns (i: nat)
      ensures IsPosition(windows, id, i)
    {
      i := 0;
      while i < |windows|
        invariant 0 <= i <= |windows|
        invariant forall j :: 0 <= j < i ==> windows[j].id != id
      {
        if windows[i].id == id { return; }
        i := i + 1;
      }
    }

    method RaiseWindow(id: nat)
      requires Valid()
      modifies this
      ensures Valid() && Model() == Step(old(Model()), Raise(id))
    {
      var i := ById(id);
      RaiseRefines(windows, topZ, count, drag, id, i);
      if i < |windows| {
        topZ := topZ + 1;
        windows := windows[i := windows[i].(z := topZ)];
      }
    }

    /** `close` */
    method CloseWindow(id: nat)
      requires Valid()
      modifies this
      ensures Valid() && Model() == Step(old(Model()), Close(id))
      ensures topZ == old(topZ)
    {
      var i := ById(id);
      CloseRefines(windows, topZ, count, drag, id, i);
      windows := DropId(windows, id);
    }

    /** `launch`: the id of the app's window, or -1 for an unknown app. */
    method LaunchApp(app: string) returns (id: int)
      requires Valid()
      modifies this
      ensures Valid() && Model() == Step(old(Model()), Launch(app))
      ensures id == if FindApp(app).None? then -1 else Model().front[0].id
    {
      var def := FindApp(app);
      if def.None? {
        return -1;
      }
      var i := 0;
      while i < |windows| && windows[i].app != app
        invariant 0 <= i <= |windows|
        invariant forall j :: 0 <= j < i ==> windows[j].app != app
      {
        i := i + 1;
      }
      if i < |windows| {
        id := windows[i].id;
        RelaunchRefines(windows, topZ, count, drag, app, i);
        RaiseWindow(windows[i].id);
        return;
      }
      LaunchRefines(windows, topZ, count, drag, def.value);
      var v := Opened(def.value, topZ, count, |windows|);
      count, topZ := count + 1, topZ + 1;
      windows := windows + [v];
      return v.id;
    }

    /** `ordered`: the windows by rising z, which is the list from back to front. */
    method Ordered() returns (r: seq<Window>)
      requires Valid()
      ensures Rising(r) && (forall v :: v in r <==> v in windows)
      ensures Views(r) == Reverse(Model().front)
    {
      r := SortUp(windows);
      SortUpSorts(windows);
      SortsAreReverse(windows);
    }

    /** `focusedId`: the window with the greatest z is the head of the list. */
    method FocusedId() returns (id: int)
      requires Valid()
      ensures id == if Model().front == [] then -1 else Model().front[0].id
    {
      if |windows| == 0 {
        return -1;
      }
      var top, i := 0, 1;
      while i < |windows|
        invariant 0 <= top < i <= |windows|
        invariant forall j :: 0 <= j < i && j != top ==> windows[j].z < windows[top].z
      {
        if windows[i].z > windows[top].z { top := i; }
        i := i + 1;
      }
      id := windows[top].id;
      Located(windows, topZ, count, top);
      var front := SortDown(windows);
      assert front[0] in windows;
    }

    /** `topAt`: the first window of the list that holds the point. */
    method TopWindowAt(x: int, y: int) returns (r: Option<Window>)
      requires Valid()
      ensures var k := TopAt(Model().front, x, y);
              r.None? <==> k == |Model().front|
      ensures r.Some? ==> r.value in windows && ViewOf(r.value) == Model().front[TopAt(Model().front, x, y)]
    {
      SortDownSorts(windows);
      var desc, i := SortDown(windows), 0;
      while i < |desc|
        invariant 0 <= i <= |desc|
        invariant forall j :: 0 <= j < i ==> !Hits(Views(desc)[j], x, y)
      {
        var v := desc[i];
        if x >= v.x && x <= v.x + v.w && y >= v.y && y <= v.y + v.h {
          assert Hits(Views(desc)[i], x, y);
          return Some(v);
        }
        assert !Hits(Views(desc)[i], x, y);
        i := i + 1;
      }
      return None;
    }

    /** What a press does to the window it hits. */
    method Press(v: Window, x: int, y: int)
      requires Valid()
      modifies this
      ensures Valid()
      ensures Model() == Pressed(old(Model()), ViewOf(v), x, y)
    {
      RaiseWindow(v.id);
      if OnCloseButton(ViewOf(v), x, y) {
        CloseWindow(v.id);
        return;
      }
      if y <= v.y + TITLE_H {
        drag := Some(Drag(v.id, x - v.x, y - v.y));
      }
    }

    method PointerDownAt(x: int, y: int)
      requires Valid()
      modifies this
      ensures Valid() && Model() == Step(old(Model()), PointerDown(x, y))
    {
      var hit := TopWindowAt(x, y);
      if hit.Some? {
        var v := hit.value;
        DownRefines(windows, topZ, count, drag, x, y);
        Press(v, x, y);
        return;
      }
      var tile := DockHit(x, y);
      if tile.Some? {
        var _ := LaunchApp(tile.value);
      }
    }

    method PointerMoveTo(x: int, y: int)
      requires Valid()
      modifies this
      ensures Valid() && Model() == Step(old(Model()), PointerMove(x, y))
    {
      if drag.Some? {
        var g := drag.value;
        var i := ById(g.id);
        MoveRefines(windows, topZ, count, g, i, x, y);
        if i < |windows| {
          windows := windows[i := MovedBy(windows[i], g, x, y)];
        }
      }
    }

    method PointerUpNow()
      requires Valid()
      modifies this
      ensures Valid() && Model() == Step(old(Model()), PointerUp)
    {
      drag := None;
    }
  }

  /** One event at the object. */
  method Handle(wm: WindowManagerObject, e: Event)
    requires wm.Valid()
    modifies wm
    ensures wm.Valid() && wm.Model() == Step(old(wm.Model()), e)
  {
    match e {
      case Launch(app) => var _ := wm.LaunchApp(app);
      case Raise(id) => wm.RaiseWindow(id);
      case Close(id) => wm.CloseWindow(id);
      case PointerDown(x, y) => wm.PointerDownAt(x, y);
      case PointerMove(x, y) => wm.PointerMoveTo(x, y);
      case PointerUp => wm.PointerUpNow();
    }
  }

  /** Any sequence of events on a fresh window manager takes it where the list of windows goes, so
      what holds of every run of the list holds of every window manager. */
  method Replay(es: seq<Event>) returns (wm: WindowManagerObject)
    ensures fresh(wm) && wm.Valid() && wm.Model() == Run(FreshDesk(), es)
  {
    wm := new WindowManagerObject();
    var i := 0;
    assert es[0..] == es;
    while i < |es|
      invariant 0 <= i <= |es| && fresh(wm) && wm.Valid()
      invariant Run(wm.Model(), es[i..]) == Run(FreshDesk(), es)
    {
      assert es[i..][0] == es[i] && es[i..][1..] == es[i + 1..];
      Handle(wm, es[i]);
      i := i + 1;
    }
  }

  lemma ReverseMembers(s: seq<Window>)
    ensures forall v :: v in Reverse(s) <==> v in s
  {
    forall v | v in s ensures v in Reverse(s) {
      var i :| 0 <= i < |s| && s[i] == v;
      assert Reverse(s)[|s| - 1 - i] == v;
    }
  }
}
