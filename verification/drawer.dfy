/** The bottom drawer that shows attribute data: its open/minimised state, the swipe gesture,
    paging through several parcels, the parcel navigation bar, and the attribute rows listed for
    the other layers. The page elements are reduced to whether the drawer is mounted. */
module Drawer {
  import opened Wrappers
  import opened Json
  import opened Text

  /** The drawer manager's state: whether its page elements were found (`this.drawer` set),
      `isOpen`, `isMinimized`, `currentFeatures` and `currentIndex`. */
  datatype Drawer = Drawer(mounted: bool, isOpen: bool, isMinimized: bool, features: seq<Json>, index: int)

  /** The state after an operation, and whether the operation threw part-way (reading a member
      of a missing element or of an undefined feature). */
  datatype Step = Step(drawer: Drawer, threw: bool)

  /** The state at page load. */
  function Initial(mounted: bool): Drawer {
    Drawer(mounted, false, false, [], 0)
  }

  /** `open(content)`: mounts the drawer first when needed (which throws when the page has no
      drawer), then shows it maximised. The parcel list and index are untouched. */
  function Open(d: Drawer, domPresent: bool): (s: Step)
    ensures s.threw <==> !d.mounted && !domPresent
    ensures s.threw ==> s.drawer == d
    ensures !s.threw ==>
      s.drawer == Drawer(true, true, false, d.features, d.index)
  {
    if d.mounted || domPresent then Step(d.(mounted := true, isOpen := true, isMinimized := false), false)
    else Step(d, true)
  }

  /** `close()`: nothing without a drawer; otherwise hidden, maximised, and the parcel list and
      index reset. */
  function Close(d: Drawer): (r: Drawer)
    ensures !d.mounted ==> r == d
    ensures d.mounted ==> r == Drawer(true, false, false, [], 0)
  {
    if !d.mounted then d else Drawer(true, false, false, [], 0)
  }

  /** `minimize()`: throws without a drawer, else sets the minimised flag. */
  function Minimize(d: Drawer): (s: Step)
    ensures s.threw <==> !d.mounted
    ensures s.drawer == (if d.mounted then d.(isMinimized := true) else d)
  {
    if d.mounted then Step(d.(isMinimized := true), false) else Step(d, true)
  }

  /** `maximize()`: throws without a drawer, else clears the minimised flag. */
  function Maximize(d: Drawer): (s: Step)
    ensures s.threw <==> !d.mounted
    ensures s.drawer == (if d.mounted then d.(isMinimized := false) else d)
  {
    if d.mounted then Step(d.(isMinimized := false), false) else Step(d, true)
  }

  /** `toggle()`: flips the minimised flag and nothing else. */
  function Toggle(d: Drawer): (s: Step)
    ensures s.threw <==> !d.mounted
    ensures !s.threw ==> s.drawer == d.(isMinimized := !d.isMinimized)
  {
    if d.isMinimized then Maximize(d) else Minimize(d)
  }

  /** Toggling twice restores the drawer. */
  lemma ToggleTwice(d: Drawer)
    requires d.mounted
    ensures Toggle(Toggle(d).drawer) == Step(d, false)
  {
  }

  /** The swipe threshold in pixels. */
  const SwipeThreshold: real := 50.0

  /** The touch-move handler for a vertical movement `diff` (current minus start position): a
      downward swipe beyond the threshold minimises an open, maximised drawer; an upward swipe
      beyond it maximises a minimised one. The handler exists only on a mounted drawer. */
  function Swipe(d: Drawer, diff: real): (r: Drawer)
    requires d.mounted
  {
    if diff > 0.0 && d.isOpen && !d.isMinimized then
      (if diff > SwipeThreshold then Minimize(d).drawer else d)
    else if diff < 0.0 && d.isMinimized then
      (if diff < -SwipeThreshold then Maximize(d).drawer else d)
    else d
  }

  /** The swipe changes the drawer exactly when it moves far enough in the direction its state
      allows, and then it only flips the minimised flag. */
  lemma SwipeDecision(d: Drawer, diff: real)
    requires d.mounted
    ensures var r := Swipe(d, diff);
      (r != d <==> (diff > 50.0 && d.isOpen && !d.isMinimized) || (diff < -50.0 && d.isMinimized))
      && r == d.(isMinimized := r.isMinimized)
      && (diff > 50.0 && d.isOpen ==> r.isMinimized)
      && (diff < -50.0 ==> !r.isMinimized)
  {
  }

  /** The parcel at the index can be rendered: it exists, and it has a `properties` member whose
      members can be read (not `null` and not `undefined`). */
  predicate Renders(features: seq<Json>, index: int) {
    0 <= index < |features| && Get(features[index], "properties").Some?
    && !Get(features[index], "properties").value.JNull?
  }

  /** Re-rendering the parcel content in place: throws on a parcel that cannot be rendered, and
      then on a missing drawer body. */
  function Rerender(d: Drawer): (s: Step)
    ensures s.drawer == d
    ensures !s.threw <==> Renders(d.features, d.index) && d.mounted
  {
    Step(d, !Renders(d.features, d.index) || !d.mounted)
  }

  /** The index lies within the parcel list. */
  predicate InRange(d: Drawer) {
    0 <= d.index < |d.features|
  }

  /** `navigate(direction)`: nothing for an empty list or at the matching end; otherwise the
      index moves one step and the content is rendered again. */
  function Navigate(d: Drawer, direction: string): (s: Step)
    ensures s.drawer.features == d.features
    ensures s.drawer == d.(index := s.drawer.index)
    ensures d.features == [] ==> s == Step(d, false)
    ensures s.drawer.index == d.index || s.drawer.index == d.index - 1 || s.drawer.index == d.index + 1
  {
    if |d.features| == 0 then Step(d, false)
    else if direction == "prev" && d.index > 0 then Rerender(d.(index := d.index - 1))
    else if direction == "next" && d.index < |d.features| - 1 then Rerender(d.(index := d.index + 1))
    else Step(d, false)
  }

  /** Navigation keeps an index that is within the list within it, and moves it exactly when
      that end is not reached. */
  lemma NavigateInRange(d: Drawer, direction: string)
    requires InRange(d)
    ensures InRange(Navigate(d, direction).drawer)
    ensures direction == "prev" ==> (Navigate(d, direction).drawer.index == d.index - 1 <==> d.index > 0)
    ensures direction == "next" ==>
      (Navigate(d, direction).drawer.index == d.index + 1 <==> d.index < |d.features| - 1)
    ensures direction != "prev" && direction != "next" ==> Navigate(d, direction) == Step(d, false)
  {
  }

  /** The navigation bar of the parcel content. */
  datatype NavBar = NavBar(shown: bool, prevDisabled: bool, nextDisabled: bool)

  /** Shown only for more than one parcel, with `prev` disabled on the first and `next` on the
      last. */
  function NavBarOf(d: Drawer): NavBar {
    NavBar(|d.features| > 1, d.index == 0, d.index == |d.features| - 1)
  }

  /** A navigation button is disabled exactly when pressing it would not move. */
  lemma NavBarMatchesNavigate(d: Drawer)
    requires InRange(d)
    ensures NavBarOf(d).prevDisabled <==> Navigate(d, "prev").drawer.index == d.index
    ensures NavBarOf(d).nextDisabled <==> Navigate(d, "next").drawer.index == d.index
    ensures !NavBarOf(d).shown ==>
      Navigate(d, "prev").drawer == d && Navigate(d, "next").drawer == d
  {
  }

  /** `show('persil', features)` as written: an empty list shows an error message without
      touching the list; otherwise the list replaces `currentFeatures` and the parcel at the
      CURRENT index is rendered, the index being left from earlier browsing. */
  function ShowPersil(d: Drawer, features: seq<Json>, domPresent: bool): (s: Step)
    ensures features == [] ==> (s.threw <==> !d.mounted)
    ensures features != [] ==> s.drawer.features == features && s.drawer.index == d.index
    ensures features != [] ==> (s.threw <==> !Renders(features, d.index) || !d.mounted)
    ensures features != [] && !s.threw ==> s.drawer.isOpen && !s.drawer.isMinimized
  {
    if features == [] then
      if d.mounted then Open(d, domPresent) else Step(d, true)
    else
      var d1 := d.(features := features);
      if !Renders(features, d.index) || !d.mounted then Step(d1, true) else Open(d1, domPresent)
  }

  /** `show('persil', features)` with the index reset for every new list, so that a new list
      always opens on its first parcel. */
  function ShowPersilFixed(d: Drawer, features: seq<Json>, domPresent: bool): (s: Step)
    ensures features != [] ==> s.drawer.features == features && s.drawer.index == 0
  {
    if features == [] then
      if d.mounted then Open(d, domPresent) else Step(d, true)
    else
      var d1 := d.(features := features, index := 0);
      if !Renders(features, 0) || !d.mounted then Step(d1, true) else Open(d1, domPresent)
  }

  /** A parcel as the land-parcel query returns it, with a `properties` object. */
  function Parcel(nib: string): Json {
    JObj(map["type" := JStr("Feature"), "properties" := JObj(map["nib" := JStr(nib)])])
  }

  /** After paging to the third of three parcels, showing a click that hits a single parcel
      throws: the stale index 2 reads past the end of the new one-element list. */
  lemma StaleIndexAsWritten()
    ensures var d := Drawer(true, true, false, [Parcel("1"), Parcel("2"), Parcel("3")], 0);
      var d2 := Navigate(Navigate(d, "next").drawer, "next").drawer;
      d2.index == 2
      && ShowPersil(d2, [Parcel("4")], true).threw
      && ShowPersil(d2, [Parcel("4")], true).drawer.index == 2
  {
    var d := Drawer(true, true, false, [Parcel("1"), Parcel("2"), Parcel("3")], 0);
    assert Renders(d.features, 1) && Renders(d.features, 2);
    assert !Renders([Parcel("4")], 2);
  }

  /** With the reset, showing any list whose first parcel can be rendered succeeds on a mounted
      drawer, opens it maximised on the first parcel, and leaves an index within the list, so
      every later navigation stays within it too. */
  lemma ShowPersilFixedSucceeds(d: Drawer, features: seq<Json>, domPresent: bool)
    requires d.mounted && features != [] && Renders(features, 0)
    ensures var s := ShowPersilFixed(d, features, domPresent);
      !s.threw && s.drawer == Drawer(true, true, false, features, 0)
      && InRange(s.drawer) && NavBarOf(s.drawer).prevDisabled
  {
  }

  /** Closing is the only reset the written version has: after `close()` the two versions agree. */
  lemma ClosedDrawerAgrees(d: Drawer, features: seq<Json>, domPresent: bool)
    requires d.mounted
    ensures ShowPersil(Close(d), features, domPresent) == ShowPersilFixed(Close(d), features, domPresent)
  {
  }

  /** One row of the attribute list: its heading, and the key and value it shows. */
  datatype Row = Row(heading: string, key: string, value: Json)

  /** Whether an attribute gets a row: its value is neither `null` nor the empty string, and its
      lower-cased key is not `warna` (the colour attribute). */
  predicate Shown(key: string, value: Json) {
    value != JNull && value != JStr("") && Lower(key) != "warna"
  }

  /** The row label: the key with every `_` replaced by a space, upper-cased. */
  function Label(key: string): (t: string)
    ensures |t| == |key|
    ensures forall i :: 0 <= i < |key| ==>
      t[i] == (if key[i] == '_' then ' ' else UpperChar(key[i]))
  {
    var l := Upper(ReplaceAll(key, '_', ' '));
    assert forall i :: 0 <= i < |key| ==> ReplaceAll(key, '_', ' ')[i] == (if key[i] == '_' then ' ' else key[i]);
    l
  }

  /** The rows listed for the attributes in their enumeration order. */
  function Rows(props: seq<(string, Json)>): (rows: seq<Row>)
    ensures |rows| <= |props|
    ensures forall r :: r in rows ==> Shown(r.key, r.value) && r.heading == Label(r.key)
    decreases |props|
  {
    if props == [] then []
    else
      var (k, v) := props[0];
      (if Shown(k, v) then [Row(Label(k), k, v)] else []) + Rows(props[1..])
  }

  /** The rows of consecutive attribute lists are the rows of each, in order. */
  lemma {:induction false} RowsAppend(a: seq<(string, Json)>, b: seq<(string, Json)>)
    ensures Rows(a + b) == Rows(a) + Rows(b)
    decreases |a|
  {
    if a == [] {
      assert a + b == b;
    } else {
      var ab := a + b;
      assert ab[0] == a[0];
      assert ab[1..] == a[1..] + b;
      RowsAppend(a[1..], b);
      var head := if Shown(a[0].0, a[0].1) then [Row(Label(a[0].0), a[0].0, a[0].1)] else [];
      assert Rows(ab) == head + Rows(ab[1..]);
      assert Rows(a) == head + Rows(a[1..]);
    }
  }

  /** An attribute is listed exactly when it passes the filter: every shown attribute has its
      row, and every row comes from a shown attribute. */
  lemma {:induction false} RowsExactly(props: seq<(string, Json)>)
    ensures forall i :: 0 <= i < |props| && Shown(props[i].0, props[i].1) ==>
      Row(Label(props[i].0), props[i].0, props[i].1) in Rows(props)
    ensures forall r :: r in Rows(props) ==> exists i :: 0 <= i < |props| && props[i] == (r.key, r.value)
    decreases |props|
  {
    if props != [] {
      RowsExactly(props[1..]);
      forall r | r in Rows(props)
        ensures exists i :: 0 <= i < |props| && props[i] == (r.key, r.value)
      {
        if r !in Rows(props[1..]) {
          assert props[0] == (r.key, r.value);
        } else {
          var j :| 0 <= j < |props[1..]| && props[1..][j] == (r.key, r.value);
          assert props[j + 1] == (r.key, r.value);
        }
      }
      forall i | 0 <= i < |props| && Shown(props[i].0, props[i].1)
        ensures Row(Label(props[i].0), props[i].0, props[i].1) in Rows(props)
      {
        if i > 0 {
          assert props[i] == props[1..][i - 1];
        }
      }
    }
  }

  /** The list has no rows (and shows the "no detail data" warning) exactly when no attribute
      passes the filter. */
  lemma NoRowsIff(props: seq<(string, Json)>)
    ensures Rows(props) == [] <==> forall i :: 0 <= i < |props| ==> !Shown(props[i].0, props[i].1)
  {
    RowsExactly(props);
    if Rows(props) != [] {
      var r := Rows(props)[0];
      assert r in Rows(props);
    }
  }
}
