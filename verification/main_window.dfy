/**
 * The main window's session state: the list of containers (one tab each),
 * the pool of boxes waiting to be loaded, and the index of the current
 * tab. Dialogs become parameters (the user's answer to the close
 * confirmation) and the widgets are left out.
 */
module MainWindow {
  import opened Wrappers
  import opened Boxes
  import opened Lists
  import C = Containers

  datatype Session = Session(containers: seq<C.Container>, pending: seq<Box>, current: nat)

  // ---------------------------------------------------------------------------
  // Container names

  function Digit(d: nat): (ch: char)
    requires d < 10
    ensures '0' <= ch <= '9' && (ch as int) - ('0' as int) == d
  {
    ('0' as int + d) as char
  }

  predicate AllDigits(s: string)
  {
    forall i :: 0 <= i < |s| ==> '0' <= s[i] <= '9'
  }

  /** The value of a string of decimal digits. */
  function DigitsValue(s: string): nat
    requires AllDigits(s)
  {
    if |s| == 0 then 0 else DigitsValue(s[..|s| - 1]) * 10 + ((s[|s| - 1] as int) - ('0' as int))
  }

  /** Python's `str` of a natural number. */
  function NatToString(n: nat): (s: string)
    ensures |s| >= 1 && AllDigits(s)
    ensures n > 0 ==> s[0] != '0'
    decreases n
  {
    if n < 10 then [Digit(n)] else NatToString(n / 10) + [Digit(n % 10)]
  }

  /** Reading the digits back gives the number. */
  lemma {:induction false} NatToStringRoundTrip(n: nat)
    ensures DigitsValue(NatToString(n)) == n
    decreases n
  {
    if n >= 10 {
      var s := NatToString(n);
      assert s[..|s| - 1] == NatToString(n / 10);
      NatToStringRoundTrip(n / 10);
    }
  }

  /** The tab title given to the `n`-th container. */
  function ContainerName(n: nat): string
  {
    "集装箱 " + NatToString(n)
  }

  // ---------------------------------------------------------------------------
  // Operations

  /** `current_container`: the container at the current index, if any. */
  function CurrentContainer(s: Session): (r: Option<C.Container>)
    ensures r.Some? <==> s.current < |s.containers|
    ensures r.Some? ==> r.value == s.containers[s.current]
  {
    if s.current < |s.containers| then Some(s.containers[s.current]) else None
  }

  /** `add_new_container`: appends an empty container with the default floor,
      named after the new number of containers, and makes it current. */
  function AddNewContainer(s: Session): (r: Session)
    ensures |r.containers| == |s.containers| + 1 && r.containers[..|s.containers|] == s.containers
    ensures r.pending == s.pending
    ensures r.current == |r.containers| - 1
    ensures CurrentContainer(r) == Some(r.containers[|s.containers|])
    ensures var c := r.containers[|s.containers|];
      c.name == ContainerName(|s.containers| + 1) && c.boxes == []
      && c.length == C.DefaultLength && c.width == C.DefaultWidth
  {
    var c := C.NewContainer(ContainerName(|s.containers| + 1), None, None);
    Session(s.containers + [c], s.pending, |s.containers|)
  }

  /** The window as it opens: one empty container, nothing pending. */
  function InitialSession(): (r: Session)
    ensures |r.containers| == 1 && r.pending == [] && r.current == 0
    ensures r.containers[0].name == ContainerName(1) && r.containers[0].boxes == []
  {
    AddNewContainer(Session([], [], 0))
  }

  /** `on_container_tab_changed`: indices outside the tab range are ignored. */
  function SelectTab(s: Session, index: int): (r: Session)
    ensures 0 <= index < |s.containers| ==> r == s.(current := index)
    ensures !(0 <= index < |s.containers|) ==> r == s
  {
    if 0 <= index < |s.containers| then s.(current := index) else s
  }

  /** The boxes of all containers, tab by tab. */
  function AllBoxes(cs: seq<C.Container>): seq<Box>
  {
    if |cs| == 0 then [] else AllBoxes(cs[..|cs| - 1]) + cs[|cs| - 1].boxes
  }

  /** `close_container_tab(index)`, where `confirmed` is the user's answer to
      the dialog shown when the container still holds boxes. The last
      remaining container cannot be closed. */
  function CloseContainerTab(s: Session, index: nat, confirmed: bool): (r: Session)
    requires |s.containers| > 1 ==> index < |s.containers|
    ensures |s.containers| <= 1 ==> r == s
    ensures |s.containers| > 1 && |s.containers[index].boxes| > 0 && !confirmed ==> r == s
    ensures |s.containers| > 1 && (|s.containers[index].boxes| == 0 || confirmed) ==>
      && r.containers == s.containers[..index] + s.containers[index + 1..]
      && r.pending == s.pending + s.containers[index].boxes
      && (s.current >= index ==> r.current == if s.current == 0 then 0 else s.current - 1)
      && (s.current < index ==> r.current == s.current)
  {
    if |s.containers| <= 1 then s
    else
      var c := s.containers[index];
      if |c.boxes| > 0 && !confirmed then s
      else
        var cur := if s.current >= index then (if s.current - 1 < 0 then 0 else s.current - 1) else s.current;
        Session(s.containers[..index] + s.containers[index + 1..], s.pending + c.boxes, cur)
  }

  /** The index the tab bar emits with `currentChanged` while `removeTab`
      takes out tab `index` of `n`, when the highlighted tab is `current`:
      a tab before the current one moves it down by one; removing the
      current tab selects the tab to its right, or the new last tab
      (Qt's default `SelectRightTab`); removing a tab after it emits
      nothing, and removing the only tab emits -1, which the handler
      ignores. */
  function TabBarIndexAfterRemove(current: nat, index: nat, n: nat): (r: Option<nat>)
    requires index < n
    ensures r.Some? <==> index <= current && n > 1
    ensures index < current && n > 1 ==> r == Some(current - 1)
    ensures index == current && index + 1 < n ==> r == Some(index)
    ensures index == current && index + 1 == n && n > 1 ==> r == Some(n - 2)
  {
    if n <= 1 then None
    else if index < current then Some(current - 1)
    else if index == current then Some(if index + 1 < n then index else n - 2)
    else None
  }

  /** `close_container_tab(index)` as the window runs it: `removeTab` at
      the top of the close re-enters `on_container_tab_changed` with the
      tab bar's new index while the closed container is still in the list,
      and only then does the rest of the close (the index adjustment
      included) run. */
  function CloseContainerTabAsRun(s: Session, index: nat, confirmed: bool): (r: Session)
    requires |s.containers| > 1 ==> index < |s.containers|
    ensures r.containers == CloseContainerTab(s, index, confirmed).containers
    ensures r.pending == CloseContainerTab(s, index, confirmed).pending
  {
    if |s.containers| <= 1 then s
    else if |s.containers[index].boxes| > 0 && !confirmed then s
    else
      var t := match TabBarIndexAfterRemove(s.current, index, |s.containers|)
        case None => s
        case Some(i) => SelectTab(s, i);
      CloseContainerTab(t, index, true)
  }

  /** `on_box_double_clicked` for the pending box at position `k`: search the
      current container for a position; if one is found, move the box there
      and add it, and on success remove it from the pool. */
  function AutoPlace(s: Session, k: nat): (r: Session)
    requires k < |s.pending|
    ensures r.current == s.current && |r.containers| == |s.containers|
    ensures CurrentContainer(s).None? ==> r == s
    ensures CurrentContainer(s).Some? ==>
      var c := s.containers[s.current];
      var b := s.pending[k];
      match C.FindPlacementPosition(c, b, None)
      case None => r == s
      case Some(p) =>
        var m := MoveTo(b, p.x, p.y);
        && r.containers == s.containers[s.current := c.(boxes := c.boxes + [m])]
        && r.pending == RemoveFirst(s.pending[k := m], m)
  {
    match CurrentContainer(s)
    case None => s
    case Some(c) =>
      var b := s.pending[k];
      match C.FindPlacementPosition(c, b, None)
      case None => s
      case Some(p) =>
        var m := MoveTo(b, p.x, p.y);
        var pending := s.pending[k := m];
        var (ok, c2) := C.AddBox(c, m);
        if ok then
          Session(s.containers[s.current := c2], RemoveFirst(pending, m), s.current)
        else
          s.(pending := pending)
  }

  // ---------------------------------------------------------------------------
  // Properties

  /** Every operation keeps the current index on an existing tab. */
  ghost predicate Invariant(s: Session)
  {
    s.current < |s.containers|
  }

  lemma SessionOperationsKeepInvariant(s: Session, index: int, close: nat, confirmed: bool, k: nat)
    ensures Invariant(InitialSession())
    ensures Invariant(AddNewContainer(s))
    ensures Invariant(s) ==> Invariant(SelectTab(s, index))
    ensures Invariant(s) && close < |s.containers| ==> Invariant(CloseContainerTab(s, close, confirmed))
    ensures Invariant(s) && k < |s.pending| ==> Invariant(AutoPlace(s, k))
  {
  }

  /** Closing a tab other than the current one keeps the same container
      current; closing the current tab selects its left neighbour (or the
      new first tab). */
  lemma CloseKeepsCurrentContainer(s: Session, index: nat)
    requires |s.containers| > 1 && index < |s.containers| && Invariant(s)
    ensures var r := CloseContainerTab(s, index, true);
      && (s.current != index ==> CurrentContainer(r) == CurrentContainer(s))
      && (s.current == index && index > 0 ==> CurrentContainer(r) == Some(s.containers[index - 1]))
      && (s.current == index && index == 0 ==> CurrentContainer(r) == Some(s.containers[1]))
  {
  }

  /** As run, closing a tab before the current one moves the index down
      twice, once in the re-entered handler and once in the close itself;
      closing the current tab or a later one agrees with the intended
      close. */
  lemma CloseAsRunMovesTwice(s: Session, index: nat)
    requires |s.containers| > 1 && index < |s.containers| && Invariant(s)
    ensures var r := CloseContainerTabAsRun(s, index, true);
      && (index < s.current ==> r.current == if s.current >= 2 then s.current - 2 else 0)
      && (index >= s.current ==> r == CloseContainerTab(s, index, true))
  {
  }

  /** With tabs A, B, C and C current, closing A leaves B current as run,
      where the intended close keeps C. */
  lemma CloseLeftTabShowsWrongContainer()
    ensures var a := C.NewContainer("A", None, None);
      var b := C.NewContainer("B", None, None);
      var c := C.NewContainer("C", None, None);
      var s := Session([a, b, c], [], 2);
      && CurrentContainer(CloseContainerTab(s, 0, true)) == Some(c)
      && CurrentContainer(CloseContainerTabAsRun(s, 0, true)) == Some(b)
      && b != c
  {
    var a := C.NewContainer("A", None, None);
    var b := C.NewContainer("B", None, None);
    var c := C.NewContainer("C", None, None);
    var s := Session([a, b, c], [], 2);
    assert b.name != c.name;
    assert CloseContainerTab(s, 0, true).containers == [b, c];
  }

  lemma {:induction false} AllBoxesAppend(a: seq<C.Container>, b: seq<C.Container>)
    ensures AllBoxes(a + b) == AllBoxes(a) + AllBoxes(b)
    decreases |b|
  {
    if |b| == 0 {
      assert a + b == a;
    } else {
      assert (a + b)[..|a + b| - 1] == a + b[..|b| - 1];
      assert (a + b)[|a + b| - 1] == b[|b| - 1];
      AllBoxesAppend(a, b[..|b| - 1]);
    }
  }

  lemma AllBoxesSplit(cs: seq<C.Container>, i: nat)
    requires i < |cs|
    ensures AllBoxes(cs) == AllBoxes(cs[..i]) + cs[i].boxes + AllBoxes(cs[i + 1..])
  {
    var pre := cs[..i];
    var x := cs[..i + 1];
    assert cs == x + cs[i + 1..];
    AllBoxesAppend(x, cs[i + 1..]);
    assert x[..|x| - 1] == pre && x[|x| - 1] == cs[i];
    assert AllBoxes(x) == AllBoxes(pre) + cs[i].boxes;
  }

  /** Appending a box to one container adds exactly that box to the load. */
  lemma AppendToContainer(cs: seq<C.Container>, i: nat, m: Box)
    requires i < |cs|
    ensures multiset(AllBoxes(cs[i := cs[i].(boxes := cs[i].boxes + [m])])) == multiset(AllBoxes(cs)) + multiset{m}
  {
    var ds := cs[i := cs[i].(boxes := cs[i].boxes + [m])];
    AllBoxesSplit(cs, i);
    AllBoxesSplit(ds, i);
    assert ds[..i] == cs[..i] && ds[i + 1..] == cs[i + 1..];
    var a := AllBoxes(cs[..i]);
    var z := AllBoxes(cs[i + 1..]);
    assert multiset(AllBoxes(ds)) == multiset(a) + multiset(cs[i].boxes + [m]) + multiset(z);
  }

  /** Closing a tab moves its boxes to the pool: no box is lost or made up. */
  lemma CloseConservesBoxes(s: Session, index: nat, confirmed: bool)
    requires |s.containers| > 1 ==> index < |s.containers|
    ensures var r := CloseContainerTab(s, index, confirmed);
      multiset(r.pending) + multiset(AllBoxes(r.containers)) == multiset(s.pending) + multiset(AllBoxes(s.containers))
  {
    var r := CloseContainerTab(s, index, confirmed);
    if r != s {
      AllBoxesSplit(s.containers, index);
      AllBoxesAppend(s.containers[..index], s.containers[index + 1..]);
      assert r.containers == s.containers[..index] + s.containers[index + 1..];
    }
  }

  /** When the search finds a position, the following `add_box` always
      succeeds: the found position passes the placement check. */
  lemma AutoPlaceAddSucceeds(s: Session, k: nat)
    requires k < |s.pending| && CurrentContainer(s).Some?
    ensures var c := s.containers[s.current];
      var b := s.pending[k];
      var p := C.FindPlacementPosition(c, b, None);
      p.Some? ==> C.AddBox(c, MoveTo(b, p.value.x, p.value.y)).0
  {
  }

  /** Auto-placement moves one box from the pool to the current container:
      counting the box at its new position, the pool and the containers
      together hold the same boxes as before; and a valid current container
      stays valid. */
  lemma AutoPlaceConservesBoxes(s: Session, k: nat)
    requires k < |s.pending| && CurrentContainer(s).Some?
    ensures var r := AutoPlace(s, k);
      var c := s.containers[s.current];
      var b := s.pending[k];
      var p := C.FindPlacementPosition(c, b, None);
      && (p.Some? ==>
        var m := MoveTo(b, p.value.x, p.value.y);
        && |r.pending| == |s.pending| - 1
        && multiset(r.pending) + multiset(AllBoxes(r.containers)) == multiset(s.pending[k := m]) + multiset(AllBoxes(s.containers)))
      && (C.Valid(c) ==> C.Valid(r.containers[s.current]))
  {
    var r := AutoPlace(s, k);
    var c := s.containers[s.current];
    var b := s.pending[k];
    var p := C.FindPlacementPosition(c, b, None);
    if p.Some? {
      var m := MoveTo(b, p.value.x, p.value.y);
      MoveIntoContainer(s, k, m, r);
    }
  }

  /** The bookkeeping of a successful auto-placement conserves boxes. */
  lemma MoveIntoContainer(s: Session, k: nat, m: Box, r: Session)
    requires k < |s.pending| && s.current < |s.containers|
    requires r.containers == s.containers[s.current := s.containers[s.current].(boxes := s.containers[s.current].boxes + [m])]
    requires r.pending == RemoveFirst(s.pending[k := m], m)
    ensures |r.pending| == |s.pending| - 1
    ensures multiset(r.pending) + multiset(AllBoxes(r.containers)) == multiset(s.pending[k := m]) + multiset(AllBoxes(s.containers))
  {
    var pend := s.pending[k := m];
    assert pend[k] == m;
    AppendToContainer(s.containers, s.current, m);
    assert multiset(pend) - multiset{m} + multiset{m} == multiset(pend);
  }

  /** Tab titles come from the number of tabs, so after a close the next
      new container can repeat an existing title. */
  lemma NamesCanRepeat()
    ensures var s := AddNewContainer(InitialSession());
      var t := AddNewContainer(CloseContainerTab(s, 0, true));
      |t.containers| == 2 && t.containers[0].name == t.containers[1].name
  {
    var s := AddNewContainer(InitialSession());
    assert s.containers[1].name == ContainerName(2);
    var u := CloseContainerTab(s, 0, true);
    assert u.containers == [s.containers[1]];
    var t := AddNewContainer(u);
    assert t.containers[1].name == ContainerName(2);
  }
}
