/** The pure part of the game loop in MainActivity.kt: the grid flattened to a
    sequence of cells (`null` is None), filtered by the position of the droid in
    each cell, and the draw of one droid from the filtered list. */
module Selection {

  import opened Options
  import opened Translation

  predicate IsDown(p: DroidPosition) {
    p == Down
  }

  /** The game-over filter: neither down nor already on its way down. The game
      loop writes this test out again rather than asking the node, so it is
      defined here on its own and StillUpIsPullDownGuard ties it to the guard
      of pullDown. */
  predicate StillUp(p: DroidPosition) {
    p != Down && p != MovingDown
  }

  /** The indices, in increasing order, of the cells that hold a droid whose
      position satisfies keep: `filterNotNull` and `filter` on the flattened grid. */
  function Select(cells: seq<Option<DroidPosition>>, keep: DroidPosition -> bool): (r: seq<nat>)
    ensures forall m :: 0 <= m < |r| ==> r[m] < |cells| && cells[r[m]].Some? && keep(cells[r[m]].value)
    ensures forall k :: 0 <= k < |cells| && cells[k].Some? && keep(cells[k].value) ==> k in r
    ensures forall m, m' :: 0 <= m < m' < |r| ==> r[m] < r[m']
    decreases |cells|
  {
    if cells == [] then
      []
    else
      var before := Select(cells[..|cells| - 1], keep);
      var last := cells[|cells| - 1];
      if last.Some? && keep(last.value) then before + [|cells| - 1] else before
  }

  /** `takeIf { size > 0 }?.getOrNull(draw)`: the drawn entry of eligible, or
      nothing when the list is empty or the draw falls outside it. */
  function Pick(eligible: seq<nat>, draw: nat): (r: Option<nat>)
    ensures r.Some? <==> draw < |eligible|
    ensures r.Some? ==> r.value in eligible && r.value == eligible[draw]
  {
    if |eligible| > 0 then
      if draw < |eligible| then Some(eligible[draw]) else None
    else
      None
  }

  /** A tick's draw from `0..size` (size included) picks a cell whose droid
      was Down, never an empty cell; it picks nothing exactly when the draw is
      size, which is also the only draw when no droid is down. */
  lemma PickedDroidWasDown(cells: seq<Option<DroidPosition>>, draw: nat)
    requires draw <= |Select(cells, IsDown)|
    ensures Pick(Select(cells, IsDown), draw).None? <==> draw == |Select(cells, IsDown)|
    ensures Pick(Select(cells, IsDown), draw).Some? ==>
      var k := Pick(Select(cells, IsDown), draw).value;
      k < |cells| && cells[k] == Some(Down)
  {
  }

  /** Every Down droid has a draw that makes a tick pull it up (the converse
      is PickedDroidWasDown). */
  lemma EveryDownDroidCanBePicked(cells: seq<Option<DroidPosition>>, k: nat)
    requires k < |cells| && cells[k] == Some(Down)
    ensures exists draw: nat :: draw < |Select(cells, IsDown)| && Pick(Select(cells, IsDown), draw) == Some(k)
  {
    var eligible := Select(cells, IsDown);
    assert IsDown(cells[k].value);
    assert k in eligible;
    var m :| 0 <= m < |eligible| && eligible[m] == k;
    assert Pick(eligible, m) == Some(k);
  }

  /** The game-over filter keeps exactly the droids that pullDown would move. */
  lemma StillUpIsPullDownGuard(p: DroidPosition)
    ensures StillUp(p) <==> AcceptsPullDown(p)
  {
  }
}
