/** The game session held by MainActivity.kt: the grid of droids, the heart,
    the setup flags, the scoreboard counters and the handler's queue of
    pending tasks, with the tap handlers and the pop-up loop. */
module Session {

  import opened Options
  import opened Translation
  import opened Scoreboard
  import opened Selection

  /** The configuration constants; their values are not part of this model. */
  datatype Config = Config(
    rows: nat, cols: nat, startLives: int, movesPerTime: nat,
    minMoveDelayMs: int, maxMoveDelayMs: int,
    minPullDownDelayMs: int, maxPullDownDelayMs: int)
  {
    /** Both delay ranges are non-empty, so drawing from them cannot fail. */
    predicate Valid() {
      minMoveDelayMs <= maxMoveDelayMs && minPullDownDelayMs <= maxPullDownDelayMs
    }
  }

  /** Distance between neighbouring droids. */
  const Spacing: real := 0.3

  /** The heart's pull-up height. */
  const HeartOffset: real := 2.0

  /** A task posted to the game handler. */
  datatype Task =
    | Tick(delayMs: int)                                  // pullUpRunnable
    | PullDownLater(node: TranslatableNode, delayMs: int) // a droid's scheduled pullDown
    | PostTicks                                           // the runnable posted by onStartTapped

  /** The queue without its k-th task, the one the handler dispatches. */
  function RemoveAt<T>(s: seq<T>, k: nat): (r: seq<T>)
    requires k < |s|
    ensures |r| == |s| - 1
    ensures forall t :: t in r ==> t in s
    ensures multiset(r) + multiset{s[k]} == multiset(s)
  {
    assert s == s[..k] + [s[k]] + s[k + 1..];
    s[..k] + s[k + 1..]
  }

  /** n ticks posted without delay. */
  function Ticks(n: nat): (r: seq<Task>)
    ensures |r| == n && forall k :: 0 <= k < n ==> r[k] == Tick(0)
  {
    seq(n, _ => Tick(0))
  }

  /** The positions of the droids in ds, None for an empty cell. */
  function PositionsOf(ds: seq<TranslatableNode?>): (r: seq<Option<DroidPosition>>)
    reads set n: TranslatableNode | n in ds
    ensures |r| == |ds|
    ensures forall k :: 0 <= k < |ds| ==> (r[k].None? <==> ds[k] == null)
    ensures forall k :: 0 <= k < |ds| && ds[k] != null ==> r[k] == Some(ds[k].position)
  {
    seq(|ds|, k requires 0 <= k < |ds| reads set n: TranslatableNode | n in ds =>
      if ds[k] == null then None else Some(ds[k].position))
  }

  /** `forEach { it.pullDown() }` over ds[targets[0]], ds[targets[1]], …: each
      target ends as pullDown leaves it, and nothing else in ds moves. */
  method PullDownEach(ds: seq<TranslatableNode?>, targets: seq<nat>)
    requires forall m :: 0 <= m < |targets| ==> targets[m] < |ds| && ds[targets[m]] != null
    modifies set n: TranslatableNode | n in ds
    ensures forall n: TranslatableNode :: n in ds ==>
      n.State() == old(n.State()) || n.State() == PullDownStep(old(n.State()))
    ensures forall m :: 0 <= m < |targets| ==> ds[targets[m]].State() == PullDownStep(old(ds[targets[m]].State()))
  {
    var i := 0;
    while i < |targets|
      invariant 0 <= i <= |targets|
      invariant forall n: TranslatableNode :: n in ds ==>
        n.State() == old(n.State()) || n.State() == PullDownStep(old(n.State()))
      invariant forall m :: 0 <= m < i ==> ds[targets[m]].State() == PullDownStep(old(ds[targets[m]].State()))
    {
      var droid := ds[targets[i]];
      droid.PullDown();
      RepeatedRequestsAreIdempotent(old(droid.State()), 0.0, false, 0.0, false);
      i := i + 1;
    }
  }

  class Game {
    const cfg: Config
    const grid: array2<TranslatableNode?>
    const scoreboard: ScoreboardView
    var heartNode: TranslatableNode?
    var initialized: bool
    var heartClicked: bool
    /** Whether the droid model and the scoreboard view have been loaded. */
    var resourcesLoaded: bool
    /** The game handler's queue. */
    var pending: seq<Task>
    /** The flattened grid, as Droids() computes it. */
    ghost var cells: seq<TranslatableNode?>

    /** Row i of the grid. */
    function Row(i: nat): (r: seq<TranslatableNode?>)
      requires i < grid.Length0
      reads grid
      ensures |r| == grid.Length1
      ensures forall j :: 0 <= j < grid.Length1 ==> r[j] == grid[i, j]
    {
      seq(grid.Length1, j requires 0 <= j < grid.Length1 reads grid => grid[i, j])
    }

    /** Rows 0 to n - 1 of the grid, one after the other. */
    function RowsBelow(n: nat): (r: seq<TranslatableNode?>)
      requires n <= grid.Length0
      reads grid
      ensures forall i, j :: 0 <= i < n && 0 <= j < grid.Length1 ==> grid[i, j] in r
      decreases n
    {
      if n == 0 then [] else RowsBelow(n - 1) + Row(n - 1)
    }

    /** Every entry of the first n rows, flattened, is one of their cells. */
    lemma {:induction false} CellOf(n: nat, k: nat) returns (i: nat, j: nat)
      requires n <= grid.Length0 && k < |RowsBelow(n)|
      ensures i < n && j < grid.Length1 && RowsBelow(n)[k] == grid[i, j]
      decreases n
    {
      var before := RowsBelow(n - 1);
      if k < |before| {
        i, j := CellOf(n - 1, k);
      } else {
        i, j := n - 1, k - |before|;
      }
    }

    /** `grid.flatMap { it.toList() }`: every cell, row after row. */
    function Droids(): (r: seq<TranslatableNode?>)
      reads grid
      ensures forall i, j :: 0 <= i < grid.Length0 && 0 <= j < grid.Length1 ==> grid[i, j] in r
    {
      RowsBelow(grid.Length0)
    }

    ghost function DroidSet(): set<TranslatableNode>
      reads grid
    {
      set n: TranslatableNode | n in Droids()
    }

    /** Every node of the session. */
    ghost function Nodes(): set<TranslatableNode>
      reads this, grid
    {
      DroidSet() + (if heartNode == null then {} else {heartNode})
    }

    /** The positions of the flattened grid. */
    function Positions(): seq<Option<DroidPosition>>
      reads grid, DroidSet()
    {
      PositionsOf(Droids())
    }

    ghost predicate Valid()
      reads this, grid
    {
      cfg.Valid() && grid.Length0 == cfg.rows && grid.Length1 == cfg.cols
      && cells == Droids()
      && (heartNode != null ==> heartNode !in Droids())
      && (forall t :: t in pending && t.PullDownLater? ==> t.node in Droids())
      && (!initialized ==> heartNode == null && forall k :: 0 <= k < |Droids()| ==> Droids()[k] == null)
    }

    /** What failHit promises: 5 points and one life are lost; when that leaves
        no life, the queue is emptied and every droid is pulled down; the
        heart is left alone. */
    twostate predicate Missed(ds: seq<TranslatableNode?>)
      reads this, grid, scoreboard, Nodes(), set n: TranslatableNode | n in ds
    {
      scoreboard.score == old(scoreboard.score) - 5
      && scoreboard.life == old(scoreboard.life) - 1
      && scoreboard.Widgets() == LifeDisplay(old(scoreboard.Widgets()), old(scoreboard.life), old(scoreboard.life) - 1)
      && scoreboard.hasStartHandler == old(scoreboard.hasStartHandler)
      && heartNode == old(heartNode)
      && (heartNode != null ==> heartNode.State() == old(heartNode.State()))
      && (scoreboard.life > 0 ==>
            pending == old(pending)
            && forall n: TranslatableNode :: n in ds ==> n.State() == old(n.State()))
      && (scoreboard.life <= 0 ==>
            pending == []
            && forall n: TranslatableNode :: n in ds ==> n.State() == PullDownStep(old(n.State())))
    }

    /** What the droid half of pullUpRunnable promises, where ds are the
        droids, base the queue it found and queue the queue it leaves: the
        drawn droid, if the draw hits one, was Down, is pulled up and gets
        one pull-down task; no other droid moves. */
    twostate predicate Drawn(ds: seq<TranslatableNode?>, base: seq<Task>, draw: nat, pullDownDelayMs: int, new queue: seq<Task>)
      reads set n: TranslatableNode | n in ds
    {
      match Pick(Select(old(PositionsOf(ds)), IsDown), draw)
      case None =>
        queue == base
        && forall n: TranslatableNode :: n in ds ==> n.State() == old(n.State())
      case Some(c) =>
        c < |ds| && ds[c] != null
        && var droid := ds[c];
        old(droid.position) == Down
        && droid.State() == PullUpStep(old(droid.State()), DefaultOffset, false)
        && queue == base + [PullDownLater(droid, pullDownDelayMs)]
        && forall n: TranslatableNode :: n in ds && n != droid ==> n.State() == old(n.State())
    }

    /** What one run of pullUpRunnable promises, where ds are the droids and
        base the queue it found. With no life left, nothing. Otherwise the
        droid half, then the heart is pulled up and one next tick is posted. */
    twostate predicate Ticked(ds: seq<TranslatableNode?>, base: seq<Task>, draw: nat, pullDownDelayMs: int, nextMoveDelayMs: int)
      reads this, grid, scoreboard, Nodes(), set n: TranslatableNode | n in ds
    {
      heartNode == old(heartNode)
      && if scoreboard.life <= 0 then
        pending == base
        && (heartNode != null ==> heartNode.State() == old(heartNode.State()))
        && forall n: TranslatableNode :: n in ds ==> n.State() == old(n.State())
      else
        (heartNode != null ==> heartNode.State() == PullUpStep(old(heartNode.State()), HeartOffset, true))
        && |pending| > 0 && pending[|pending| - 1] == Tick(nextMoveDelayMs)
        && Drawn(ds, base, draw, pullDownDelayMs, pending[..|pending| - 1])
    }

    /** The activity after initResources: an empty grid, no heart, a fresh
        scoreboard whose onStartTapped callback is set. */
    constructor (cfg: Config, layout: Display)
      requires cfg.Valid()
      ensures Valid() && fresh(grid) && fresh(scoreboard)
      ensures this.cfg == cfg && heartNode == null && pending == []
      ensures !initialized && !heartClicked && !resourcesLoaded
      ensures forall i, j :: 0 <= i < grid.Length0 && 0 <= j < grid.Length1 ==> grid[i, j] == null
      ensures scoreboard.score == 0 && scoreboard.life == 0
      ensures scoreboard.Widgets() == layout && scoreboard.hasStartHandler
    {
      this.cfg := cfg;
      grid := new TranslatableNode?[cfg.rows, cfg.cols]((i, j) => null);
      scoreboard := new ScoreboardView(layout);
      heartNode := null;
      initialized := false;
      heartClicked := false;
      resourcesLoaded := false;
      pending := [];
      new;
      scoreboard.hasStartHandler := true;
      forall k | 0 <= k < |Droids()| ensures Droids()[k] == null {
        var i, j := CellOf(grid.Length0, k);
      }
      cells := Droids();
    }

    /** The asynchronous asset loading has delivered its renderables. */
    method LoadResources()
      requires Valid()
      modifies this`resourcesLoaded
      ensures Valid() && resourcesLoaded
    {
      resourcesLoaded := true;
    }

    /** The dispatcher of the plane's tap listener. Before setup a tap places
        the game when the plane faces upward and the resources are loaded, and
        is ignored otherwise; after setup every plane tap is a miss. */
    method TapPlane(planeIsHorizontalUpward: bool)
      requires Valid()
      modifies this`heartNode, this`initialized, this`pending, this`cells, grid, scoreboard, Nodes()
      ensures Valid()
      ensures old(initialized) ==> Missed(old(cells)) && initialized && unchanged(grid)
      ensures !old(initialized) && !(planeIsHorizontalUpward && resourcesLoaded) ==> unchanged(this, grid, scoreboard)
      ensures !old(initialized) && planeIsHorizontalUpward && resourcesLoaded ==>
        initialized && pending == old(pending) && unchanged(scoreboard) && Placed()
    {
      if initialized {
        FailHit();
        return;
      }
      if !planeIsHorizontalUpward {
        return;
      }
      if !resourcesLoaded {
        return;
      }
      PlaceGrid();
    }

    /** What placing the game promises: every cell holds a fresh droid, down,
        at its place in the grid, and a fresh heart rests beside them. */
    twostate predicate Placed()
      reads this, grid, Nodes()
    {
      heartNode != null && fresh(heartNode)
      && heartNode.State() == NodeState(Down, Vector3(Spacing, 0.0, 3.0 * Spacing), None)
      && forall i, j :: 0 <= i < grid.Length0 && 0 <= j < grid.Length1 ==>
        grid[i, j] != null && fresh(grid[i, j])
        && grid[i, j].State() == NodeState(Down, Vector3(j as real * Spacing, 0.0, i as real * Spacing), None)
    }

    /** Step 4 to 7 of the plane's tap listener: a fresh droid in every cell,
        offset by its column and row, then the heart, then initialized. */
    method PlaceGrid()
      requires Valid() && !initialized
      modifies this`heartNode, this`initialized, this`cells, grid
      ensures Valid() && initialized && pending == old(pending) && Placed()
    {
      assert forall t :: t in pending ==> !t.PullDownLater?;
      var i := 0;
      while i < grid.Length0
        invariant 0 <= i <= grid.Length0
        invariant forall i', j' :: 0 <= i' < i && 0 <= j' < grid.Length1 ==>
          grid[i', j'] != null && fresh(grid[i', j'])
          && grid[i', j'].State() == NodeState(Down, Vector3(j' as real * Spacing, 0.0, i' as real * Spacing), None)
      {
        var j := 0;
        while j < grid.Length1
          invariant 0 <= j <= grid.Length1
          invariant forall i', j' :: 0 <= i' < i && 0 <= j' < grid.Length1 ==>
            grid[i', j'] != null && fresh(grid[i', j'])
            && grid[i', j'].State() == NodeState(Down, Vector3(j' as real * Spacing, 0.0, i' as real * Spacing), None)
          invariant forall j' :: 0 <= j' < j ==>
            grid[i, j'] != null && fresh(grid[i, j'])
            && grid[i, j'].State() == NodeState(Down, Vector3(j' as real * Spacing, 0.0, i as real * Spacing), None)
        {
          var droid := new TranslatableNode();
          droid.AddOffset(j as real * Spacing, 0.0, i as real * Spacing);
          grid[i, j] := droid;
          j := j + 1;
        }
        i := i + 1;
      }
      var heart := new TranslatableNode();
      heart.AddOffset(1.0 * Spacing, 0.0, 3.0 * Spacing);
      forall k | 0 <= k < |Droids()| ensures Droids()[k] != heart {
        var i, j := CellOf(grid.Length0, k);
      }
      cells := Droids();
      heartNode := heart;
      initialized := true;
    }

    /** The tap listener of the droid in cell (i, j): a droid that is not down
        scores 10 and is pulled down; tapping a down droid is a miss. */
    method TapDroid(i: nat, j: nat)
      requires Valid() && i < grid.Length0 && j < grid.Length1 && grid[i, j] != null
      modifies scoreboard, this`pending, Nodes()
      ensures Valid()
      ensures old(grid[i, j].position) != Down ==>
        scoreboard.score == old(scoreboard.score) + 10 && scoreboard.life == old(scoreboard.life)
        && scoreboard.Widgets() == old(scoreboard.Widgets()) && pending == old(pending)
        && scoreboard.hasStartHandler == old(scoreboard.hasStartHandler)
        && grid[i, j].State() == PullDownStep(old(grid[i, j].State()))
        && forall n :: n in old(Nodes()) && n != grid[i, j] ==> n.State() == old(n.State())
      ensures old(grid[i, j].position) == Down ==> Missed(old(cells))
    {
      var droid := grid[i, j];
      if droid.position != Down {
        scoreboard.SetScore(scoreboard.score + 10);
        droid.PullDown();
      } else {
        FailHit();
      }
    }

    /** The heart's tap listener: one life more, and heartClicked. */
    method TapHeart()
      requires Valid() && heartNode != null
      modifies scoreboard, this`heartClicked
      ensures Valid() && heartClicked
      ensures scoreboard.life == old(scoreboard.life) + 1 && scoreboard.score == old(scoreboard.score)
      ensures scoreboard.Widgets() == LifeDisplay(old(scoreboard.Widgets()), old(scoreboard.life), old(scoreboard.life) + 1)
      ensures scoreboard.hasStartHandler == old(scoreboard.hasStartHandler)
    {
      scoreboard.SetLife(scoreboard.life + 1);
      heartClicked := true;
    }

    /** failHit: a miss; at no life left, the game is over. */
    method FailHit()
      requires Valid()
      modifies scoreboard, this`pending, Nodes()
      ensures Valid() && Missed(old(cells))
      ensures scoreboard.life <= 0 ==>
        forall n: TranslatableNode :: n in Droids() ==> n.position == MovingDown || n.position == Down
    {
      scoreboard.SetScore(scoreboard.score - 5);
      scoreboard.SetLife(scoreboard.life - 1);
      if scoreboard.life <= 0 {
        GameOver();
      }
    }

    /** The game-over branch of failHit: every pending task is removed, and
        every droid that is neither down nor sinking is pulled down. */
    method GameOver()
      requires Valid()
      modifies this`pending, DroidSet()
      ensures Valid() && pending == []
      ensures forall n: TranslatableNode :: n in old(cells) ==> n.State() == PullDownStep(old(n.State()))
      ensures forall n: TranslatableNode :: n in Droids() ==> n.position == MovingDown || n.position == Down
    {
      pending := [];
      var ds := Droids();
      var targets := Select(Positions(), StillUp);
      PullDownEach(ds, targets);
      forall n: TranslatableNode | n in ds
        ensures n.State() == PullDownStep(old(n.State()))
      {
        var k :| 0 <= k < |ds| && ds[k] == n;
        if StillUp(old(n.position)) {
          assert k in targets;
          var m :| 0 <= m < |targets| && targets[m] == k;
        } else {
          PullDownIgnoredWhenSinking(old(n.State()));
        }
      }
      forall n: TranslatableNode | n in ds
        ensures n.position == MovingDown || n.position == Down
      {
        PullDownSettles(old(n.State()));
      }
    }

    /** pullUpRunnable, with the random draws as parameters: draw from
        `0..size` for the droid, and the two delays from their ranges. */
    method PopUp(draw: nat, pullDownDelayMs: int, nextMoveDelayMs: int)
      requires Valid()
      requires draw <= |Select(Positions(), IsDown)|
      requires cfg.minPullDownDelayMs <= pullDownDelayMs <= cfg.maxPullDownDelayMs
      requires cfg.minMoveDelayMs <= nextMoveDelayMs <= cfg.maxMoveDelayMs
      modifies this`pending, Nodes()
      ensures Valid() && Ticked(old(cells), old(pending), draw, pullDownDelayMs, nextMoveDelayMs)
    {
      if scoreboard.life > 0 {
        PullUpDrawn(draw, pullDownDelayMs);
        ghost var drawn := pending;
        if heartNode != null {
          heartNode.PullUp(HeartOffset, true);
        }
        pending := pending + [Tick(nextMoveDelayMs)];
        assert pending[..|pending| - 1] == drawn;
      }
    }

    /** The droid half of pullUpRunnable: the Down droids of the flattened grid,
        the drawn one pulled up and its pull-down posted. */
    method PullUpDrawn(draw: nat, pullDownDelayMs: int)
      requires Valid()
      requires draw <= |Select(Positions(), IsDown)|
      modifies this`pending, DroidSet()
      ensures Valid() && Drawn(old(cells), old(pending), draw, pullDownDelayMs, pending)
    {
      var picked := Pick(Select(Positions(), IsDown), draw);
      if picked.Some? {
        var droid := Droids()[picked.value];
        droid.PullUp(DefaultOffset, false);
        pending := pending + [PullDownLater(droid, pullDownDelayMs)];
      }
    }

    /** The handler dispatches the pending tick at index k. */
    method RunTick(k: nat, draw: nat, pullDownDelayMs: int, nextMoveDelayMs: int)
      requires Valid() && k < |pending| && pending[k].Tick?
      requires draw <= |Select(Positions(), IsDown)|
      requires cfg.minPullDownDelayMs <= pullDownDelayMs <= cfg.maxPullDownDelayMs
      requires cfg.minMoveDelayMs <= nextMoveDelayMs <= cfg.maxMoveDelayMs
      modifies this`pending, Nodes()
      ensures Valid() && Ticked(old(cells), RemoveAt(old(pending), k), draw, pullDownDelayMs, nextMoveDelayMs)
    {
      pending := RemoveAt(pending, k);
      PopUp(draw, pullDownDelayMs, nextMoveDelayMs);
    }

    /** The handler dispatches the scheduled pull-down at index k. */
    method RunPullDown(k: nat)
      requires Valid() && k < |pending| && pending[k].PullDownLater?
      modifies this`pending, Nodes()
      ensures Valid() && pending == RemoveAt(old(pending), k)
      ensures var droid := old(pending[k].node);
        droid.State() == PullDownStep(old(droid.State()))
        && forall n :: n in old(Nodes()) && n != droid ==> n.State() == old(n.State())
    {
      var droid := pending[k].node;
      pending := RemoveAt(pending, k);
      droid.PullDown();
    }

    /** The handler dispatches the runnable posted by onStartTapped, which
        posts MOVES_PER_TIME ticks. */
    method RunPostTicks(k: nat)
      requires Valid() && k < |pending| && pending[k] == PostTicks
      modifies this`pending
      ensures Valid() && pending == RemoveAt(old(pending), k) + Ticks(cfg.movesPerTime)
    {
      pending := RemoveAt(pending, k);
      ghost var base := pending;
      var i := 0;
      while i < cfg.movesPerTime
        invariant 0 <= i <= cfg.movesPerTime
        invariant pending == base + Ticks(i)
      {
        pending := pending + [Tick(0)];
        i := i + 1;
      }
    }

    /** onStartTapped: full lives, no score, and the ticks are posted. */
    method OnStartTapped()
      requires Valid()
      modifies scoreboard, this`pending
      ensures Valid()
      ensures scoreboard.life == cfg.startLives && scoreboard.score == 0
      ensures scoreboard.Widgets() == LifeDisplay(old(scoreboard.Widgets()), old(scoreboard.life), cfg.startLives)
      ensures scoreboard.hasStartHandler == old(scoreboard.hasStartHandler)
      ensures pending == old(pending) + [PostTicks]
    {
      scoreboard.SetLife(cfg.startLives);
      scoreboard.SetScore(0);
      pending := pending + [PostTicks];
    }

    /** A click on the (enabled) start button: the button is disabled, then
        onStartTapped runs when it is set. */
    method TapStart()
      requires Valid() && scoreboard.startEnabled
      modifies scoreboard, this`pending
      ensures Valid()
      ensures old(scoreboard.hasStartHandler) ==>
        scoreboard.life == cfg.startLives && scoreboard.score == 0
        && scoreboard.Widgets() == LifeDisplay(old(scoreboard.Widgets()).(startEnabled := false), old(scoreboard.life), cfg.startLives)
        && pending == old(pending) + [PostTicks]
      ensures scoreboard.hasStartHandler == old(scoreboard.hasStartHandler)
      ensures !old(scoreboard.hasStartHandler) ==>
        scoreboard.life == old(scoreboard.life) && scoreboard.score == old(scoreboard.score)
        && scoreboard.Widgets() == old(scoreboard.Widgets()).(startEnabled := false)
        && pending == old(pending)
    {
      var invoke := scoreboard.ClickStart();
      if invoke {
        OnStartTapped();
      }
    }
  }
}
