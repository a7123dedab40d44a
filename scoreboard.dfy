/** The scoreboard widget (ScoreboardView.kt): the score and life counters and
    the small display state their setters drive. */
module Scoreboard {

  /** The widget state the life setter toggles: the game-over message, whether
      the start button is enabled, and whether its label reads "restart". */
  datatype Display = Display(gameOverVisible: bool, startEnabled: bool, startLabelIsRestart: bool)

  const GameOverDisplay := Display(true, true, true)

  /** The display after the life counter, holding previous, is assigned value.
      The message is hidden when the counter goes from exactly 0 to something
      larger; a value of at most 0 then shows the message, enables the start
      button and relabels it "restart". */
  function LifeDisplay(d: Display, previous: int, value: int): (r: Display)
    ensures value <= 0 ==> r == GameOverDisplay
    ensures value > 0 ==> r.startEnabled == d.startEnabled && r.startLabelIsRestart == d.startLabelIsRestart
    ensures value > 0 ==> (r.gameOverVisible <==> d.gameOverVisible && previous != 0)
  {
    var restarted := if previous == 0 && value > previous then d.(gameOverVisible := false) else d;
    if value <= 0 then
      restarted.(gameOverVisible := true, startEnabled := true, startLabelIsRestart := true)
    else
      restarted
  }

  /** The display after the life counter, holding life, is assigned each of
      values in turn. */
  function Replay(d: Display, life: int, values: seq<int>): Display
    decreases |values|
  {
    if values == [] then d else Replay(LifeDisplay(d, life, values[0]), values[0], values[1..])
  }

  /** The counter value that the k-th assignment of values overwrites. */
  function PreviousLife(life: int, values: seq<int>, k: nat): int
    requires k < |values|
  {
    if k == 0 then life else values[k - 1]
  }

  /** The message is hidden only when a positive value replaces exactly 0. */
  lemma GameOverHiddenOnlyFromZero(d: Display, previous: int, value: int)
    requires d.gameOverVisible
    ensures !LifeDisplay(d, previous, value).gameOverVisible <==> previous == 0 && value > 0
  {
  }

  /** Once shown, the game-over message stays shown through any run of life
      assignments none of which lifts the counter from exactly 0 to a positive
      value; in particular a restart from a negative counter keeps it. */
  lemma {:induction false} GameOverPersists(d: Display, life: int, values: seq<int>)
    requires d.gameOverVisible
    requires forall k :: 0 <= k < |values| ==> !(PreviousLife(life, values, k) == 0 && values[k] > 0)
    ensures Replay(d, life, values).gameOverVisible
    decreases |values|
  {
    if values != [] {
      assert !(life == 0 && values[0] > 0) by {
        assert PreviousLife(life, values, 0) == life;
      }
      var d' := LifeDisplay(d, life, values[0]);
      forall k | 0 <= k < |values[1..]|
        ensures !(PreviousLife(values[0], values[1..], k) == 0 && values[1..][k] > 0)
      {
        assert PreviousLife(values[0], values[1..], k) == PreviousLife(life, values, k + 1);
        assert values[1..][k] == values[k + 1];
      }
      GameOverPersists(d', values[0], values[1..]);
    }
  }

  /** Positive assignments never touch the start button. */
  lemma {:induction false} PositiveLivesKeepStartButton(d: Display, life: int, values: seq<int>)
    requires forall k :: 0 <= k < |values| ==> values[k] > 0
    ensures Replay(d, life, values).startEnabled == d.startEnabled
    ensures Replay(d, life, values).startLabelIsRestart == d.startLabelIsRestart
    decreases |values|
  {
    if values != [] {
      assert values[0] > 0;
      forall k | 0 <= k < |values[1..]| ensures values[1..][k] > 0 {
        assert values[1..][k] == values[k + 1];
      }
      PositiveLivesKeepStartButton(LifeDisplay(d, life, values[0]), values[0], values[1..]);
    }
  }

  /** The restart quirk, concretely: from one life, a miss (0) followed by a
      restart hides the message, but a second miss (-1) before the restart
      leaves it on screen during the new game. */
  lemma RestartQuirk(d: Display, startLives: int)
    requires startLives > 0
    ensures !Replay(d, 1, [0, startLives]).gameOverVisible
    ensures Replay(d, 1, [0, -1, startLives]).gameOverVisible
  {
    var over := LifeDisplay(d, 1, 0);
    assert over == GameOverDisplay;
    assert [0, startLives][1..] == [startLives];
    assert [startLives][1..] == [];
    assert Replay(d, 1, [0, startLives]) == Replay(over, 0, [startLives]);
    assert Replay(over, 0, [startLives]) == LifeDisplay(over, 0, startLives);
    assert [0, -1, startLives][1..] == [-1, startLives];
    assert [-1, startLives][1..] == [startLives];
    assert Replay(d, 1, [0, -1, startLives]) == Replay(over, 0, [-1, startLives]);
    assert Replay(over, 0, [-1, startLives]) == Replay(LifeDisplay(over, 0, -1), -1, [startLives]);
    assert Replay(LifeDisplay(over, 0, -1), -1, [startLives]) == LifeDisplay(GameOverDisplay, -1, startLives);
  }

  class ScoreboardView {
    var score: int
    var life: int
    var gameOverVisible: bool
    var startEnabled: bool
    var startLabelIsRestart: bool
    /** Whether the onStartTapped callback has been set. */
    var hasStartHandler: bool

    function Widgets(): Display
      reads this
    {
      Display(gameOverVisible, startEnabled, startLabelIsRestart)
    }

    /** Both counters start at 0 without running their setters; the widgets
      start as the layout declares them, which is not part of this model. */
    constructor (layout: Display)
      ensures score == 0 && life == 0 && Widgets() == layout && !hasStartHandler
    {
      score := 0;
      life := 0;
      gameOverVisible := layout.gameOverVisible;
      startEnabled := layout.startEnabled;
      startLabelIsRestart := layout.startLabelIsRestart;
      hasStartHandler := false;
    }

    method SetScore(value: int)
      modifies this
      ensures score == value && life == old(life)
      ensures Widgets() == old(Widgets()) && hasStartHandler == old(hasStartHandler)
    {
      score := value;
    }

    method SetLife(value: int)
      modifies this
      ensures life == value && score == old(score) && hasStartHandler == old(hasStartHandler)
      ensures Widgets() == LifeDisplay(old(Widgets()), old(life), value)
    {
      if life == 0 && value > life {
        gameOverVisible := false;
      }
      life := value;
      if value <= 0 {
        gameOverVisible := true;
        startEnabled := true;
        startLabelIsRestart := true;
      }
    }

    /** The start button's click listener: the button is disabled first;
      invoke tells whether the onStartTapped callback is then run. */
    method ClickStart() returns (invoke: bool)
      modifies this
      ensures !startEnabled && invoke == hasStartHandler
      ensures score == old(score) && life == old(life) && hasStartHandler == old(hasStartHandler)
      ensures gameOverVisible == old(gameOverVisible) && startLabelIsRestart == old(startLabelIsRestart)
    {
      startEnabled := false;
      invoke := hasStartHandler;
    }
  }
}
