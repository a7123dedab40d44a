/** The pop-up node of the game (TranslatableNode in Translation.kt): a position
    in the pop-up cycle, a local position in its parent's frame, and at most one
    running animation of that local position. */
module Translation {

  import opened Options

  /** Where a node stands in its pop-up cycle. */
  datatype DroidPosition = Down | MovingUp | Up | MovingDown

  /** A point in the parent's frame. Coordinates are reals: float rounding is
      not modelled. */
  datatype Vector3 = Vector3(x: real, y: real, z: real)

  const Origin := Vector3(0.0, 0.0, 0.0)

  /** A started, not yet ended, animation of the local position: where it
      started, where it arrives, how long it lasts, and the position its end
      listener assigns. */
  datatype Animation = Animation(from: Vector3, to: Vector3, durationMs: nat, endsIn: DroidPosition)

  /** Everything about a node that the game logic observes. */
  datatype NodeState = NodeState(position: DroidPosition, local: Vector3, inFlight: Option<Animation>)

  /** Duration of an ordinary animator, and of the heart's pull-up animator. */
  const DroidDurationMs: nat := 250
  const HeartDurationMs: nat := 1000

  /** Default vertical target of pullUp. */
  const DefaultOffset: real := 0.4

  /** A node as it is created: resting down at its parent's origin. */
  const Initial := NodeState(Down, Origin, None)

  function PullUpDuration(heart: bool): nat {
    if heart then HeartDurationMs else DroidDurationMs
  }

  /** The guard of pullUp: not already rising or up. */
  predicate AcceptsPullUp(p: DroidPosition) {
    p != MovingUp && p != Up
  }

  /** The guard of pullDown: not already sinking or down. */
  predicate AcceptsPullDown(p: DroidPosition) {
    p != MovingDown && p != Down
  }

  /** pullUp(offset, heart): if the guard lets it through, an animation from the
      current local position to the same point at height offset is started and
      its start listener sets MovingUp; a running animation is replaced. */
  function PullUpStep(s: NodeState, offset: real, heart: bool): NodeState {
    if AcceptsPullUp(s.position) then
      NodeState(MovingUp, s.local, Some(Animation(s.local, s.local.(y := offset), PullUpDuration(heart), Up)))
    else
      s
  }

  /** pullDown(): the same with height 0, the ordinary duration and MovingDown. */
  function PullDownStep(s: NodeState): NodeState {
    if AcceptsPullDown(s.position) then
      NodeState(MovingDown, s.local, Some(Animation(s.local, s.local.(y := 0.0), DroidDurationMs, Down)))
    else
      s
  }

  /** The end listener of the running animation, if there is one: the node
      arrives at the target and takes the position the listener assigns. */
  function EndStep(s: NodeState): NodeState {
    match s.inFlight
    case None => s
    case Some(a) => NodeState(a.endsIn, a.to, None)
  }

  /** addOffset(dx, dy, dz): a componentwise translation of the local position. */
  function OffsetStep(s: NodeState, dx: real, dy: real, dz: real): NodeState {
    s.(local := Vector3(s.local.x + dx, s.local.y + dy, s.local.z + dz))
  }

  /** Everything that can happen to a node. */
  datatype Event =
    | PullUpRequest(offset: real, heart: bool)
    | PullDownRequest
    | AnimationEnd
    | Offset(dx: real, dy: real, dz: real)

  function Step(s: NodeState, e: Event): NodeState {
    match e
    case PullUpRequest(offset, heart) => PullUpStep(s, offset, heart)
    case PullDownRequest => PullDownStep(s)
    case AnimationEnd => EndStep(s)
    case Offset(dx, dy, dz) => OffsetStep(s, dx, dy, dz)
  }

  /** The state after the events es, in order. */
  function Run(s: NodeState, es: seq<Event>): NodeState
    decreases |es|
  {
    if es == [] then s else Run(Step(s, es[0]), es[1..])
  }

  /** The states the listeners can leave a node in: an idle node rests Down or
      Up; a moving node has exactly one animation, whose end listener assigns
      the matching rest position, with the matching duration. */
  predicate Coherent(s: NodeState) {
    match s.inFlight
    case None => s.position == Down || s.position == Up
    case Some(a) =>
      (s.position == MovingUp && a.endsIn == Up
        && (a.durationMs == DroidDurationMs || a.durationMs == HeartDurationMs))
      || (s.position == MovingDown && a.endsIn == Down
        && a.durationMs == DroidDurationMs && a.to.y == 0.0)
  }

  /** A running animation moves vertically only: its target shares x and z with
      the local position. */
  predicate Vertical(s: NodeState) {
    s.inFlight.Some? ==> s.inFlight.value.to.x == s.local.x && s.inFlight.value.to.z == s.local.z
  }

  predicate NoOffsets(es: seq<Event>) {
    forall k :: 0 <= k < |es| ==> !es[k].Offset?
  }

  lemma InitialIsCoherent()
    ensures Coherent(Initial) && Initial.position == Down && Initial.inFlight == None
  {
  }

  /** pullUp is a no-op on a rising or raised node, whatever the arguments. */
  lemma PullUpIgnoredWhenRising(s: NodeState, offset: real, heart: bool)
    requires s.position == MovingUp || s.position == Up
    ensures PullUpStep(s, offset, heart) == s
  {
  }

  /** pullDown is a no-op on a sinking or lowered node. */
  lemma PullDownIgnoredWhenSinking(s: NodeState)
    requires s.position == MovingDown || s.position == Down
    ensures PullDownStep(s) == s
  {
  }

  /** A second request right after an accepted one changes nothing. */
  lemma RepeatedRequestsAreIdempotent(s: NodeState, offset: real, heart: bool, offset': real, heart': bool)
    ensures PullUpStep(PullUpStep(s, offset, heart), offset', heart') == PullUpStep(s, offset, heart)
    ensures PullDownStep(PullDownStep(s)) == PullDownStep(s)
  {
  }

  /** An accepted pullUp: MovingUp at the start, an animation to the current
      point with y replaced by offset, 1000 ms for the heart and 250 ms
      otherwise; UP at the target when it ends. */
  lemma AcceptedPullUp(s: NodeState, offset: real, heart: bool)
    requires s.position == Down || s.position == MovingDown
    ensures var t := PullUpStep(s, offset, heart);
      t.position == MovingUp && t.local == s.local && t.inFlight.Some?
      && t.inFlight.value.from == s.local
      && t.inFlight.value.to == Vector3(s.local.x, offset, s.local.z)
      && t.inFlight.value.durationMs == (if heart then 1000 else 250)
    ensures EndStep(PullUpStep(s, offset, heart)) == NodeState(Up, Vector3(s.local.x, offset, s.local.z), None)
  {
  }

  /** An accepted pullDown: MovingDown at the start, an animation to the current
      point with y replaced by 0 that always lasts 250 ms; DOWN when it ends. */
  lemma AcceptedPullDown(s: NodeState)
    requires s.position == Up || s.position == MovingUp
    ensures var t := PullDownStep(s);
      t.position == MovingDown && t.local == s.local && t.inFlight.Some?
      && t.inFlight.value.from == s.local
      && t.inFlight.value.to == Vector3(s.local.x, 0.0, s.local.z)
      && t.inFlight.value.durationMs == 250
    ensures EndStep(PullDownStep(s)) == NodeState(Down, Vector3(s.local.x, 0.0, s.local.z), None)
  {
  }

  /** After pullDown, requested or not, the node is down or on its way down. */
  lemma PullDownSettles(s: NodeState)
    ensures PullDownStep(s).position == MovingDown || PullDownStep(s).position == Down
  {
  }

  /** addOffset moves the local position by (dx, dy, dz) and touches nothing else. */
  lemma OffsetTranslates(s: NodeState, dx: real, dy: real, dz: real)
    ensures var t := OffsetStep(s, dx, dy, dz);
      t.position == s.position && t.inFlight == s.inFlight
      && t.local.x - s.local.x == dx && t.local.y - s.local.y == dy && t.local.z - s.local.z == dz
  {
  }

  /** The end listener always leaves a coherent node at rest, Down or Up. */
  lemma EndComesToRest(s: NodeState)
    requires Coherent(s)
    ensures EndStep(s).inFlight == None
    ensures EndStep(s).position == Down || EndStep(s).position == Up
    ensures s.position == MovingUp ==> EndStep(s).position == Up
    ensures s.position == MovingDown ==> EndStep(s).position == Down
  {
  }

  lemma StepCoherent(s: NodeState, e: Event)
    requires Coherent(s)
    ensures Coherent(Step(s, e))
  {
  }

  /** Whatever the order of requests, end callbacks and offsets, a node created
      Down stays coherent: the only rest positions are Down and Up, and a moving
      node always has the animation that will bring it to rest. */
  lemma {:induction false} RunCoherent(s: NodeState, es: seq<Event>)
    requires Coherent(s)
    ensures Coherent(Run(s, es))
    decreases |es|
  {
    if es != [] {
      StepCoherent(s, es[0]);
      RunCoherent(Step(s, es[0]), es[1..]);
    }
  }

  /** Without addOffset, requests and end callbacks never move a node
      sideways: x and z keep their values and every animation is vertical. */
  lemma {:induction false} RunKeepsXZ(s: NodeState, es: seq<Event>)
    requires Vertical(s) && NoOffsets(es)
    ensures Vertical(Run(s, es))
    ensures Run(s, es).local.x == s.local.x && Run(s, es).local.z == s.local.z
    decreases |es|
  {
    if es != [] {
      assert !es[0].Offset?;
      assert NoOffsets(es[1..]) by {
        forall k | 0 <= k < |es[1..]| ensures !es[1..][k].Offset? {
          assert es[1..][k] == es[k + 1];
        }
      }
      RunKeepsXZ(Step(s, es[0]), es[1..]);
    }
  }

  class TranslatableNode {
    var position: DroidPosition
    var localPosition: Vector3
    var inFlight: Option<Animation>

    /** The observable state of this node. */
    function State(): NodeState
      reads this
    {
      NodeState(position, localPosition, inFlight)
    }

    constructor ()
      ensures State() == Initial
    {
      position := Down;
      localPosition := Origin;
      inFlight := None;
    }

    method PullUp(offset: real, heart: bool)
      modifies this
      ensures State() == PullUpStep(old(State()), offset, heart)
    {
      if position != MovingUp && position != Up {
        AnimatePullUp(offset, heart);
      }
    }

    method PullDown()
      modifies this
      ensures State() == PullDownStep(old(State()))
    {
      if position != MovingDown && position != Down {
        AnimatePullDown();
      }
    }

    /** Starts the pull-down animation; its start listener runs at once. */
    method AnimatePullDown()
      modifies this
      ensures position == MovingDown && localPosition == old(localPosition)
      ensures inFlight == Some(Animation(old(localPosition), old(localPosition).(y := 0.0), DroidDurationMs, Down))
    {
      var low := localPosition.(y := 0.0);
      var high := localPosition;
      inFlight := Some(Animation(high, low, DroidDurationMs, Down));
      position := MovingDown;
    }

    /** Starts the pull-up animation, with the heart's animator when heart is
      set; its start listener runs at once. */
    method AnimatePullUp(offset: real, heart: bool)
      modifies this
      ensures position == MovingUp && localPosition == old(localPosition)
      ensures inFlight == Some(Animation(old(localPosition), old(localPosition).(y := offset), PullUpDuration(heart), Up))
    {
      var low := localPosition;
      var high := localPosition.(y := offset);
      var duration := if heart then HeartDurationMs else DroidDurationMs;
      inFlight := Some(Animation(low, high, duration, Up));
      position := MovingUp;
    }

    /** The animator finishes: the node reaches the target and the end
      listener assigns its position. Nothing happens when no animation runs. */
    method CompleteAnimation()
      modifies this
      ensures State() == EndStep(old(State()))
    {
      match inFlight
      case None =>
      case Some(a) =>
        localPosition := a.to;
        position := a.endsIn;
        inFlight := None;
    }

    method AddOffset(x: real, y: real, z: real)
      modifies this
      ensures State() == OffsetStep(old(State()), x, y, z)
    {
      var posX := localPosition.x + x;
      var posY := localPosition.y + y;
      var posZ := localPosition.z + z;
      localPosition := Vector3(posX, posY, posZ);
    }
  }
}
