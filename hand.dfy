/**
 * The per-hand session: the current calibrated pose, a one-shot calibration
 * offset, the last device name and a packet counter.
 *
 * `HandView` and the functions `Initial`, `UpdateSpec`, `ResetSpec` are the
 * abstract meaning of the object; the class `HandState` keeps the same fields
 * and each of its methods is proved to perform the matching transition.
 */
module Hand {
  import opened Joints

  datatype HandView = HandView(
    positions: Pose,
    offset: Pose,
    calibrated: bool,
    deviceName: string,
    packetCount: nat,
    hasData: bool)

  /** The state right after construction. */
  function Initial(): HandView {
    HandView(Zeros(), Zeros(), false, "", 0, false)
  }

  /** `update`: capture the offset if not calibrated, then store pose - offset. */
  function UpdateSpec(v: HandView, name: string, pose: Pose): HandView {
    if v.calibrated then
      HandView(Sub(pose, v.offset), v.offset, true, name, v.packetCount + 1, true)
    else
      HandView(Sub(pose, pose), pose, true, name, v.packetCount + 1, true)
  }

  /** `reset_calibration`: forget the calibration and zero the pose. */
  function ResetSpec(v: HandView): HandView {
    v.(calibrated := false, positions := Zeros())
  }

  /** What `get` hands out: a copy of everything but the calibration fields. */
  datatype Snapshot = Snapshot(positions: Pose, deviceName: string, packetCount: nat, hasData: bool)

  function SnapshotOf(v: HandView): Snapshot {
    Snapshot(v.positions, v.deviceName, v.packetCount, v.hasData)
  }

  /** The invariant every reachable state keeps. */
  ghost predicate Inv(v: HandView) {
    && (!v.calibrated ==> v.positions == Zeros())
    && (v.calibrated ==> v.hasData)
    && (v.hasData <==> v.packetCount > 0)
    && (!v.hasData ==> v.offset == Zeros() && v.deviceName == "")
  }

  /** The calls a session can receive. */
  datatype Event = Received(name: string, pose: Pose) | Recalibrate

  function Apply(v: HandView, e: Event): HandView {
    match e
    case Received(name, pose) => UpdateSpec(v, name, pose)
    case Recalibrate => ResetSpec(v)
  }

  /** The state after the events `es`, applied in order. */
  function Run(v: HandView, es: seq<Event>): HandView
    decreases |es|
  {
    if es == [] then v else Apply(Run(v, es[..|es| - 1]), es[|es| - 1])
  }

  /** How many of the events are updates. */
  function CountReceived(es: seq<Event>): nat
    decreases |es|
  {
    if es == [] then 0
    else CountReceived(es[..|es| - 1]) + (if es[|es| - 1].Received? then 1 else 0)
  }

  predicate AllReceived(es: seq<Event>) {
    forall j :: 0 <= j < |es| ==> es[j].Received?
  }

  // ---------------------------------------------------------------------------
  // Properties of single transitions
  // ---------------------------------------------------------------------------

  /** The constructed state satisfies the invariant. */
  lemma InitialInv()
    ensures Inv(Initial())
  {
  }

  /** Both transitions preserve the invariant. */
  lemma ApplyPreservesInv(v: HandView, e: Event)
    requires Inv(v)
    ensures Inv(Apply(v, e))
  {
  }

  /** The capturing update takes the pose as offset and stores the zero pose. */
  lemma FirstUpdateCaptures(v: HandView, name: string, pose: Pose)
    requires !v.calibrated
    ensures UpdateSpec(v, name, pose).offset == pose
    ensures UpdateSpec(v, name, pose).positions == Zeros()
    ensures UpdateSpec(v, name, pose).calibrated
  {
    SubSelf(pose);
  }

  /**
   * Once calibrated, an update keeps the offset and stores pose - offset, so
   * the raw pose is exactly the stored pose plus the offset.
   */
  lemma CalibratedUpdateSubtracts(v: HandView, name: string, pose: Pose)
    requires v.calibrated
    ensures UpdateSpec(v, name, pose).offset == v.offset
    ensures UpdateSpec(v, name, pose).positions == Sub(pose, v.offset)
    ensures Add(UpdateSpec(v, name, pose).positions, v.offset) == pose
  {
    AddSub(pose, v.offset);
  }

  /** Every update counts once, records the name and marks the hand as seen. */
  lemma UpdateCounts(v: HandView, name: string, pose: Pose)
    ensures UpdateSpec(v, name, pose).packetCount == v.packetCount + 1
    ensures UpdateSpec(v, name, pose).hasData
    ensures UpdateSpec(v, name, pose).deviceName == name
  {
  }

  /** A reset touches only `calibrated` and `positions`. */
  lemma ResetKeeps(v: HandView)
    ensures !ResetSpec(v).calibrated && ResetSpec(v).positions == Zeros()
    ensures ResetSpec(v).offset == v.offset && ResetSpec(v).deviceName == v.deviceName
    ensures ResetSpec(v).packetCount == v.packetCount && ResetSpec(v).hasData == v.hasData
  {
  }

  /** A reset followed by one update leaves the hand at the zero pose. */
  lemma ResetThenUpdateIsZero(v: HandView, name: string, pose: Pose)
    ensures UpdateSpec(ResetSpec(v), name, pose).positions == Zeros()
    ensures UpdateSpec(ResetSpec(v), name, pose).offset == pose
  {
    SubSelf(pose);
  }

  /** Two updates after a reset leave the second pose minus the first. */
  lemma TwoUpdatesAfterReset(v: HandView, n1: string, p1: Pose, n2: string, p2: Pose)
    ensures UpdateSpec(UpdateSpec(ResetSpec(v), n1, p1), n2, p2).positions == Sub(p2, p1)
    ensures UpdateSpec(UpdateSpec(ResetSpec(v), n1, p1), n2, p2).offset == p1
  {
  }

  /** The same pose sent twice to a fresh session: zero pose, two packets. */
  lemma SelfCalibratedTwice(name: string, pose: Pose)
    ensures UpdateSpec(UpdateSpec(Initial(), name, pose), name, pose).positions == Zeros()
    ensures UpdateSpec(UpdateSpec(Initial(), name, pose), name, pose).packetCount == 2
    ensures UpdateSpec(UpdateSpec(Initial(), name, pose), name, pose).hasData
  {
    SubSelf(pose);
  }

  // ---------------------------------------------------------------------------
  // Properties of runs
  // ---------------------------------------------------------------------------

  /** The invariant holds after any run from a state that satisfies it. */
  lemma {:induction false} RunPreservesInv(v: HandView, es: seq<Event>)
    requires Inv(v)
    ensures Inv(Run(v, es))
    decreases |es|
  {
    if es != [] {
      RunPreservesInv(v, es[..|es| - 1]);
      ApplyPreservesInv(Run(v, es[..|es| - 1]), es[|es| - 1]);
    }
  }

  /** The counter grows by exactly the number of updates in the run. */
  lemma {:induction false} RunCounts(v: HandView, es: seq<Event>)
    ensures Run(v, es).packetCount == v.packetCount + CountReceived(es)
    ensures Run(v, es).hasData == (v.hasData || CountReceived(es) > 0)
    decreases |es|
  {
    if es != [] {
      RunCounts(v, es[..|es| - 1]);
    }
  }

  /** From construction, N updates (with any resets in between) give count N. */
  lemma CountFromConstruction(es: seq<Event>)
    ensures Run(Initial(), es).packetCount == CountReceived(es)
  {
    RunCounts(Initial(), es);
  }

  /**
   * The calibration invariant. After a non-empty run of updates, the offset is
   * the first pose of the run (if the run started uncalibrated) or the old
   * offset, it is never changed again, and the stored pose is the last raw
   * pose minus that offset.
   */
  lemma {:induction false} RunOfUpdates(v: HandView, es: seq<Event>)
    requires es != [] && AllReceived(es)
    ensures var offset := if v.calibrated then v.offset else es[0].pose;
      && Run(v, es).calibrated
      && Run(v, es).offset == offset
      && Run(v, es).positions == Sub(es[|es| - 1].pose, offset)
      && Run(v, es).deviceName == es[|es| - 1].name
    decreases |es|
  {
    if |es| > 1 {
      RunOfUpdates(v, es[..|es| - 1]);
    }
  }

  /** After a reset, the offset is the first update's pose and outlives later updates. */
  lemma ResetThenRun(v: HandView, es: seq<Event>)
    requires es != [] && AllReceived(es)
    ensures Run(v, [Recalibrate] + es).offset == es[0].pose
    ensures Run(v, [Recalibrate] + es).positions == Sub(es[|es| - 1].pose, es[0].pose)
  {
    var all := [Recalibrate] + es;
    RunSplit(v, [Recalibrate], es);
    assert Run(v, [Recalibrate]) == ResetSpec(v) by {
      assert [Recalibrate][..0] == [];
    }
    RunOfUpdates(ResetSpec(v), es);
  }

  /** Running two event lists one after another is running their concatenation. */
  lemma {:induction false} RunSplit(v: HandView, xs: seq<Event>, ys: seq<Event>)
    ensures Run(v, xs + ys) == Run(Run(v, xs), ys)
    decreases |ys|
  {
    if ys == [] {
      assert xs + ys == xs;
    } else {
      var ys' := ys[..|ys| - 1];
      assert (xs + ys)[..|xs + ys| - 1] == xs + ys';
      RunSplit(v, xs, ys');
    }
  }

  // ---------------------------------------------------------------------------
  // The object
  // ---------------------------------------------------------------------------

  class HandState {
    var positions: Pose
    var deviceName: string
    var packetCount: nat
    var hasData: bool
    var calibrated: bool
    var offset: Pose

    /** The abstract value of the object. */
    function View(): HandView
      reads this
    {
      HandView(positions, offset, calibrated, deviceName, packetCount, hasData)
    }

    ghost predicate Valid()
      reads this
    {
      Inv(View())
    }

    constructor ()
      ensures View() == Initial() && Valid()
    {
      positions := Zeros();
      deviceName := "";
      packetCount := 0;
      hasData := false;
      calibrated := false;
      offset := Zeros();
    }

    method Update(name: string, pose: Pose)
      modifies this
      ensures Valid()
      ensures View() == UpdateSpec(old(View()), name, pose)
    {
      if !calibrated {
        offset := pose;
        calibrated := true;
      }
      deviceName := name;
      positions := Sub(pose, offset);
      packetCount := packetCount + 1;
      hasData := true;
    }

    method ResetCalibration()
      requires Valid()
      modifies this
      ensures Valid()
      ensures View() == ResetSpec(old(View()))
    {
      calibrated := false;
      positions := Zeros();
    }

    /** A copy of the observable fields; later updates do not alter it. */
    method Get() returns (s: Snapshot)
      ensures s == SnapshotOf(View())
    {
      s := Snapshot(positions, deviceName, packetCount, hasData);
    }
  }

  /** A snapshot taken before an update still holds the old values afterwards. */
  method SnapshotIsIndependent(h: HandState, name: string, pose: Pose) returns (before: Snapshot, after: Snapshot)
    modifies h
    ensures h.View() == UpdateSpec(old(h.View()), name, pose)
    ensures before == SnapshotOf(old(h.View()))
    ensures after == SnapshotOf(UpdateSpec(old(h.View()), name, pose))
  {
    before := h.Get();
    h.Update(name, pose);
    after := h.Get();
  }
}
