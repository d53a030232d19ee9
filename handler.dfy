/**
 * `default_handler`: decode a message, route it by device name and update
 * exactly one of the two hand sessions. `Dispatch` is its meaning on the
 * abstract hand values; `Handle` works on the two objects.
 */
module Handler {
  import opened Wrappers
  import opened Joints
  import opened Hand
  import opened Decoder
  import opened Routing

  /** One OSC message: an address and its argument list. */
  datatype Message<A> = Message(address: string, args: seq<A>)

  /** The new (left, right) hand values after handling one message. */
  function Dispatch<A>(conv: Conversions<A>, m: Message<A>, left: HandView, right: HandView): (HandView, HandView) {
    match Decode(conv, m.address, m.args)
    case None => (left, right)
    case Some(p) =>
      if Route(p.deviceName) == Left then (UpdateSpec(left, p.deviceName, p.pose), right)
      else (left, UpdateSpec(right, p.deviceName, p.pose))
  }

  /** A rejected message (wrong address, too short, a failed conversion) changes neither hand. */
  lemma RejectedChangesNothing<A>(conv: Conversions<A>, m: Message<A>, left: HandView, right: HandView)
    requires !IsKinematic(m.address) || |m.args| < MIN_ARGS
      || exists i, k :: 0 <= i < NUM_JOINTS && 3 <= k < VALUES_PER_JOINT && |m.args| >= MIN_ARGS
           && conv.toReal(m.args[ArgIndex(i, k)]).None?
    ensures Dispatch(conv, m, left, right) == (left, right)
  {
    if IsKinematic(m.address) && |m.args| >= MIN_ARGS {
      var i, k :| 0 <= i < NUM_JOINTS && 3 <= k < VALUES_PER_JOINT && conv.toReal(m.args[ArgIndex(i, k)]).None?;
      AllOrNothing(conv, m.address, m.args, i, k);
    }
  }

  /**
   * An accepted message updates exactly one hand: the left one iff the
   * lower-cased device name contains "(l)" or "left", storing that
   * lower-cased name and the decoded pose; the other hand is untouched.
   */
  lemma AcceptedUpdatesOneHand<A>(conv: Conversions<A>, m: Message<A>, left: HandView, right: HandView)
    requires Decode(conv, m.address, m.args).Some?
    ensures var p := Decode(conv, m.address, m.args).value;
      var (l, r) := Dispatch(conv, m, left, right);
      && p.deviceName == Lower(conv.toText(m.args[DEVICE_INDEX]))
      && (Route(p.deviceName) == Left <==> Contains(p.deviceName, "(l)") || Contains(p.deviceName, "left"))
      && (Route(p.deviceName) == Left ==> l == UpdateSpec(left, p.deviceName, p.pose) && r == right)
      && (Route(p.deviceName) == Right ==> r == UpdateSpec(right, p.deviceName, p.pose) && l == left)
      && l.packetCount + r.packetCount == left.packetCount + right.packetCount + 1
      && IsLower(if Route(p.deviceName) == Left then l.deviceName else r.deviceName)
  {
    LowerIsLower(conv.toText(m.args[DEVICE_INDEX]));
  }

  /** The hand values after a sequence of messages, in arrival order. */
  function DispatchAll<A>(conv: Conversions<A>, ms: seq<Message<A>>, left: HandView, right: HandView): (HandView, HandView)
    decreases |ms|
  {
    if ms == [] then (left, right)
    else
      var (l, r) := DispatchAll(conv, ms[..|ms| - 1], left, right);
      Dispatch(conv, ms[|ms| - 1], l, r)
  }

  /** How many of the messages are accepted and routed to the given side. */
  function Accepted<A>(conv: Conversions<A>, ms: seq<Message<A>>, side: Side): nat
    decreases |ms|
  {
    if ms == [] then 0
    else
      var m := ms[|ms| - 1];
      var d := Decode(conv, m.address, m.args);
      Accepted(conv, ms[..|ms| - 1], side) + (if d.Some? && Route(d.value.deviceName) == side then 1 else 0)
  }

  /**
   * Each hand counts exactly the messages routed to it, however they are
   * interleaved with the other hand's messages.
   */
  lemma {:induction false} CountsPerHand<A>(conv: Conversions<A>, ms: seq<Message<A>>, left: HandView, right: HandView)
    ensures DispatchAll(conv, ms, left, right).0.packetCount == left.packetCount + Accepted(conv, ms, Left)
    ensures DispatchAll(conv, ms, left, right).1.packetCount == right.packetCount + Accepted(conv, ms, Right)
    decreases |ms|
  {
    if ms != [] {
      CountsPerHand(conv, ms[..|ms| - 1], left, right);
    }
  }

  /**
   * The same accepted message twice on fresh sessions leaves the routed hand
   * at the zero pose with two packets, and the other hand as constructed.
   */
  lemma SameMessageTwice<A>(conv: Conversions<A>, m: Message<A>)
    requires Decode(conv, m.address, m.args).Some?
    ensures var p := Decode(conv, m.address, m.args).value;
      var (l1, r1) := Dispatch(conv, m, Initial(), Initial());
      var (l2, r2) := Dispatch(conv, m, l1, r1);
      var (hit, other) := if Route(p.deviceName) == Left then (l2, r2) else (r2, l2);
      hit.positions == Zeros() && hit.packetCount == 2 && hit.hasData && other == Initial()
  {
    var p := Decode(conv, m.address, m.args).value;
    SelfCalibratedTwice(p.deviceName, p.pose);
  }

  /** `default_handler` on the two hand objects. */
  method Handle<A>(conv: Conversions<A>, m: Message<A>, left: HandState, right: HandState)
    requires left != right && left.Valid() && right.Valid()
    modifies left, right
    ensures left.Valid() && right.Valid()
    ensures (left.View(), right.View()) == Dispatch(conv, m, old(left.View()), old(right.View()))
  {
    if !Contains(Lower(m.address), KINEMATIC) {
      return;
    }
    if |m.args| < MIN_ARGS {
      return;
    }
    var deviceName := Lower(conv.toText(m.args[DEVICE_INDEX]));
    var positions := ReadJoints(conv, m.args);
    if positions.None? {
      return;
    }
    if Contains(deviceName, "(l)") || Contains(deviceName, "left") {
      left.Update(deviceName, positions.value);
    } else {
      right.Update(deviceName, positions.value);
    }
  }
}
