/**
 * Decoding of one OSC message into a device name and a pose.
 *
 * The argument values are of an abstract type `A`; Python's `float()` (which
 * may raise) and `str()` (which does not) are supplied as the `Conversions`
 * of that type.
 */
module Decoder {
  import opened Wrappers
  import opened Joints

  /** Address marker of kinematic messages, matched against the lower-cased address. */
  const KINEMATIC: string := "/kinematic"
  /** Header arguments before the first joint. */
  const HEADER_VALUES: nat := 5
  /** Arguments per joint: x, y, z, qw, qx, qy, qz. */
  const VALUES_PER_JOINT: nat := 7
  /** Index of the device name among the header arguments. */
  const DEVICE_INDEX: nat := 3
  /** Fewest arguments a kinematic message must carry: 5 + 26 * 7. */
  const MIN_ARGS: nat := 187

  /** Python's `float(a)` (None where it raises) and `str(a)`. */
  datatype Conversions<!A> = Conversions(toReal: A -> Option<real>, toText: A -> string)

  /** An accepted message: the lower-cased device name and the decoded pose. */
  datatype Packet = Packet(deviceName: string, pose: Pose)

  // ---------------------------------------------------------------------------
  // Strings
  // ---------------------------------------------------------------------------

  function LowerChar(c: char): char {
    if 'A' <= c <= 'Z' then (c as int + 32) as char else c
  }

  /** `s.lower()`, on ASCII letters. */
  function Lower(s: string): string {
    seq(|s|, i requires 0 <= i < |s| => LowerChar(s[i]))
  }

  predicate IsLower(s: string) {
    forall i :: 0 <= i < |s| ==> !('A' <= s[i] <= 'Z')
  }

  /** Lower-casing yields a lower-case string of the same length and is idempotent. */
  lemma LowerIsLower(s: string)
    ensures |Lower(s)| == |s| && IsLower(Lower(s))
    ensures Lower(Lower(s)) == Lower(s)
  {
  }

  predicate StartsWith(s: string, prefix: string) {
    |prefix| <= |s| && s[..|prefix|] == prefix
  }

  /** Python's `sub in s`. */
  predicate Contains(s: string, sub: string)
    decreases |s|
  {
    StartsWith(s, sub) || (|s| > 0 && Contains(s[1..], sub))
  }

  /** `sub` occurs in `s` starting at position i. */
  predicate OccursAt(s: string, sub: string, i: nat) {
    i + |sub| <= |s| && s[i..i + |sub|] == sub
  }

  /** `Contains` holds exactly when `sub` occurs at some position of `s`. */
  lemma {:induction false} ContainsIff(s: string, sub: string)
    ensures Contains(s, sub) <==> exists i: nat :: OccursAt(s, sub, i)
    decreases |s|
  {
    if OccursAt(s, sub, 0) {
      assert StartsWith(s, sub);
    }
    if |s| > 0 {
      ContainsIff(s[1..], sub);
      if Contains(s[1..], sub) {
        var i: nat :| OccursAt(s[1..], sub, i);
        assert s[i + 1..i + 1 + |sub|] == s[1..][i..i + |sub|];
        assert OccursAt(s, sub, i + 1);
      }
      if i: nat :| OccursAt(s, sub, i) && i > 0 {
        assert s[1..][i - 1..i - 1 + |sub|] == s[i..i + |sub|];
        assert OccursAt(s[1..], sub, i - 1);
      }
    } else {
      if i: nat :| OccursAt(s, sub, i) {
        assert i == 0;
      }
    }
  }

  /** The only test on the message type: the lower-cased address contains "/kinematic". */
  predicate IsKinematic(address: string) {
    Contains(Lower(address), KINEMATIC)
  }

  // ---------------------------------------------------------------------------
  // The argument layout
  // ---------------------------------------------------------------------------

  /** Position in the argument list of value k of joint i. */
  function ArgIndex(i: nat, k: nat): (r: nat)
    requires i < NUM_JOINTS && k < VALUES_PER_JOINT
    ensures HEADER_VALUES <= r < MIN_ARGS
    ensures r - HEADER_VALUES == i * VALUES_PER_JOINT + k
  {
    HEADER_VALUES + i * VALUES_PER_JOINT + k
  }

  /** The largest index read is 186, one below the required length. */
  lemma LargestIndexRead()
    ensures ArgIndex(NUM_JOINTS - 1, VALUES_PER_JOINT - 1) == MIN_ARGS - 1 == 186
    ensures DEVICE_INDEX < MIN_ARGS
  {
  }

  /** Quaternion values of joint i: qw, qx, qy, qz at offsets 3..6. */
  predicate Converts<A>(conv: Conversions<A>, args: seq<A>, i: nat)
    requires |args| >= MIN_ARGS && i < NUM_JOINTS
  {
    forall k :: 3 <= k < VALUES_PER_JOINT ==> conv.toReal(args[ArgIndex(i, k)]).Some?
  }

  /** Row i of the decoded pose: (qx, qy, qz), or None if any of the four conversions fails. */
  function Joint<A>(conv: Conversions<A>, args: seq<A>, i: nat): Option<Vec3>
    requires |args| >= MIN_ARGS && i < NUM_JOINTS
  {
    var qw := conv.toReal(args[ArgIndex(i, 3)]);
    var qx := conv.toReal(args[ArgIndex(i, 4)]);
    var qy := conv.toReal(args[ArgIndex(i, 5)]);
    var qz := conv.toReal(args[ArgIndex(i, 6)]);
    if qw.None? || qx.None? || qy.None? || qz.None? then None
    else Some(Vec3(qx.value, qy.value, qz.value))
  }

  /** The value the source stores for joint i of an accepted message. */
  function Expected<A>(conv: Conversions<A>, args: seq<A>, i: nat): Vec3
    requires |args| >= MIN_ARGS && i < NUM_JOINTS && Converts(conv, args, i)
  {
    Vec3(conv.toReal(args[ArgIndex(i, 4)]).value,
         conv.toReal(args[ArgIndex(i, 5)]).value,
         conv.toReal(args[ArgIndex(i, 6)]).value)
  }

  /**
   * The first n rows, all or nothing: defined exactly when every joint below n
   * converts, and then row i is joint i's (qx, qy, qz).
   */
  function DecodeJoints<A>(conv: Conversions<A>, args: seq<A>, n: nat): (r: Option<seq<Vec3>>)
    requires |args| >= MIN_ARGS && n <= NUM_JOINTS
    ensures r.Some? <==> forall i :: 0 <= i < n ==> Converts(conv, args, i)
    ensures r.Some? ==> |r.value| == n && forall i :: 0 <= i < n ==> r.value[i] == Expected(conv, args, i)
    decreases n
  {
    if n == 0 then Some([])
    else
      match DecodeJoints(conv, args, n - 1)
      case None => None
      case Some(rows) =>
        match Joint(conv, args, n - 1)
        case None =>
          assert !Converts(conv, args, n - 1);
          None
        case Some(row) => Some(rows + [row])
  }

  /**
   * `default_handler` up to the routing: rejects a non-kinematic address, a
   * list shorter than 187 arguments and any failing conversion; otherwise
   * yields the lower-cased `str(args[3])` and the 26 (qx, qy, qz) rows.
   */
  function Decode<A>(conv: Conversions<A>, address: string, args: seq<A>): (r: Option<Packet>)
    ensures r.Some? <==>
      && IsKinematic(address)
      && |args| >= MIN_ARGS
      && forall i :: 0 <= i < NUM_JOINTS ==> Converts(conv, args, i)
    ensures r.Some? ==>
      && r.value.deviceName == Lower(conv.toText(args[DEVICE_INDEX]))
      && forall i :: 0 <= i < NUM_JOINTS ==> r.value.pose[i] == Expected(conv, args, i)
  {
    if !IsKinematic(address) || |args| < MIN_ARGS then None
    else
      match DecodeJoints(conv, args, NUM_JOINTS)
      case None => None
      case Some(rows) => Some(Packet(Lower(conv.toText(args[DEVICE_INDEX])), rows))
  }

  /** A single failing conversion among the 104 quaternion values rejects the message. */
  lemma AllOrNothing<A>(conv: Conversions<A>, address: string, args: seq<A>, i: nat, k: nat)
    requires |args| >= MIN_ARGS && i < NUM_JOINTS && 3 <= k < VALUES_PER_JOINT
    requires conv.toReal(args[ArgIndex(i, k)]).None?
    ensures Decode(conv, address, args).None?
  {
    assert !Converts(conv, args, i);
  }

  /**
   * The result depends only on the device name and the quaternions: two
   * argument lists that agree on `str(args[3])`, on which qw convert and on
   * qx, qy, qz decode alike, whatever their positions or trailing arguments.
   */
  lemma DecodeDependsOnlyOnQuaternions<A>(conv: Conversions<A>, address: string, a: seq<A>, b: seq<A>)
    requires |a| >= MIN_ARGS && |b| >= MIN_ARGS
    requires conv.toText(a[DEVICE_INDEX]) == conv.toText(b[DEVICE_INDEX])
    requires forall i :: 0 <= i < NUM_JOINTS ==>
      conv.toReal(a[ArgIndex(i, 3)]).Some? == conv.toReal(b[ArgIndex(i, 3)]).Some?
    requires forall i, k :: 0 <= i < NUM_JOINTS && 4 <= k < VALUES_PER_JOINT ==>
      conv.toReal(a[ArgIndex(i, k)]) == conv.toReal(b[ArgIndex(i, k)])
    ensures Decode(conv, address, a) == Decode(conv, address, b)
  {
    forall i | 0 <= i < NUM_JOINTS
      ensures Converts(conv, a, i) == Converts(conv, b, i)
    {
      assert forall k :: 4 <= k < VALUES_PER_JOINT ==>
        conv.toReal(a[ArgIndex(i, k)]) == conv.toReal(b[ArgIndex(i, k)]);
    }
    var da, db := Decode(conv, address, a), Decode(conv, address, b);
    if da.Some? {
      forall i | 0 <= i < NUM_JOINTS
        ensures da.value.pose[i] == db.value.pose[i]
      {
        assert forall k :: 4 <= k < VALUES_PER_JOINT ==>
          conv.toReal(a[ArgIndex(i, k)]) == conv.toReal(b[ArgIndex(i, k)]);
      }
      assert da.value.pose == db.value.pose;
    }
  }

  /** Arguments past index 186 are ignored. */
  lemma TrailingArgsIgnored<A>(conv: Conversions<A>, address: string, args: seq<A>)
    requires |args| >= MIN_ARGS
    ensures Decode(conv, address, args) == Decode(conv, address, args[..MIN_ARGS])
  {
    DecodeDependsOnlyOnQuaternions(conv, address, args, args[..MIN_ARGS]);
  }

  /** Fewer than 187 arguments are rejected whatever they hold. */
  lemma ShortRejected<A>(conv: Conversions<A>, address: string, args: seq<A>)
    requires |args| < MIN_ARGS
    ensures Decode(conv, address, args).None?
  {
  }

  // ---------------------------------------------------------------------------
  // The extraction loop
  // ---------------------------------------------------------------------------

  /**
   * The loop of `default_handler`: fill a zeroed 26-row array joint by joint
   * from `args[5:]`, abandoning it at the first failing conversion.
   */
  method ReadJoints<A>(conv: Conversions<A>, args: seq<A>) returns (r: Option<Pose>)
    requires |args| >= MIN_ARGS
    ensures r.Some? <==> DecodeJoints(conv, args, NUM_JOINTS).Some?
    ensures r.Some? ==> r.value == DecodeJoints(conv, args, NUM_JOINTS).value
  {
    var jointData := args[HEADER_VALUES..];
    var positions := new Vec3[NUM_JOINTS](_ => ORIGIN);
    for i := 0 to NUM_JOINTS
      invariant DecodeJoints(conv, args, i).Some?
      invariant positions[..i] == DecodeJoints(conv, args, i).value
    {
      var base := i * VALUES_PER_JOINT;
      assert jointData[base + 3] == args[ArgIndex(i, 3)];
      assert jointData[base + 4] == args[ArgIndex(i, 4)];
      assert jointData[base + 5] == args[ArgIndex(i, 5)];
      assert jointData[base + 6] == args[ArgIndex(i, 6)];
      var qw := conv.toReal(jointData[base + 3]);
      var qx := conv.toReal(jointData[base + 4]);
      var qy := conv.toReal(jointData[base + 5]);
      var qz := conv.toReal(jointData[base + 6]);
      if qw.None? || qx.None? || qy.None? || qz.None? {
        assert !Converts(conv, args, i);
        return None;
      }
      positions[i] := Vec3(qx.value, qy.value, qz.value);
      assert positions[..i + 1] == positions[..i] + [positions[i]];
    }
    r := Some(positions[..]);
  }
}
