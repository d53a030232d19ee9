# Live joint list: packet-to-hand-state pipeline

A Dafny model of the ingestion core of the live joint list tool for a pair of
tracking gloves. It receives OSC messages, decodes the 26-joint kinematic
payload, routes each message to the left or the right hand by device name,
and keeps one calibrated hand session per hand.

- `joints.dfy` (module `Joints`) has the joint-name table, the 3-component
  row `Vec3`, and the `Pose` type, which has exactly 26 rows. It also defines
  row-wise subtraction (numpy's `a - b`).
- `hand.dfy` (module `Hand`) has the class `HandState`, with the fields,
  constructor, `update`, `reset_calibration` and `get` of the source. Each
  method is proved to perform a transition on the abstract value `HandView`
  (`Initial`, `UpdateSpec`, `ResetSpec`). The lemmas are about those
  transitions and about runs of events (`Run`): the calibration invariant,
  the packet counter, and what a reset keeps.
- `decoder.dfy` (module `Decoder`) covers the address test, the length guard
  and the argument layout (`ArgIndex`).
  - `DecodeJoints` and `Decode` are the reference meaning: all-or-nothing, and
    they read only the quaternion values.
  - `ReadJoints` is the source's extraction loop. It fills a fresh 26-row
    array from `args[5:]` and is proved equal to `DecodeJoints`.
- `routing.dfy` (module `Routing`) has the two-way left/right classifier.
- `handler.dfy` (module `Handler`) has `Handle`, which is `default_handler`
  working on the two hand objects. It is proved to equal the pure `Dispatch`
  on the two hands' values; `DispatchAll` extends `Dispatch` to message
  sequences.
- `wrappers.dfy` (module `Wrappers`) has `Option`.

The argument values of a message have an abstract type `A`. Python's
`float()` becomes a partial function `toReal: A -> Option<real>`, where
`None` stands for a raised exception. `str()` becomes a total function
`toText: A -> string`. Both are passed in as a `Conversions<A>` value.
Floating-point values are modelled as `real`, and `str.lower` as ASCII
lower-casing.

Two details of the source that the model keeps:
- The name stored in a hand session is the lower-cased device name
  (src/live_joint_list.py:106).
- A failing `qw` conversion also rejects the packet (line 114), though
  `qw` is then discarded.

## Model

| member | source | states |
|---|---|---|
| Joints.JointNamesAligned | src/live_joint_list.py:20-49 | the name table has exactly NUM_JOINTS = 26 entries and no two are equal, so index i names pose row i |
| Joints.SubSelf | src/live_joint_list.py:67-71 | a pose minus itself is the zero pose, which is why the capturing update stores zeros |
| Joints.AddSub | src/live_joint_list.py:71 | the stored pose plus the offset gives back the raw pose |
| Hand.HandState.constructor | src/live_joint_list.py:56-63 | a new session has zero positions, zero offset, empty name, count 0, no data, not calibrated |
| Hand.HandState.Update | src/live_joint_list.py:65-73 | from any state, the new state is UpdateSpec of the old: the offset is captured if not calibrated, then pose - offset, name, count + 1 and has_data are stored; the invariant holds afterwards |
| Hand.HandState.ResetCalibration | src/live_joint_list.py:75-78 | the new state is ResetSpec of the old: not calibrated, zero positions, everything else kept |
| Hand.HandState.Get | src/live_joint_list.py:80-87 | returns the snapshot of the current abstract value: positions, device name, packet count and has_data flag, without offset or calibration flag |
| Hand.SnapshotIsIndependent | src/live_joint_list.py:80-87 | a snapshot taken before an update still holds the pre-update values after it, and the object's new value is UpdateSpec of the old |
| Hand.InitialInv | src/live_joint_list.py:56-63 | the constructed state satisfies the session invariant |
| Hand.ApplyPreservesInv | src/live_joint_list.py:65-78 | update and reset keep the invariant: uncalibrated means zero positions, calibrated implies has_data, has_data iff count > 0, and no data means zero offset and empty name |
| Hand.FirstUpdateCaptures | src/live_joint_list.py:67-71 | an update on an uncalibrated session takes the pose as offset, becomes calibrated and stores the zero pose |
| Hand.CalibratedUpdateSubtracts | src/live_joint_list.py:67-71 | an update on a calibrated session keeps the offset and stores pose - offset, so stored + offset equals the raw pose |
| Hand.UpdateCounts | src/live_joint_list.py:70-73 | every update stores the name, adds exactly one to the counter and sets has_data |
| Hand.ResetKeeps | src/live_joint_list.py:75-78 | reset clears calibrated and zeroes positions, and keeps offset, device name, packet count and has_data |
| Hand.ResetThenUpdateIsZero | src/live_joint_list.py:65-78 | a reset followed by one update of pose P leaves the zero pose with offset P |
| Hand.TwoUpdatesAfterReset | src/live_joint_list.py:65-78 | after a reset and updates P1 then P2 the stored pose is P2 - P1 and the offset is P1 |
| Hand.SelfCalibratedTwice | src/live_joint_list.py:56-73 | the same pose sent twice to a fresh session leaves the zero pose, count 2, has_data |
| Hand.RunPreservesInv | src/live_joint_list.py:65-78 | the session invariant holds after any sequence of updates and resets |
| Hand.RunCounts | src/live_joint_list.py:70-78 | after any sequence of events the counter has grown by the number of updates, and has_data is set iff some update happened or it was set |
| Hand.CountFromConstruction | src/live_joint_list.py:56-73 | from construction the counter equals the number of updates received, resets included |
| Hand.RunOfUpdates | src/live_joint_list.py:65-73 | after a non-empty run of updates the offset is the first pose (or the old offset if already calibrated), and the stored pose is the last pose minus that offset |
| Hand.ResetThenRun | src/live_joint_list.py:65-78 | after a reset the offset is the first following update's pose, and it stays fixed through later updates |
| Decoder.LowerIsLower | src/live_joint_list.py:106 | lower-casing keeps the length, leaves no upper-case letter and is idempotent |
| Decoder.ContainsIff | src/live_joint_list.py:99 | the substring test holds iff the substring occurs at some position |
| Decoder.ArgIndex | src/live_joint_list.py:107-117 | value k of joint i sits at index 5 + 7i + k, which lies between 5 and 186 inclusive, below the required length 187 |
| Decoder.LargestIndexRead | src/live_joint_list.py:102-117 | the largest index read is 5 + 25 * 7 + 6 = 186 = 187 - 1, and the device index 3 is in range |
| Decoder.DecodeJoints | src/live_joint_list.py:110-121 | the first n rows are defined iff all four quaternion values of every joint below n convert, and then row i is (float(qx), float(qy), float(qz)) of joint i |
| Decoder.Decode | src/live_joint_list.py:97-121 | a message is accepted iff the lower-cased address contains "/kinematic", there are at least 187 arguments and all 104 quaternion values convert; then the name is str(args[3]) lower-cased and row i is (args[5+7i+4], args[5+7i+5], args[5+7i+6]) converted |
| Decoder.AllOrNothing | src/live_joint_list.py:105-130 | one failing conversion among the quaternion values rejects the whole message |
| Decoder.DecodeDependsOnlyOnQuaternions | src/live_joint_list.py:107-121 | two argument lists that agree on str(args[3]), on which qw convert and on qx, qy, qz decode identically: position triples and qw values do not matter |
| Decoder.TrailingArgsIgnored | src/live_joint_list.py:102-117 | arguments past index 186 do not affect the result |
| Decoder.ShortRejected | src/live_joint_list.py:102-103 | fewer than 187 arguments are rejected |
| Decoder.ReadJoints | src/live_joint_list.py:107-121 | the extraction loop over args[5:] returns a pose exactly when DecodeJoints is defined, and then the same 26 rows |
| Routing.RouteIff | src/live_joint_list.py:125-128 | a name routes left iff "(l)" or "left" occurs in it; every other name routes right |
| Routing.RouteLeftGlove | src/live_joint_list.py:124-126 | "Reality Glove (L)" and "LEFT glove", lower-cased, route left |
| Routing.RouteRightGlove | src/live_joint_list.py:124-128 | "Reality Glove (R)" lower-cased and the empty name route right |
| Handler.RejectedChangesNothing | src/live_joint_list.py:97-130 | a non-kinematic address, fewer than 187 arguments or a failing conversion leaves both hands unchanged |
| Handler.AcceptedUpdatesOneHand | src/live_joint_list.py:105-128 | an accepted message updates the left hand iff its lower-cased name contains "(l)" or "left", otherwise the right. The other hand is untouched, the total count grows by one, and the stored name is lower case |
| Handler.CountsPerHand | src/live_joint_list.py:72-128 | over any sequence of messages each hand's counter grows by exactly the number of accepted messages routed to it, however they interleave |
| Handler.SameMessageTwice | src/live_joint_list.py:65-128 | one accepted message sent twice to fresh sessions leaves the routed hand at the zero pose with count 2 and the other hand as constructed |
| Handler.Handle | src/live_joint_list.py:97-130 | default_handler on the two hand objects: the new pair of hand values is Dispatch of the old pair, and both invariants are kept |

## Left out

- The GUI (`JointListGUI`, the 50 ms refresh loop, label formatting) is presentation.
- CSV export (`_export_csv`) is a file dialog, file I/O and message boxes.
- The OSC servers (`start_osc_server`, `start_dual_osc_servers`, `start_multi_osc_servers`) are left out. They are UDP binding, `pythonosc` dispatch and threads, including the multi-port bind that tolerates partial failure. The model starts at the handler callback.
- The `threading.Lock` in `HandState` is not modelled. Each method is modelled as one atomic sequential step, and concurrent interleavings are not modelled.
- `main`, argument parsing and `run.py` are process start-up only.
- Python's `float()` and `str()` are not part of this model. They are parameters (`Conversions`), so the model says nothing about which argument values convert.
- Floating point is modelled as exact `real` arithmetic: no NaN, no rounding, no numpy float64 behaviour.
- Decoder.Lower: Python's Unicode `str.lower` is modelled as ASCII lower-casing.
- The `print` of an error message in the exception handler is not modelled; only the fact that nothing is updated is.
- `get` returns a Python dict. The model returns a `Snapshot` datatype with the same four entries.
- A frame recorder or playback buffer does not exist in these source files, so none is modelled.
