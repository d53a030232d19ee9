/**
 * The joint table and the pose values of one hand: 26 joints in the OpenXR
 * order, each carrying an (x, y, z) triple of reals.
 */
module Joints {

  /** Number of tracked joints per hand. */
  const NUM_JOINTS: nat := 26

  /** Names of the joints; index i names row i of every pose. */
  const JOINT_NAMES: seq<string> := [
    "Palm",
    "Wrist",
    "Thumb metacarpal",
    "Thumb proximal",
    "Thumb distal",
    "Thumb tip",
    "Index metacarpal",
    "Index proximal",
    "Index intermediate",
    "Index distal",
    "Index tip",
    "Middle metacarpal",
    "Middle proximal",
    "Middle intermediate",
    "Middle distal",
    "Middle tip",
    "Ring metacarpal",
    "Ring proximal",
    "Ring intermediate",
    "Ring distal",
    "Ring tip",
    "Little metacarpal",
    "Little proximal",
    "Little intermediate",
    "Little distal",
    "Little tip"
  ]

  /** One row of a pose. */
  datatype Vec3 = Vec3(x: real, y: real, z: real)

  const ORIGIN: Vec3 := Vec3(0.0, 0.0, 0.0)

  function Minus(a: Vec3, b: Vec3): Vec3 {
    Vec3(a.x - b.x, a.y - b.y, a.z - b.z)
  }

  function Plus(a: Vec3, b: Vec3): Vec3 {
    Vec3(a.x + b.x, a.y + b.y, a.z + b.z)
  }

  /** The all-zero pose, `np.zeros((NUM_JOINTS, 3))`. */
  function Zeros(): seq<Vec3> {
    seq(NUM_JOINTS, i => ORIGIN)
  }

  /** A pose has exactly one row per joint: never padded, never truncated. */
  type Pose = p: seq<Vec3> | |p| == NUM_JOINTS witness Zeros()

  /** Row-wise difference of two poses (numpy's `a - b` on 26x3 arrays). */
  function Sub(a: Pose, b: Pose): Pose {
    seq(NUM_JOINTS, i requires 0 <= i < NUM_JOINTS => Minus(a[i], b[i]))
  }

  /** Row-wise sum of two poses. */
  function Add(a: Pose, b: Pose): Pose {
    seq(NUM_JOINTS, i requires 0 <= i < NUM_JOINTS => Plus(a[i], b[i]))
  }

  /** The name table has one entry per joint, and no name is used twice. */
  lemma JointNamesAligned()
    ensures |JOINT_NAMES| == NUM_JOINTS
    ensures forall i, j :: 0 <= i < j < NUM_JOINTS ==> JOINT_NAMES[i] != JOINT_NAMES[j]
  {
  }

  /** A pose minus itself is the zero pose. */
  lemma SubSelf(p: Pose)
    ensures Sub(p, p) == Zeros()
  {
    forall i | 0 <= i < NUM_JOINTS
      ensures Sub(p, p)[i] == Zeros()[i]
    {
    }
  }

  /** The raw pose is recovered from the calibrated pose and the offset. */
  lemma AddSub(raw: Pose, offset: Pose)
    ensures Add(Sub(raw, offset), offset) == raw
  {
    forall i | 0 <= i < NUM_JOINTS
      ensures Add(Sub(raw, offset), offset)[i] == raw[i]
    {
    }
  }
}
