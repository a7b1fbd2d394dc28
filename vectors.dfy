/** Value types shared by both scene managers: positions, orientations and
    the pose (position plus orientation) that a physics body or a mesh carries. */
module Vectors {

  /** A position or offset in world units (cannon-es Vec3 / three.js Vector3). */
  datatype Vec3 = Vec3(x: real, y: real, z: real)

  /** An orientation quaternion; only ever created as the identity or copied. */
  datatype Quat = Quat(x: real, y: real, z: real, w: real)

  /** Position and orientation of a body or a mesh. */
  datatype Pose = Pose(position: Vec3, quaternion: Quat)

  const Origin: Vec3 := Vec3(0.0, 0.0, 0.0)

  /** The orientation every new Body and Mesh starts with. */
  const IdentityQuat: Quat := Quat(0.0, 0.0, 0.0, 1.0)

  function Add(p: Vec3, d: Vec3): Vec3 {
    Vec3(p.x + d.x, p.y + d.y, p.z + d.z)
  }

  /** The pose of a freshly created body or mesh placed at `p`. */
  function PlacedAt(p: Vec3): Pose {
    Pose(p, IdentityQuat)
  }
}
