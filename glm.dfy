/** The glm value types the core stores and serialises. Components are
    `real`; the engine's single-precision rounding is not modelled. */
module Glm {
  datatype Vec2 = Vec2(x: real, y: real)
  datatype Vec3 = Vec3(x: real, y: real, z: real)
  datatype Vec4 = Vec4(x: real, y: real, z: real, w: real)
  /** glm::quat, constructed as (w, x, y, z). */
  datatype Quat = Quat(w: real, x: real, y: real, z: real)
  /** glm::mat4: four columns, `m[c][r]` is row `r` of column `c`. */
  datatype Mat4 = Mat4(c0: Vec4, c1: Vec4, c2: Vec4, c3: Vec4)
}
