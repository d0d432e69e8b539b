/**
 * The glam vector types the game uses: `IVec2` for grid positions (i32
 * components), `Vec2` and `Vec3` for world and screen positions (f32
 * components, modelled over `real`).
 */
module Vectors {

  datatype IVec2 = IVec2(x: int, y: int)

  function Add(a: IVec2, b: IVec2): IVec2 { IVec2(a.x + b.x, a.y + b.y) }

  function Sub(a: IVec2, b: IVec2): IVec2 { IVec2(a.x - b.x, a.y - b.y) }

  datatype Vec2 = Vec2(x: real, y: real)

  datatype Vec3 = Vec3(x: real, y: real, z: real)

  /** `IVec2::as_vec2` */
  function AsVec2(p: IVec2): Vec2 { Vec2(p.x as real, p.y as real) }
}
