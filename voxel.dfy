/** The voxel record of the octree library: three quantised coordinates
    (C++ `short`) and an RGB colour (C++ `unsigned char`). */
module Voxels {

  /** A 16-bit signed integer, the range of a C++ `short`. */
  type Int16 = x: int | -32768 <= x < 32768

  /** An 8-bit unsigned integer, the range of a C++ `unsigned char`. */
  type UInt8 = x: int | 0 <= x < 256

  datatype Voxel = Voxel(x: Int16, y: Int16, z: Int16, r: UInt8, g: UInt8, b: UInt8)
}
