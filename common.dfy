/** Value types shared by the three tiling and extraction scripts. */
module Common {

  /** An unsigned 8-bit sample, numpy's uint8. */
  type Byte = x: int | 0 <= x < 256

  /** One RGBA pixel of a PIL 'RGBA' image or of a numpy (h, w, 4) uint8 array. */
  datatype Pixel = Pixel(r: Byte, g: Byte, b: Byte, a: Byte)

  /** The fully transparent pixel (0, 0, 0, 0). */
  const Transparent: Pixel := Pixel(0, 0, 0, 0)

  /** mercantile's Tile(x, y, z): column, row and zoom level of a web-map tile. */
  datatype Tile = Tile(x: nat, y: nat, z: nat)

  /** Python's None-or-value. */
  datatype Option<T> = None | Some(value: T)
}
