/** The largest values of the integer types in use. */
module Widths {
  const INT_MAX := 0x7FFF_FFFF
  const INT64_MAX := 0x7FFF_FFFF_FFFF_FFFF
}
