/** The address of a position in a block. */
module Slots {

  /**
   * A (bay, row, tier) address. Bays interleave: an odd bay is a 20 ft column, an
   * even bay b names a 40 ft position straddling the odd bays b - 1 and b + 1.
   * Rows and tiers count from 1 (tier 1 is the ground). The constructor stores its
   * three arguments unchanged and checks nothing: zero or negative coordinates are
   * representable, and the inventory reads a zero as "unset".
   */
  datatype Slot = Slot(bay: int, row: int, tier: int)
}
