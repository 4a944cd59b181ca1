/** Integer widths and units of time shared by the controllers. */
module Units {
  type uint8 = x: int | 0 <= x < 0x100
  type uint16 = x: int | 0 <= x < 0x1_0000

  const MSEC_PER_SEC := 1000
  const MSEC_PER_MIN := 60_000
}
