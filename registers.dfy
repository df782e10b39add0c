/** The one-byte configuration registers the drivers cache and resend: single
    flags set or cleared by property setters, and the 1-or-4-bit bus width of
    the SDIO and eMMC modes. */
module Registers {
  import opened Bytes

  /** A flag getter: 1 when bit `k` is set, else 0. */
  function Flag(c: byte, k: nat): int
    requires k < 8
  {
    if Bit(c, k) then 1 else 0
  }

  /** A flag setter: 0 clears bit `k`, any other value sets it; no other bit
      moves, so reading the flag back gives 0 after 0 and 1 after anything else. */
  function WithFlag(c: byte, k: nat, value: int): (r: byte)
    requires k < 8
    ensures Flag(r, k) == if value == 0 then 0 else 1
    ensures r & !(1 << k) == c & !(1 << k)
  {
    if value == 0 then c & !(1 << k) else c | (1 << k)
  }

  /** Bus width getter: bit 0 selects the 4-bit bus. */
  function BusWidthOf(c: byte): int {
    if c & 0x1 != 0 then 4 else 1
  }

  /** Bus width setter: 1 and 4 select the width, any other value is refused
      and leaves the register as it was; bit 0 is the only bit that moves. */
  function WithBusWidth(c: byte, value: int): (r: byte)
    ensures value == 1 || value == 4 ==> BusWidthOf(r) == value
    ensures value != 1 && value != 4 ==> r == c
    ensures r & !0x1 == c & !0x1
  {
    if value == 1 then c & !1
    else if value == 4 then c | 1
    else c
  }

  /** The configure command: the opcode bits `base` with the register in the
      bits below them. */
  function ConfigCommand(base: byte, c: byte): (cmd: byte)
    ensures cmd & base == base
    ensures cmd & !base == c & !base
  {
    base | c
  }
}
