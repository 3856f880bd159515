/** The 32-bit words of the target. */
module MachineWord {
  /** The range of a 32-bit size. */
  const WORD: int := 0x1_0000_0000
}
