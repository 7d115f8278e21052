/** 32-bit words. */
module Words {

  const HALF: nat := 0x8000_0000
  const WORD: nat := 0x1_0000_0000
}
