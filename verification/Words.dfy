/** Machine words. */
module Words {
  type byte = x: nat | x < 0x100
  type u32 = x: nat | x < 0x1_0000_0000
}
