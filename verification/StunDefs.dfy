/** Numbers the codec and the allocation have in common. */
module StunDefs {
  /** STUN_VALID_CHANNEL */
  predicate ValidChannel(n: nat) {
    0x4000 <= n <= 0x7FFF
  }
}
