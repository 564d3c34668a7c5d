/** Fixed-width numbers of the source. */
module MachineWords {
  type u8 = x: int | 0 <= x < 256
  type u16 = x: int | 0 <= x < 0x1_0000
  type u64 = x: int | 0 <= x < 0x1_0000_0000_0000_0000
  type s64 = x: int | -0x8000_0000_0000_0000 <= x < 0x8000_0000_0000_0000
}

module Sequences {

  /** No element occurs twice. */
  ghost predicate Distinct(s: seq<int>) {
    forall i, j :: 0 <= i < j < |s| ==> s[i] != s[j]
  }
}
