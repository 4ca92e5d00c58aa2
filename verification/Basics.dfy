/** Shared vocabulary: optional values and the router's 64-bit counters. */
module Basics {
  datatype Option<+T> = None | Some(value: T)

  const TWO64: nat := 0x1_0000_0000_0000_0000
  const U64_MAX: nat := TWO64 - 1

  /** What a settled response of `usage` tokens costs: its reserved token at least. */
  function AtLeastOne(usage: nat): nat {
    if usage > 1 then usage else 1
  }

  function SaturatingAdd(a: nat, b: nat): nat {
    if a + b <= U64_MAX then a + b else U64_MAX
  }
}
