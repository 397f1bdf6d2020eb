/** Fixed-width unsigned integers and the checked arithmetic the program uses on them. */
module CheckedMath {
  import opened Outcomes

  const U64_MAX: int := 0xFFFF_FFFF_FFFF_FFFF

  type u8 = x: int | 0 <= x < 0x100
  type u32 = x: int | 0 <= x < 0x1_0000_0000
  type u64 = x: int | 0 <= x <= U64_MAX

  /** Rust's `u64::checked_add`: `None` exactly when the true sum does not fit in 64 bits. */
  function CheckedAdd(a: u64, b: u64): (r: Option<u64>)
    ensures r.None? <==> a + b > U64_MAX
    ensures r.Some? ==> r.value - b == a && r.value >= a
  {
    if a + b <= U64_MAX then Some(a + b) else None
  }

  /** Rust's `u64::checked_sub`: `None` exactly when the true difference would be negative. */
  function CheckedSub(a: u64, b: u64): (r: Option<u64>)
    ensures r.None? <==> a < b
    ensures r.Some? ==> r.value + b == a && r.value <= a
  {
    if b <= a then Some(a - b) else None
  }
}
