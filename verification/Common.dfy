/** The machine integers and the optional value used throughout. */
module Common {
  type u8 = x: int | 0 <= x < 0x100
  type u16 = x: int | 0 <= x < 0x1_0000
  type u32 = x: int | 0 <= x < 0x1_0000_0000

  datatype Option<+T> = None | Some(value: T)

  function Pow2(n: nat): (r: nat)
    ensures r > 0
  {
    if n == 0 then 1 else 2 * Pow2(n - 1)
  }

  /** NLMSG_ALIGN and RTA_ALIGN. */
  function Align(n: nat): (r: nat)
    ensures n <= r < n + 4 && r % 4 == 0
    ensures n % 4 == 0 ==> r == n
  {
    (n + 3) / 4 * 4
  }
}
