/** Types that several modules share. */
module Basics {

  datatype Option<+T> = None | Some(value: T)

  type byte = x: int | 0 <= x < 256

  /** A 32-bit word as a number. */
  type uint32 = x: int | 0 <= x < 0x1_0000_0000

  function Sum(s: seq<nat>): (n: nat) {
    if |s| == 0 then 0 else s[0] + Sum(s[1..])
  }

  lemma {:induction false} SumMore(s: seq<nat>, n: nat)
    ensures Sum(s + [n]) == Sum(s) + n
  {
    if |s| > 0 {
      SumMore(s[1..], n);
      assert (s + [n])[1..] == s[1..] + [n];
    }
  }
}
