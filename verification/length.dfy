/** The two length helpers, `calc_len` (takes the string and hands it back)
    and `calculate_length` (borrows it). Both compute `s.len() as u32`. */
module Length {
  import opened Bytes

  const U32Modulus: int := 0x1_0000_0000

  /** A Rust `u32`. */
  newtype u32 = x: int | 0 <= x < 0x1_0000_0000

  /** The cast `n as u32` of a `usize`: keeps the low 32 bits, so the
      result is the one `u32` congruent to `n` modulo 2^32. */
  function AsU32(n: nat): (r: u32)
    ensures (n - r as int) % U32Modulus == 0
    ensures n < U32Modulus ==> r as int == n
  {
    (n % U32Modulus) as u32
  }

  /** `calc_len(s)`: the pair of the truncated byte length and `s` itself,
      ownership of which returns to the caller. */
  function CalcLen(s: seq<byte>): (r: (u32, seq<byte>))
    ensures r.1 == s
    ensures (|s| - r.0 as int) % U32Modulus == 0
    ensures |s| < U32Modulus ==> r.0 as int == |s|
  {
    (AsU32(|s|), s)
  }

  /** `calculate_length(&s)`: the truncated byte length, read through a
      reference. */
  function CalculateLength(s: seq<byte>): (r: u32)
    ensures (|s| - r as int) % U32Modulus == 0
    ensures |s| < U32Modulus ==> r as int == |s|
  {
    AsU32(|s|)
  }

  /** The cast is determined by its two promises: any `u32` congruent to `n`
      modulo 2^32 is `AsU32(n)`. */
  lemma {:induction false} AsU32Unique(n: nat, v: u32)
    requires (n - v as int) % U32Modulus == 0
    ensures v == AsU32(n)
  {
    var r := AsU32(n);
    var d := r as int - v as int;
    assert -U32Modulus < d < U32Modulus;
    assert d % U32Modulus == 0 by {
      assert d == (n - v as int) - (n - r as int);
      ModDifference(n - v as int, n - r as int);
    }
    if d != 0 {
      ModSmall(d);
      assert false;
    }
  }

  /** If two integers are multiples of 2^32, so is their difference. */
  lemma ModDifference(x: int, y: int)
    requires x % U32Modulus == 0 && y % U32Modulus == 0
    ensures (x - y) % U32Modulus == 0
  {
    assert x == U32Modulus * (x / U32Modulus);
    assert y == U32Modulus * (y / U32Modulus);
    assert x - y == U32Modulus * (x / U32Modulus - y / U32Modulus);
  }

  /** A non-zero integer strictly between -2^32 and 2^32 is not a multiple
      of 2^32. */
  lemma ModSmall(d: int)
    requires -U32Modulus < d < U32Modulus && d != 0
    ensures d % U32Modulus != 0
  {
    if d > 0 {
      assert d % U32Modulus == d;
    } else {
      assert d % U32Modulus == d + U32Modulus;
    }
  }

  /** Both helpers report the same length, and `calc_len` hands back the
      very string it was given. */
  lemma LengthsAgree(s: seq<byte>)
    ensures CalcLen(s).0 == CalculateLength(s)
    ensures CalcLen(s).1 == s
  {
    AsU32Unique(|s|, CalcLen(s).0);
  }

  /** The reported length wraps: a string 2^32 bytes longer than another
      reports the same length. */
  lemma {:induction false} LengthWraps(s: seq<byte>, t: seq<byte>)
    requires |t| == |s| + U32Modulus
    ensures CalculateLength(t) == CalculateLength(s)
  {
    var r := CalculateLength(s);
    assert (|t| - r as int) % U32Modulus == 0 by {
      ModDifference(|s| - r as int, -U32Modulus);
    }
    AsU32Unique(|t|, r);
  }
}
