/** Bytes and the little-endian words FatFs stores in sectors and directory entries. */
module Words {
  type byte = x: int | 0 <= x < 256

  const TWO32 := 0x1_0000_0000

  /** `ld_word`: the 16-bit value stored at offset `i`. */
  function LdWord(s: seq<byte>, i: nat): (w: nat)
    requires i + 2 <= |s|
    ensures w < 0x1_0000
  {
    s[i] as int + 0x100 * s[i + 1] as int
  }

  /** `ld_dword`: the 32-bit value stored at offset `i`. */
  function LdDword(s: seq<byte>, i: nat): (w: nat)
    requires i + 4 <= |s|
    ensures w < TWO32
  {
    s[i] as int + 0x100 * s[i + 1] as int + 0x1_0000 * s[i + 2] as int + 0x100_0000 * s[i + 3] as int
  }

  /** Multiplication by repeated addition. Geometry is stated with it because products of two
      variables slow the solver down; `TimesIsProduct` says it is the ordinary product. */
  function Times(m: nat, n: nat): nat {
    if n == 0 then 0 else m + Times(m, n - 1)
  }

  lemma {:induction false} TimesIsProduct(m: nat, n: nat)
    ensures Times(m, n) == m * n
  {
    if n > 0 {
      TimesIsProduct(m, n - 1);
    }
  }

  lemma {:induction false} TimesSum(m: nat, p: nat, q: nat)
    ensures Times(m, p + q) == Times(m, p) + Times(m, q)
  {
    if q > 0 { TimesSum(m, p, q - 1); }
  }

  lemma {:induction false} TimesStep(m: nat, a: nat, b: nat)
    requires a < b
    ensures Times(m, a) + m <= Times(m, b)
    decreases b
  {
    if a < b - 1 {
      TimesStep(m, a, b - 1);
    }
  }

  /** Quotient and remainder are unique. */
  lemma TimesUnique(m: nat, a: nat, i: nat, b: nat, j: nat)
    requires i < m && j < m && Times(m, a) + i == Times(m, b) + j
    ensures a == b && i == j
  {
    if a < b {
      TimesStep(m, a, b);
    } else if b < a {
      TimesStep(m, b, a);
    }
  }
}
