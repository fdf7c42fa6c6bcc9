/** Random passwords drawn from a fixed alphabet of 62 letters and digits. */
module Generator {
  import opened Basics
  import opened Platform

  /** `PASS_CHARS`: the characters a generated password may contain, the
      lower-case letters, then the upper-case letters, then the digits. */
  const PASS_CHARS: string := LOWER + UPPER + DIGITS

  /** Length of the passwords generated when the host sends none. */
  const GENERATED_LEN: nat := 16

  /** ASCII lower-case letters, upper-case letters and digits. */
  predicate IsAlphanumeric(b: byte) {
    ('a' as int <= b <= 'z' as int) || ('A' as int <= b <= 'Z' as int) || ('0' as int <= b <= '9' as int)
  }

  /** `PASS_CHARS.chars().nth(i) as u8`, computed by position. */
  function PassChar(i: nat): (b: byte)
    requires i < |PASS_CHARS|
    ensures b == PASS_CHARS[i] as int
  {
    PassCharsAt(i);
    if i < 26 then 'a' as int + i
    else if i < 52 then 'A' as int + (i - 26)
    else '0' as int + (i - 52)
  }

  /** The code of the character at each position of the alphabet. */
  lemma PassCharsAt(i: nat)
    requires i < |PASS_CHARS|
    ensures PASS_CHARS[i] as int ==
      if i < 26 then 'a' as int + i
      else if i < 52 then 'A' as int + (i - 26)
      else '0' as int + (i - 52)
  {
    if i < 26 {
      assert PASS_CHARS[i] == LOWER[i];
      LowerAt(i);
    } else if i < 52 {
      assert PASS_CHARS[i] == UPPER[i - 26];
      UpperAt(i - 26);
    } else {
      assert PASS_CHARS[i] == DIGITS[i - 52];
      DigitAt(i - 52);
    }
  }

  const LOWER: string := "abcdefghijklmnopqrstuvwxyz"
  const UPPER: string := "ABCDEFGHIJKLMNOPQRSTUVWXYZ"
  const DIGITS: string := "0123456789"

  lemma LowerAt(i: nat)
    requires i < 26
    ensures LOWER[i] as int == 'a' as int + i
  {
  }

  lemma UpperAt(i: nat)
    requires i < 26
    ensures UPPER[i] as int == 'A' as int + i
  {
  }

  lemma DigitAt(i: nat)
    requires i < 10
    ensures DIGITS[i] as int == '0' as int + i
  {
  }

  /** The alphabet is exactly the 62 alphanumeric bytes, each at one position. */
  lemma {:induction false} PassCharsAreAlphanumerics()
    ensures |PASS_CHARS| == 62
    ensures forall i :: 0 <= i < |PASS_CHARS| ==> IsAlphanumeric(PassChar(i))
    ensures forall i, j :: 0 <= i < j < |PASS_CHARS| ==> PassChar(i) != PassChar(j)
    ensures forall b: byte :: IsAlphanumeric(b) ==> exists i :: 0 <= i < |PASS_CHARS| && PassChar(i) == b
  {
    forall b: byte | IsAlphanumeric(b)
      ensures exists i :: 0 <= i < |PASS_CHARS| && PassChar(i) == b
    {
      var i := if b >= 'a' as int then b - 'a' as int
               else if b >= 'A' as int then b - 'A' as int + 26
               else b - '0' as int + 52;
      assert PassChar(i) == b;
    }
  }

  /** `generate_random_password`: fills the first `size` bytes of `dest` (or
      all of it when it is shorter) with characters picked by the random source. */
  method GenerateRandomPassword(dest: array<byte>, size: nat, rng: Rng)
    requires rng.InRange()
    modifies dest, rng
    ensures rng.drawn == old(rng.drawn) + Min(size, dest.Length)
    ensures forall i :: 0 <= i < Min(size, dest.Length) ==>
      dest[i] == PassChar(rng.range(old(rng.drawn) + i, |PASS_CHARS|))
    ensures forall i :: 0 <= i < Min(size, dest.Length) ==> IsAlphanumeric(dest[i])
    ensures forall i :: Min(size, dest.Length) <= i < dest.Length ==> dest[i] == old(dest[i])
  {
    PassCharsAreAlphanumerics();
    var n := Min(size, dest.Length);
    var i := 0;
    while i < n
      invariant 0 <= i <= n
      invariant rng.drawn == old(rng.drawn) + i
      invariant forall j :: 0 <= j < i ==> dest[j] == PassChar(rng.range(old(rng.drawn) + j, |PASS_CHARS|))
      invariant forall j :: i <= j < dest.Length ==> dest[j] == old(dest[j])
    {
      var randIndex := rng.RandU32Range(|PASS_CHARS|);
      dest[i] := PassChar(randIndex);
      i := i + 1;
    }
  }

  function Min(a: nat, b: nat): (m: nat)
    ensures m <= a && m <= b && (m == a || m == b)
  {
    if a < b then a else b
  }
}
