/** Text as the service sees it. A `char` stands for one byte of UTF-8 text, so `|s|` is the
    byte length the contracts bound and comparisons are byte-wise. */
module Text {

  const SUMMARY_BOUND: nat := 160
  const STEP_ID_BOUND: nat := 48
  const UUID_BOUND: nat := 36

  /** A UUID, identified with its hyphenated text. */
  type Uuid = s: string | |s| == UUID_BOUND witness "00000000-0000-0000-0000-000000000000"

  predicate IsBoundedSummary(s: string) {
    0 < |s| <= SUMMARY_BOUND
  }

  predicate IsLowerAlphanumeric(c: char) {
    'a' <= c <= 'z' || '0' <= c <= '9'
  }

  predicate IsValidStepId(s: string) {
    && 0 < |s| <= STEP_ID_BOUND
    && IsLowerAlphanumeric(s[0])
    && forall i :: 1 <= i < |s| ==> IsLowerAlphanumeric(s[i]) || s[i] == '_' || s[i] == '-'
  }

  predicate IsValidHash(s: string) {
    |s| == 64 && forall i :: 0 <= i < |s| ==> '0' <= s[i] <= '9' || 'a' <= s[i] <= 'f'
  }

  function ToLower(c: char): char {
    if 'A' <= c <= 'Z' then c - 'A' + 'a' else c
  }

  function ToAsciiLowercase(s: string): string {
    seq(|s|, i requires 0 <= i < |s| => ToLower(s[i]))
  }

  predicate OccursAt(s: string, part: string, i: nat) {
    i + |part| <= |s| && s[i..i + |part|] == part
  }

  predicate Contains(s: string, part: string) {
    exists i :: 0 <= i <= |s| && OccursAt(s, part, i)
  }

  function Digit(d: nat): char
    requires d < 10
  {
    '0' + d as char
  }

  function DigitValue(c: char): nat {
    if '0' <= c <= '9' then c as int - '0' as int else 0
  }

  predicate IsDigit(c: char) {
    '0' <= c <= '9'
  }

  function Decimal(n: nat): (s: string)
    ensures s != [] && forall i :: 0 <= i < |s| ==> IsDigit(s[i])
  {
    if n < 10 then [Digit(n)] else Decimal(n / 10) + [Digit(n % 10)]
  }

  function DecimalValue(s: string): nat {
    if s == [] then 0 else 10 * DecimalValue(s[..|s| - 1]) + DigitValue(s[|s| - 1])
  }

  /** Decimal text names exactly one number. */
  lemma {:induction false} DecimalRoundTrip(n: nat)
    ensures DecimalValue(Decimal(n)) == n
  {
    if n >= 10 {
      var text := Decimal(n);
      DecimalRoundTrip(n / 10);
      assert text[..|text| - 1] == Decimal(n / 10);
      assert text[|text| - 1] == Digit(n % 10);
    } else {
      assert [Digit(n)][..0] == [];
    }
  }

  function PowerOfTen(k: nat): nat {
    if k == 0 then 1 else 10 * PowerOfTen(k - 1)
  }

  lemma {:induction false} DecimalLength(n: nat, k: nat)
    requires 0 < k && n < PowerOfTen(k)
    ensures |Decimal(n)| <= k
  {
    if n >= 10 {
      DecimalLength(n / 10, k - 1);
    }
  }

  const U32_BOUND: int := 0x1_0000_0000
  const U64_BOUND: int := 0x1_0000_0000_0000_0000

  type u8 = n: int | 0 <= n < 256
  type u16 = n: int | 0 <= n < 65536
  type u32 = n: int | 0 <= n < U32_BOUND
  type u64 = n: int | 0 <= n < U64_BOUND

  /** A 32-bit count never needs more than ten digits. */
  lemma DecimalOfU32(n: nat)
    requires n < U32_BOUND
    ensures |Decimal(n)| <= 10
  {
    assert PowerOfTen(5) == 100000;
    assert PowerOfTen(10) == 10000000000;
    DecimalLength(n, 10);
  }
}
