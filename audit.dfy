/**
 * The access descriptions the handlers hand to the background `log_access` task,
 * with the decimal rendering Python's f-string gives an `int`.
 */
module Audit {
  import opened Wrappers

  const TrendsAccess: string := "GET /reviews/trends"
  const ListingPrefix: string := "GET /reviews/?category_id="

  predicate IsDigit(c: char) {
    '0' <= c <= '9'
  }

  function DigitChar(d: nat): char
    requires d < 10
  {
    ('0' as int + d) as char
  }

  /** The value of a digit character (0 for any other character). */
  function DigitValue(c: char): nat {
    if IsDigit(c) then c as int - '0' as int else 0
  }

  /** `str(n)` for a non-negative `n`: digits, most significant first, no leading zero. */
  function NatString(n: nat): (s: string)
    ensures s != [] && forall c :: c in s ==> IsDigit(c)
    ensures s[0] == '0' ==> n == 0 && s == "0"
  {
    if n < 10 then [DigitChar(n)] else NatString(n / 10) + [DigitChar(n % 10)]
  }

  /** `str(n)` for any `int`: a minus sign before the digits of a negative number. */
  function DecimalString(n: int): string {
    if n < 0 then "-" + NatString(-n) else NatString(n)
  }

  /** The value of a string of decimal digits. */
  function DigitsValue(s: string): nat {
    if s == [] then 0 else DigitsValue(s[..|s| - 1]) * 10 + DigitValue(s[|s| - 1])
  }

  /** Reads back what `DecimalString` writes; anything else is `None`. */
  function ParseDecimal(s: string): Option<int> {
    if s == [] then None
    else if s[0] == '-' then
      if |s| > 1 && forall c :: c in s[1..] ==> IsDigit(c) then Some(-(DigitsValue(s[1..]) as int)) else None
    else if forall c :: c in s ==> IsDigit(c) then Some(DigitsValue(s))
    else None
  }

  /** The description scheduled by `GET /reviews/?category_id=...`. */
  function ListingAccess(categoryId: int): string {
    ListingPrefix + DecimalString(categoryId)
  }

  lemma {:induction false} NatStringRoundTrip(n: nat)
    ensures DigitsValue(NatString(n)) == n
  {
    if n >= 10 {
      var s := NatString(n / 10) + [DigitChar(n % 10)];
      assert s[..|s| - 1] == NatString(n / 10);
      NatStringRoundTrip(n / 10);
    }
  }

  lemma {:induction false} DecimalRoundTrip(n: int)
    ensures ParseDecimal(DecimalString(n)) == Some(n)
  {
    if n < 0 {
      var s := DecimalString(n);
      assert s[1..] == NatString(-n);
      NatStringRoundTrip(-n);
    } else {
      assert NatString(n)[0] in NatString(n);
      NatStringRoundTrip(n);
    }
  }

  /**
   * The listing description names its category: the id can be read back from it, so
   * two different categories never produce the same description.
   */
  lemma {:induction false} ListingAccessNamesCategory(categoryId: int, other: int)
    ensures ParseDecimal(ListingAccess(categoryId)[|ListingPrefix|..]) == Some(categoryId)
    ensures ListingAccess(categoryId) == ListingAccess(other) ==> categoryId == other
  {
    assert ListingAccess(categoryId)[|ListingPrefix|..] == DecimalString(categoryId);
    assert ListingAccess(other)[|ListingPrefix|..] == DecimalString(other);
    DecimalRoundTrip(categoryId);
    DecimalRoundTrip(other);
  }

  /** The two handlers' descriptions never coincide. */
  lemma {:induction false} DescriptionsDistinct(categoryId: int)
    ensures ListingAccess(categoryId) != TrendsAccess
  {
    var m := ListingAccess(categoryId);
    assert m[13] == ListingPrefix[13] == '?';
    assert TrendsAccess[13] == 't';
  }
}
