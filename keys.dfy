/**
 * Storage keys of the order repository: every order lives under
 * "order:" followed by the signed decimal form of its id (Go's %d), and the
 * set of live order keys lives under the single key "orders".
 */
module Keys {
  import opened Wrappers
  import opened Models

  const KeyPrefix: string := "order:"
  const IndexKey: string := "orders"

  predicate IsDigit(c: char) {
    '0' <= c <= '9'
  }

  predicate AllDigits(s: string) {
    forall i :: 0 <= i < |s| ==> IsDigit(s[i])
  }

  function DigitValue(c: char): (d: nat)
    requires IsDigit(c)
    ensures d < 10
  {
    c as int - '0' as int
  }

  function DigitChar(d: nat): (c: char)
    requires d < 10
    ensures IsDigit(c) && DigitValue(c) == d
  {
    ('0' as int + d) as char
  }

  /** The number a string of decimal digits denotes, most significant digit first. */
  function DigitsValue(s: string): nat
    requires AllDigits(s)
    decreases |s|
  {
    if s == [] then 0 else 10 * DigitsValue(s[..|s| - 1]) + DigitValue(s[|s| - 1])
  }

  /** Decimal digits without a leading zero, except for "0" itself. */
  predicate IsCanonicalNat(s: string) {
    |s| >= 1 && AllDigits(s) && (s[0] == '0' ==> |s| == 1)
  }

  /** A canonical natural, or a minus sign followed by a canonical positive natural. */
  predicate IsCanonicalInt(s: string) {
    IsCanonicalNat(s) || (|s| >= 2 && s[0] == '-' && IsCanonicalNat(s[1..]) && s[1] != '0')
  }

  function SignedValue(s: string): int
    requires IsCanonicalInt(s)
  {
    if s[0] == '-' then 0 - DigitsValue(s[1..]) else DigitsValue(s)
  }

  /** The decimal form of a natural number. */
  function DecimalNat(n: nat): (s: string)
    ensures IsCanonicalNat(s) && DigitsValue(s) == n
    decreases n
  {
    if n < 10 then
      [DigitChar(n)]
    else
      var init := DecimalNat(n / 10);
      var s := init + [DigitChar(n % 10)];
      assert s[..|s| - 1] == init;
      s
  }

  lemma {:induction false} LeadingDigitPositive(s: string)
    requires |s| >= 1 && AllDigits(s) && s[0] != '0'
    ensures DigitsValue(s) >= 1
    decreases |s|
  {
    if |s| > 1 {
      LeadingDigitPositive(s[..|s| - 1]);
    }
  }

  /** A canonical digit string is the decimal form of the number it denotes. */
  lemma {:induction false} CanonicalNatUnique(s: string)
    requires IsCanonicalNat(s)
    ensures DecimalNat(DigitsValue(s)) == s
    decreases |s|
  {
    if |s| == 1 {
      assert DigitsValue(s) == DigitValue(s[0]);
    } else {
      var init := s[..|s| - 1];
      assert IsCanonicalNat(init);
      CanonicalNatUnique(init);
      LeadingDigitPositive(init);
      var n := DigitsValue(s);
      assert n / 10 == DigitsValue(init) && n % 10 == DigitValue(s[|s| - 1]);
      assert s == init + [s[|s| - 1]];
    }
  }

  /** Go's %d applied to an integer: the signed decimal form. */
  function Decimal(i: int): (s: string)
    ensures IsCanonicalInt(s) && SignedValue(s) == i
  {
    if i < 0 then
      var digits := DecimalNat(-i);
      assert ("-" + digits)[1..] == digits;
      "-" + digits
    else
      DecimalNat(i)
  }

  /** A canonical signed decimal string is the decimal form of its value. */
  lemma {:induction false} CanonicalIntUnique(s: string)
    requires IsCanonicalInt(s)
    ensures Decimal(SignedValue(s)) == s
  {
    if s[0] == '-' {
      LeadingDigitPositive(s[1..]);
      CanonicalNatUnique(s[1..]);
      assert s == "-" + s[1..];
    } else {
      assert IsCanonicalNat(s);
      CanonicalNatUnique(s);
    }
  }

  /** orderIdKey: the storage key of an order. */
  function OrderIdKey(id: int64): (k: string)
    ensures |k| > |KeyPrefix| && KeyPrefix <= k
    ensures IsCanonicalInt(k[|KeyPrefix|..]) && SignedValue(k[|KeyPrefix|..]) == id as int
  {
    var k := KeyPrefix + Decimal(id as int);
    assert k[|KeyPrefix|..] == Decimal(id as int);
    k
  }

  /** Recovers the id from a storage key; None for anything orderIdKey cannot produce. */
  function ParseOrderKey(k: string): Option<int64> {
    if |k| > |KeyPrefix| && k[..|KeyPrefix|] == KeyPrefix && IsCanonicalInt(k[|KeyPrefix|..])
       && -0x8000_0000_0000_0000 <= SignedValue(k[|KeyPrefix|..]) < 0x8000_0000_0000_0000
    then Some(SignedValue(k[|KeyPrefix|..]) as int64)
    else None
  }

  lemma ParseOrderKeyInverts(id: int64)
    ensures ParseOrderKey(OrderIdKey(id)) == Some(id)
  {
  }

  /** Every key ParseOrderKey accepts is the key of the id it returns. */
  lemma {:induction false} OrderIdKeyOfParsed(k: string, id: int64)
    requires ParseOrderKey(k) == Some(id)
    ensures OrderIdKey(id) == k
  {
    var digits := k[|KeyPrefix|..];
    CanonicalIntUnique(digits);
    assert k == KeyPrefix + digits;
  }

  /** Distinct ids, negative ones included, never share a key. */
  lemma OrderIdKeyInjective(a: int64, b: int64)
    ensures OrderIdKey(a) == OrderIdKey(b) <==> a == b
  {
    ParseOrderKeyInverts(a);
    ParseOrderKeyInverts(b);
  }

  /** The index key is never an order key, so writing or deleting an order never touches the index. */
  lemma IndexKeyIsNotAnOrderKey(id: int64)
    ensures OrderIdKey(id) != IndexKey && !(KeyPrefix <= IndexKey)
  {
    assert IndexKey[5] != KeyPrefix[5];
  }
}
