/** Character classes and string helpers shared by the phonebook model.
    Python's `\s`, `str.isspace` and `str.strip` use one whitespace set, written
    out in IsSpace; digits are the ASCII digits only (`\D`, `str.isdigit` and
    `int()` are taken on ASCII input). */
module Text {

  datatype Option<T> = None | Some(value: T)

  /** An ASCII decimal digit. */
  predicate IsDigit(c: char) {
    '0' <= c <= '9'
  }

  /** The characters for which Python's `str.isspace` holds. */
  predicate IsSpace(c: char) {
    || c == ' '
    || '\t' <= c <= '\r'
    || '\U{1C}' <= c <= '\U{1F}'
    || c == '\U{85}' || c == '\U{A0}' || c == '\U{1680}'
    || '\U{2000}' <= c <= '\U{200A}'
    || c == '\U{2028}' || c == '\U{2029}' || c == '\U{202F}'
    || c == '\U{205F}' || c == '\U{3000}'
  }

  predicate AllDigits(s: string) {
    forall i :: 0 <= i < |s| ==> IsDigit(s[i])
  }

  predicate AllSpace(s: string) {
    forall i :: 0 <= i < |s| ==> IsSpace(s[i])
  }

  /** Python's `str.isdigit` on ASCII text: non-empty and made of digits. */
  predicate IsNumeral(s: string) {
    |s| > 0 && AllDigits(s)
  }

  predicate StartsWith(s: string, prefix: string) {
    |prefix| <= |s| && s[..|prefix|] == prefix
  }

  /** Python's `part in s` for strings. */
  predicate Contains(s: string, part: string) {
    StartsWith(s, part) || (s != [] && Contains(s[1..], part))
  }

  /** `part` occurs in `s` as the slice starting at `k`. */
  predicate OccursAt(s: string, part: string, k: int) {
    0 <= k && k + |part| <= |s| && s[k..k + |part|] == part
  }

  /** `part in s` holds exactly when `part` occurs in `s` as a contiguous
      slice. */
  lemma {:induction false} ContainsIffSlice(s: string, part: string)
    ensures Contains(s, part) <==> exists k :: OccursAt(s, part, k)
    decreases |s|
  {
    if StartsWith(s, part) {
      assert OccursAt(s, part, 0);
    } else if s == [] {
      assert forall k :: !OccursAt(s, part, k);
    } else {
      ContainsIffSlice(s[1..], part);
      if Contains(s[1..], part) {
        var k :| OccursAt(s[1..], part, k);
        assert s[k + 1..k + 1 + |part|] == s[1..][k..k + |part|];
        assert OccursAt(s, part, k + 1);
      }
      if k :| OccursAt(s, part, k) {
        assert k != 0;
        assert s[1..][k - 1..k - 1 + |part|] == s[k..k + |part|];
        assert OccursAt(s[1..], part, k - 1);
      }
    }
  }

  /** The number of whitespace characters at the start of `s`. */
  function LeadingSpace(s: string): (k: nat)
    ensures k <= |s| && AllSpace(s[..k])
    ensures k < |s| ==> !IsSpace(s[k])
  {
    if s == [] || !IsSpace(s[0]) then 0
    else
      var k := LeadingSpace(s[1..]) + 1;
      assert s[..k] == [s[0]] + s[1..][..k - 1];
      k
  }

  /** Drops trailing whitespace. */
  function TrimEnd(s: string): (r: string)
    ensures |r| <= |s| && r == s[..|r|]
    ensures AllSpace(s[|r|..])
    ensures r == [] || !IsSpace(r[|r| - 1])
  {
    if s == [] || !IsSpace(s[|s| - 1]) then s else TrimEnd(s[..|s| - 1])
  }

  /** Python's `str.strip()`: the infix of `s` left once whitespace is removed
      from both ends. */
  function Strip(s: string): (r: string)
    ensures r == [] <==> AllSpace(s)
    ensures LeadingSpace(s) + |r| <= |s|
    ensures r == s[LeadingSpace(s)..LeadingSpace(s) + |r|]
  {
    var k := LeadingSpace(s);
    var r := TrimEnd(s[k..]);
    assert r == [] ==> s == s[..k] + s[k..];
    r
  }

  /** What `strip` leaves has no whitespace at either end. */
  lemma StripTrimsEnds(s: string)
    ensures Strip(s) != [] ==> !IsSpace(Strip(s)[0]) && !IsSpace(Strip(s)[|Strip(s)| - 1])
  {
    var k := LeadingSpace(s);
    var r := Strip(s);
    if r != [] {
      assert r == TrimEnd(s[k..]);
      assert r[0] == s[k];
    }
  }

  /** `strip` removes whitespace only: what lies before and after the result
      is all whitespace. */
  lemma StripCutsOnlySpace(s: string)
    ensures AllSpace(s[..LeadingSpace(s)])
    ensures AllSpace(s[LeadingSpace(s) + |Strip(s)|..])
  {
    var k := LeadingSpace(s);
    assert s[k + |Strip(s)|..] == s[k..][|Strip(s)|..];
  }

  function DigitValue(c: char): (d: nat)
    requires IsDigit(c)
    ensures d < 10
  {
    (c - '0') as nat
  }

  function DigitChar(d: nat): (c: char)
    requires d < 10
    ensures IsDigit(c) && DigitValue(c) == d
  {
    ('0' as int + d) as char
  }

  /** Python's `int(s)` on a string of ASCII digits. */
  function ParseNat(s: string): nat
    requires AllDigits(s)
  {
    if s == [] then 0
    else ParseNat(s[..|s| - 1]) * 10 + DigitValue(s[|s| - 1])
  }

  /** Python's `str(n)` for a natural number: its decimal numeral without
      leading zeros. */
  function NatToString(n: nat): (r: string)
    ensures IsNumeral(r)
    ensures |r| > 1 ==> r[0] != '0'
  {
    if n < 10 then [DigitChar(n)] else NatToString(n / 10) + [DigitChar(n % 10)]
  }

  /** Reading back the numeral `str(n)` gives `n`. */
  lemma {:induction false} ParseNatToString(n: nat)
    ensures ParseNat(NatToString(n)) == n
  {
    var s := NatToString(n);
    if n >= 10 {
      ParseNatToString(n / 10);
      assert s[..|s| - 1] == NatToString(n / 10);
    }
  }

  /** `int(s)` is zero exactly when every digit of `s` is `0`. */
  lemma {:induction false} ParseNatZero(s: string)
    requires AllDigits(s)
    ensures ParseNat(s) == 0 <==> forall i :: 0 <= i < |s| ==> s[i] == '0'
  {
    if s != [] {
      var init := s[..|s| - 1];
      ParseNatZero(init);
      assert forall i :: 0 <= i < |init| ==> init[i] == s[i];
    }
  }

  /** Distinct numbers have distinct numerals. */
  lemma NatToStringInjective(m: nat, n: nat)
    requires NatToString(m) == NatToString(n)
    ensures m == n
  {
    ParseNatToString(m);
    ParseNatToString(n);
  }
}
