/** The two input validators of the phonebook: `Phonebook._check_name` and
    `Phonebook._check_number`. Python returns the accepted value or `False`;
    here `Some(value)` or `None`. */
module Validators {
  import opened Text

  predicate IsLatinLetter(c: char) {
    'a' <= c <= 'z' || 'A' <= c <= 'Z'
  }

  /** The ranges а-я (U+0430..U+044F) and А-Я (U+0410..U+042F); ё and Ё lie
      outside both. */
  predicate IsCyrillicLetter(c: char) {
    '\U{0430}' <= c <= '\U{044F}' || '\U{0410}' <= c <= '\U{042F}'
  }

  /** One character of the class `[a-zA-Zа-яА-Я"\s-]`. */
  predicate IsNameChar(c: char) {
    IsLatinLetter(c) || IsCyrillicLetter(c) || c == '"' || IsSpace(c) || c == '-'
  }

  /** The anchored pattern `^[a-zA-Zа-яА-Я"\s-]*$`, matched one character at a
      time from the left. */
  function MatchesNamePattern(s: string): (b: bool)
    ensures b <==> forall i :: 0 <= i < |s| ==> IsNameChar(s[i])
  {
    if s == [] then true
    else IsNameChar(s[0]) && MatchesNamePattern(s[1..])
  }

  /** `_check_name`: the name itself when every character is in the name class
      (so the empty name is valid), otherwise rejected. */
  function CheckName(name: string): (r: Option<string>)
    ensures r.Some? <==> forall i :: 0 <= i < |name| ==> IsNameChar(name[i])
    ensures r.Some? ==> r.value == name
  {
    if MatchesNamePattern(name) then Some(name) else None
  }

  /** `re.sub(r'\D', '', s)`: the digits of `s`, in order. */
  function KeepDigits(s: string): (r: string)
    ensures AllDigits(r) && |r| <= |s|
    ensures AllDigits(s) ==> r == s
  {
    if s == [] then []
    else if IsDigit(s[0]) then [s[0]] + KeepDigits(s[1..])
    else KeepDigits(s[1..])
  }

  /** No digit is lost or added: every digit occurs in the result as often as
      in the input. */
  lemma {:induction false} KeepDigitsCounts(s: string, c: char)
    requires IsDigit(c)
    ensures multiset(KeepDigits(s))[c] == multiset(s)[c]
  {
    if s != [] {
      assert s == [s[0]] + s[1..];
      KeepDigitsCounts(s[1..], c);
    }
  }

  /** Removing non-digits commutes with concatenation, so the digits of the
      result appear in the order they had in the input. */
  lemma {:induction false} KeepDigitsAppend(a: string, b: string)
    ensures KeepDigits(a + b) == KeepDigits(a) + KeepDigits(b)
  {
    if a != [] {
      assert (a + b)[0] == a[0];
      assert (a + b)[1..] == a[1..] + b;
      KeepDigitsAppend(a[1..], b);
      if IsDigit(a[0]) {
        calc {
          KeepDigits(a + b);
          [a[0]] + KeepDigits(a[1..] + b);
          [a[0]] + (KeepDigits(a[1..]) + KeepDigits(b));
        }
      }
    } else {
      assert a + b == b;
    }
  }

  /** Python's `number.startswith('+7') or number.startswith('8')`. */
  predicate HasPhonePrefix(number: string) {
    StartsWith(number, "+7") || StartsWith(number, "8")
  }

  /** The digits of an input with a phone prefix start with the digit of
      that prefix. */
  lemma PhonePrefixDigits(number: string)
    requires HasPhonePrefix(number)
    ensures KeepDigits(number) != []
    ensures StartsWith(number, "+7") ==> KeepDigits(number)[0] == '7'
    ensures !StartsWith(number, "+7") ==> KeepDigits(number)[0] == '8'
  {
    if StartsWith(number, "+7") {
      assert number[1..][0] == '7';
      assert KeepDigits(number) == KeepDigits(number[1..]);
    }
  }

  /** `_check_number`: accepts exactly the inputs starting with `+7` or `8` and
      then returns their digits, which begin with 7 or 8. */
  function CheckNumber(number: string): (r: Option<string>)
    ensures r.Some? <==> HasPhonePrefix(number)
    ensures r.Some? ==> r.value == KeepDigits(number)
    ensures r.Some? ==> IsNumeral(r.value) && (r.value[0] == '7' || r.value[0] == '8')
  {
    if HasPhonePrefix(number) then
      PhonePrefixDigits(number);
      Some(KeepDigits(number))
    else None
  }

  /** Re-checking what `_check_number` returned for a `+7...` input rejects it:
      the stored digits no longer carry the `+`. */
  lemma CheckNumberOnStoredDigits(number: string)
    requires StartsWith(number, "+7")
    ensures CheckNumber(number).Some?
    ensures CheckNumber(CheckNumber(number).value).None?
  {
    PhonePrefixDigits(number);
  }

  /** The example of the `_check_number` docstring: `+7(123)456-78-90` is
      stored as `71234567890`. */
  lemma CheckNumberExample(number: string)
    requires number == "+7(123)456-78-90"
    ensures CheckNumber(number) == Some("71234567890")
  {
    assert StartsWith(number, "+7");
    PrefixPieceDigits("+7(");
    DigitsThenSymbol("123)", "123", ')');
    DigitsThenSymbol("456-", "456", '-');
    DigitsThenSymbol("78-", "78", '-');
    DigitsKept("90");
    KeepDigitsOfPieces("+7(", "123)", "456-", "78-", "90");
    ExampleConcatenations();
  }

  /** `123456`, which has neither phone prefix, is rejected. */
  lemma CheckNumberRejectsExample()
    ensures CheckNumber("123456") == None
  {
  }

  lemma ExampleConcatenations()
    ensures "+7(" + "123)" + "456-" + "78-" + "90" == "+7(123)456-78-90"
    ensures "7" + "123" + "456" + "78" + "90" == "71234567890"
  {
  }

  lemma KeepDigitsOfPieces(a: string, b: string, c: string, d: string, e: string)
    ensures KeepDigits(a + b + c + d + e)
         == KeepDigits(a) + KeepDigits(b) + KeepDigits(c) + KeepDigits(d) + KeepDigits(e)
  {
    KeepDigitsAppend(a + b + c + d, e);
    KeepDigitsAppend(a + b + c, d);
    KeepDigitsAppend(a + b, c);
    KeepDigitsAppend(a, b);
  }

  lemma PrefixPieceDigits(piece: string)
    requires piece == "+7("
    ensures KeepDigits(piece) == "7"
  {
    assert piece[1..] == "7" + "(";
    NonDigitDropped("7", '(');
  }

  lemma DigitsKept(piece: string)
    requires piece == "90"
    ensures KeepDigits(piece) == piece
  {
    assert IsDigit(piece[0]) && IsDigit(piece[1]);
  }

  lemma DigitsThenSymbol(piece: string, digits: string, c: char)
    requires AllDigits(digits) && !IsDigit(c) && piece == digits + [c]
    ensures KeepDigits(piece) == digits
  {
    NonDigitDropped(digits, c);
  }

  /** A digit string followed by one non-digit keeps only the digits. */
  lemma NonDigitDropped(digits: string, c: char)
    requires AllDigits(digits) && !IsDigit(c)
    ensures KeepDigits(digits + [c]) == digits
  {
    KeepDigitsAppend(digits, [c]);
  }
}
