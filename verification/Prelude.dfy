/**
 Vocabulary shared by every module. A character of a Text is a byte where the source works on bytes
 (SqlLexer, PhraseGuard, History, ImportGraph), and a Unicode code point where it works on decoded text
 (Json, Escapes, Encoding, Reading, Corpus and every column of the tables). Below 0x80 the two agree.
 */
module Prelude {
  datatype Option<+T> = None | Some(value: T)

  type Text = seq<char>

  /**
   White space among code points, which is what Go's TrimSpace and Fields look at. Of bytes it says the
   same below 0x80, and the phrase guard's results are about such text.
   */
  predicate IsSpace(c: char) {
    || c in {' ', '\t', '\n', '\r'} || c as int in {0x0B, 0x0C, 0x85, 0xA0, 0x1680, 0x2028, 0x2029, 0x202F, 0x205F, 0x3000}
    || 0x2000 <= c as int <= 0x200A
  }

  /** TrimSpace(s) == "". */
  predicate Blank(s: Text) {
    forall i | 0 <= i < |s| :: IsSpace(s[i])
  }

  lemma BlankOfNothing()
    ensures Blank("")
  {
  }

  lemma BlankConcat(a: Text, b: Text)
    requires Blank(a) && Blank(b)
    ensures Blank(a + b)
  {
  }

  lemma Concatenated(a: Text, b: Text, c: Text)
    ensures a + (b + c) == (a + b) + c
  {
  }

  predicate AllDigits(s: Text) {
    forall i | 0 <= i < |s| :: '0' <= s[i] <= '9'
  }

  /** The number a row of decimal digits spells. */
  function DecimalOf(digits: Text): nat
    requires AllDigits(digits)
  {
    if digits == "" then 0
    else 10 * DecimalOf(digits[..|digits| - 1]) + (digits[|digits| - 1] as int - '0' as int)
  }

  function DigitChar(d: nat): (c: char)
    requires d < 10
    ensures '0' <= c <= '9' && c as int - '0' as int == d
  {
    ('0' as int + d) as char
  }

  /** A number in decimal, as it is usually written. */
  function Digits(n: nat): (s: Text)
    ensures AllDigits(s) && s != ""
  {
    (if n < 10 then "" else Digits(n / 10)) + [DigitChar(n % 10)]
  }

  lemma OneMoreDigit(s: Text, c: char)
    requires AllDigits(s) && '0' <= c <= '9'
    ensures AllDigits(s + [c]) && DecimalOf(s + [c]) == 10 * DecimalOf(s) + (c as int - '0' as int)
  {
    assert (s + [c])[..|s|] == s;
  }

  /** Digits spell the number, and begin with zero for zero alone. */
  lemma {:induction false} DigitsSpell(n: nat)
    ensures DecimalOf(Digits(n)) == n && (Digits(n)[0] == '0' ==> n == 0 && |Digits(n)| == 1)
  {
    hide DecimalOf, DigitChar;
    if n >= 10 {
      DigitsSpell(n / 10);
      assert Digits(n) == Digits(n / 10) + [DigitChar(n % 10)];
      hide Digits;
      OneMoreDigit(Digits(n / 10), DigitChar(n % 10));
    } else {
      assert Digits(n) == "" + [DigitChar(n)];
      hide Digits;
      NoDigits();
      OneMoreDigit("", DigitChar(n));
    }
  }

  lemma NoDigits()
    ensures DecimalOf("") == 0
  {
  }

  lemma {:induction false} ZerosAreNothing(zeros: Text)
    requires forall i | 0 <= i < |zeros| :: zeros[i] == '0'
    ensures AllDigits(zeros) && DecimalOf(zeros) == 0
  {
    hide DecimalOf;
    if zeros == "" {
      NoDigits();
    } else {
      ZerosAreNothing(zeros[..|zeros| - 1]);
      OneMoreDigit(zeros[..|zeros| - 1], '0');
      assert zeros == zeros[..|zeros| - 1] + ['0'];
    }
  }

  lemma {:induction false} LeadingZeros(zeros: Text, digits: Text)
    requires AllDigits(digits) && forall i | 0 <= i < |zeros| :: zeros[i] == '0'
    ensures AllDigits(zeros + digits) && DecimalOf(zeros + digits) == DecimalOf(digits)
    decreases |digits|
  {
    hide DecimalOf;
    if digits == "" {
      ZerosAreNothing(zeros);
      NoDigits();
      assert zeros + "" == zeros;
    } else {
      var init, last := digits[..|digits| - 1], digits[|digits| - 1];
      LeadingZeros(zeros, init);
      OneMoreDigit(zeros + init, last);
      OneMoreDigit(init, last);
      assert digits == init + [last] && zeros + digits == (zeros + init) + [last];
    }
  }

  predicate HasPrefix(s: Text, prefix: Text) {
    prefix <= s
  }

  function TrimPrefix(s: Text, prefix: Text): Text {
    if prefix <= s then s[|prefix|..] else s
  }
}
