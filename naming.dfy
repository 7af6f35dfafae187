/**
 * The two string helpers of the bot: the code a text file stands for, derived
 * from the file's name, and the caption `{code}_{n}` that labels the n-th photo
 * archived for that code. A caption parser is given beside the caption builder
 * as its inverse, to show that a caption determines its code and its number.
 */
module Naming {
  import opened Wrappers

  /** True when `s` contains ".txt" starting at index `i`. */
  predicate TxtAt(s: string, i: int)
  {
    0 <= i && i + 4 <= |s| && s[i] == '.' && s[i + 1] == 't' && s[i + 2] == 'x' && s[i + 3] == 't'
  }

  predicate ContainsTxt(s: string)
  {
    exists i :: 0 <= i <= |s| - 4 && TxtAt(s, i)
  }

  /**
   * `name.replace('.txt', '')`: every occurrence of ".txt", found left to
   * right without overlap, is removed; the rest of the name is kept in order.
   */
  function StripTxt(name: string): (code: string)
    decreases |name|
  {
    if |name| < 4 then name
    else if TxtAt(name, 0) then StripTxt(name[4..])
    else [name[0]] + StripTxt(name[1..])
  }

  /** StripTxt only ever removes characters. */
  lemma {:induction false} StripTxtShrinks(name: string)
    ensures |StripTxt(name)| <= |name|
    ensures |StripTxt(name)| == |name| <==> !ContainsTxt(name)
    ensures !ContainsTxt(name) ==> StripTxt(name) == name
    decreases |name|
  {
    if |name| < 4 {
      assert forall i :: !TxtAt(name, i);
    } else if TxtAt(name, 0) {
      StripTxtShrinks(name[4..]);
    } else {
      StripTxtShrinks(name[1..]);
      TxtShift(name);
    }
  }

  /** Occurrences in `name` other than at index 0 are exactly the occurrences in `name[1..]`, shifted. */
  lemma TxtShift(name: string)
    requires name != [] && !TxtAt(name, 0)
    ensures ContainsTxt(name) <==> ContainsTxt(name[1..])
  {
    if ContainsTxt(name) {
      var i :| 0 <= i <= |name| - 4 && TxtAt(name, i);
      assert TxtAt(name[1..], i - 1);
    }
    if ContainsTxt(name[1..]) {
      var i :| 0 <= i <= |name[1..]| - 4 && TxtAt(name[1..], i);
      assert TxtAt(name, i + 1);
    }
  }

  /** A name without ".txt" in it is its own code. */
  lemma StripTxtIdentity(name: string)
    ensures StripTxt(name) == name <==> !ContainsTxt(name)
  {
    StripTxtShrinks(name);
  }

  /**
   * Stripping distributes over a concatenation whose right part starts with
   * '.': no occurrence of ".txt" can start in `a` and end in `b`, since '.'
   * is only the first character of ".txt".
   */
  lemma {:induction false} StripTxtConcat(a: string, b: string)
    requires b == [] || b[0] == '.'
    ensures StripTxt(a + b) == StripTxt(a) + StripTxt(b)
    decreases |a|
  {
    if a == [] {
      assert a + b == b;
    } else if TxtAt(a, 0) {
      StripTxtDropMatch(a, b);
      StripTxtConcat(a[4..], b);
    } else {
      NoTxtAcrossJoin(a, b);
      StripTxtCons(a);
      StripTxtCons(a + b);
      assert (a + b)[1..] == a[1..] + b;
      StripTxtConcat(a[1..], b);
      var x, y := StripTxt(a[1..]), StripTxt(b);
      assert [a[0]] + (x + y) == ([a[0]] + x) + y;
    }
  }

  /** A leading ".txt" of `a` is also the leading ".txt" of `a + b`. */
  lemma StripTxtDropMatch(a: string, b: string)
    requires TxtAt(a, 0)
    ensures StripTxt(a) == StripTxt(a[4..])
    ensures StripTxt(a + b) == StripTxt(a[4..] + b)
  {
    var ab := a + b;
    assert ab[0] == a[0] && ab[1] == a[1] && ab[2] == a[2] && ab[3] == a[3];
    assert ab[4..] == a[4..] + b;
  }

  /** A string that does not start with ".txt" keeps its first character. */
  lemma StripTxtCons(s: string)
    requires s != [] && !TxtAt(s, 0)
    ensures StripTxt(s) == [s[0]] + StripTxt(s[1..])
  {
    if |s| < 4 {
      assert [s[0]] + s[1..] == s;
    }
  }

  /** No ".txt" starts in `a` and runs on into a `b` that starts with '.'. */
  lemma NoTxtAcrossJoin(a: string, b: string)
    requires a != [] && !TxtAt(a, 0)
    requires b == [] || b[0] == '.'
    ensures !TxtAt(a + b, 0)
  {
    var ab := a + b;
    if |a| >= 4 {
      assert ab[0] == a[0] && ab[1] == a[1] && ab[2] == a[2] && ab[3] == a[3];
    } else if b != [] && |ab| >= 4 {
      assert ab[|a|] == '.';
    }
  }

  /** The intended case: `base.txt` yields `base` when `base` itself has no ".txt". */
  lemma StripTxtExtension(base: string)
    requires !ContainsTxt(base)
    ensures StripTxt(base + ".txt") == base
  {
    StripTxtConcat(base, ".txt");
    StripTxtIdentity(base);
  }

  /**
   * Not only the extension goes: every ".txt" in the name is removed, so
   * `a.txt` followed by `b.txt` (say `notes.txt.bak.txt`) gives `ab` (`notes.bak`).
   */
  lemma InnerTxtRemoved(a: string, b: string)
    requires !ContainsTxt(a) && !ContainsTxt(b)
    ensures StripTxt(a + ".txt" + b + ".txt") == a + b
  {
    var tail := ".txt" + (b + ".txt");
    assert a + ".txt" + b + ".txt" == a + tail;
    StripTxtConcat(a, tail);
    StripTxtIdentity(a);
    assert TxtAt(tail, 0) && tail[4..] == b + ".txt";
    StripTxtExtension(b);
  }

  /** The decimal digits are exactly the characters '0' to '9'. */
  predicate IsDigit(c: char)
  {
    '0' <= c <= '9'
  }

  predicate AllDigits(s: string)
  {
    forall i :: 0 <= i < |s| ==> IsDigit(s[i])
  }

  function DigitChar(d: nat): (c: char)
    requires d < 10
    ensures IsDigit(c)
  {
    ('0' as int + d) as char
  }

  function DigitValue(c: char): (d: nat)
    requires IsDigit(c)
    ensures d < 10 && DigitChar(d) == c
  {
    c as int - '0' as int
  }

  /** Python's `str(n)` for a non-negative int: decimal digits, no leading zero. */
  function DecimalString(n: nat): (s: string)
    ensures s != [] && AllDigits(s)
    ensures s[0] == '0' ==> n == 0 && s == "0"
  {
    if n < 10 then [DigitChar(n)]
    else DecimalString(n / 10) + [DigitChar(n % 10)]
  }

  /** Reads a string of decimal digits as a number (most significant digit first). */
  function ParseDecimal(s: string): nat
    requires AllDigits(s)
  {
    if s == [] then 0
    else ParseDecimal(s[..|s| - 1]) * 10 + DigitValue(s[|s| - 1])
  }

  lemma {:induction false} DecimalRoundTrip(n: nat)
    ensures ParseDecimal(DecimalString(n)) == n
  {
    if n >= 10 {
      var s := DecimalString(n / 10);
      assert (s + [DigitChar(n % 10)])[..|s|] == s;
      DecimalRoundTrip(n / 10);
    }
  }

  /** The archive caption `f"{code}_{n}"`. */
  function Caption(code: string, n: nat): string
  {
    code + "_" + DecimalString(n)
  }

  /** Splits `s` at its last underscore, when it has one. */
  function SplitAtLastUnderscore(s: string): (r: Option<(string, string)>)
    ensures r.Some? ==> r.value.0 + "_" + r.value.1 == s && '_' !in r.value.1
    ensures r.None? ==> '_' !in s
    decreases |s|
  {
    if s == [] then None
    else if s[|s| - 1] == '_' then Some((s[..|s| - 1], ""))
    else
      match SplitAtLastUnderscore(s[..|s| - 1])
      case None => None
      case Some((front, back)) => Some((front, back + [s[|s| - 1]]))
  }

  /** Reads a caption back into its code and its number; None if `c` is not `{code}_{digits}`. */
  function ParseCaption(c: string): Option<(string, nat)>
  {
    match SplitAtLastUnderscore(c)
    case None => None
    case Some((code, digits)) =>
      if digits != [] && AllDigits(digits) then Some((code, ParseDecimal(digits))) else None
  }

  lemma {:induction false} SplitAfterDigits(code: string, digits: string)
    requires '_' !in digits
    ensures SplitAtLastUnderscore(code + "_" + digits) == Some((code, digits))
    decreases |digits|
  {
    var s := code + "_" + digits;
    if digits == [] {
      assert s[..|s| - 1] == code;
    } else {
      var init := digits[..|digits| - 1];
      assert s[..|s| - 1] == code + "_" + init;
      assert s[|s| - 1] == digits[|digits| - 1];
      SplitAfterDigits(code, init);
      assert init + [digits[|digits| - 1]] == digits;
    }
  }

  /** A caption determines its code and its number, even when the code has underscores. */
  lemma CaptionRoundTrip(code: string, n: nat)
    ensures ParseCaption(Caption(code, n)) == Some((code, n))
  {
    var digits := DecimalString(n);
    assert forall i :: 0 <= i < |digits| ==> digits[i] != '_';
    SplitAfterDigits(code, digits);
    DecimalRoundTrip(n);
  }

  /** Two captions are equal only when both their codes and their numbers are. */
  lemma CaptionInjective(code1: string, n1: nat, code2: string, n2: nat)
    ensures Caption(code1, n1) == Caption(code2, n2) <==> code1 == code2 && n1 == n2
  {
    CaptionRoundTrip(code1, n1);
    CaptionRoundTrip(code2, n2);
  }
}
