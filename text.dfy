/**
 * Strings as the pages print and read them: decimal numerals, Python's
 * thousands-grouped number formats (plain, signed and with fixed decimals),
 * comma stripping, the numeral parser pandas applies to integer text, and
 * the case-insensitive substring test of the text searches.
 */
module Text {
  import opened Wrappers

  predicate IsDigit(c: char) {
    '0' <= c <= '9'
  }

  predicate AllDigits(s: string) {
    forall i :: 0 <= i < |s| ==> IsDigit(s[i])
  }

  predicate NoComma(s: string) {
    forall i :: 0 <= i < |s| ==> s[i] != ','
  }

  function DigitChar(d: nat): (c: char)
    requires d < 10
    ensures IsDigit(c)
  {
    ('0' as int + d) as char
  }

  function DigitValue(c: char): (d: nat)
    requires IsDigit(c)
    ensures d < 10 && DigitChar(d) == c
  {
    c as int - '0' as int
  }

  /** Python's `str(n)` for a natural number: its decimal digits, most significant first. */
  function ShowNat(n: nat): (s: string)
    ensures |s| >= 1 && AllDigits(s)
    ensures n < 10 <==> |s| == 1
    decreases n
  {
    if n < 10 then [DigitChar(n)] else ShowNat(n / 10) + [DigitChar(n % 10)]
  }

  /** The value of a string of decimal digits (empty means 0). */
  function ParseDigits(s: string): nat
    requires AllDigits(s)
    decreases |s|
  {
    if |s| == 0 then 0 else ParseDigits(s[..|s| - 1]) * 10 + DigitValue(s[|s| - 1])
  }

  lemma {:induction false} ParseShowNat(n: nat)
    ensures ParseDigits(ShowNat(n)) == n
    decreases n
  {
    if n >= 10 {
      var s := ShowNat(n);
      assert s[..|s| - 1] == ShowNat(n / 10);
      ParseShowNat(n / 10);
    }
  }

  /** Python's `str(n)` for an integer (what `astype(str)` writes for a number). */
  function ShowInt(n: int): string {
    if n < 0 then "-" + ShowNat(-n) else ShowNat(n)
  }

  /**
   * The coercing numeral parser of pandas, restricted to integer numerals:
   * an optional sign followed by at least one digit parses; anything else is
   * not a number (None: the coerced NaN).
   */
  function ParseNumeral(s: string): (r: Option<int>)
    ensures r.Some? <==>
              (|s| > 0 && AllDigits(s)) ||
              (|s| > 1 && (s[0] == '-' || s[0] == '+') && AllDigits(s[1..]))
  {
    if |s| > 1 && (s[0] == '-' || s[0] == '+') && AllDigits(s[1..]) then
      var v: int := ParseDigits(s[1..]);
      Some(if s[0] == '-' then -v else v)
    else if |s| > 0 && AllDigits(s) then
      Some(ParseDigits(s))
    else
      None
  }

  lemma ParseShowInt(n: int)
    ensures ParseNumeral(ShowInt(n)) == Some(n)
  {
    if n < 0 {
      SignedTextParses("-", -n);
    } else {
      var s := ShowNat(n);
      assert IsDigit(s[0]);
      ParseShowNat(n);
    }
  }

  /** `s` with every comma removed. */
  function RemoveCommas(s: string): (r: string)
    ensures NoComma(r) && |r| <= |s|
    ensures AllDigits(s) ==> r == s
  {
    if s == [] then [] else (if s[0] == ',' then [] else [s[0]]) + RemoveCommas(s[1..])
  }

  /** Text without commas is left as it is. */
  lemma {:induction false} RemoveCommasNoComma(s: string)
    requires NoComma(s)
    ensures RemoveCommas(s) == s
    decreases |s|
  {
    if s != [] {
      RemoveCommasNoComma(s[1..]);
      assert s == [s[0]] + s[1..];
    }
  }

  lemma {:induction false} RemoveCommasAppend(a: string, b: string)
    ensures RemoveCommas(a + b) == RemoveCommas(a) + RemoveCommas(b)
  {
    if a == [] {
      assert a + b == b;
    } else {
      assert (a + b)[1..] == a[1..] + b;
      RemoveCommasAppend(a[1..], b);
    }
  }

  /** Inserts a comma before every group of three digits, counted from the right. */
  function GroupDigits(ds: string): (r: string)
    requires AllDigits(ds)
    decreases |ds|
  {
    if |ds| <= 3 then ds else GroupDigits(ds[..|ds| - 3]) + "," + ds[|ds| - 3..]
  }

  lemma {:induction false} GroupDigitsUngroups(ds: string)
    requires AllDigits(ds)
    ensures RemoveCommas(GroupDigits(ds)) == ds
    decreases |ds|
  {
    if |ds| > 3 {
      var head, tail := ds[..|ds| - 3], ds[|ds| - 3..];
      GroupDigitsUngroups(head);
      RemoveCommasAppend(GroupDigits(head) + ",", tail);
      RemoveCommasAppend(GroupDigits(head), ",");
      assert head + tail == ds;
    }
  }

  lemma {:induction false} GroupDigitsStartsWithDigit(ds: string)
    requires AllDigits(ds) && |ds| > 0
    ensures |GroupDigits(ds)| > 0 && GroupDigits(ds)[0] == ds[0]
    decreases |ds|
  {
    if |ds| > 3 {
      GroupDigitsStartsWithDigit(ds[..|ds| - 3]);
    }
  }

  /** An integer with its digits grouped in threes by commas. */
  function Grouped(n: int): string {
    if n < 0 then "-" + GroupDigits(ShowNat(-n)) else GroupDigits(ShowNat(n))
  }

  /** The grouped form with the sign always written. */
  function SignedGrouped(n: int): string {
    if n < 0 then "-" + GroupDigits(ShowNat(-n)) else "+" + GroupDigits(ShowNat(n))
  }

  function Zeros(k: nat): (r: string)
    ensures |r| == k && AllDigits(r)
  {
    if k == 0 then "" else Zeros(k - 1) + "0"
  }

  /** The grouped form of an integral value `n` with `dp` decimal places, all zero; no point when `dp` is 0. */
  function FixedGrouped(n: int, dp: nat): string {
    if dp == 0 then Grouped(n) else Grouped(n) + "." + Zeros(dp)
  }

  /** A comma-grouped integer reads back as that integer once its commas are stripped. */
  lemma GroupedReadsBack(n: int)
    ensures ParseNumeral(RemoveCommas(Grouped(n))) == Some(n)
  {
    if n < 0 {
      GroupDigitsUngroups(ShowNat(-n));
      RemoveCommasAppend("-", GroupDigits(ShowNat(-n)));
      assert RemoveCommas("-") == "-";
      assert RemoveCommas(Grouped(n)) == ShowInt(n);
    } else {
      GroupDigitsUngroups(ShowNat(n));
    }
    ParseShowInt(n);
  }

  /** Likewise for the explicitly signed form. */
  lemma SignedGroupedReadsBack(n: int)
    ensures ParseNumeral(RemoveCommas(SignedGrouped(n))) == Some(n)
  {
    var m: nat := if n < 0 then -n else n;
    var sign := if n < 0 then "-" else "+";
    assert SignedGrouped(n) == sign + GroupDigits(ShowNat(m));
    GroupDigitsUngroups(ShowNat(m));
    RemoveCommasAppend(sign, GroupDigits(ShowNat(m)));
    assert RemoveCommas(sign) == sign;
    SignedTextParses(sign, m);
  }

  lemma SignedTextParses(sign: string, m: nat)
    requires sign == "-" || sign == "+"
    ensures ParseNumeral(sign + ShowNat(m)) == Some(if sign == "-" then -(m as int) else m)
  {
    var s := sign + ShowNat(m);
    assert s[1..] == ShowNat(m);
    ParseShowNat(m);
  }

  /** A grouped natural number begins with a digit. */
  lemma GroupedNatStartsWithDigit(n: nat)
    ensures |Grouped(n)| > 0 && IsDigit(Grouped(n)[0])
  {
    GroupDigitsStartsWithDigit(ShowNat(n));
  }

  /** ASCII lower-casing of one character; other characters are kept. */
  function LowerChar(c: char): char {
    if 'A' <= c <= 'Z' then (c as int + 32) as char else c
  }

  function Lower(s: string): (r: string)
    ensures |r| == |s|
    ensures forall i :: 0 <= i < |s| ==> r[i] == LowerChar(s[i])
  {
    seq(|s|, i requires 0 <= i < |s| => LowerChar(s[i]))
  }

  /** `t` occurs in `s` as a contiguous block. */
  predicate Contains(s: string, t: string)
    decreases |s|
  {
    t <= s || (|s| > 0 && Contains(s[1..], t))
  }

  /** Case-insensitive containment on a string value, with `t` read literally. */
  predicate ContainsIgnoringCase(s: string, t: string) {
    Contains(Lower(s), Lower(t))
  }

  lemma {:induction false} ContainsAt(s: string, t: string, k: nat)
    requires k + |t| <= |s| && s[k..k + |t|] == t
    ensures Contains(s, t)
    decreases k
  {
    if k > 0 {
      assert s[1..][k - 1..k - 1 + |t|] == t;
      ContainsAt(s[1..], t, k - 1);
    }
  }

  /** Containment means the text occurs at some position. */
  lemma {:induction false} ContainsWitness(s: string, t: string) returns (k: nat)
    requires Contains(s, t)
    ensures k + |t| <= |s| && s[k..k + |t|] == t
    decreases |s|
  {
    if t <= s {
      k := 0;
    } else {
      var j := ContainsWitness(s[1..], t);
      k := j + 1;
      assert s[k..k + |t|] == s[1..][j..j + |t|];
    }
  }
}
