/**
 * The bits of JavaScript string behaviour the core relies on: turning a
 * whole number into decimal text (`n + ""`), reading such text back, and
 * lower-casing a column name.
 */
module Text {
  import opened Optional

  predicate IsDigit(c: char) { '0' <= c <= '9' }

  predicate AllDigits(s: string) { forall i :: 0 <= i < |s| ==> IsDigit(s[i]) }

  function DigitChar(d: nat): (c: char)
    requires d < 10
    ensures IsDigit(c) && c as int - '0' as int == d
  {
    "0123456789"[d]
  }

  /** Decimal text of `n` as JavaScript prints it: no sign, no padding. */
  function NatToString(n: nat): (r: string)
    ensures |r| >= 1 && AllDigits(r)
    ensures r[0] == '0' <==> n == 0
    ensures |r| == 1 <==> n < 10
  {
    if n < 10 then [DigitChar(n)] else NatToString(n / 10) + [DigitChar(n % 10)]
  }

  /** Decimal text of `i`, with a leading `-` when `i` is negative. */
  function IntToString(i: int): (r: string)
    ensures |r| >= 1
    ensures '.' !in r && ':' !in r
    ensures i >= 0 ==> r == NatToString(i)
    ensures i < 0 ==> r == "-" + NatToString(-i)
  {
    if i < 0 then "-" + NatToString(-i) else NatToString(i)
  }

  /** Reads a non-empty string of decimal digits; anything else is `None`. */
  function ParseNat(s: string): (r: Option<nat>)
    ensures r.Some? <==> |s| >= 1 && AllDigits(s)
  {
    if |s| == 0 || !IsDigit(s[|s| - 1]) then None
    else
      var d := s[|s| - 1] as int - '0' as int;
      if |s| == 1 then Some(d)
      else match ParseNat(s[..|s| - 1])
        case None => None
        case Some(m) => Some(10 * m + d)
  }

  /** Reads decimal text with an optional leading `-`. */
  function ParseInt(s: string): Option<int> {
    if |s| >= 1 && s[0] == '-' then
      match ParseNat(s[1..])
      case None => None
      case Some(n) => Some(-(n as int))
    else
      match ParseNat(s)
      case None => None
      case Some(n) => Some(n)
  }

  lemma {:induction false} ParseNatToString(n: nat)
    ensures ParseNat(NatToString(n)) == Some(n)
  {
    var s := NatToString(n);
    if n >= 10 {
      ParseNatToString(n / 10);
      assert s[..|s| - 1] == NatToString(n / 10);
      assert s[|s| - 1] == DigitChar(n % 10);
    }
  }

  lemma ParseIntNegative(s: string, n: nat)
    requires ParseNat(s) == Some(n)
    ensures ParseInt("-" + s) == Some(-(n as int))
  {
    var t := "-" + s;
    assert t[0] == '-' && t[1..] == s;
  }

  lemma ParseIntNonNegative(s: string, n: nat)
    requires ParseNat(s) == Some(n)
    ensures ParseInt(s) == Some(n)
  {
    assert IsDigit(s[0]);
  }

  /** Printing an integer loses nothing: the text reads back as the same number. */
  lemma ParseIntToString(i: int)
    ensures ParseInt(IntToString(i)) == Some(i)
  {
    if i < 0 {
      ParseNatToString(-i);
      ParseIntNegative(NatToString(-i), -i);
    } else {
      ParseNatToString(i);
      ParseIntNonNegative(NatToString(i), i);
    }
  }

  /** Position of the first `c` in `s`, or `|s|` when there is none. */
  function IndexOf(s: string, c: char): (k: nat)
    ensures k <= |s|
    ensures forall i :: 0 <= i < k ==> s[i] != c
    ensures k < |s| ==> s[k] == c
  {
    if |s| == 0 then 0 else if s[0] == c then 0 else 1 + IndexOf(s[1..], c)
  }

  /** Cuts `s` at its first `c`: the text before it and the text after it. */
  function SplitOnce(s: string, c: char): Option<(string, string)> {
    var k := IndexOf(s, c);
    if k == |s| then None else Some((s[..k], s[k + 1..]))
  }

  /** Cutting `a + [c] + b` at its first `c` gives `a` and `b` back when `a` holds none. */
  lemma SplitOnceAfter(a: string, c: char, b: string)
    requires c !in a
    ensures SplitOnce(a + [c] + b, c) == Some((a, b))
  {
    var s := a + [c] + b;
    assert s[|a|] == c;
    assert IndexOf(s, c) == |a|;
    assert s[..|a|] == a && s[|a| + 1..] == b;
  }

  /** JavaScript's `toLowerCase` on the characters `A`..`Z`. */
  function LowerChar(c: char): char {
    if 'A' <= c <= 'Z' then (c as int - 'A' as int + 'a' as int) as char else c
  }

  function ToLower(s: string): (r: string)
    ensures |r| == |s|
    ensures forall i :: 0 <= i < |s| ==> r[i] == LowerChar(s[i])
  {
    if |s| == 0 then [] else [LowerChar(s[0])] + ToLower(s[1..])
  }

  /** `t` is the lower-cased `s` when it is so character by character. */
  lemma ToLowerPointwise(s: string, t: string)
    requires |s| == |t|
    requires forall i :: 0 <= i < |s| ==> LowerChar(s[i]) == t[i]
    ensures ToLower(s) == t
  {
  }
}
