/**
 * The string primitives the app leans on: JavaScript's `trim`, `toLowerCase`,
 * `includes` and number-to-string conversion. Each is given a definition close
 * to the runtime's and, beside it, the property that the app relies on.
 */
module JsText {

  // ---------------------------------------------------------------- trim

  /**
   * The white space that `String.prototype.trim` removes, restricted to the
   * code points below U+0100 and the byte-order mark.
   */
  predicate IsSpace(c: char) {
    c == ' ' || c == '\t' || c == '\n' || c == '\r' || c == '\U{000B}' || c == '\U{000C}'
    || c == '\U{00A0}' || c == '\U{FEFF}'
  }

  predicate AllSpace(s: string) {
    forall i :: 0 <= i < |s| ==> IsSpace(s[i])
  }

  /** The number of white-space characters `s` starts with. */
  function LeadingSpaces(s: string): (k: nat)
    ensures k <= |s|
  {
    if s != [] && IsSpace(s[0]) then 1 + LeadingSpaces(s[1..]) else 0
  }

  /** The number of white-space characters `s` ends with. */
  function TrailingSpaces(s: string): (k: nat)
    ensures k <= |s|
  {
    if s != [] && IsSpace(s[|s| - 1]) then 1 + TrailingSpaces(s[..|s| - 1]) else 0
  }

  /** `s` with its leading white space removed. */
  function TrimStart(s: string): string {
    s[LeadingSpaces(s)..]
  }

  /** `s` with its trailing white space removed. */
  function TrimEnd(s: string): string {
    s[..|s| - TrailingSpaces(s)]
  }

  /** `String.prototype.trim`. */
  function Trim(s: string): string {
    TrimEnd(TrimStart(s))
  }

  /** The leading run is all white space, and the character after it is not. */
  lemma {:induction false} LeadingSpacesSpec(s: string)
    ensures AllSpace(s[..LeadingSpaces(s)])
    ensures LeadingSpaces(s) < |s| ==> !IsSpace(s[LeadingSpaces(s)])
  {
    if s != [] && IsSpace(s[0]) {
      var k := LeadingSpaces(s[1..]);
      LeadingSpacesSpec(s[1..]);
      var run, rest := s[..k + 1], s[1..][..k];
      assert forall i :: 0 < i < k + 1 ==> run[i] == rest[i - 1];
      if k + 1 < |s| {
        assert s[k + 1] == s[1..][k];
      }
    }
  }

  /** The trailing run is all white space, and the character before it is not. */
  lemma {:induction false} TrailingSpacesSpec(s: string)
    ensures AllSpace(s[|s| - TrailingSpaces(s)..])
    ensures TrailingSpaces(s) < |s| ==> !IsSpace(s[|s| - TrailingSpaces(s) - 1])
  {
    if s != [] && IsSpace(s[|s| - 1]) {
      var init := s[..|s| - 1];
      var k := TrailingSpaces(init);
      TrailingSpacesSpec(init);
      var run, rest := s[|s| - (k + 1)..], init[|init| - k..];
      assert forall i :: 0 <= i < k ==> run[i] == rest[i];
      if k + 1 < |s| {
        assert s[|s| - (k + 1) - 1] == init[|init| - k - 1];
      }
    }
  }

  lemma SliceOfSuffix(s: string, i: nat, k: nat)
    requires i + k <= |s|
    ensures s[i..][..k] == s[i..i + k] && s[i..][k..] == s[i + k..]
    ensures k > 0 ==> s[i..][..k][0] == s[i] && s[i..][..k][k - 1] == s[i + k - 1]
  {
  }

  lemma AllSpaceAppend(a: string, b: string)
    requires AllSpace(a) && AllSpace(b)
    ensures AllSpace(a + b)
  {
    assert forall i :: |a| <= i < |a + b| ==> (a + b)[i] == b[i - |a|];
  }

  /**
   * Trimming keeps a contiguous piece of `s` that neither starts nor ends with
   * white space, and what it drops on either side is white space only.
   */
  lemma TrimShape(s: string)
    ensures var lead, r := LeadingSpaces(s), Trim(s);
      && lead + |r| <= |s| && r == s[lead..lead + |r|]
      && AllSpace(s[..lead]) && AllSpace(s[lead + |r|..])
      && (r != [] ==> !IsSpace(r[0]) && !IsSpace(r[|r| - 1]))
  {
    var lead := LeadingSpaces(s);
    var t := s[lead..];
    LeadingSpacesSpec(s);
    TrailingSpacesSpec(t);
    var m := |t| - TrailingSpaces(t);
    SliceOfSuffix(s, lead, m);
  }

  /** A string becomes empty under `trim` exactly when it is all white space. */
  lemma TrimEmptyIff(s: string)
    ensures Trim(s) == [] <==> AllSpace(s)
  {
    var lead := LeadingSpaces(s);
    TrimShape(s);
    if Trim(s) == [] {
      assert s == s[..lead] + s[lead..];
      AllSpaceAppend(s[..lead], s[lead..]);
    } else {
      assert s[lead] == Trim(s)[0];
    }
  }

  /** Trimming an already trimmed string changes nothing. */
  lemma TrimIdempotent(s: string)
    ensures Trim(Trim(s)) == Trim(s)
  {
    var r := Trim(s);
    TrimShape(s);
    assert LeadingSpaces(r) == 0;
    assert TrimStart(r) == r;
    assert TrailingSpaces(r) == 0;
  }

  // --------------------------------------------------------- toLowerCase

  /**
   * `toLowerCase` on one character, for the Basic Latin and Latin-1 letters
   * (A-Z and U+00C0..U+00DE except the multiplication sign).
   */
  function LowerChar(c: char): char {
    if 'A' <= c <= 'Z' || ('\U{00C0}' <= c <= '\U{00DE}' && c != '\U{00D7}') then
      (c as int + 32) as char
    else c
  }

  /** `String.prototype.toLowerCase`, character by character. */
  function ToLower(s: string): (r: string)
    ensures |r| == |s|
    ensures forall i :: 0 <= i < |s| ==> r[i] == LowerChar(s[i])
  {
    if s == [] then [] else [LowerChar(s[0])] + ToLower(s[1..])
  }

  lemma LowerCharIdempotent(c: char)
    ensures LowerChar(LowerChar(c)) == LowerChar(c)
  {
  }

  /** Lower-casing twice is lower-casing once. */
  lemma ToLowerIdempotent(s: string)
    ensures ToLower(ToLower(s)) == ToLower(s)
  {
    forall i | 0 <= i < |s| ensures ToLower(ToLower(s))[i] == ToLower(s)[i] {
      LowerCharIdempotent(s[i]);
    }
  }

  // ------------------------------------------------------------ includes

  /** `t` occurs in `s` at some position: the meaning of `s.includes(t)`. */
  ghost predicate Occurs(t: string, s: string) {
    exists i :: OccursAt(t, s, i)
  }

  ghost predicate OccursAt(t: string, s: string, i: int) {
    0 <= i <= |s| - |t| && s[i..i + |t|] == t
  }

  /** `String.prototype.includes`, scanning the start positions from left to right. */
  function Includes(s: string, t: string): bool
    decreases |s|
  {
    if |t| > |s| then false
    else if s[..|t|] == t then true
    else Includes(s[1..], t)
  }

  /** The scan finds `t` exactly when `t` occurs in `s`. */
  lemma {:induction false} IncludesIff(s: string, t: string)
    ensures Includes(s, t) <==> Occurs(t, s)
    decreases |s|
  {
    if |t| > |s| {
    } else if s[..|t|] == t {
      assert OccursAt(t, s, 0);
    } else {
      IncludesIff(s[1..], t);
      if Occurs(t, s) {
        var i :| OccursAt(t, s, i);
        assert i != 0;
        assert s[1..][i - 1..i - 1 + |t|] == t;
        assert OccursAt(t, s[1..], i - 1);
      }
      if Occurs(t, s[1..]) {
        var i :| OccursAt(t, s[1..], i);
        assert s[i + 1..i + 1 + |t|] == t;
        assert OccursAt(t, s, i + 1);
      }
    }
  }

  /** What is glued between two pieces of text can be found in the result. */
  lemma OccursBetween(a: string, t: string, b: string)
    ensures Occurs(t, a + t + b)
  {
    assert (a + t + b)[|a|..|a| + |t|] == t;
    assert OccursAt(t, a + t + b, |a|);
  }

  /** Both pieces glued into a five-part text can be found in it. */
  lemma OccursInFive(a: string, t1: string, b: string, t2: string, c: string)
    ensures Occurs(t1, a + t1 + b + t2 + c) && Occurs(t2, a + t1 + b + t2 + c)
  {
    assert a + t1 + b + t2 + c == a + t1 + (b + t2 + c);
    OccursBetween(a, t1, b + t2 + c);
    OccursBetween(a + t1 + b, t2, c);
  }

  // ---------------------------------------------------- number to string

  function DigitChar(d: int): char
    requires 0 <= d < 10
  {
    ('0' as int + d) as char
  }

  predicate IsDigit(c: char) {
    '0' <= c <= '9'
  }

  /** The decimal digits of `n`, most significant first, without leading zeros. */
  function NatToString(n: nat): (r: string)
    ensures r != [] && forall i :: 0 <= i < |r| ==> IsDigit(r[i])
    ensures n < 10 <==> |r| == 1
  {
    if n < 10 then [DigitChar(n)] else NatToString(n / 10) + [DigitChar(n % 10)]
  }

  /** `Number.prototype.toString()` on an integer-valued number, and `${n}` in a template. */
  function IntToString(n: int): string {
    if n < 0 then "-" + NatToString(-n) else NatToString(n)
  }

  lemma {:induction false} NatToStringInjective(a: nat, b: nat)
    requires NatToString(a) == NatToString(b)
    ensures a == b
  {
    if a >= 10 && b >= 10 {
      var ra, rb := NatToString(a), NatToString(b);
      assert ra[|ra| - 1] == DigitChar(a % 10) && rb[|rb| - 1] == DigitChar(b % 10);
      assert ra[..|ra| - 1] == NatToString(a / 10) && rb[..|rb| - 1] == NatToString(b / 10);
      NatToStringInjective(a / 10, b / 10);
    }
  }

  /** A printed number starts with a minus sign exactly when it is negative. */
  lemma SignShows(n: int)
    ensures IntToString(n) != [] && (IntToString(n)[0] == '-' <==> n < 0)
  {
    if n >= 0 {
      assert IsDigit(NatToString(n)[0]);
    }
  }

  /** Distinct numbers print differently, so a printed id identifies the id. */
  lemma IntToStringInjective(a: int, b: int)
    requires IntToString(a) == IntToString(b)
    ensures a == b
  {
    SignShows(a);
    SignShows(b);
    if a < 0 && b < 0 {
      assert IntToString(a)[1..] == NatToString(-a);
      assert IntToString(b)[1..] == NatToString(-b);
      NatToStringInjective(-a, -b);
    } else if a >= 0 && b >= 0 {
      NatToStringInjective(a, b);
    }
  }
}
