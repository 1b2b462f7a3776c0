/**
 * String helpers shared by the chat page and the account form: the
 * ECMAScript white-space set (used by `String.prototype.trim` and by `\s`
 * in regular expressions), trimming, and the decimal rendering of a
 * number inside a template literal.
 */
module Text {

  /**
   * ECMAScript WhiteSpace and LineTerminator code points: TAB, LF, VT, FF,
   * CR, SPACE, NBSP, OGHAM SPACE MARK, EN QUAD .. HAIR SPACE, LINE and
   * PARAGRAPH SEPARATOR, NARROW NBSP, MEDIUM MATHEMATICAL SPACE,
   * IDEOGRAPHIC SPACE and the byte-order mark.
   */
  predicate IsWhitespace(c: char)
  {
    || ('\t' <= c <= '\r')
    || c == ' '
    || c == '\U{A0}'
    || c == '\U{1680}'
    || ('\U{2000}' <= c <= '\U{200A}')
    || c == '\U{2028}'
    || c == '\U{2029}'
    || c == '\U{202F}'
    || c == '\U{205F}'
    || c == '\U{3000}'
    || c == '\U{FEFF}'
  }

  /** Every character of `s` is white space (true of the empty string). */
  predicate AllWhitespace(s: string)
  {
    forall i :: 0 <= i < |s| ==> IsWhitespace(s[i])
  }

  /** The number of white-space characters at the start of `s`. */
  function LeadingSpace(s: string): (n: nat)
    ensures n <= |s|
  {
    if s != [] && IsWhitespace(s[0]) then 1 + LeadingSpace(s[1..]) else 0
  }

  /** The number of white-space characters at the end of `s`. */
  function TrailingSpace(s: string): (n: nat)
    ensures n <= |s|
  {
    if s != [] && IsWhitespace(s[|s| - 1]) then 1 + TrailingSpace(s[..|s| - 1]) else 0
  }

  /** The counted prefix is white space and is followed by a character that is not. */
  lemma {:induction false} LeadingSpaceIsMaximal(s: string)
    ensures AllWhitespace(s[..LeadingSpace(s)])
    ensures LeadingSpace(s) < |s| ==> !IsWhitespace(s[LeadingSpace(s)])
  {
    if s != [] && IsWhitespace(s[0]) {
      var n := LeadingSpace(s[1..]);
      LeadingSpaceIsMaximal(s[1..]);
      assert s[..1 + n] == [s[0]] + s[1..][..n];
      if 1 + n < |s| {
        assert s[1 + n] == s[1..][n];
      }
    }
  }

  /** The counted suffix is white space and is preceded by a character that is not. */
  lemma {:induction false} TrailingSpaceIsMaximal(s: string)
    ensures AllWhitespace(s[|s| - TrailingSpace(s)..])
    ensures TrailingSpace(s) < |s| ==> !IsWhitespace(s[|s| - TrailingSpace(s) - 1])
  {
    if s != [] && IsWhitespace(s[|s| - 1]) {
      var init := s[..|s| - 1];
      var n := TrailingSpace(init);
      TrailingSpaceIsMaximal(init);
      assert s[|s| - 1 - n..] == init[|init| - n..] + [s[|s| - 1]];
      if n + 1 < |s| {
        assert s[|s| - n - 2] == init[|init| - n - 1];
      }
    }
  }

  /** `String.prototype.trim`: strip white space from both ends. */
  function Trim(s: string): (r: string)
    ensures |r| <= |s|
  {
    var t := s[LeadingSpace(s)..];
    t[..|t| - TrailingSpace(t)]
  }

  /**
   * Trimming cuts a white-space prefix and a white-space suffix off `s` and
   * leaves a string that neither starts nor ends with white space.
   */
  lemma TrimIsSlice(s: string)
    ensures exists i, j :: 0 <= i <= j <= |s| && Trim(s) == s[i..j]
                           && AllWhitespace(s[..i]) && AllWhitespace(s[j..])
    ensures Trim(s) != [] ==> !IsWhitespace(Trim(s)[0]) && !IsWhitespace(Trim(s)[|Trim(s)| - 1])
  {
    var i := LeadingSpace(s);
    var t := s[i..];
    var j := i + |t| - TrailingSpace(t);
    LeadingSpaceIsMaximal(s);
    TrailingSpaceIsMaximal(t);
    assert Trim(s) == s[i..j];
    assert s[j..] == t[|t| - TrailingSpace(t)..];
    if Trim(s) != [] {
      assert Trim(s)[0] == s[i];
      assert Trim(s)[|Trim(s)| - 1] == t[|t| - TrailingSpace(t) - 1];
    }
  }

  /**
   * A field is blank after trimming (the source's `!value.trim()`) exactly
   * when it consists of white space only.
   */
  lemma BlankIffAllWhitespace(s: string)
    ensures Trim(s) == "" <==> AllWhitespace(s)
  {
    LeadingSpaceIsMaximal(s);
    var i := LeadingSpace(s);
    var t := s[i..];
    if Trim(s) == "" {
      TrailingSpaceIsMaximal(t);
      assert t[|t| - TrailingSpace(t)..] == t;
      assert s == s[..i] + t;
    }
  }

  /** The decimal digit for `d`. */
  function Digit(d: nat): (c: char)
    requires d < 10
    ensures '0' <= c <= '9'
    ensures c as int - '0' as int == d
  {
    "0123456789"[d]
  }

  /** The decimal rendering of a number, as in `${n}` or `'x' + n`. */
  function Decimal(n: nat): (r: string)
    ensures r != []
    ensures forall i :: 0 <= i < |r| ==> '0' <= r[i] <= '9'
  {
    if n < 10 then [Digit(n)] else Decimal(n / 10) + [Digit(n % 10)]
  }

  /** The number a string of decimal digits denotes, most significant digit first. */
  function DigitsValue(s: string): nat
    requires forall i :: 0 <= i < |s| ==> '0' <= s[i] <= '9'
  {
    if s == [] then 0 else 10 * DigitsValue(s[..|s| - 1]) + (s[|s| - 1] as int - '0' as int)
  }

  /**
   * The rendering denotes `n` and has no leading zero, so it is the usual
   * decimal numeral of `n`.
   */
  lemma {:induction false} DecimalValue(n: nat)
    ensures DigitsValue(Decimal(n)) == n
    ensures n > 0 ==> Decimal(n)[0] != '0'
  {
    if n >= 10 {
      DecimalValue(n / 10);
      var r := Decimal(n);
      assert r[..|r| - 1] == Decimal(n / 10);
      assert r[0] == Decimal(n / 10)[0];
    }
  }

  /** Different numbers have different renderings. */
  lemma DecimalInjective(a: nat, b: nat)
    ensures Decimal(a) == Decimal(b) ==> a == b
  {
    DecimalValue(a);
    DecimalValue(b);
  }

  /** `sub` occurs in `s` starting at position `k`. */
  predicate OccursAt(s: string, sub: string, k: nat)
  {
    k + |sub| <= |s| && s[k..k + |sub|] == sub
  }

  /** `sub` occurs somewhere in `s` (`String.prototype.includes`). */
  ghost predicate Contains(s: string, sub: string)
  {
    exists k: nat :: OccursAt(s, sub, k)
  }
}
