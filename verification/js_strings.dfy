/** The string operations the application applies to messages and to the
    typed address: `includes`, `toLowerCase` and `trim`. */
module JsStrings {

  /** `t` occurs in `s` starting at offset `i`. */
  predicate OccursAt(s: string, t: string, i: int) {
    0 <= i <= |s| - |t| && s[i..i + |t|] == t
  }

  /** `s.includes(t)` */
  predicate Includes(s: string, t: string) {
    exists i :: 0 <= i <= |s| - |t| && OccursAt(s, t, i)
  }

  /** The character `a` is immediately followed by `b` somewhere in `s`. */
  predicate HasPair(s: string, a: char, b: char) {
    exists i :: 0 <= i < |s| - 1 && s[i] == a && s[i + 1] == b
  }

  /** `c` does not occur in `s`. */
  predicate Avoids(s: string, c: char) {
    forall i :: 0 <= i < |s| ==> s[i] != c
  }

  lemma AvoidsConcat(x: string, y: string, c: char)
    requires Avoids(x, c) && Avoids(y, c)
    ensures Avoids(x + y, c)
  {
    forall i | 0 <= i < |x + y|
      ensures (x + y)[i] != c
    {
      if i < |x| {
        assert (x + y)[i] == x[i];
      } else {
        assert (x + y)[i] == y[i - |x|];
      }
    }
  }

  /** A needle with a character the haystack lacks does not occur in it. */
  lemma NotIncludedByChar(s: string, t: string, k: nat)
    requires k < |t| && Avoids(s, t[k])
    ensures !Includes(s, t)
  {
    forall i | 0 <= i <= |s| - |t|
      ensures !OccursAt(s, t, i)
    {
      assert s[i..i + |t|][k] == s[i + k];
    }
  }

  /** A needle with an adjacent pair the haystack lacks does not occur in it. */
  lemma NotIncludedByPair(s: string, t: string, k: nat)
    requires k + 1 < |t| && !HasPair(s, t[k], t[k + 1])
    ensures !Includes(s, t)
  {
    forall i | 0 <= i <= |s| - |t|
      ensures !OccursAt(s, t, i)
    {
      assert s[i..i + |t|][k] == s[i + k];
      assert s[i..i + |t|][k + 1] == s[i + k + 1];
      assert !(s[i + k] == t[k] && s[i + k + 1] == t[k + 1]);
    }
  }

  /** A pair can only straddle a concatenation at the seam. */
  lemma NoPairInConcat(x: string, y: string, a: char, b: char)
    requires !HasPair(x, a, b) && !HasPair(y, a, b)
    requires |x| == 0 || |y| == 0 || x[|x| - 1] != a || y[0] != b
    ensures !HasPair(x + y, a, b)
  {
    var s := x + y;
    forall i | 0 <= i < |s| - 1
      ensures !(s[i] == a && s[i + 1] == b)
    {
      if i + 1 < |x| {
        assert s[i] == x[i] && s[i + 1] == x[i + 1];
      } else if i >= |x| {
        assert s[i] == y[i - |x|] && s[i + 1] == y[i - |x| + 1];
      } else {
        assert s[i] == x[|x| - 1] && s[i + 1] == y[0];
      }
    }
  }

  /** A string missing either character of a pair does not contain the pair. */
  lemma NoPairWithoutChar(s: string, a: char, b: char)
    requires Avoids(s, a) || Avoids(s, b)
    ensures !HasPair(s, a, b)
  {
    forall i | 0 <= i < |s| - 1
      ensures !(s[i] == a && s[i + 1] == b)
    {
      assert s[i] != a || s[i + 1] != b;
    }
  }

  /** What occurs in a substring occurs in the string. */
  lemma IncludesTransitive(s: string, u: string, t: string)
    requires Includes(s, u) && Includes(u, t)
    ensures Includes(s, t)
  {
    var i :| 0 <= i <= |s| - |u| && OccursAt(s, u, i);
    var j :| 0 <= j <= |u| - |t| && OccursAt(u, t, j);
    assert s[i..i + |u|] == u;
    forall k | 0 <= k < |t|
      ensures s[i + j + k] == t[k]
    {
      assert s[i..i + |u|][j + k] == u[j + k];
      assert u[j..j + |t|][k] == u[j + k];
    }
    assert s[i + j..i + j + |t|] == t;
    assert OccursAt(s, t, i + j);
  }

  /** `toLowerCase` on one character, as far as it can produce an ASCII
      character: the ASCII capitals, and the Kelvin sign, which lowers to
      `k`. Every other character is kept (see the README on why that
      suffices for matching ASCII needles). */
  function LowerChar(c: char): char {
    if 'A' <= c <= 'Z' then (c as int + 32) as char
    else if c == '\U{212A}' then 'k'
    else c
  }

  function ToLower(s: string): (r: string)
    ensures |r| == |s|
    ensures forall i :: 0 <= i < |s| ==> r[i] == LowerChar(s[i])
  {
    seq(|s|, i requires 0 <= i < |s| => LowerChar(s[i]))
  }

  /** A lower-case letter occurs in the lowered string only where the letter
      or its upper-case form occurs in the original. */
  lemma LowerKeepsAbsence(s: string, c: char)
    requires 'a' <= c <= 'z'
    requires Avoids(s, c) && Avoids(s, (c as int - 32) as char)
    requires c == 'k' ==> Avoids(s, '\U{212A}')
    ensures Avoids(ToLower(s), c)
  {
    var r := ToLower(s);
    forall i | 0 <= i < |r|
      ensures r[i] != c
    {
      assert s[i] != c && s[i] != (c as int - 32) as char;
      assert c == 'k' ==> s[i] != '\U{212A}';
    }
  }

  /** ECMAScript WhiteSpace and LineTerminator code points, which `trim`
      removes. */
  predicate IsJsWhitespace(c: char) {
    || c == '\t' || c == '\n' || c == '\U{000B}' || c == '\U{000C}' || c == '\r'
    || c == ' ' || c == '\U{00A0}' || c == '\U{1680}'
    || ('\U{2000}' <= c <= '\U{200A}')
    || c == '\U{2028}' || c == '\U{2029}' || c == '\U{202F}' || c == '\U{205F}'
    || c == '\U{3000}' || c == '\U{FEFF}'
  }

  predicate IsBlank(s: string) {
    forall i :: 0 <= i < |s| ==> IsJsWhitespace(s[i])
  }

  /** Drops the leading whitespace: the result is a suffix of `s`, what was
      dropped is blank, and the result does not start with whitespace. */
  function TrimStart(s: string): (r: string)
    ensures |r| <= |s| && r == s[|s| - |r|..]
    ensures IsBlank(s[..|s| - |r|])
    ensures |r| > 0 ==> !IsJsWhitespace(r[0])
  {
    if |s| > 0 && IsJsWhitespace(s[0]) then TrimStart(s[1..]) else s
  }

  /** Drops the trailing whitespace: the result is a prefix of `s`, what was
      dropped is blank, and the result does not end with whitespace. */
  function TrimEnd(s: string): (r: string)
    ensures |r| <= |s| && r == s[..|r|]
    ensures IsBlank(s[|r|..])
    ensures |r| > 0 ==> !IsJsWhitespace(r[|r| - 1])
  {
    if |s| > 0 && IsJsWhitespace(s[|s| - 1]) then TrimEnd(s[..|s| - 1]) else s
  }

  /** `s.trim()` */
  function Trim(s: string): string {
    TrimEnd(TrimStart(s))
  }

  /** `!s.trim()` holds exactly for the strings made only of whitespace. */
  lemma TrimEmptyIffBlank(s: string)
    ensures Trim(s) == "" <==> IsBlank(s)
  {
    var u := TrimStart(s);
    var k := |s| - |u|;
    assert s == s[..k] + u;
    if Trim(s) == "" {
      assert IsBlank(u[0..]);
      assert |u| == 0;
      assert s == s[..k];
    } else {
      var r := Trim(s);
      assert r[|r| - 1] == u[|r| - 1] == s[k + |r| - 1];
    }
  }
}
