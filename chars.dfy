/** Character predicates shared by the validation rules and the date parser, and the
    whitespace trimming of ECMAScript's String.prototype.trim. */
module Chars {

  /** The characters of the regular-expression escape \s, which are also the ones trim()
      removes: the ECMAScript WhiteSpace and LineTerminator code points. */
  predicate IsSpace(c: char)
  {
    var n := c as int;
    || 0x09 <= n <= 0x0D   // tab, line feed, vertical tab, form feed, carriage return
    || n == 0x20 || n == 0xA0 || n == 0x1680
    || 0x2000 <= n <= 0x200A
    || n == 0x2028 || n == 0x2029 || n == 0x202F || n == 0x205F || n == 0x3000
    || n == 0xFEFF
  }

  /** The characters of the escape \d: ASCII decimal digits only. */
  predicate IsDigit(c: char)
  {
    '0' <= c <= '9'
  }

  predicate AllDigits(s: string)
  {
    forall i | 0 <= i < |s| :: IsDigit(s[i])
  }

  predicate AllSpace(s: string)
  {
    forall i | 0 <= i < |s| :: IsSpace(s[i])
  }

  /** s with its leading whitespace removed. */
  function TrimStart(s: string): (r: string)
    ensures |r| <= |s| && r == s[|s| - |r|..]
    ensures AllSpace(s[..|s| - |r|])
    ensures r == [] || !IsSpace(r[0])
    decreases |s|
  {
    if s != [] && IsSpace(s[0]) then
      var r := TrimStart(s[1..]);
      var k := |s| - |r|;
      assert s[1..][|s| - 1 - |r|..] == s[k..];
      assert AllSpace(s[..k]) by {
        forall i | 0 <= i < k ensures IsSpace(s[..k][i]) {
          if i > 0 {
            assert s[..k][i] == s[1..][..|s| - 1 - |r|][i - 1];
          }
        }
      }
      r
    else
      assert s[..0] == [];
      s
  }

  /** s with its trailing whitespace removed. */
  function TrimEnd(s: string): (r: string)
    ensures |r| <= |s| && r == s[..|r|]
    ensures AllSpace(s[|r|..])
    ensures r == [] || !IsSpace(r[|r| - 1])
    decreases |s|
  {
    if s != [] && IsSpace(s[|s| - 1]) then
      var r := TrimEnd(s[..|s| - 1]);
      assert s[..|s| - 1][..|r|] == s[..|r|];
      assert AllSpace(s[|r|..]) by {
        forall i | 0 <= i < |s| - |r| ensures IsSpace(s[|r|..][i]) {
          if i < |s| - 1 - |r| {
            assert s[|r|..][i] == s[..|s| - 1][|r|..][i];
          }
        }
      }
      r
    else
      assert s[|s|..] == [];
      s
  }

  /** r sits at index i of s with only whitespace before and after it. */
  predicate SpaceFramed(s: string, i: int, r: string)
  {
    0 <= i <= |s| - |r| && s[i..i + |r|] == r && AllSpace(s[..i]) && AllSpace(s[i + |r|..])
  }

  /** String.prototype.trim: leading and trailing whitespace removed. The result is the
      part of s between a whitespace prefix and a whitespace suffix, and starts and ends
      with a character that is not whitespace. */
  function Trim(s: string): (r: string)
    ensures |r| <= |s|
    ensures exists i :: SpaceFramed(s, i, r)
    ensures r == [] || (!IsSpace(r[0]) && !IsSpace(r[|r| - 1]))
  {
    var t := TrimStart(s);
    var r := TrimEnd(t);
    TrimFramed(s, t, r);
    assert r != [] ==> r[0] == t[0];
    r
  }

  /** A whitespace prefix dropped from s, then a whitespace suffix dropped from the rest,
      leave a part of s framed by whitespace. */
  lemma TrimFramed(s: string, t: string, r: string)
    requires |t| <= |s| && t == s[|s| - |t|..] && AllSpace(s[..|s| - |t|])
    requires |r| <= |t| && r == t[..|r|] && AllSpace(t[|r|..])
    ensures SpaceFramed(s, |s| - |t|, r)
  {
    var i := |s| - |t|;
    assert s[i..][..|r|] == s[i..i + |r|];
    assert s[i..][|r|..] == s[i + |r|..];
  }

  /** trim() yields the empty string exactly when every character is whitespace
      (the empty string included). */
  lemma TrimEmptyIffAllSpace(s: string)
    ensures Trim(s) == [] <==> AllSpace(s)
  {
    var t := TrimStart(s);
    assert s[..|s|] == s;
    if t != [] {
      assert t[0] == s[|s| - |t|];
      assert t[0..] == t;
    }
  }

}
