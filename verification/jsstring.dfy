/**
 The part of ECMAScript's `String.prototype.trim` that the to-do widget relies on:
 the submit handler treats its input as empty exactly when trimming it leaves the
 empty string. Strings are sequences of Unicode scalar values.
 */
module JsString {

  /** ECMAScript LineTerminator code points: LF, CR, LINE SEPARATOR, PARAGRAPH SEPARATOR. */
  predicate IsLineTerminator(c: char) {
    c == '\U{000A}' || c == '\U{000D}' || c == '\U{2028}' || c == '\U{2029}'
  }

  /** The Unicode "Space_Separator" (Zs) code points. */
  predicate IsSpaceSeparator(c: char) {
    || c == '\U{0020}' || c == '\U{00A0}' || c == '\U{1680}'
    || ('\U{2000}' <= c <= '\U{200A}')
    || c == '\U{202F}' || c == '\U{205F}' || c == '\U{3000}'
  }

  /** ECMAScript WhiteSpace: TAB, VT, FF, ZWNBSP (U+FEFF) and every Zs code point. */
  predicate IsWhiteSpace(c: char) {
    c == '\U{0009}' || c == '\U{000B}' || c == '\U{000C}' || c == '\U{FEFF}' || IsSpaceSeparator(c)
  }

  /** What `trim` strips from both ends of a string. */
  predicate IsTrimmable(c: char) {
    IsWhiteSpace(c) || IsLineTerminator(c)
  }

  predicate AllTrimmable(s: string) {
    forall i :: 0 <= i < |s| ==> IsTrimmable(s[i])
  }

  /** Drops the leading trimmable characters. */
  function TrimStart(s: string): (r: string)
    ensures |r| <= |s|
  {
    if s != [] && IsTrimmable(s[0]) then TrimStart(s[1..]) else s
  }

  /** Drops the trailing trimmable characters. */
  function TrimEnd(s: string): (r: string)
    ensures |r| <= |s|
  {
    if s != [] && IsTrimmable(s[|s| - 1]) then TrimEnd(s[..|s| - 1]) else s
  }

  /** `String.prototype.trim`: what is left is no longer than the input and, when
      not empty, neither starts nor ends with a trimmable character. */
  function Trim(s: string): (r: string)
    ensures |r| <= |s|
    ensures r == [] || (!IsTrimmable(r[0]) && !IsTrimmable(r[|r| - 1]))
  {
    TrimStartSpec(s);
    TrimEndSpec(TrimStart(s));
    TrimEnd(TrimStart(s))
  }

  /** The test `!s.trim()`: the trimmed string is the (falsy) empty string, which
      happens exactly when every character is trimmable. */
  predicate IsBlank(s: string): (b: bool)
    ensures b <==> AllTrimmable(s)
  {
    TrimEmptyIffAllTrimmable(s);
    Trim(s) == []
  }

  /** `TrimStart` keeps the suffix that starts at the first non-trimmable
      character: everything it drops is trimmable, and what it keeps is empty or
      starts with a character that is not. */
  lemma {:induction false} TrimStartSpec(s: string)
    ensures var r := TrimStart(s);
      && r == s[|s| - |r|..]
      && AllTrimmable(s[..|s| - |r|])
      && (r == [] || !IsTrimmable(r[0]))
  {
    if s != [] && IsTrimmable(s[0]) {
      TrimStartSpec(s[1..]);
      var r := TrimStart(s);
      var k := |s| - |r|;
      assert r == s[1..][|s| - 1 - |r|..];
      forall i | 0 <= i < k
        ensures IsTrimmable(s[..k][i])
      {
        if i > 0 {
          assert s[..k][i] == s[1..][..k - 1][i - 1];
        }
      }
    }
  }

  /** `TrimEnd` keeps the prefix that ends at the last non-trimmable character:
      everything it drops is trimmable, and what it keeps is empty or ends with a
      character that is not. */
  lemma {:induction false} TrimEndSpec(s: string)
    ensures var r := TrimEnd(s);
      && r == s[..|r|]
      && AllTrimmable(s[|r|..])
      && (r == [] || !IsTrimmable(r[|r| - 1]))
  {
    if s != [] && IsTrimmable(s[|s| - 1]) {
      var p := s[..|s| - 1];
      TrimEndSpec(p);
      var r := TrimEnd(s);
      assert r == p[..|r|];
      forall i | |r| <= i < |s|
        ensures IsTrimmable(s[i])
      {
        if i < |s| - 1 {
          assert s[i] == p[|r|..][i - |r|];
        }
      }
    }
  }

  /** Trimming keeps a contiguous run of the input: whatever it removes from either
      end is trimmable, and the run it keeps is empty or starts and ends with a
      character that is not. */
  lemma TrimIsInnerSlice(s: string)
    ensures var i := |s| - |TrimStart(s)|;
      var j := i + |Trim(s)|;
      && j <= |s|
      && Trim(s) == s[i..j]
      && AllTrimmable(s[..i])
      && AllTrimmable(s[j..])
      && (Trim(s) == [] || (!IsTrimmable(Trim(s)[0]) && !IsTrimmable(Trim(s)[|Trim(s)| - 1])))
  {
    var t := TrimStart(s);
    var r := TrimEnd(t);
    TrimStartSpec(s);
    TrimEndSpec(t);
    var i := |s| - |t|;
    var j := i + |r|;
    assert Trim(s) == r;
    assert t == s[i..];
    assert r == s[i..j] by {
      assert r == t[..|r|];
    }
    assert AllTrimmable(s[j..]) by {
      assert AllTrimmable(t[|r|..]);
      assert s[j..] == t[|r|..];
    }
    if r != [] {
      assert r[0] == t[0];
    }
  }

  /** Trimming leaves nothing exactly when every character is trimmable. */
  lemma TrimEmptyIffAllTrimmable(s: string)
    ensures TrimEnd(TrimStart(s)) == [] <==> AllTrimmable(s)
  {
    var t := TrimStart(s);
    TrimStartSpec(s);
    TrimEndSpec(t);
    if TrimEnd(t) == [] {
      assert AllTrimmable(t[0..]);
      assert t[0..] == t;
      assert t == [];
      assert s[..|s|] == s;
    }
    if AllTrimmable(s) {
      assert t == [];
    }
  }

  /** One visible character is enough to make a string non-blank. */
  lemma VisibleCharNotBlank(s: string, i: nat)
    requires i < |s| && !IsTrimmable(s[i])
    ensures !IsBlank(s)
  {
  }
}
