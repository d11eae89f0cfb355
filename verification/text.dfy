/** The string primitives the widget relies on: `String.prototype.includes`,
    `String.prototype.trim` and `String.prototype.toUpperCase`. */
module Text {

  /** `sub` occurs in `s` starting at index `i`. */
  ghost predicate OccursAt(s: string, sub: string, i: nat)
  {
    i + |sub| <= |s| && s[i..i + |sub|] == sub
  }

  /** `sub` occurs somewhere in `s` as a contiguous block. */
  ghost predicate Contains(s: string, sub: string)
  {
    exists i: nat :: OccursAt(s, sub, i)
  }

  /** Occurrences in `s` that do not start at index 0 are exactly the occurrences in `s[1..]`. */
  lemma ContainsTail(s: string, sub: string)
    requires |sub| <= |s| && !OccursAt(s, sub, 0)
    ensures Contains(s, sub) <==> Contains(s[1..], sub)
  {
    if Contains(s, sub) {
      var i: nat :| OccursAt(s, sub, i);
      assert i != 0;
      assert s[1..][i - 1..i - 1 + |sub|] == s[i..i + |sub|];
      assert OccursAt(s[1..], sub, i - 1);
    }
    if Contains(s[1..], sub) {
      var i: nat :| OccursAt(s[1..], sub, i);
      assert s[1..][i..i + |sub|] == s[i + 1..i + 1 + |sub|];
      assert OccursAt(s, sub, i + 1);
    }
  }

  /** JavaScript's `s.includes(sub)`: a left-to-right search for `sub`. */
  function Includes(s: string, sub: string): (b: bool)
    ensures b <==> Contains(s, sub)
    decreases |s|
  {
    if |sub| > |s| then false
    else if s[..|sub|] == sub then assert OccursAt(s, sub, 0); true
    else ContainsTail(s, sub); Includes(s[1..], sub)
  }

  /** A search string cannot occur in `s` if one of its characters does not. */
  lemma AbsentChar(s: string, sub: string, j: nat)
    requires j < |sub| && sub[j] !in s
    ensures !Contains(s, sub)
  {
    forall i: nat
      ensures !OccursAt(s, sub, i)
    {
      if i + |sub| <= |s| {
        assert s[i..i + |sub|][j] == s[i + j];
        assert s[i + j] in s;
      }
    }
  }

  /** The characters `trim()` removes: ECMAScript's WhiteSpace (tab, vertical
      tab, form feed, ZERO WIDTH NO-BREAK SPACE and the Unicode category Zs)
      and LineTerminator (line feed, carriage return, U+2028, U+2029). */
  predicate IsWhitespace(c: char)
  {
    || c == '\t' || c == '\n' || c == '\U{000B}' || c == '\U{000C}' || c == '\r'
    || c == ' ' || c == '\U{00A0}' || c == '\U{1680}'
    || ('\U{2000}' <= c <= '\U{200A}')
    || c == '\U{2028}' || c == '\U{2029}' || c == '\U{202F}' || c == '\U{205F}'
    || c == '\U{3000}' || c == '\U{FEFF}'
  }

  ghost predicate AllWhitespace(s: string)
  {
    forall k :: 0 <= k < |s| ==> IsWhitespace(s[k])
  }

  /** Drops leading whitespace: the result is the suffix of `s` after its
      longest all-whitespace prefix. */
  function TrimStart(s: string): (t: string)
    ensures |t| <= |s| && t == s[|s| - |t|..]
    ensures AllWhitespace(s[..|s| - |t|])
    ensures t != [] ==> !IsWhitespace(t[0])
  {
    if |s| > 0 && IsWhitespace(s[0]) then TrimStart(s[1..]) else s
  }

  /** Drops trailing whitespace: the result is the prefix of `s` before its
      longest all-whitespace suffix. */
  function TrimEnd(s: string): (t: string)
    ensures |t| <= |s| && t == s[..|t|]
    ensures AllWhitespace(s[|t|..])
    ensures t != [] ==> !IsWhitespace(t[|t| - 1])
  {
    if |s| > 0 && IsWhitespace(s[|s| - 1]) then TrimEnd(s[..|s| - 1]) else s
  }

  /** `s[i..j]` is what remains of `s` when the whitespace margins `s[..i]` and `s[j..]` are cut off. */
  ghost predicate WhitespaceMargins(s: string, i: nat, j: nat)
  {
    i <= j <= |s| && AllWhitespace(s[..i]) && AllWhitespace(s[j..])
  }

  /** `TrimEnd(TrimStart(s))` is `s` without its whitespace margins. */
  lemma TrimBothEndsMargins(s: string)
    ensures var t := TrimEnd(TrimStart(s));
      exists i: nat, j: nat :: WhitespaceMargins(s, i, j) && t == s[i..j]
  {
    var u := TrimStart(s);
    var t := TrimEnd(u);
    var i := |s| - |u|;
    assert s[i..i + |t|] == t;
    assert s[i + |t|..] == u[|t|..];
    assert WhitespaceMargins(s, i, i + |t|);
  }

  /** `TrimEnd(TrimStart(s))` is empty exactly when `s` is all whitespace. */
  lemma TrimBothEndsEmpty(s: string)
    ensures TrimEnd(TrimStart(s)) == [] <==> AllWhitespace(s)
  {
    var u := TrimStart(s);
    var t := TrimEnd(u);
    var i := |s| - |u|;
    if t == [] {
      assert u[|t|..] == u;
      forall k | 0 <= k < |s|
        ensures IsWhitespace(s[k])
      {
        assert s[..i][k] == s[k];
      }
    } else {
      assert t[0] == s[i];
      assert !IsWhitespace(s[i]);
    }
  }

  /** JavaScript's `s.trim()`. */
  function Trim(s: string): (t: string)
    ensures exists i: nat, j: nat :: WhitespaceMargins(s, i, j) && t == s[i..j]
    ensures t != [] ==> !IsWhitespace(t[0]) && !IsWhitespace(t[|t| - 1])
    ensures t == [] <==> AllWhitespace(s)
  {
    TrimBothEndsMargins(s);
    TrimBothEndsEmpty(s);
    TrimEnd(TrimStart(s))
  }

  /** A string without whitespace at either end is its own trim. */
  lemma TrimmedAlready(s: string)
    requires s != [] && !IsWhitespace(s[0]) && !IsWhitespace(s[|s| - 1])
    ensures Trim(s) == s
  {
    assert TrimStart(s) == s;
    assert TrimEnd(s) == s;
  }

  /** Trimming a trimmed string changes nothing. */
  lemma TrimIdempotent(s: string)
    ensures Trim(Trim(s)) == Trim(s)
  {
    var t := Trim(s);
    if t != [] {
      TrimmedAlready(t);
    }
  }

  predicate IsAsciiLower(c: char)
  {
    'a' <= c <= 'z'
  }

  /** `toUpperCase()` on one character, for the ASCII letters. */
  function UpperChar(c: char): char
  {
    if IsAsciiLower(c) then (c as int - 32) as char else c
  }

  /** JavaScript's `s.toUpperCase()`, restricted to the ASCII letters. */
  function ToUpper(s: string): (t: string)
    ensures |t| == |s|
    ensures forall k :: 0 <= k < |t| ==> !IsAsciiLower(t[k])
    ensures forall k :: 0 <= k < |s| && !IsAsciiLower(s[k]) ==> t[k] == s[k]
    ensures forall k :: 0 <= k < |s| && IsAsciiLower(s[k]) ==> 'A' <= t[k] <= 'Z' && t[k] as int + 32 == s[k] as int
  {
    seq(|s|, k requires 0 <= k < |s| => UpperChar(s[k]))
  }

  lemma UpperCharNotWhitespace(c: char)
    requires !IsWhitespace(c)
    ensures !IsWhitespace(UpperChar(c))
  {
  }

  /** Upper-casing neither adds nor removes whitespace, so it keeps a trimmed string trimmed. */
  lemma ToUpperKeepsTrimmed(s: string)
    ensures Trim(ToUpper(Trim(s))) == ToUpper(Trim(s))
  {
    var t := Trim(s);
    var u := ToUpper(t);
    if u != [] {
      UpperCharNotWhitespace(t[0]);
      UpperCharNotWhitespace(t[|t| - 1]);
      assert u[0] == UpperChar(t[0]) && u[|u| - 1] == UpperChar(t[|t| - 1]);
      assert TrimStart(u) == u;
      assert TrimEnd(u) == u;
    }
  }

  /** A string without ASCII lower-case letters is its own upper case. */
  lemma UpperAlready(s: string)
    requires forall k :: 0 <= k < |s| ==> !IsAsciiLower(s[k])
    ensures ToUpper(s) == s
  {
  }
}
