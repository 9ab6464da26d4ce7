/** `String.prototype.trim`, the only string operation the registration form applies. */
module Text {

  /** The code points of ECMAScript's WhiteSpace and LineTerminator productions (tab, line
      feed, vertical tab, form feed, carriage return, space, no-break space, the space
      separators of Unicode, line and paragraph separators, byte order mark): the characters
      `trim` strips from both ends of a string. */
  predicate IsWhitespace(c: char) {
    || c == '\t' || c == '\n' || c == '\U{B}' || c == '\U{C}' || c == '\r' || c == ' '
    || c == '\U{A0}' || c == '\U{1680}' || ('\U{2000}' <= c <= '\U{200A}')
    || c == '\U{2028}' || c == '\U{2029}' || c == '\U{202F}' || c == '\U{205F}'
    || c == '\U{3000}' || c == '\U{FEFF}'
  }

  /** True when every character of `s` at a position in [lo, hi) is whitespace. */
  predicate BlankBetween(s: string, lo: int, hi: int)
    requires 0 <= lo <= hi <= |s|
  {
    forall k :: lo <= k < hi ==> IsWhitespace(s[k])
  }

  /** True when every character of `s` is whitespace (in particular when `s` is empty). */
  predicate IsBlank(s: string) {
    BlankBetween(s, 0, |s|)
  }

  /** Drops the leading whitespace: the result is the suffix of `s` that starts at its first
      non-whitespace character. */
  function TrimStart(s: string): (r: string)
    ensures |r| <= |s| && r == s[|s| - |r|..]
    ensures BlankBetween(s, 0, |s| - |r|)
    ensures r != [] ==> !IsWhitespace(r[0])
  {
    if s != [] && IsWhitespace(s[0]) then TrimStart(s[1..]) else s
  }

  /** Drops the trailing whitespace: the result is the prefix of `s` that ends at its last
      non-whitespace character. */
  function TrimEnd(s: string): (r: string)
    ensures |r| <= |s| && r == s[..|r|]
    ensures BlankBetween(s, |r|, |s|)
    ensures r != [] ==> !IsWhitespace(r[|r| - 1])
  {
    if s != [] && IsWhitespace(s[|s| - 1]) then TrimEnd(s[..|s| - 1]) else s
  }

  /** `s.trim()`: removes the whitespace at both ends; what is left starts and ends with a
      character that is not whitespace. */
  function Trim(s: string): (r: string)
    ensures |r| <= |s|
    ensures r != [] ==> !IsWhitespace(r[0]) && !IsWhitespace(r[|r| - 1])
  {
    TrimEnd(TrimStart(s))
  }

  /** The trimmed string is the infix of `s` at some offset `i`, and everything of `s` before
      and after that infix is whitespace. */
  lemma TrimIsInfix(s: string) returns (i: nat)
    ensures i + |Trim(s)| <= |s| && Trim(s) == s[i..i + |Trim(s)|]
    ensures BlankBetween(s, 0, i) && BlankBetween(s, i + |Trim(s)|, |s|)
  {
    var t := TrimStart(s);
    var r := TrimEnd(t);
    i := |s| - |t|;
    assert t == s[i..] && r == t[..|r|];
    assert r == s[i..i + |r|];
    forall k | i + |r| <= k < |s| ensures IsWhitespace(s[k]) {
      assert s[k] == t[k - i] && BlankBetween(t, |r|, |t|);
    }
  }

  /** The trimmed string is empty exactly when the input is all whitespace: the case the
      form reports as a missing name. */
  lemma TrimEmptyIffBlank(s: string)
    ensures Trim(s) == [] <==> IsBlank(s)
  {
    var r := Trim(s);
    var i := TrimIsInfix(s);
    if r == [] {
      forall k | 0 <= k < |s| ensures IsWhitespace(s[k]) {
        if k < i { assert BlankBetween(s, 0, i); } else { assert BlankBetween(s, i, |s|); }
      }
    } else {
      assert s[i] == r[0];
    }
  }

  /** Trimming an already trimmed string changes nothing. */
  lemma TrimIdempotent(s: string)
    ensures Trim(Trim(s)) == Trim(s)
  {
    var r := Trim(s);
    if r != [] {
      assert TrimStart(r) == r;
      assert TrimEnd(r) == r;
    }
  }

  /** Dropping a blank prefix: leading whitespace in front of a string that does not itself
      start with whitespace is exactly what `TrimStart` removes. */
  lemma {:induction false} TrimStartDropsBlankPrefix(a: string, rest: string)
    requires IsBlank(a) && (rest == [] || !IsWhitespace(rest[0]))
    ensures TrimStart(a + rest) == rest
  {
    if a == [] {
      assert a + rest == rest;
    } else {
      assert (a + rest)[0] == a[0] && IsWhitespace(a[0]);
      assert (a + rest)[1..] == a[1..] + rest;
      var a' := a[1..];
      assert IsBlank(a') by {
        forall k | 0 <= k < |a'| ensures IsWhitespace(a'[k]) {
          assert a'[k] == a[k + 1];
        }
      }
      TrimStartDropsBlankPrefix(a', rest);
    }
  }

  /** Dropping a blank suffix, the mirror image for `TrimEnd`. */
  lemma {:induction false} TrimEndDropsBlankSuffix(rest: string, b: string)
    requires IsBlank(b) && (rest == [] || !IsWhitespace(rest[|rest| - 1]))
    ensures TrimEnd(rest + b) == rest
  {
    if b == [] {
      assert rest + b == rest;
    } else {
      var s := rest + b;
      assert s[|s| - 1] == b[|b| - 1] && IsWhitespace(b[|b| - 1]);
      assert s[..|s| - 1] == rest + b[..|b| - 1];
      var b' := b[..|b| - 1];
      assert IsBlank(b') by {
        forall k | 0 <= k < |b'| ensures IsWhitespace(b'[k]) {
          assert b'[k] == b[k];
        }
      }
      TrimEndDropsBlankSuffix(rest, b');
    }
  }

  /** `trim` is determined by what it promises: whenever `s` splits into a blank prefix, a core
      that is empty or starts and ends with a non-whitespace character, and a blank suffix,
      the trimmed string is that core. */
  lemma TrimCharacterised(a: string, core: string, b: string)
    requires IsBlank(a) && IsBlank(b)
    requires core == [] || (!IsWhitespace(core[0]) && !IsWhitespace(core[|core| - 1]))
    ensures Trim(a + core + b) == core
  {
    var s := a + core + b;
    if core == [] {
      assert IsBlank(s) by {
        forall k | 0 <= k < |s| ensures IsWhitespace(s[k]) {
          if k < |a| { assert s[k] == a[k]; } else { assert s[k] == b[k - |a|]; }
        }
      }
      TrimEmptyIffBlank(s);
    } else {
      assert s == a + (core + b);
      assert (core + b)[0] == core[0];
      TrimStartDropsBlankPrefix(a, core + b);
      TrimEndDropsBlankSuffix(core, b);
    }
  }
}
