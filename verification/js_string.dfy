/**
 * The few JavaScript string operations the bookmark core relies on:
 * `String.prototype.trim`, `startsWith` and ASCII letter classes.
 * Strings are sequences of code points; see README for UTF-16 lengths.
 */
module JsString {

  /** WhiteSpace and LineTerminator code points, as `String.prototype.trim` strips them. */
  predicate IsWhiteSpace(c: char) {
    var n := c as int;
    || 0x09 <= n <= 0x0D          // tab, line feed, vertical tab, form feed, carriage return
    || n == 0x20 || n == 0xA0 || n == 0x1680
    || 0x2000 <= n <= 0x200A      // en quad .. hair space
    || n == 0x2028 || n == 0x2029 // line and paragraph separators
    || n == 0x202F || n == 0x205F || n == 0x3000
    || n == 0xFEFF                // byte order mark
  }

  predicate AllWhiteSpace(s: string) {
    forall i | 0 <= i < |s| :: IsWhiteSpace(s[i])
  }

  /** Neither end of `s` is white space: the shape every trimmed string has. */
  predicate IsTrimmed(s: string) {
    |s| == 0 || (!IsWhiteSpace(s[0]) && !IsWhiteSpace(s[|s| - 1]))
  }

  function TrimStart(s: string): (r: string)
    ensures |r| <= |s|
    ensures |r| == 0 || !IsWhiteSpace(r[0])
  {
    if |s| > 0 && IsWhiteSpace(s[0]) then TrimStart(s[1..]) else s
  }

  function TrimEnd(s: string): (r: string)
    ensures |r| <= |s|
    ensures |r| == 0 || !IsWhiteSpace(r[|r| - 1])
  {
    if |s| > 0 && IsWhiteSpace(s[|s| - 1]) then TrimEnd(s[..|s| - 1]) else s
  }

  /** `TrimStart` drops a white-space prefix and keeps the rest. */
  lemma {:induction false} TrimStartDropsPrefix(s: string)
    ensures TrimStart(s) == s[|s| - |TrimStart(s)|..]
    ensures AllWhiteSpace(s[..|s| - |TrimStart(s)|])
  {
    if |s| > 0 && IsWhiteSpace(s[0]) {
      var tail := s[1..];
      TrimStartDropsPrefix(tail);
      var k := |s| - |TrimStart(s)|;
      assert tail[k - 1..] == s[k..];
      forall i | 0 <= i < k ensures IsWhiteSpace(s[..k][i]) {
        if i > 0 {
          assert s[..k][i] == tail[..k - 1][i - 1];
        }
      }
    }
  }

  /** `TrimEnd` keeps a prefix and drops a white-space suffix. */
  lemma {:induction false} TrimEndDropsSuffix(s: string)
    ensures TrimEnd(s) == s[..|TrimEnd(s)|]
    ensures AllWhiteSpace(s[|TrimEnd(s)|..])
  {
    if |s| > 0 && IsWhiteSpace(s[|s| - 1]) {
      var front := s[..|s| - 1];
      TrimEndDropsSuffix(front);
      var n := |TrimEnd(s)|;
      assert front[..n] == s[..n];
      forall j | 0 <= j < |s| - n ensures IsWhiteSpace(s[n..][j]) {
        if j < |s| - 1 - n {
          assert s[n..][j] == front[n..][j];
        }
      }
    }
  }

  /** `String.prototype.trim`: strips white space from both ends. */
  function Trim(s: string): (r: string)
    ensures IsTrimmed(r)
    ensures |r| <= |s|
  {
    var t := TrimStart(s);
    var r := TrimEnd(t);
    assert |r| == 0 || !IsWhiteSpace(r[0]) by {
      TrimEndDropsSuffix(t);
    }
    r
  }

  lemma {:induction false} TrimStartOfPadded(a: string, x: string)
    requires AllWhiteSpace(a) && (|x| == 0 || !IsWhiteSpace(x[0]))
    ensures TrimStart(a + x) == x
  {
    if |a| > 0 {
      assert (a + x)[1..] == a[1..] + x;
      TrimStartOfPadded(a[1..], x);
    }
  }

  lemma {:induction false} TrimEndOfPadded(x: string, b: string)
    requires AllWhiteSpace(b) && (|x| == 0 || !IsWhiteSpace(x[|x| - 1]))
    ensures TrimEnd(x + b) == x
  {
    if |b| > 0 {
      assert (x + b)[..|x + b| - 1] == x + b[..|b| - 1];
      TrimEndOfPadded(x, b[..|b| - 1]);
    }
  }

  /**
   * The partner of `Trim`: white space on both sides of a trimmed core is
   * exactly what it removes, so `Trim` is determined by this decomposition.
   */
  lemma TrimOfPadded(a: string, m: string, b: string)
    requires AllWhiteSpace(a) && AllWhiteSpace(b) && IsTrimmed(m)
    ensures Trim(a + m + b) == m
  {
    if |m| == 0 {
      assert a + m + b == (a + b) + [];
      TrimStartOfPadded(a + b, []);
    } else {
      assert a + m + b == a + (m + b);
      TrimStartOfPadded(a, m + b);
      TrimEndOfPadded(m, b);
    }
  }

  /** Every string is white space, its trimmed core, and white space again. */
  lemma TrimSplits(s: string) returns (a: string, b: string)
    ensures AllWhiteSpace(a) && AllWhiteSpace(b) && s == a + Trim(s) + b
  {
    var t := TrimStart(s);
    var r := TrimEnd(t);
    TrimStartDropsPrefix(s);
    TrimEndDropsSuffix(t);
    a, b := s[..|s| - |t|], t[|r|..];
    Recombine(s, |s| - |t|, t, |r|);
  }

  /** Cutting `s` at `k`, and its suffix `t` at `n`, gives three parts that make `s` again. */
  lemma Recombine(s: string, k: nat, t: string, n: nat)
    requires k <= |s| && t == s[k..] && n <= |t|
    ensures s == s[..k] + t[..n] + t[n..]
  {
    assert s == s[..k] + s[k..];
    assert t == t[..n] + t[n..];
  }

  /** Trimming a string that is already trimmed changes nothing. */
  lemma TrimOfTrimmed(s: string)
    requires IsTrimmed(s)
    ensures Trim(s) == s
  {
    assert s == [] + s + [];
    TrimOfPadded([], s, []);
  }

  lemma TrimIdempotent(s: string)
    ensures Trim(Trim(s)) == Trim(s)
  {
    TrimOfTrimmed(Trim(s));
  }

  predicate StartsWith(s: string, prefix: string) {
    |prefix| <= |s| && s[..|prefix|] == prefix
  }

  predicate IsAsciiLetter(c: char) {
    ('a' <= c <= 'z') || ('A' <= c <= 'Z')
  }

  predicate IsAsciiDigit(c: char) {
    '0' <= c <= '9'
  }

  /** ASCII lower-casing, as a case-insensitive regular expression compares letters. */
  function AsciiLower(c: char): (r: char)
    ensures IsAsciiLetter(c) ==> 'a' <= r <= 'z'
    ensures !IsAsciiLetter(c) ==> r == c
  {
    if 'A' <= c <= 'Z' then (c as int + 32) as char else c
  }
}
