/**
 * The pieces of Go's `strings` and `unicode` packages the report cleanup and
 * the prompt builder rely on, over strings of Unicode code points.
 */
module GoStrings {

  /** Go's unicode.IsSpace: the ASCII spaces, NEL, NBSP and the Unicode White_Space separators. */
  predicate IsSpace(c: char)
    ensures c <= '\U{007F}' ==> (IsSpace(c) <==> c in {' ', '\t', '\n', '\U{000B}', '\U{000C}', '\r'})
  {
    || c == ' '
    || ('\t' <= c <= '\r')
    || c == '\U{0085}' || c == '\U{00A0}' || c == '\U{1680}'
    || ('\U{2000}' <= c <= '\U{200A}')
    || c == '\U{2028}' || c == '\U{2029}' || c == '\U{202F}' || c == '\U{205F}' || c == '\U{3000}'
  }

  predicate AllSpace(s: string) {
    forall i :: 0 <= i < |s| ==> IsSpace(s[i])
  }

  /** Neither end of `s` is white space. */
  predicate Trimmed(s: string) {
    s == [] || (!IsSpace(s[0]) && !IsSpace(s[|s| - 1]))
  }

  /** Leading white space removed: `r` is the longest suffix of `s` after a run of spaces. */
  function TrimLeftSpace(s: string): (r: string)
    ensures |r| <= |s| && r == s[|s| - |r|..]
    ensures AllSpace(s[..|s| - |r|])
    ensures r != [] ==> !IsSpace(r[0])
  {
    if s != [] && IsSpace(s[0]) then TrimLeftSpace(s[1..]) else s
  }

  /** Trailing white space removed: `r` is the longest prefix of `s` before a run of spaces. */
  function TrimRightSpace(s: string): (r: string)
    ensures |r| <= |s| && r == s[..|r|]
    ensures AllSpace(s[|r|..])
    ensures r != [] ==> !IsSpace(r[|r| - 1])
  {
    if s != [] && IsSpace(s[|s| - 1]) then
      var r := TrimRightSpace(s[..|s| - 1]);
      assert s[|r|..] == s[..|s| - 1][|r|..] + [s[|s| - 1]];
      r
    else s
  }

  /** strings.TrimSpace */
  function TrimSpace(s: string): (r: string)
    ensures Trimmed(r)
    ensures |r| <= |s|
    ensures r == [] <==> AllSpace(s)
  {
    var l := TrimLeftSpace(s);
    assert l == [] ==> s[..|s|] == s;
    TrimRightSpace(l)
  }

  /** strings.HasPrefix */
  predicate HasPrefix(s: string, prefix: string) {
    |prefix| <= |s| && s[..|prefix|] == prefix
  }

  /** `s` has the prefix iff it agrees with it character by character, and then it is the prefix plus a rest. */
  lemma HasPrefixCharacterised(s: string, prefix: string)
    ensures HasPrefix(s, prefix) <==> |prefix| <= |s| && forall i :: 0 <= i < |prefix| ==> s[i] == prefix[i]
    ensures HasPrefix(s, prefix) ==> s == prefix + s[|prefix|..]
  {
    if |prefix| <= |s| && forall i :: 0 <= i < |prefix| ==> s[i] == prefix[i] {
      assert s[..|prefix|] == prefix;
    }
  }

  /** strings.HasSuffix */
  predicate HasSuffix(s: string, suffix: string) {
    |suffix| <= |s| && s[|s| - |suffix|..] == suffix
  }

  /** `s` has the suffix iff its last characters agree with it, and then it is a rest plus the suffix. */
  lemma HasSuffixCharacterised(s: string, suffix: string)
    ensures HasSuffix(s, suffix) <==> |suffix| <= |s| && forall i :: 0 <= i < |suffix| ==> s[|s| - |suffix| + i] == suffix[i]
    ensures HasSuffix(s, suffix) ==> s == s[..|s| - |suffix|] + suffix
  {
    if |suffix| <= |s| && forall i :: 0 <= i < |suffix| ==> s[|s| - |suffix| + i] == suffix[i] {
      assert s[|s| - |suffix|..] == suffix;
    }
  }

  /** strings.TrimPrefix: removes one leading `prefix` if present. */
  function TrimPrefix(s: string, prefix: string): (r: string)
    ensures HasPrefix(s, prefix) ==> prefix + r == s
    ensures !HasPrefix(s, prefix) ==> r == s
  {
    if HasPrefix(s, prefix) then s[|prefix|..] else s
  }

  /**
   * strings.TrimRight: `cutset` is a set of characters, not a suffix, so every
   * trailing character that occurs in it is removed.
   */
  function TrimRight(s: string, cutset: string): (r: string)
    ensures |r| <= |s| && r == s[..|r|]
    ensures forall i :: |r| <= i < |s| ==> s[i] in cutset
    ensures r != [] ==> r[|r| - 1] !in cutset
  {
    if s != [] && s[|s| - 1] in cutset then TrimRight(s[..|s| - 1], cutset) else s
  }

  lemma {:induction false} TrimLeftSpaceOfPadded(ws: string, x: string)
    requires AllSpace(ws)
    requires x == [] || !IsSpace(x[0])
    ensures TrimLeftSpace(ws + x) == x
  {
    if ws != [] {
      assert (ws + x)[1..] == ws[1..] + x;
      TrimLeftSpaceOfPadded(ws[1..], x);
    } else {
      assert ws + x == x;
    }
  }

  lemma {:induction false} TrimRightSpaceOfPadded(x: string, ws: string)
    requires AllSpace(ws)
    requires x == [] || !IsSpace(x[|x| - 1])
    ensures TrimRightSpace(x + ws) == x
  {
    if ws != [] {
      assert (x + ws)[..|x + ws| - 1] == x + ws[..|ws| - 1];
      TrimRightSpaceOfPadded(x, ws[..|ws| - 1]);
    } else {
      assert x + ws == x;
    }
  }

  /** TrimSpace removes exactly the white space around a trimmed core, whatever that padding is. */
  lemma TrimSpaceOfPadded(ws1: string, x: string, ws2: string)
    requires AllSpace(ws1) && AllSpace(ws2)
    requires Trimmed(x)
    ensures TrimSpace(ws1 + x + ws2) == x
  {
    if x == [] {
      assert x + ws2 == ws2;
      assert AllSpace(ws1 + x + ws2);
    } else {
      assert ws1 + x + ws2 == ws1 + (x + ws2);
      TrimLeftSpaceOfPadded(ws1, x + ws2);
      TrimRightSpaceOfPadded(x, ws2);
    }
  }

  /** Text with no white space at either end is left as it is. */
  lemma TrimSpaceOfTrimmed(s: string)
    requires Trimmed(s)
    ensures TrimSpace(s) == s
  {
    TrimSpaceOfPadded([], s, []);
    assert [] + s + [] == s;
  }

  /** Removing cutset characters appended to `s` gives the same as trimming `s` itself. */
  lemma {:induction false} TrimRightIgnoresCutTail(s: string, tail: string, cutset: string)
    requires forall i :: 0 <= i < |tail| ==> tail[i] in cutset
    ensures TrimRight(s + tail, cutset) == TrimRight(s, cutset)
  {
    if tail != [] {
      assert (s + tail)[..|s + tail| - 1] == s + tail[..|tail| - 1];
      TrimRightIgnoresCutTail(s, tail[..|tail| - 1], cutset);
    } else {
      assert s + tail == s;
    }
  }

  /** Decimal digits of a natural number, most significant first (fmt's %d, or %.0f of a whole value). */
  function FormatNat(n: nat): (r: string)
    ensures r != []
    ensures forall i :: 0 <= i < |r| ==> '0' <= r[i] <= '9'
    ensures |r| > 1 ==> r[0] != '0'
  {
    if n < 10 then [DigitChar(n)] else FormatNat(n / 10) + [DigitChar(n % 10)]
  }

  function DigitChar(d: nat): (c: char)
    requires d < 10
    ensures '0' <= c <= '9'
  {
    ['0', '1', '2', '3', '4', '5', '6', '7', '8', '9'][d]
  }

  /** fmt's %.0f of a whole-valued float64: an optional minus sign and the digits. */
  function FormatInt(n: int): (r: string)
    ensures r != []
    ensures n >= 0 ==> r == FormatNat(n)
    ensures n < 0 ==> r == "-" + FormatNat(-n)
  {
    if n < 0 then "-" + FormatNat(-n) else FormatNat(n)
  }

  /** Reads a run of decimal digits back: the inverse of FormatNat. */
  function ParseNat(s: string): nat
    requires forall i :: 0 <= i < |s| ==> '0' <= s[i] <= '9'
  {
    if s == [] then 0 else 10 * ParseNat(s[..|s| - 1]) + ((s[|s| - 1] as int) - ('0' as int))
  }

  lemma {:induction false} ParseFormatNat(n: nat)
    ensures ParseNat(FormatNat(n)) == n
  {
    if n >= 10 {
      var r := FormatNat(n);
      assert r[..|r| - 1] == FormatNat(n / 10);
      ParseFormatNat(n / 10);
    }
  }
}
