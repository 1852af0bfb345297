/** The JavaScript string operations the core relies on, over `string`
    (a sequence of Unicode scalar values): `trim`, literal `includes`,
    `startsWith`, a global `replace` of a literal pattern by "", `join`,
    ASCII `toLowerCase`, and `length` in UTF-16 code units. */
module Strings {

  /** The LineTerminator characters of ECMAScript. */
  predicate IsLineTerminator(c: char) {
    c == '\n' || c == '\r' || c == '\U{2028}' || c == '\U{2029}'
  }

  /** The characters `String.prototype.trim` removes: ECMAScript WhiteSpace and LineTerminator. */
  predicate IsWhitespace(c: char) {
    IsLineTerminator(c) || c == '\t' || c == '\U{000B}' || c == '\U{000C}' || c == ' '
    || c == '\U{00A0}' || c == '\U{FEFF}' || c == '\U{1680}' || ('\U{2000}' <= c <= '\U{200A}')
    || c == '\U{202F}' || c == '\U{205F}' || c == '\U{3000}'
  }

  predicate AllWhitespace(s: string) {
    forall i :: 0 <= i < |s| ==> IsWhitespace(s[i])
  }

  /** No whitespace at either end. */
  predicate Trimmed(s: string) {
    s == [] || (!IsWhitespace(s[0]) && !IsWhitespace(s[|s| - 1]))
  }

  /** Drops the leading whitespace: the result is the suffix of `s` after a whitespace-only prefix. */
  function TrimStart(s: string): (r: string)
    ensures |r| <= |s| && r == s[|s| - |r|..]
    ensures AllWhitespace(s[..|s| - |r|])
    ensures r == [] || !IsWhitespace(r[0])
  {
    if s != [] && IsWhitespace(s[0]) then TrimStart(s[1..]) else s
  }

  /** Drops the trailing whitespace: the result is the prefix of `s` before a whitespace-only suffix. */
  function TrimEnd(s: string): (r: string)
    ensures |r| <= |s| && r == s[..|r|]
    ensures AllWhitespace(s[|r|..])
    ensures r == [] || !IsWhitespace(r[|r| - 1])
  {
    if s != [] && IsWhitespace(s[|s| - 1]) then TrimEnd(s[..|s| - 1]) else s
  }

  /** `String.prototype.trim`. */
  function Trim(s: string): (r: string)
    ensures Trimmed(r) && |r| <= |s|
    ensures r == [] <==> AllWhitespace(s)
  {
    var t := TrimStart(s);
    var r := TrimEnd(t);
    assert r != [] ==> r[0] == t[0];
    assert AllWhitespace(s) ==> t == [];
    assert t == [] ==> s == s[..|s| - |t|];
    r
  }

  /** A string without whitespace at its ends is left alone by trim. */
  lemma TrimOfTrimmed(s: string)
    requires Trimmed(s)
    ensures Trim(s) == s
  {
  }

  /** Trim is idempotent. */
  lemma TrimIdempotent(s: string)
    ensures Trim(Trim(s)) == Trim(s)
  {
    TrimOfTrimmed(Trim(s));
  }

  /** Whitespace in front of a string that still holds a non-whitespace character survives TrimStart's
      view of what follows: TrimStart(a + b) is TrimStart(b) when a is all whitespace, else TrimStart(a) + b. */
  lemma {:induction false} TrimStartAppend(a: string, b: string)
    ensures TrimStart(a + b) == if AllWhitespace(a) then TrimStart(b) else TrimStart(a) + b
  {
    if a == [] {
      assert a + b == b;
    } else {
      var t := a[1..];
      assert (a + b)[0] == a[0];
      assert (a + b)[1..] == t + b;
      TrimStartAppend(t, b);
      if IsWhitespace(a[0]) {
        AllWhitespaceTail(a);
        assert TrimStart(a + b) == TrimStart(t + b);
        assert TrimStart(a) == TrimStart(t);
      } else {
        assert !AllWhitespace(a);
        assert TrimStart(a + b) == a + b;
      }
    }
  }

  /** Behind a whitespace character, the rest decides whether a string is all whitespace. */
  lemma AllWhitespaceTail(a: string)
    requires a != [] && IsWhitespace(a[0])
    ensures AllWhitespace(a) == AllWhitespace(a[1..])
  {
    if AllWhitespace(a[1..]) {
      forall i | 0 <= i < |a| ensures IsWhitespace(a[i]) {
        if i > 0 { assert a[i] == a[1..][i - 1]; }
      }
    }
  }

  /** TrimEnd ignores whitespace appended at the end. */
  lemma {:induction false} TrimEndAppendWhitespace(a: string, w: string)
    requires AllWhitespace(w)
    ensures TrimEnd(a + w) == TrimEnd(a)
    decreases |w|
  {
    if w == [] {
      assert a + w == a;
    } else {
      var w' := w[..|w| - 1];
      assert (a + w)[..|a + w| - 1] == a + w';
      TrimEndAppendWhitespace(a, w');
    }
  }

  /** Trim ignores whitespace added at both ends. */
  lemma TrimPadded(w1: string, s: string, w2: string)
    requires AllWhitespace(w1) && AllWhitespace(w2)
    ensures Trim(w1 + s + w2) == Trim(s)
  {
    var t := s + w2;
    assert w1 + s + w2 == w1 + t;
    TrimLeadingWhitespace(w1, t);
    TrimTrailingWhitespace(s, w2);
  }

  lemma TrimLeadingWhitespace(w: string, s: string)
    requires AllWhitespace(w)
    ensures Trim(w + s) == Trim(s)
  {
    TrimStartAppend(w, s);
    assert TrimStart(w + s) == TrimStart(s);
  }

  lemma TrimTrailingWhitespace(s: string, w: string)
    requires AllWhitespace(w)
    ensures Trim(s + w) == Trim(s)
  {
    TrimStartAppend(s, w);
    if AllWhitespace(s) {
      WhitespaceTrimsToEmpty(s, w);
    } else {
      TrimEndAppendWhitespace(TrimStart(s), w);
    }
  }

  lemma WhitespaceTrimsToEmpty(s: string, w: string)
    requires AllWhitespace(s) && AllWhitespace(w)
    ensures TrimStart(s) == [] && TrimStart(s + w) == []
  {
    assert AllWhitespace(s + w);
  }

  predicate StartsWith(s: string, p: string) {
    |p| <= |s| && s[..|p|] == p
  }

  /** `s.includes(p)`: `p` occurs in `s` at some position. */
  predicate Contains(s: string, p: string)
    decreases |s|
  {
    StartsWith(s, p) || (s != [] && Contains(s[1..], p))
  }

  /** `p` occurs in `s` starting at index `i`. */
  predicate OccursAt(s: string, p: string, i: int) {
    0 <= i && i + |p| <= |s| && s[i..i + |p|] == p
  }

  /** The recursive `Contains` agrees with the positional definition of an occurrence. */
  lemma {:induction false} ContainsAt(s: string, p: string)
    ensures Contains(s, p) <==> exists i :: OccursAt(s, p, i)
    decreases |s|
  {
    if StartsWith(s, p) {
      assert OccursAt(s, p, 0);
    } else if s != [] {
      ContainsAt(s[1..], p);
      if Contains(s[1..], p) {
        var i :| OccursAt(s[1..], p, i);
        assert s[1..][i..i + |p|] == s[i + 1..i + 1 + |p|];
        assert OccursAt(s, p, i + 1);
      }
      if i :| OccursAt(s, p, i) {
        assert i != 0;
        assert s[1..][i - 1..i - 1 + |p|] == s[i..i + |p|];
        assert OccursAt(s[1..], p, i - 1);
      }
    }
  }

  /** A pattern longer than the string never occurs in it. */
  lemma {:induction false} ShorterNoContains(s: string, p: string)
    requires |s| < |p|
    ensures !Contains(s, p)
    decreases |s|
  {
    if s != [] {
      ShorterNoContains(s[1..], p);
    }
  }

  /** Every string contains the empty string. */
  lemma ContainsEmpty(s: string)
    ensures Contains(s, "")
  {
  }

  /** An occurrence in a suffix is an occurrence in the whole string. */
  lemma {:induction false} ContainsSuffix(s: string, k: nat, p: string)
    requires k <= |s|
    ensures Contains(s[k..], p) ==> Contains(s, p)
    decreases k
  {
    if k > 0 {
      assert s[1..][k - 1..] == s[k..];
      ContainsSuffix(s[1..], k - 1, p);
    }
  }

  /** Dropping the last character cannot create an occurrence. */
  lemma {:induction false} ContainsDropLast(s: string, p: string)
    requires s != []
    ensures Contains(s[..|s| - 1], p) ==> Contains(s, p)
    decreases |s|
  {
    var s' := s[..|s| - 1];
    if StartsWith(s', p) {
      assert s[..|p|] == s'[..|p|];
    } else if s' != [] && Contains(s'[1..], p) {
      assert s'[1..] == s[1..][..|s[1..]| - 1];
      ContainsDropLast(s[1..], p);
    }
  }

  /** Trim never creates an occurrence of a pattern. */
  lemma TrimKeepsAbsence(s: string, p: string)
    requires !Contains(s, p)
    ensures !Contains(Trim(s), p)
  {
    var t := TrimStart(s);
    ContainsSuffix(s, |s| - |t|, p);
    TrimEndKeepsAbsence(t, p);
  }

  lemma {:induction false} TrimEndKeepsAbsence(s: string, p: string)
    requires !Contains(s, p)
    ensures !Contains(TrimEnd(s), p)
    decreases |s|
  {
    if s != [] && IsWhitespace(s[|s| - 1]) {
      ContainsDropLast(s, p);
      TrimEndKeepsAbsence(s[..|s| - 1], p);
    }
  }

  /** A string occurring somewhere has each of its prefixes occurring there too. */
  lemma {:induction false} ContainsPrefixOfPattern(s: string, p: string, q: string)
    requires Contains(s, p + q)
    ensures Contains(s, p)
    decreases |s|
  {
    if StartsWith(s, p + q) {
      assert s[..|p|] == (p + q)[..|p|] == p;
    } else {
      ContainsPrefixOfPattern(s[1..], p, q);
    }
  }

  predicate NoChar(s: string, c: char) {
    forall i :: 0 <= i < |s| ==> s[i] != c
  }

  /** A string without the first character of a pattern does not contain the pattern. */
  lemma {:induction false} NoCharNoContains(s: string, p: string)
    requires p != [] && NoChar(s, p[0])
    ensures !Contains(s, p)
    decreases |s|
  {
    if s != [] {
      assert NoChar(s[1..], p[0]);
      NoCharNoContains(s[1..], p);
    }
  }

  /** `s.replace(/p/g, "")` for a literal pattern `p`: scanning from the left, every occurrence
      that does not overlap an earlier removed one is deleted. */
  function RemoveAll(s: string, p: string): (r: string)
    requires p != []
    ensures |r| <= |s|
    ensures !Contains(s, p) ==> r == s
    decreases |s|
  {
    if s == [] then []
    else if StartsWith(s, p) then RemoveAll(s[|p|..], p)
    else [s[0]] + RemoveAll(s[1..], p)
  }

  /** A prefix free of the pattern's first character passes through the removal untouched. */
  lemma {:induction false} RemoveAllSkipsPrefix(a: string, b: string, p: string)
    requires p != [] && NoChar(a, p[0])
    ensures RemoveAll(a + b, p) == a + RemoveAll(b, p)
    decreases |a|
  {
    if a == [] {
      assert a + b == b;
    } else {
      assert (a + b)[0] == a[0] && (a + b)[1..] == a[1..] + b;
      assert !StartsWith(a + b, p);
      assert NoChar(a[1..], p[0]);
      RemoveAllSkipsPrefix(a[1..], b, p);
    }
  }

  /** The three-backtick code-fence marker. */
  const Fence: string := "```"

  /** A string that does not start with two backticks stays that way after removing fences. */
  lemma NoDoubleTickHead(t: string)
    requires !(|t| >= 2 && t[0] == '`' && t[1] == '`')
    ensures var r := RemoveAll(t, Fence); !(|r| >= 2 && r[0] == '`' && r[1] == '`')
  {
    if t != [] {
      assert !StartsWith(t, Fence);
      if t[0] == '`' && |t| >= 2 {
        assert t[1..][0] == t[1] != '`';
        assert !StartsWith(t[1..], Fence);
      }
    }
  }

  /** Removing every fence leaves no fence behind: remnants on both sides of a removed fence
      never join into a new one, because the scan would have matched earlier. */
  lemma {:induction false} RemoveFenceLeavesNone(s: string)
    ensures !Contains(RemoveAll(s, Fence), Fence)
    decreases |s|
  {
    if s == [] {
    } else if StartsWith(s, Fence) {
      RemoveFenceLeavesNone(s[3..]);
    } else {
      var t := s[1..];
      var rt := RemoveAll(t, Fence);
      RemoveFenceLeavesNone(t);
      assert RemoveAll(s, Fence) == [s[0]] + rt;
      assert ([s[0]] + rt)[1..] == rt;
      if s[0] == '`' {
        assert !(|t| >= 2 && t[0] == '`' && t[1] == '`');
        NoDoubleTickHead(t);
      }
      assert !StartsWith([s[0]] + rt, Fence);
    }
  }

  /** ASCII `toLowerCase` of one character. */
  function LowerChar(c: char): (d: char)
    ensures 'A' <= c <= 'Z' ==> d as int == c as int + 32
    ensures !('A' <= c <= 'Z') ==> d == c
  {
    if 'A' <= c <= 'Z' then (c as int + 32) as char else c
  }

  /** `toLowerCase`, restricted to the ASCII letters. */
  function Lower(s: string): (r: string)
    ensures |r| == |s| && forall i :: 0 <= i < |s| ==> r[i] == LowerChar(s[i])
  {
    seq(|s|, i requires 0 <= i < |s| => LowerChar(s[i]))
  }

  /** Lowercasing neither creates nor removes whitespace. */
  lemma LowerCharWhitespace(c: char)
    ensures IsWhitespace(LowerChar(c)) == IsWhitespace(c)
  {
    if 'A' <= c <= 'Z' {
      assert 'a' <= LowerChar(c) <= 'z';
    }
  }

  /** Lowercasing twice is lowercasing once. */
  lemma LowerIdempotent(s: string)
    ensures Lower(Lower(s)) == Lower(s)
  {
  }

  /** Lowercasing maps whitespace to whitespace and nothing else to whitespace, so trim and
      lowercase commute: the order Mongoose applies the two setters in does not matter. */
  lemma TrimLowerCommute(s: string)
    ensures Trim(Lower(s)) == Lower(Trim(s))
  {
    TrimStartLower(s);
    TrimEndLower(TrimStart(s));
  }

  lemma {:induction false} TrimStartLower(s: string)
    ensures TrimStart(Lower(s)) == Lower(TrimStart(s))
    decreases |s|
  {
    if s != [] {
      LowerCharWhitespace(s[0]);
      var l := Lower(s);
      assert l[0] == LowerChar(s[0]);
      if IsWhitespace(s[0]) {
        assert l[1..] == Lower(s[1..]);
        TrimStartLower(s[1..]);
        assert TrimStart(l) == TrimStart(l[1..]);
      } else {
        assert TrimStart(l) == l;
      }
    }
  }

  lemma {:induction false} TrimEndLower(s: string)
    ensures TrimEnd(Lower(s)) == Lower(TrimEnd(s))
    decreases |s|
  {
    if s != [] {
      LowerCharWhitespace(s[|s| - 1]);
      if IsWhitespace(s[|s| - 1]) {
        assert Lower(s)[..|s| - 1] == Lower(s[..|s| - 1]);
        TrimEndLower(s[..|s| - 1]);
      }
    }
  }

  /** An occurrence survives lowercasing both strings: a case-insensitive search finds
      every exact match. */
  lemma ContainsLower(s: string, p: string)
    requires Contains(s, p)
    ensures Contains(Lower(s), Lower(p))
  {
    ContainsAt(s, p);
    var i :| OccursAt(s, p, i);
    assert Lower(s)[i..i + |p|] == Lower(p) by {
      forall k | 0 <= k < |p| ensures Lower(s)[i..i + |p|][k] == Lower(p)[k] {
        assert s[i..i + |p|][k] == p[k];
      }
    }
    assert OccursAt(Lower(s), Lower(p), i);
    ContainsAt(Lower(s), Lower(p));
  }

  /** `length` of a JavaScript string: UTF-16 code units, two for a character beyond U+FFFF. */
  function Utf16Length(s: string): (n: nat)
    ensures |s| <= n <= 2 * |s|
  {
    if s == [] then 0 else (if s[0] as int > 0xFFFF then 2 else 1) + Utf16Length(s[1..])
  }

  /** `Array.prototype.join(sep)` on strings. */
  function Join(parts: seq<string>, sep: string): (r: string)
    ensures |parts| == 1 ==> r == parts[0]
    ensures |parts| == 0 ==> r == ""
  {
    if parts == [] then "" else if |parts| == 1 then parts[0] else parts[0] + sep + Join(parts[1..], sep)
  }

  /** `String(n)` for a natural number: its decimal digits. */
  function NatToString(n: nat): (r: string)
    ensures r != [] && forall i :: 0 <= i < |r| ==> '0' <= r[i] <= '9'
  {
    var d := ['0', '1', '2', '3', '4', '5', '6', '7', '8', '9'];
    if n < 10 then [d[n]] else NatToString(n / 10) + [d[n % 10]]
  }
}
