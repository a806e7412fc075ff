/**
 * The JavaScript string built-ins the extension relies on: the whitespace class shared
 * by `String.prototype.trim` and the regular-expression escape `\s`, and
 * `trim`, `split`, `join` and `repeat` themselves.
 */
module JsString {

  /** ECMAScript WhiteSpace and LineTerminator code points. */
  predicate IsWhitespace(c: char) {
    || c == ' ' || c == '\t' || c == '\n' || c == '\r' || c == '\U{000B}' || c == '\U{000C}'
    || c == '\U{00A0}' || c == '\U{1680}' || ('\U{2000}' <= c <= '\U{200A}')
    || c == '\U{2028}' || c == '\U{2029}' || c == '\U{202F}' || c == '\U{205F}'
    || c == '\U{3000}' || c == '\U{FEFF}'
  }

  predicate AllWhitespace(s: string) {
    forall i :: 0 <= i < |s| ==> IsWhitespace(s[i])
  }

  /** Neither end of `s` is a whitespace character. */
  predicate Unpadded(s: string) {
    s == [] || (!IsWhitespace(s[0]) && !IsWhitespace(s[|s| - 1]))
  }

  function TrimStart(s: string): (r: string)
    ensures r == [] || !IsWhitespace(r[0])
    ensures |r| <= |s| && r == s[|s| - |r|..]
    ensures AllWhitespace(s[..|s| - |r|])
  {
    if s != [] && IsWhitespace(s[0]) then TrimStart(s[1..]) else s
  }

  function TrimEnd(s: string): (r: string)
    ensures r == [] || !IsWhitespace(r[|r| - 1])
    ensures |r| <= |s| && r == s[..|r|]
    ensures AllWhitespace(s[|r|..])
  {
    if s != [] && IsWhitespace(s[|s| - 1]) then TrimEnd(s[..|s| - 1]) else s
  }

  /** `s.trim()`: drops leading then trailing whitespace. */
  function Trim(s: string): string {
    TrimEnd(TrimStart(s))
  }

  lemma {:induction false} TrimEndKeepsFirst(s: string)
    requires s != [] && !IsWhitespace(s[0])
    ensures TrimEnd(s) != [] && TrimEnd(s)[0] == s[0]
  {
    if IsWhitespace(s[|s| - 1]) {
      TrimEndKeepsFirst(s[..|s| - 1]);
    }
  }

  /** The trimmed text is unpadded and is `s` with a whitespace prefix and suffix removed. */
  lemma TrimShape(s: string)
    ensures Unpadded(Trim(s))
    ensures exists i, j :: 0 <= i <= j <= |s| && Trim(s) == s[i..j]
                           && AllWhitespace(s[..i]) && AllWhitespace(s[j..])
  {
    var t := TrimStart(s);
    if t != [] {
      TrimEndKeepsFirst(t);
    }
    var i := |s| - |t|;
    var j := i + |TrimEnd(t)|;
    assert s[i..j] == t[..|TrimEnd(t)|];
    assert s[j..] == t[|TrimEnd(t)|..];
  }

  /** Trimming text that has no whitespace at either end changes nothing. */
  lemma UnpaddedTrimmed(s: string)
    requires Unpadded(s)
    ensures Trim(s) == s
  {
  }

  /** `trim()` is idempotent. */
  lemma TrimIdempotent(s: string)
    ensures Trim(Trim(s)) == Trim(s)
  {
    TrimShape(s);
    UnpaddedTrimmed(Trim(s));
  }

  /** The maximal whitespace prefix: what `/^(\s*)/` captures. */
  function LeadingWhitespace(s: string): (r: string)
    ensures |r| <= |s| && r == s[..|r|]
    ensures AllWhitespace(r)
    ensures |r| == |s| || !IsWhitespace(s[|r|])
  {
    if s != [] && IsWhitespace(s[0]) then [s[0]] + LeadingWhitespace(s[1..]) else []
  }

  /** `/^(\s*)/` and `trimStart` cut `s` at the same point. */
  lemma {:induction false} LeadingWhitespaceTrimStart(s: string)
    ensures LeadingWhitespace(s) + TrimStart(s) == s
  {
    if s != [] && IsWhitespace(s[0]) {
      LeadingWhitespaceTrimStart(s[1..]);
      var l, t := LeadingWhitespace(s[1..]), TrimStart(s[1..]);
      assert LeadingWhitespace(s) == [s[0]] + l && TrimStart(s) == t;
      HeadRegroup(s[0], l, t);
      assert [s[0]] + s[1..] == s;
    }
  }

  lemma HeadRegroup(c: char, a: string, b: string)
    ensures [c] + a + b == [c] + (a + b)
  {
  }

  /** `s.split(sep)` for a one-character separator; `"".split(sep)` is `[""]`. */
  function Split(s: string, sep: char): (parts: seq<string>)
    ensures |parts| > 0
  {
    if s == [] then [[]]
    else
      var rest := Split(s[1..], sep);
      if s[0] == sep then [[]] + rest else [[s[0]] + rest[0]] + rest[1..]
  }

  /** `parts.join(sep)`; `[].join(sep)` is `""`. */
  function Join(parts: seq<string>, sep: char): string {
    if |parts| == 0 then []
    else if |parts| == 1 then parts[0]
    else parts[0] + [sep] + Join(parts[1..], sep)
  }

  predicate NoSep(s: string, sep: char) {
    forall i :: 0 <= i < |s| ==> s[i] != sep
  }

  predicate AllNoSep(parts: seq<string>, sep: char) {
    forall k :: 0 <= k < |parts| ==> NoSep(parts[k], sep)
  }

  /** No part produced by `split` contains the separator. */
  lemma {:induction false} SplitPartsNoSep(s: string, sep: char)
    ensures AllNoSep(Split(s, sep), sep)
  {
    if s != [] {
      SplitPartsNoSep(s[1..], sep);
      var rest := Split(s[1..], sep);
      if s[0] != sep {
        assert NoSep([s[0]] + rest[0], sep);
      }
    }
  }

  /** Joining what `split` produced gives back the original text, for every text. */
  lemma {:induction false} JoinSplit(s: string, sep: char)
    ensures Join(Split(s, sep), sep) == s
  {
    if s != [] {
      JoinSplit(s[1..], sep);
      var rest := Split(s[1..], sep);
      if s[0] == sep {
        assert Join([[]] + rest, sep) == [] + [sep] + Join(rest, sep);
      } else if |rest| == 1 {
        assert Join([[s[0]] + rest[0]] + rest[1..], sep) == [s[0]] + rest[0];
      } else {
        var parts := [[s[0]] + rest[0]] + rest[1..];
        assert parts[1..] == rest[1..];
        assert Join(parts, sep) == [s[0]] + rest[0] + [sep] + Join(rest[1..], sep);
      }
    }
  }

  lemma {:induction false} SplitNoSep(a: string, sep: char)
    requires NoSep(a, sep)
    ensures Split(a, sep) == [a]
  {
    if a != [] {
      SplitNoSep(a[1..], sep);
      assert [a[0]] + a[1..] == a;
    }
  }

  lemma {:induction false} SplitAfterFirstSep(a: string, b: string, sep: char)
    requires NoSep(a, sep)
    ensures Split(a + [sep] + b, sep) == [a] + Split(b, sep)
  {
    if a == [] {
      assert a + [sep] + b == [sep] + b;
      assert ([sep] + b)[1..] == b;
    } else {
      SplitAfterFirstSep(a[1..], b, sep);
      assert (a + [sep] + b)[0] == a[0];
      assert (a + [sep] + b)[1..] == a[1..] + [sep] + b;
      assert [a[0]] + a[1..] == a;
    }
  }

  /** Splitting a string that starts with `c`: a separator opens an empty part, any other character joins the first part. */
  lemma SplitCons(c: char, s: string, sep: char)
    ensures Split([c] + s, sep) ==
      var rest := Split(s, sep);
      if c == sep then [[]] + rest else [[c] + rest[0]] + rest[1..]
  {
    assert ([c] + s)[1..] == s;
  }

  /** Prepending a character to the first of the parts of `ra + rb`. */
  lemma PrependToFirst(c: char, ra: seq<string>, rb: seq<string>)
    requires |ra| > 0
    ensures [[c] + (ra + rb)[0]] + (ra + rb)[1..] == ([[c] + ra[0]] + ra[1..]) + rb
  {
    assert (ra + rb)[1..] == ra[1..] + rb;
  }

  /** A separator splits the text into what the two sides split into. */
  lemma {:induction false} SplitConcat(a: string, b: string, sep: char)
    ensures Split(a + [sep] + b, sep) == Split(a, sep) + Split(b, sep)
  {
    var s := a + [sep] + b;
    if a == [] {
      assert s == [sep] + b;
      SplitCons(sep, b, sep);
    } else {
      assert s[0] == a[0] && s[1..] == a[1..] + [sep] + b;
      SplitConcat(a[1..], b, sep);
      SplitSameHead(s, a, Split(b, sep), sep);
    }
  }

  /** Two texts with the same first character, whose tails split alike up to the parts `rb`, split alike up to `rb`. */
  lemma SplitSameHead(s: string, a: string, rb: seq<string>, sep: char)
    requires s != [] && a != [] && s[0] == a[0] && Split(s[1..], sep) == Split(a[1..], sep) + rb
    ensures Split(s, sep) == Split(a, sep) + rb
  {
    if a[0] != sep {
      PrependToFirst(a[0], Split(a[1..], sep), rb);
    }
  }

  /** The leading whitespace of a whitespace prefix followed by a non-whitespace character is that prefix. */
  lemma {:induction false} LeadingWhitespaceOfPrefix(w: string, rest: string)
    requires AllWhitespace(w) && rest != [] && !IsWhitespace(rest[0])
    ensures LeadingWhitespace(w + rest) == w
  {
    if w != [] {
      assert (w + rest)[1..] == w[1..] + rest;
      LeadingWhitespaceOfPrefix(w[1..], rest);
      assert [w[0]] + w[1..] == w;
    } else {
      assert w + rest == rest;
    }
  }

  /** Splitting a join gives back the parts, provided there is at least one part and none holds the separator. */
  lemma {:induction false} SplitJoin(parts: seq<string>, sep: char)
    requires |parts| > 0 && AllNoSep(parts, sep)
    ensures Split(Join(parts, sep), sep) == parts
  {
    if |parts| == 1 {
      SplitNoSep(parts[0], sep);
    } else {
      SplitJoin(parts[1..], sep);
      SplitAfterFirstSep(parts[0], Join(parts[1..], sep), sep);
    }
  }

  /** The empty list is the one case the round trip cannot restore: `[].join(sep).split(sep)` is `[""]`. */
  lemma SplitJoinEmpty(sep: char)
    ensures Split(Join([], sep), sep) == [[]]
  {
  }

  lemma {:induction false} JoinNoSep(parts: seq<string>, c: char, sep: char)
    requires c != sep && AllNoSep(parts, c)
    ensures NoSep(Join(parts, sep), c)
  {
    if |parts| > 1 {
      JoinNoSep(parts[1..], c, sep);
    }
  }

  /** `s.repeat(n)`. */
  function Repeat(s: string, n: nat): (r: string)
    ensures |r| == n * |s|
  {
    if n == 0 then [] else s + Repeat(s, n - 1)
  }

  lemma {:induction false} RepeatNoSep(s: string, n: nat, c: char)
    requires NoSep(s, c)
    ensures NoSep(Repeat(s, n), c)
  {
    if n > 0 {
      RepeatNoSep(s, n - 1, c);
    }
  }

  lemma {:induction false} RepeatAllWhitespace(s: string, n: nat)
    requires AllWhitespace(s)
    ensures AllWhitespace(Repeat(s, n))
  {
    if n > 0 {
      RepeatAllWhitespace(s, n - 1);
    }
  }
}
