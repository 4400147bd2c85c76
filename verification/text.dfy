/** The Python string and list operations the repository relies on:
    `lower`, `in` on strings, `startswith`, `strip`, `split()`, `split(sep)`,
    `join`, `replace`, `str(n)` for naturals, and order-preserving selection
    from a list. */
module Text {

  /** Python's `str.isspace()` characters: what `split()` and `strip()` treat as blanks. */
  predicate IsSpace(c: char) {
    c == ' ' || ('\t' <= c <= '\r') || ('\U{1C}' <= c <= '\U{1F}')
    || c == '\U{85}' || c == '\U{A0}' || c == '\U{1680}'
    || ('\U{2000}' <= c <= '\U{200A}') || c == '\U{2028}' || c == '\U{2029}'
    || c == '\U{202F}' || c == '\U{205F}' || c == '\U{3000}'
  }

  predicate IsAsciiUpper(c: char) { 'A' <= c <= 'Z' }

  predicate IsAsciiAlnum(c: char) {
    ('a' <= c <= 'z') || ('A' <= c <= 'Z') || ('0' <= c <= '9')
  }

  function LowerChar(c: char): char {
    if IsAsciiUpper(c) then (c as int + 32) as char else c
  }

  /** `s.lower()` on the ASCII letters; other characters are kept. */
  function Lower(s: string): (r: string)
    ensures |r| == |s|
    ensures forall i :: 0 <= i < |s| ==> r[i] == LowerChar(s[i])
  {
    seq(|s|, i requires 0 <= i < |s| => LowerChar(s[i]))
  }

  lemma LowerAppend(a: string, b: string)
    ensures Lower(a + b) == Lower(a) + Lower(b)
  {
  }

  lemma LowerHasNoUpper(s: string)
    ensures forall i :: 0 <= i < |Lower(s)| ==> !IsAsciiUpper(Lower(s)[i])
  {
  }

  predicate StartsWith(s: string, prefix: string) {
    |prefix| <= |s| && s[..|prefix|] == prefix
  }

  /** Python's `w in s` for strings: `w` occurs in `s` as a contiguous piece. */
  predicate Contains(s: string, w: string)
    decreases |s|
  {
    StartsWith(s, w) || (|s| > 0 && Contains(s[1..], w))
  }

  lemma ContainsAt(s: string, w: string, i: nat)
    requires i + |w| <= |s| && s[i..i + |w|] == w
    ensures Contains(s, w)
    decreases i
  {
    if i > 0 {
      assert s[1..][i - 1..i - 1 + |w|] == w;
      ContainsAt(s[1..], w, i - 1);
    }
  }

  lemma ContainsInfix(a: string, w: string, b: string)
    ensures Contains(a + w + b, w)
  {
    assert (a + w + b)[|a|..|a| + |w|] == w;
    ContainsAt(a + w + b, w, |a|);
  }

  /** Whatever occurs in `a` occurs in `a + b`. */
  lemma ContainsPrefix(a: string, b: string, w: string)
    requires Contains(a, w)
    ensures Contains(a + b, w)
    decreases |a|
  {
    if StartsWith(a, w) {
      assert (a + b)[..|w|] == a[..|w|];
    } else {
      assert (a + b)[1..] == a[1..] + b;
      ContainsPrefix(a[1..], b, w);
    }
  }

  /** Where an occurring piece starts. */
  lemma {:induction false} ContainsIndex(s: string, w: string) returns (i: nat)
    requires Contains(s, w)
    ensures i + |w| <= |s| && s[i..i + |w|] == w
    decreases |s|
  {
    if StartsWith(s, w) {
      i := 0;
    } else {
      var j := ContainsIndex(s[1..], w);
      i := j + 1;
      assert s[i..i + |w|] == s[1..][j..j + |w|];
    }
  }

  /** A piece of a piece is a piece. */
  lemma ContainsTrans(s: string, w: string, v: string)
    requires Contains(s, w) && Contains(w, v)
    ensures Contains(s, v)
  {
    var i := ContainsIndex(s, w);
    var j := ContainsIndex(w, v);
    forall k | 0 <= k < |v| ensures s[i + j + k] == v[k] {
      assert s[i + j + k] == s[i..i + |w|][j + k] == w[j..j + |v|][k];
    }
    assert s[i + j..i + j + |v|] == v;
    ContainsAt(s, v, i + j);
  }

  /** Lowercasing keeps occurrences. */
  lemma ContainsLower(s: string, w: string)
    requires Contains(s, w)
    ensures Contains(Lower(s), Lower(w))
  {
    var i := ContainsIndex(s, w);
    assert Lower(s)[i..i + |w|] == Lower(w);
    ContainsAt(Lower(s), Lower(w), i);
  }

  /** A piece `w` whose first character never occurs in `p` cannot start inside `p`. */
  lemma {:induction false} ContainsPastForeignPrefix(p: string, t: string, w: string)
    requires |w| > 0
    requires forall i :: 0 <= i < |p| ==> p[i] != w[0]
    requires Contains(p + t, w)
    ensures Contains(t, w)
    decreases |p|
  {
    if |p| > 0 {
      assert (p + t)[0] == p[0];
      assert !StartsWith(p + t, w);
      assert (p + t)[1..] == p[1..] + t;
      ContainsPastForeignPrefix(p[1..], t, w);
    } else {
      assert p + t == t;
    }
  }

  /** Python's `s.replace(pat, rep)`: every non-overlapping occurrence of `pat`,
      scanning left to right, becomes `rep`. */
  function Replace(s: string, pat: string, rep: string): string
    requires |pat| > 0
    decreases |s|
  {
    if |s| < |pat| then s
    else if s[..|pat|] == pat then rep + Replace(s[|pat|..], pat, rep)
    else [s[0]] + Replace(s[1..], pat, rep)
  }

  lemma {:induction false} ReplaceAbsent(s: string, pat: string, rep: string)
    requires |pat| > 0 && !Contains(s, pat)
    ensures Replace(s, pat, rep) == s
    decreases |s|
  {
    if |s| >= |pat| {
      assert !StartsWith(s, pat);
      ReplaceAbsent(s[1..], pat, rep);
    }
  }

  lemma ReplaceHead(s: string, pat: string, rep: string)
    requires |pat| > 0 && |rep| > 0
    ensures |s| >= |pat| && s[..|pat|] == pat ==> Replace(s, pat, rep)[0] == rep[0]
  {
  }

  /** If the first character of `rep` is not in `w`, any copy of `w` at the start of
      the replaced text was already at the start of the original. */
  lemma {:induction false} ReplaceStartsWith(s: string, pat: string, rep: string, w: string)
    requires |pat| > 0 && |rep| > 0
    requires forall i :: 0 <= i < |w| ==> w[i] != rep[0]
    requires StartsWith(Replace(s, pat, rep), w)
    ensures StartsWith(s, w)
    decreases |w|
  {
    if |w| > 0 && |s| >= |pat| {
      var r := Replace(s, pat, rep);
      ReplaceHead(s, pat, rep);
      assert w[0] == r[0];
      assert s[..|pat|] != pat;
      assert r == [s[0]] + Replace(s[1..], pat, rep);
      assert w[0] == s[0];
      assert StartsWith(Replace(s[1..], pat, rep), w[1..]) by {
        assert r[1..] == Replace(s[1..], pat, rep);
        assert r[1..][..|w| - 1] == w[1..];
      }
      ReplaceStartsWith(s[1..], pat, rep, w[1..]);
      assert s == [s[0]] + s[1..];
    }
  }

  /** `replace` leaves no occurrence of `w` behind when `w` is `pat` itself or was
      absent before, provided `rep` and `w` do not share their leading characters. */
  lemma {:induction false} ReplaceLeavesNo(s: string, pat: string, rep: string, w: string)
    requires |pat| > 0 && |rep| > 0 && |w| > 0
    requires forall i :: 0 <= i < |rep| ==> rep[i] != w[0]
    requires forall i :: 0 <= i < |w| ==> w[i] != rep[0]
    requires w == pat || !Contains(s, w)
    ensures !Contains(Replace(s, pat, rep), w)
    decreases |s|
  {
    var r := Replace(s, pat, rep);
    if |s| < |pat| {
      if w == pat {
        NotContainsShort(s, w);
      }
    } else if s[..|pat|] == pat {
      var rest := s[|pat|..];
      if w != pat {
        assert s == pat + rest;
        if Contains(rest, w) {
          ContainsSuffix(pat, rest, w);
        }
      }
      ReplaceLeavesNo(rest, pat, rep, w);
      if Contains(r, w) {
        ContainsPastForeignPrefix(rep, Replace(rest, pat, rep), w);
      }
    } else {
      ReplaceLeavesNo(s[1..], pat, rep, w);
      if Contains(r, w) {
        assert r[1..] == Replace(s[1..], pat, rep);
        ReplaceStartsWith(s, pat, rep, w);
        assert false;
      }
    }
  }

  /** The middle of a three-part text is recovered by cutting off the outer parts. */
  lemma Middle(a: string, e: string, b: string)
    ensures (a + e + b)[|a|..|a + e + b| - |b|] == e
  {
  }

  /** A piece cannot occur where its first two characters never stand side by side. */
  lemma NoPairNoContains(s: string, w: string)
    requires |w| >= 2
    requires forall i :: 0 <= i < |s| - 1 ==> !(s[i] == w[0] && s[i + 1] == w[1])
    ensures !Contains(s, w)
  {
    if Contains(s, w) {
      var i := ContainsIndex(s, w);
      SliceStart(s, w, i);
      assert false;
    }
  }

  lemma SliceStart(s: string, w: string, i: nat)
    requires |w| >= 2 && i + |w| <= |s| && s[i..i + |w|] == w
    ensures s[i] == w[0] && s[i + 1] == w[1]
  {
    assert s[i..i + |w|][0] == s[i] && s[i..i + |w|][1] == s[i + 1];
  }

  /** A piece cannot occur where its first character does not. */
  lemma {:induction false} ContainsFirstChar(s: string, w: string)
    requires |w| > 0 && Contains(s, w)
    ensures w[0] in s
    decreases |s|
  {
    if !StartsWith(s, w) {
      ContainsFirstChar(s[1..], w);
    } else {
      assert s[0] == w[0];
    }
  }

  /** Text before the first possible start of `pat` is left alone by `replace`. */
  lemma {:induction false} ReplaceForeignPrefix(a: string, b: string, pat: string, rep: string)
    requires |pat| > 0 && pat[0] !in a
    ensures Replace(a + b, pat, rep) == a + Replace(b, pat, rep)
    decreases |a|
  {
    if |a| > 0 {
      var s := a + b;
      assert s[0] == a[0];
      if |s| >= |pat| {
        assert s[..|pat|] != pat by { assert s[..|pat|][0] == a[0]; }
        assert s[1..] == a[1..] + b;
        ReplaceForeignPrefix(a[1..], b, pat, rep);
        assert a == [a[0]] + a[1..];
      } else {
        assert |b| < |pat|;
      }
    } else {
      assert a + b == b;
    }
  }

  lemma {:induction false} NotContainsShort(s: string, w: string)
    requires |s| < |w|
    ensures !Contains(s, w)
    decreases |s|
  {
    if |s| > 0 {
      NotContainsShort(s[1..], w);
    }
  }

  lemma {:induction false} ContainsSuffix(p: string, t: string, w: string)
    requires Contains(t, w)
    ensures Contains(p + t, w)
    decreases |p|
  {
    if |p| > 0 {
      assert (p + t)[1..] == p[1..] + t;
      ContainsSuffix(p[1..], t, w);
    } else {
      assert p + t == t;
    }
  }

  function StripStart(s: string): (r: string)
    ensures |r| <= |s| && r == s[|s| - |r|..]
    ensures |r| > 0 ==> !IsSpace(r[0])
    decreases |s|
  {
    if |s| > 0 && IsSpace(s[0]) then StripStart(s[1..]) else s
  }

  function StripEnd(s: string): (r: string)
    ensures |r| <= |s| && r == s[..|r|]
    ensures |r| > 0 ==> !IsSpace(r[|r| - 1])
    decreases |s|
  {
    if |s| > 0 && IsSpace(s[|s| - 1]) then StripEnd(s[..|s| - 1]) else s
  }

  /** Python's `s.strip()`. */
  function Strip(s: string): string {
    StripEnd(StripStart(s))
  }

  /** A text with non-blank ends is its own strip. */
  lemma StripFixed(s: string)
    requires |s| > 0 && !IsSpace(s[0]) && !IsSpace(s[|s| - 1])
    ensures Strip(s) == s
  {
  }

  lemma StripBlankFirst(c: char, s: string)
    requires IsSpace(c)
    ensures Strip([c] + s) == Strip(s)
  {
    assert ([c] + s)[1..] == s;
  }

  predicate IsWord(w: string) {
    |w| > 0 && forall i :: 0 <= i < |w| ==> !IsSpace(w[i])
  }

  /** Length of the leading run of non-blank characters. */
  function WordLength(t: string): (n: nat)
    ensures n <= |t|
    ensures forall i :: 0 <= i < n ==> !IsSpace(t[i])
    ensures n < |t| ==> IsSpace(t[n])
  {
    if |t| == 0 || IsSpace(t[0]) then 0 else 1 + WordLength(t[1..])
  }

  /** Python's `s.split()`: the maximal runs of non-blank characters, in order. */
  function SplitWords(s: string): (ws: seq<string>)
    ensures forall i :: 0 <= i < |ws| ==> IsWord(ws[i])
    decreases |s|
  {
    var t := StripStart(s);
    if t == [] then []
    else
      var n := WordLength(t);
      assert n >= 1;
      [t[..n]] + SplitWords(t[n..])
  }

  /** Python's `sep.join(parts)`. */
  function Join(parts: seq<string>, sep: string): string {
    if |parts| == 0 then ""
    else if |parts| == 1 then parts[0]
    else parts[0] + sep + Join(parts[1..], sep)
  }

  lemma {:induction false} SplitLeadingBlank(c: char, x: string)
    requires IsSpace(c)
    ensures SplitWords([c] + x) == SplitWords(x)
    ensures c == ' ' ==> SplitWords(" " + x) == SplitWords(x)
  {
    assert ([c] + x)[1..] == x;
  }

  /** A word followed by a blank (or by nothing) is split off as the first word. */
  lemma SplitWordsCons(w: string, tail: string)
    requires IsWord(w)
    requires |tail| == 0 || IsSpace(tail[0])
    ensures SplitWords(w + tail) == [w] + SplitWords(tail)
  {
    var s := w + tail;
    assert s[0] == w[0];
    assert StripStart(s) == s;
    WordLengthOfWord(w, tail);
    assert s[..|w|] == w;
    assert s[|w|..] == tail;
  }

  /** Joining words with single blanks and splitting again gives the words back. */
  lemma {:induction false} SplitJoinWords(ws: seq<string>)
    requires forall i :: 0 <= i < |ws| ==> IsWord(ws[i])
    ensures SplitWords(Join(ws, " ")) == ws
    decreases |ws|
  {
    if |ws| == 1 {
      assert ws == [ws[0]];
      SplitJoinSingle(ws[0]);
    } else if |ws| > 1 {
      var w, rest := ws[0], ws[1..];
      assert ws == [w] + rest;
      SplitJoinWords(rest);
      SplitJoinStep(w, rest);
    }
  }

  lemma SplitJoinSingle(w: string)
    requires IsWord(w)
    ensures SplitWords(Join([w], " ")) == [w]
  {
    SplitWordsCons(w, []);
    assert w + [] == w;
  }

  lemma JoinCons(w: string, rest: seq<string>, sep: string)
    requires |rest| > 0
    ensures Join([w] + rest, sep) == w + (sep + Join(rest, sep))
  {
    var ws := [w] + rest;
    assert ws[0] == w && ws[1..] == rest;
  }

  lemma SplitJoinStep(w: string, rest: seq<string>)
    requires IsWord(w) && |rest| > 0
    requires SplitWords(Join(rest, " ")) == rest
    ensures SplitWords(Join([w] + rest, " ")) == [w] + rest
  {
    var tail := Join(rest, " ");
    JoinCons(w, rest, " ");
    SplitWordsCons(w, " " + tail);
    SplitLeadingBlank(' ', tail);
  }

  lemma {:induction false} WordLengthOfWord(w: string, tail: string)
    requires forall i :: 0 <= i < |w| ==> !IsSpace(w[i])
    requires |tail| == 0 || IsSpace(tail[0])
    ensures WordLength(w + tail) == |w|
    decreases |w|
  {
    if |w| == 0 {
      assert w + tail == tail;
    } else {
      assert (w + tail)[1..] == w[1..] + tail;
      WordLengthOfWord(w[1..], tail);
    }
  }

  function IndexOf(s: string, c: char): (i: nat)
    requires c in s
    ensures i < |s| && s[i] == c && c !in s[..i]
  {
    if s[0] == c then 0 else 1 + IndexOf(s[1..], c)
  }

  /** Python's `s.split(sep)` for a one-character separator: never empty, and
      the pieces carry no separator. */
  function SplitOn(s: string, sep: char): (parts: seq<string>)
    ensures |parts| >= 1
    ensures forall i :: 0 <= i < |parts| ==> sep !in parts[i]
    decreases |s|
  {
    if sep in s then
      var i := IndexOf(s, sep);
      [s[..i]] + SplitOn(s[i + 1..], sep)
    else [s]
  }

  /** Splitting on a separator and joining with it again restores the text. */
  lemma {:induction false} JoinSplitOn(s: string, sep: char)
    ensures Join(SplitOn(s, sep), [sep]) == s
    decreases |s|
  {
    if sep in s {
      var i := IndexOf(s, sep);
      JoinSplitOn(s[i + 1..], sep);
      assert SplitOn(s, sep)[1..] == SplitOn(s[i + 1..], sep);
      assert s == s[..i] + [sep] + s[i + 1..];
    }
  }

  /** The first separator of `p + [c] + t`, when `p` has none, ends `p`. */
  lemma {:induction false} IndexOfAfter(p: string, c: char, t: string)
    requires c !in p
    ensures c in p + [c] + t && IndexOf(p + [c] + t, c) == |p|
    decreases |p|
  {
    var s := p + [c] + t;
    assert s[|p|] == c;
    if |p| > 0 {
      assert s[1..] == p[1..] + [c] + t;
      IndexOfAfter(p[1..], c, t);
    }
  }

  /** Splitting `p + [sep] + t`, when `p` has no separator, gives `p` first. */
  lemma SplitOnAfter(p: string, sep: char, t: string)
    requires sep !in p
    ensures SplitOn(p + [sep] + t, sep) == [p] + SplitOn(t, sep)
  {
    var s := p + [sep] + t;
    IndexOfAfter(p, sep, t);
    assert s[..|p|] == p;
    assert s[|p| + 1..] == t;
  }

  /** Joining separator-free pieces and splitting again gives the pieces back. */
  lemma {:induction false} SplitOnJoin(parts: seq<string>, sep: char)
    requires |parts| >= 1
    requires forall i :: 0 <= i < |parts| ==> sep !in parts[i]
    ensures SplitOn(Join(parts, [sep]), sep) == parts
    decreases |parts|
  {
    if |parts| > 1 {
      var rest := Join(parts[1..], [sep]);
      SplitOnAfter(parts[0], sep, rest);
      SplitOnJoin(parts[1..], sep);
      assert parts == [parts[0]] + parts[1..];
    }
  }

  predicate IsDigit(c: char) { '0' <= c <= '9' }

  function DigitChar(d: nat): char
    requires d < 10
  {
    ('0' as int + d) as char
  }

  /** Python's `str(n)` for a natural number. */
  function NatToString(n: nat): (r: string)
    ensures |r| >= 1
    ensures forall i :: 0 <= i < |r| ==> IsDigit(r[i])
  {
    if n < 10 then [DigitChar(n)] else NatToString(n / 10) + [DigitChar(n % 10)]
  }

  /** Decimal value of a digit string: the inverse of `NatToString`. */
  function DigitValue(c: char): nat
    requires IsDigit(c)
  {
    c as int - '0' as int
  }

  function DigitsValue(s: string): nat
    requires forall i :: 0 <= i < |s| ==> IsDigit(s[i])
  {
    if s == [] then 0
    else 10 * DigitsValue(s[..|s| - 1]) + DigitValue(s[|s| - 1])
  }

  lemma {:induction false} DigitsValueOfNatToString(n: nat)
    ensures DigitsValue(NatToString(n)) == n
  {
    if n >= 10 {
      var r := NatToString(n);
      assert r[..|r| - 1] == NatToString(n / 10);
      DigitsValueOfNatToString(n / 10);
    }
  }

  lemma NatToStringInjective(a: nat, b: nat)
    requires NatToString(a) == NatToString(b)
    ensures a == b
  {
    DigitsValueOfNatToString(a);
    DigitsValueOfNatToString(b);
  }

  /** `a` can be obtained from `b` by deleting elements, keeping the order. */
  predicate IsSubsequence<T(==)>(a: seq<T>, b: seq<T>)
    decreases |b|
  {
    |a| == 0 || (|b| > 0 && ((a[0] == b[0] && IsSubsequence(a[1..], b[1..])) || IsSubsequence(a, b[1..])))
  }
}
