/**
 * The string operations the scanner relies on, with Python's meaning:
 * `str.strip()` and `str.strip(",")` (trimming both ends), `str.split()`
 * (maximal runs of non-whitespace) and `str.split(",")` (one field per
 * comma-separated piece, empty fields kept).
 */
module Text {

  /**
   * The characters Python's `str.isspace` accepts, as inclusive code-point
   * ranges: tab to carriage return, the four information separators and the
   * space, next line, no-break space, ogham space mark, the en quad to hair
   * space block, line and paragraph separators, narrow no-break space, medium
   * mathematical space and ideographic space.
   */
  const SpaceRanges: seq<(char, char)> := [
    ('\t', '\r'), ('\U{1c}', ' '), ('\U{85}', '\U{85}'), ('\U{a0}', '\U{a0}'),
    ('\U{1680}', '\U{1680}'), ('\U{2000}', '\U{200a}'), ('\U{2028}', '\U{2029}'),
    ('\U{202f}', '\U{202f}'), ('\U{205f}', '\U{205f}'), ('\U{3000}', '\U{3000}')]

  /** Python's `str.isspace` for one character. */
  predicate IsSpace(c: char) {
    exists k :: 0 <= k < |SpaceRanges| && SpaceRanges[k].0 <= c <= SpaceRanges[k].1
  }

  /** The two character sets the script strips: `strip()` and `strip(",")`. */
  datatype CharSet = Whitespace | Comma

  predicate InSet(c: char, cs: CharSet) {
    match cs
    case Whitespace => IsSpace(c)
    case Comma => c == ','
  }

  /** Every character of `s` is in `cs`. */
  predicate AllIn(s: string, cs: CharSet) {
    forall k :: 0 <= k < |s| ==> InSet(s[k], cs)
  }

  /** Drops the leading characters in `cs`. */
  function TrimLeft(s: string, cs: CharSet): string
    decreases |s|
  {
    if s != [] && InSet(s[0], cs) then TrimLeft(s[1..], cs) else s
  }

  /** Drops the trailing characters in `cs`. */
  function TrimRight(s: string, cs: CharSet): string
    decreases |s|
  {
    if s != [] && InSet(s[|s| - 1], cs) then TrimRight(s[..|s| - 1], cs) else s
  }

  /** Python's `s.strip(chars)`: the characters of `chars` are those in `cs`. */
  function StripBy(s: string, cs: CharSet): string {
    TrimRight(TrimLeft(s, cs), cs)
  }

  /** Trimming on the left removes a prefix of characters in `cs` and stops at one outside it. */
  lemma {:induction false} TrimLeftFacts(s: string, cs: CharSet)
    ensures var r := TrimLeft(s, cs);
            |r| <= |s| && r == s[|s| - |r|..] &&
            (forall i :: 0 <= i < |s| - |r| ==> InSet(s[i], cs)) &&
            (r != [] ==> !InSet(r[0], cs))
    decreases |s|
  {
    if s != [] && InSet(s[0], cs) {
      var tail := s[1..];
      TrimLeftFacts(tail, cs);
      var r := TrimLeft(tail, cs);
      assert tail[|tail| - |r|..] == s[|s| - |r|..];
      forall i | 0 <= i < |s| - |r|
        ensures InSet(s[i], cs)
      {
        if i > 0 {
          assert s[i] == tail[i - 1];
        }
      }
    }
  }

  /** Trimming on the right removes a suffix of characters in `cs` and stops at one outside it. */
  lemma {:induction false} TrimRightFacts(s: string, cs: CharSet)
    ensures var r := TrimRight(s, cs);
            |r| <= |s| && r == s[..|r|] &&
            (forall i :: |r| <= i < |s| ==> InSet(s[i], cs)) &&
            (r != [] ==> !InSet(r[|r| - 1], cs))
    decreases |s|
  {
    if s != [] && InSet(s[|s| - 1], cs) {
      var init := s[..|s| - 1];
      TrimRightFacts(init, cs);
      var r := TrimRight(init, cs);
      assert init[..|r|] == s[..|r|];
      forall i | |r| <= i < |s|
        ensures InSet(s[i], cs)
      {
        if i < |init| {
          assert s[i] == init[i];
        }
      }
    }
  }

  /**
   * `strip` keeps the slice `s[i..j]` between a prefix and a suffix made of
   * characters in `cs`; what it keeps neither starts nor ends with one of them,
   * and it is empty exactly when every character of `s` is in `cs`.
   */
  lemma StripFacts(s: string, cs: CharSet) returns (i: nat, j: nat)
    ensures i <= j <= |s| && StripBy(s, cs) == s[i..j]
    ensures forall k :: 0 <= k < i ==> InSet(s[k], cs)
    ensures forall k :: j <= k < |s| ==> InSet(s[k], cs)
    ensures StripBy(s, cs) != [] ==> !InSet(s[i], cs) && !InSet(s[j - 1], cs)
    ensures StripBy(s, cs) == [] <==> forall k :: 0 <= k < |s| ==> InSet(s[k], cs)
  {
    var t := TrimLeft(s, cs);
    TrimLeftFacts(s, cs);
    TrimRightFacts(t, cs);
    var r := TrimRight(t, cs);
    i := |s| - |t|;
    j := i + |r|;
    assert r == s[i..j];
    if r != [] {
      assert s[i] == r[0] && s[j - 1] == r[|r| - 1];
    }
    forall k | j <= k < |s|
      ensures InSet(s[k], cs)
    {
      assert s[k] == t[k - i];
    }
  }

  /** Python's `s.strip()`. */
  function Strip(s: string): string {
    StripBy(s, Whitespace)
  }

  /** A non-empty string without whitespace. */
  predicate IsToken(w: string) {
    w != [] && forall i :: 0 <= i < |w| ==> !IsSpace(w[i])
  }

  /**
   * Python's `s.split()`: the maximal runs of non-whitespace characters, in
   * order. Built from the left: a non-whitespace character after another one
   * extends the last token, after whitespace (or at the start) it opens a new one.
   */
  function Tokens(s: string): (r: seq<string>)
    ensures s != [] && !IsSpace(s[|s| - 1]) ==> r != []
    decreases |s|
  {
    if s == [] then []
    else
      var init := Tokens(s[..|s| - 1]);
      var c := s[|s| - 1];
      if IsSpace(c) then init
      else if |s| >= 2 && !IsSpace(s[|s| - 2]) then init[..|init| - 1] + [init[|init| - 1] + [c]]
      else init + [[c]]
  }

  /** Every token is non-empty and free of whitespace. */
  lemma {:induction false} TokensAreTokens(s: string)
    ensures forall k :: 0 <= k < |Tokens(s)| ==> IsToken(Tokens(s)[k])
    decreases |s|
  {
    if s != [] {
      var init := s[..|s| - 1];
      var c := s[|s| - 1];
      TokensAreTokens(init);
      var t := Tokens(init);
      if !IsSpace(c) && |s| >= 2 && !IsSpace(s[|s| - 2]) {
        var w := t[|t| - 1];
        assert IsToken(w);
        assert IsToken(w + [c]);
        assert forall k :: 0 <= k < |t| - 1 ==> t[..|t| - 1][k] == t[k];
      }
    }
  }

  /**
   * The number of maximal runs of non-whitespace in `s`: positions holding a
   * non-whitespace character that is first or follows whitespace.
   */
  function RunCount(s: string): nat
    decreases |s|
  {
    if s == [] then 0
    else
      var n := |s|;
      RunCount(s[..n - 1]) + (if !IsSpace(s[n - 1]) && (n == 1 || IsSpace(s[n - 2])) then 1 else 0)
  }

  /** The non-whitespace characters of `s`, in order. */
  function NonSpace(s: string): string
    decreases |s|
  {
    if s == [] then [] else NonSpace(s[..|s| - 1]) + (if IsSpace(s[|s| - 1]) then [] else [s[|s| - 1]])
  }

  function Concat(parts: seq<string>): string
    decreases |parts|
  {
    if parts == [] then [] else Concat(parts[..|parts| - 1]) + parts[|parts| - 1]
  }

  /** `split()` yields one token per maximal non-whitespace run. */
  lemma {:induction false} TokensCountRuns(s: string)
    ensures |Tokens(s)| == RunCount(s)
    decreases |s|
  {
    if s != [] {
      TokensCountRuns(s[..|s| - 1]);
    }
  }

  /** `split()` keeps every non-whitespace character, in order, and nothing else. */
  lemma {:induction false} TokensKeepText(s: string)
    ensures Concat(Tokens(s)) == NonSpace(s)
    decreases |s|
  {
    if s != [] {
      var init := Tokens(s[..|s| - 1]);
      var c := s[|s| - 1];
      TokensKeepText(s[..|s| - 1]);
      if IsSpace(c) {
      } else if |s| >= 2 && !IsSpace(s[|s| - 2]) {
        var front := init[..|init| - 1];
        var w := init[|init| - 1];
        assert Tokens(s) == front + [w + [c]];
        assert (front + [w + [c]])[..|front|] == front;
        assert init[..|init| - 1] == front;
        assert Concat(front + [w + [c]]) == Concat(front) + (w + [c]);
        assert Concat(init) == Concat(front) + w;
      } else {
        assert (init + [[c]])[..|init|] == init;
      }
    }
  }

  /** A string with some non-whitespace character has at least one token. */
  lemma {:induction false} TokensNonEmpty(s: string, i: nat)
    requires i < |s| && !IsSpace(s[i])
    ensures Tokens(s) != []
    decreases |s|
  {
    if i < |s| - 1 && IsSpace(s[|s| - 1]) {
      TokensNonEmpty(s[..|s| - 1], i);
    }
  }

  /** The index of the first non-whitespace character of `s`, or `|s|` when there is none. */
  function FirstNonSpace(s: string): (i: nat)
    ensures i <= |s|
    ensures forall k :: 0 <= k < i ==> IsSpace(s[k])
    ensures i < |s| ==> !IsSpace(s[i])
  {
    if s == [] || !IsSpace(s[0]) then 0 else 1 + FirstNonSpace(s[1..])
  }

  /** Where the run of non-whitespace starting at `i` ends: the next whitespace index, or `|s|`. */
  function RunEnd(s: string, i: nat): (j: nat)
    requires i <= |s|
    ensures i <= j <= |s|
    ensures forall k :: i <= k < j ==> !IsSpace(s[k])
    ensures j < |s| ==> IsSpace(s[j])
    decreases |s| - i
  {
    if i == |s| || IsSpace(s[i]) then i else RunEnd(s, i + 1)
  }

  /** Whitespace-only text has no tokens. */
  lemma {:induction false} TokensOfSpaces(s: string)
    requires AllIn(s, Whitespace)
    ensures Tokens(s) == []
    decreases |s|
  {
    if s != [] {
      TokensOfSpaces(s[..|s| - 1]);
    }
  }

  /** A single token splits into itself. */
  lemma {:induction false} TokensOfToken(w: string)
    requires IsToken(w)
    ensures Tokens(w) == [w]
    decreases |w|
  {
    if |w| == 1 {
      assert w[..0] == [];
      assert w == [w[0]];
    } else {
      var init := w[..|w| - 1];
      TokensOfToken(init);
      assert init + [w[|w| - 1]] == w;
    }
  }

  /** One more character: whitespace ends nothing new, a character after whitespace opens a token, otherwise it extends the last one. */
  lemma TokensSnoc(s: string, c: char)
    ensures IsSpace(c) ==> Tokens(s + [c]) == Tokens(s)
    ensures !IsSpace(c) && (s == [] || IsSpace(s[|s| - 1])) ==> Tokens(s + [c]) == Tokens(s) + [[c]]
    ensures !IsSpace(c) && s != [] && !IsSpace(s[|s| - 1]) ==>
              var t := Tokens(s);
              t != [] && Tokens(s + [c]) == t[..|t| - 1] + [t[|t| - 1] + [c]]
  {
    var sc := s + [c];
    assert sc[..|sc| - 1] == s;
    assert sc[|sc| - 1] == c;
    if s != [] {
      assert sc[|sc| - 2] == s[|s| - 1];
    }
  }

  lemma ExtendLast<T>(a: seq<seq<T>>, m: seq<seq<T>>, c: T)
    requires m != []
    ensures var am := a + m;
            am[..|am| - 1] + [am[|am| - 1] + [c]] == a + (m[..|m| - 1] + [m[|m| - 1] + [c]])
  {
    var am := a + m;
    assert am[..|am| - 1] == a + m[..|m| - 1];
  }

  /** Text split at a whitespace boundary splits into the tokens of each side. */
  lemma {:induction false} TokensAppend(x: string, y: string)
    requires x == [] || y == [] || IsSpace(x[|x| - 1]) || IsSpace(y[0])
    ensures Tokens(x + y) == Tokens(x) + Tokens(y)
    decreases |y|
  {
    if y == [] {
      assert x + y == x;
    } else {
      var front := y[..|y| - 1];
      var c := y[|y| - 1];
      var xf := x + front;
      assert y == front + [c];
      assert x + y == xf + [c];
      assert front != [] ==> xf[|xf| - 1] == front[|front| - 1];
      TokensAppend(x, front);
      TokensSnoc(xf, c);
      TokensSnoc(front, c);
      if IsSpace(c) {
        assert Tokens(x + y) == Tokens(xf);
      } else if front == [] {
        assert xf == x && y == [c];
        assert Tokens(y) == [[c]];
        assert Tokens(x + y) == Tokens(x) + [[c]];
      } else if IsSpace(front[|front| - 1]) {
        assert Tokens(x + y) == Tokens(xf) + [[c]];
        assert Tokens(y) == Tokens(front) + [[c]];
      } else {
        ExtendLast(Tokens(x), Tokens(front), c);
      }
    }
  }

  lemma ThreeParts<T>(s: seq<T>, a: nat, b: nat)
    requires a <= b <= |s|
    ensures s == s[..a] + (s[a..b] + s[b..])
  {
    assert s[a..b] + s[b..] == s[a..];
  }

  /** Leading whitespace adds no token, and a whitespace boundary splits the rest. */
  lemma TokensAround(pre: string, mid: string, post: string)
    requires AllIn(pre, Whitespace)
    requires post == [] || IsSpace(post[0])
    ensures Tokens(pre + (mid + post)) == Tokens(mid) + Tokens(post)
  {
    TokensOfSpaces(pre);
    TokensAppend(mid, post);
    TokensAppend(pre, mid + post);
  }

  /**
   * `split()` from the front: no token when the text is whitespace only;
   * otherwise the first token is the run of non-whitespace starting at the
   * first non-whitespace character, and the rest are the tokens after it.
   */
  lemma TokensFirstRun(s: string)
    ensures FirstNonSpace(s) == |s| ==> Tokens(s) == []
    ensures FirstNonSpace(s) < |s| ==>
              var a := FirstNonSpace(s);
              var b := RunEnd(s, a);
              Tokens(s) == [s[a..b]] + Tokens(s[b..])
  {
    var a := FirstNonSpace(s);
    if a == |s| {
      assert AllIn(s, Whitespace);
      TokensOfSpaces(s);
    } else {
      var b := RunEnd(s, a);
      var run := s[a..b];
      ThreeParts(s, a, b);
      forall k | 0 <= k < |run|
        ensures !IsSpace(run[k])
      {
        assert run[k] == s[a + k];
      }
      TokensOfToken(run);
      TokensAround(s[..a], run, s[b..]);
    }
  }

  /** `split()` gives the same tokens with or without `strip()` first. */
  lemma TokensOfStrip(s: string)
    ensures Tokens(Strip(s)) == Tokens(s)
  {
    var i, j := StripFacts(s, Whitespace);
    ThreeParts(s, i, j);
    TokensOfSpaces(s[j..]);
    TokensAround(s[..i], s[i..j], s[j..]);
  }

  function Occurrences(s: string, c: char): nat {
    if s == [] then 0 else (if s[0] == c then 1 else 0) + Occurrences(s[1..], c)
  }

  /** Python's `s.split(sep)` for a one-character separator. */
  function SplitOn(s: string, sep: char): (r: seq<string>)
    ensures |r| == Occurrences(s, sep) + 1
    ensures forall k :: 0 <= k < |r| ==> sep !in r[k]
  {
    if s == [] then [[]]
    else
      var rest := SplitOn(s[1..], sep);
      if s[0] == sep then [[]] + rest else [[s[0]] + rest[0]] + rest[1..]
  }

  /** The index of the first `sep` in `s`, or `|s|` when there is none. */
  function SepIndex(s: string, sep: char): (i: nat)
    ensures i <= |s|
    ensures sep !in s[..i]
    ensures i < |s| ==> s[i] == sep
  {
    if s == [] || s[0] == sep then 0 else 1 + SepIndex(s[1..], sep)
  }

  /** The first field of `s.split(sep)` is the text before the first separator. */
  lemma {:induction false} SplitFirstField(s: string, sep: char)
    ensures SplitOn(s, sep)[0] == s[..SepIndex(s, sep)]
  {
    if s != [] && s[0] != sep {
      SplitFirstField(s[1..], sep);
      assert s[..SepIndex(s, sep)] == [s[0]] + s[1..][..SepIndex(s[1..], sep)];
    }
  }

  /** Python's `sep.join(parts)`. */
  function JoinWith(parts: seq<string>, sep: char): string {
    if |parts| == 0 then []
    else if |parts| == 1 then parts[0]
    else parts[0] + [sep] + JoinWith(parts[1..], sep)
  }

  /** Splitting loses nothing: joining the fields back gives the row. */
  lemma {:induction false} SplitThenJoin(s: string, sep: char)
    ensures JoinWith(SplitOn(s, sep), sep) == s
  {
    if s != [] {
      var rest := SplitOn(s[1..], sep);
      SplitThenJoin(s[1..], sep);
      if s[0] == sep {
        assert JoinWith([[]] + rest, sep) == [sep] + JoinWith(rest, sep);
      } else if |rest| == 1 {
        assert JoinWith(SplitOn(s, sep), sep) == [s[0]] + rest[0];
      } else {
        assert JoinWith(rest, sep) == rest[0] + [sep] + JoinWith(rest[1..], sep);
        assert SplitOn(s, sep)[1..] == rest[1..];
      }
    }
  }

  /** A string free of the separator splits into itself alone. */
  lemma {:induction false} SplitOfField(w: string, sep: char)
    requires sep !in w
    ensures SplitOn(w, sep) == [w]
  {
    if w != [] {
      SplitOfField(w[1..], sep);
      assert [w[0]] + w[1..] == w;
    }
  }

  /** A field followed by the separator splits off as the first field. */
  lemma {:induction false} SplitOfFieldThenSep(w: string, sep: char, rest: string)
    requires sep !in w
    ensures SplitOn(w + [sep] + rest, sep) == [w] + SplitOn(rest, sep)
  {
    if w == [] {
      assert w + [sep] + rest == [sep] + rest;
      assert ([sep] + rest)[1..] == rest;
    } else {
      SplitOfFieldThenSep(w[1..], sep, rest);
      assert (w + [sep] + rest)[1..] == w[1..] + [sep] + rest;
      assert [w[0]] + w[1..] == w;
    }
  }

  /** Joining separator-free fields and splitting again gives back the fields. */
  lemma {:induction false} JoinThenSplit(parts: seq<string>, sep: char)
    requires |parts| >= 1
    requires forall k :: 0 <= k < |parts| ==> sep !in parts[k]
    ensures SplitOn(JoinWith(parts, sep), sep) == parts
  {
    if |parts| == 1 {
      SplitOfField(parts[0], sep);
    } else {
      JoinThenSplit(parts[1..], sep);
      SplitOfFieldThenSep(parts[0], sep, JoinWith(parts[1..], sep));
      assert [parts[0]] + parts[1..] == parts;
    }
  }
}
