/**
 * The parts of java.lang.String that the command-line module relies on:
 * trim(), split("\\s+", 2), split(",") and toUpperCase().
 */
module JavaStrings {
  import opened Sequences


  /** A character that String.trim() strips: every code point at or below U+0020. */
  predicate IsTrimmable(c: char) {
    c <= ' '
  }

  /**
   * A character of the regular-expression class \s (Java's ASCII-only default):
   * the space and the five controls from tab (U+0009) to carriage return (U+000D).
   */
  predicate IsRegexSpace(c: char) {
    c == ' ' || '\t' <= c <= '\r'
  }

  /** The first position at or after i that holds no trimmable character (|s| if none). */
  function SkipTrimmable(s: string, i: nat): (n: nat)
    requires i <= |s|
    ensures i <= n <= |s|
    ensures forall k :: i <= k < n ==> IsTrimmable(s[k])
    ensures n < |s| ==> !IsTrimmable(s[n])
    decreases |s| - i
  {
    if i == |s| || !IsTrimmable(s[i]) then i else SkipTrimmable(s, i + 1)
  }

  /** The start of the run of trimmable characters that ends just before position j. */
  function BackTrimmable(s: string, j: nat): (n: nat)
    requires j <= |s|
    ensures n <= j
    ensures forall k :: n <= k < j ==> IsTrimmable(s[k])
    ensures n > 0 ==> !IsTrimmable(s[n - 1])
  {
    if j == 0 || !IsTrimmable(s[j - 1]) then j else BackTrimmable(s, j - 1)
  }

  /** String.trim(): s without leading and trailing characters at or below U+0020. */
  function Trim(s: string): (r: string)
    ensures |r| <= |s|
    ensures r == [] || (!IsTrimmable(r[0]) && !IsTrimmable(r[|r| - 1]))
  {
    var i, j := SkipTrimmable(s, 0), BackTrimmable(s, |s|);
    if j <= i then [] else s[i..j]
  }

  /**
   * What trim() removes: the result is the stretch of s between a trimmable
   * prefix and a trimmable suffix, and it is empty exactly when s is all trimmable.
   */
  lemma TrimRemovesOnlyTrimmable(s: string)
    ensures var r, i := Trim(s), SkipTrimmable(s, 0);
      && i + |r| <= |s|
      && r == s[i..i + |r|]
      && (forall k :: 0 <= k < i ==> IsTrimmable(s[k]))
      && (forall k :: i + |r| <= k < |s| ==> IsTrimmable(s[k]))
    ensures Trim(s) == [] <==> forall k :: 0 <= k < |s| ==> IsTrimmable(s[k])
  {
    var i, j := SkipTrimmable(s, 0), BackTrimmable(s, |s|);
  }

  /** Trimming twice is trimming once. */
  lemma TrimIdempotent(s: string)
    ensures Trim(Trim(s)) == Trim(s)
  {
    var r := Trim(s);
    if r != [] {
      assert SkipTrimmable(r, 0) == 0;
      assert BackTrimmable(r, |r|) == |r|;
      assert r[0..|r|] == r;
    }
  }

  /** Trimming never leaves a \s character at either end. */
  lemma TrimmedHasNoOuterSpace(s: string)
    ensures Trim(s) != [] ==> !IsRegexSpace(Trim(s)[0])
    ensures Trim(s) != [] ==> !IsRegexSpace(Trim(s)[|Trim(s)| - 1])
  {
  }

  /** The first position at or after i that holds a \s character (|s| if none). */
  function FindSpace(s: string, i: nat): (n: nat)
    requires i <= |s|
    ensures i <= n <= |s|
    ensures forall k :: i <= k < n ==> !IsRegexSpace(s[k])
    ensures n < |s| ==> IsRegexSpace(s[n])
    decreases |s| - i
  {
    if i == |s| || IsRegexSpace(s[i]) then i else FindSpace(s, i + 1)
  }

  /** The first position at or after i that holds no \s character (|s| if none). */
  function SkipSpaces(s: string, i: nat): (n: nat)
    requires i <= |s|
    ensures i <= n <= |s|
    ensures forall k :: i <= k < n ==> IsRegexSpace(s[k])
    ensures n < |s| ==> !IsRegexSpace(s[n])
    decreases |s| - i
  {
    if i == |s| || !IsRegexSpace(s[i]) then i else SkipSpaces(s, i + 1)
  }

  /**
   * String.split("\\s+", 2): the text before the first run of \s characters and
   * everything after that run, or the whole string when it holds no \s character.
   */
  function SplitAtFirstSpaceRun(s: string): (parts: seq<string>)
    ensures 1 <= |parts| <= 2
    ensures |parts| == 1 ==> parts[0] == s
    ensures |parts| == 2 ==> |parts[0]| + |parts[1]| < |s|
  {
    var i := FindSpace(s, 0);
    if i == |s| then [s] else [s[..i], s[SkipSpaces(s, i)..]]
  }

  /** The string stays whole exactly when it holds no \s character. */
  lemma SplitWholeIffNoSpace(s: string)
    ensures |SplitAtFirstSpaceRun(s)| == 1 <==> forall k :: 0 <= k < |s| ==> !IsRegexSpace(s[k])
  {
  }

  /**
   * A two-way split is undone by putting the run of \s back between the parts:
   * the first part is the \s-free prefix, everything between the parts is \s,
   * and the second part does not start with \s.
   */
  lemma SplitRoundTrip(s: string)
    requires |SplitAtFirstSpaceRun(s)| == 2
    ensures var parts := SplitAtFirstSpaceRun(s);
      && s == parts[0] + s[|parts[0]|..|s| - |parts[1]|] + parts[1]
      && (forall k :: 0 <= k < |parts[0]| ==> !IsRegexSpace(parts[0][k]))
      && (forall k :: |parts[0]| <= k < |s| - |parts[1]| ==> IsRegexSpace(s[k]))
      && (parts[1] == [] || !IsRegexSpace(parts[1][0]))
  {
    var i := FindSpace(s, 0);
    var j := SkipSpaces(s, i);
    assert s == s[..i] + s[i..j] + s[j..];
  }

  /** On a trimmed string both halves of a two-way split are non-empty. */
  lemma SplitOfTrimmedHasNonEmptyParts(raw: string)
    ensures var parts := SplitAtFirstSpaceRun(Trim(raw));
      |parts| == 2 ==> parts[0] != [] && parts[1] != []
  {
    var s := Trim(raw);
    var parts := SplitAtFirstSpaceRun(s);
    if |parts| == 2 {
      TrimmedHasNoOuterSpace(raw);
      SplitRoundTrip(s);
    }
  }

  /** Character.toUpperCase restricted to ASCII letters. */
  function UpperChar(c: char): (u: char)
    ensures 'a' <= c <= 'z' ==> u as int == c as int - 32
    ensures !('a' <= c <= 'z') ==> u == c
  {
    if 'a' <= c <= 'z' then (c as int - 32) as char else c
  }

  /** String.toUpperCase() for ASCII text: every lower-case letter raised, nothing else touched. */
  function ToUpper(s: string): (r: string)
    ensures |r| == |s|
    ensures forall k :: 0 <= k < |s| ==> r[k] == UpperChar(s[k])
  {
    seq(|s|, k requires 0 <= k < |s| => UpperChar(s[k]))
  }

  /** The number of occurrences of c in s from position i on. */
  function CountFrom(s: string, c: char, i: nat): (n: nat)
    requires i <= |s|
    decreases |s| - i
  {
    if i == |s| then 0 else (if s[i] == c then 1 else 0) + CountFrom(s, c, i + 1)
  }

  /** The number of occurrences of c in s. */
  function CountChar(s: string, c: char): nat {
    CountFrom(s, c, 0)
  }

  /** The position of the first sep at or after i, or |s| when there is none. */
  function NextSep(s: string, sep: char, i: nat): (n: nat)
    requires i <= |s|
    ensures i <= n <= |s|
    ensures forall k :: i <= k < n ==> s[k] != sep
    ensures n < |s| ==> s[n] == sep
    decreases |s| - i
  {
    if i == |s| || s[i] == sep then i else NextSep(s, sep, i + 1)
  }

  /** The pieces of s[i..] between every two occurrences of sep, with nothing dropped. */
  function SplitFrom(s: string, sep: char, i: nat): (parts: seq<string>)
    requires i <= |s|
    ensures |parts| >= 1
    decreases |s| - i
  {
    var j := NextSep(s, sep, i);
    if j == |s| then [s[i..]] else [s[i..j]] + SplitFrom(s, sep, j + 1)
  }

  /** The pieces of s between every two occurrences of sep, with nothing dropped. */
  function SplitAll(s: string, sep: char): seq<string> {
    SplitFrom(s, sep, 0)
  }

  /** Counting from i counts the run up to the next separator, the separator, and the rest. */
  lemma {:induction false} CountFromSkipsRun(s: string, c: char, i: nat, j: nat)
    requires i <= j <= |s|
    requires forall k :: i <= k < j ==> s[k] != c
    ensures CountFrom(s, c, i) == CountFrom(s, c, j)
    decreases j - i
  {
    if i < j {
      CountFromSkipsRun(s, c, i + 1, j);
    }
  }

  /** There is one more piece than separators, and no piece holds a separator or a character s lacks. */
  lemma {:induction false} SplitFromPieces(s: string, sep: char, i: nat)
    requires i <= |s|
    ensures |SplitFrom(s, sep, i)| == CountFrom(s, sep, i) + 1
    ensures forall k :: 0 <= k < |SplitFrom(s, sep, i)| ==> sep !in SplitFrom(s, sep, i)[k]
    ensures forall k, c :: 0 <= k < |SplitFrom(s, sep, i)| && c in SplitFrom(s, sep, i)[k] ==> c in s
    decreases |s| - i
  {
    var j := NextSep(s, sep, i);
    CountFromSkipsRun(s, sep, i, j);
    assert sep !in s[i..j] by {
      forall k | 0 <= k < j - i ensures s[i..j][k] != sep {
        assert s[i..j][k] == s[i + k];
      }
    }
    forall c | c in s[i..j] ensures c in s {
      var m :| 0 <= m < j - i && s[i..j][m] == c;
      assert s[i + m] == c;
    }
    if j < |s| {
      SplitFromPieces(s, sep, j + 1);
      var rest := SplitFrom(s, sep, j + 1);
      assert SplitFrom(s, sep, i) == [s[i..j]] + rest;
      forall k | 1 <= k < |rest| + 1 ensures SplitFrom(s, sep, i)[k] == rest[k - 1] {
      }
    }
  }

  /** The pieces put back together with sep between them. */
  function Join(parts: seq<string>, sep: char): string
    requires |parts| >= 1
  {
    if |parts| == 1 then parts[0] else parts[0] + [sep] + Join(parts[1..], sep)
  }

  /** Joining the pieces of a split from i gives back s[i..]. */
  lemma {:induction false} JoinSplitFrom(s: string, sep: char, i: nat)
    requires i <= |s|
    ensures Join(SplitFrom(s, sep, i), sep) == s[i..]
    decreases |s| - i
  {
    var j := NextSep(s, sep, i);
    if j < |s| {
      var rest := SplitFrom(s, sep, j + 1);
      JoinSplitFrom(s, sep, j + 1);
      assert SplitFrom(s, sep, i) == [s[i..j]] + rest;
      ConsTail(s[i..j], rest);
      SliceAround(s, i, j);
    }
  }

  /** Joining the pieces of a split gives back the original string. */
  lemma JoinSplitAll(s: string, sep: char)
    ensures Join(SplitAll(s, sep), sep) == s
  {
    JoinSplitFrom(s, sep, 0);
  }

  /** parts without the empty strings at its end. */
  function DropTrailingEmpty(parts: seq<string>): (r: seq<string>)
    ensures |r| <= |parts| && r == parts[..|r|]
    ensures forall k :: |r| <= k < |parts| ==> parts[k] == []
    ensures r == [] || r[|r| - 1] != []
  {
    if parts == [] || parts[|parts| - 1] != [] then parts
    else DropTrailingEmpty(parts[..|parts| - 1])
  }

  /**
   * String.split(String.valueOf(sep)) with limit 0: a string without sep is returned
   * whole (even when empty); otherwise the pieces between separators, less the
   * empty pieces at the end.
   */
  function JavaSplit(s: string, sep: char): seq<string> {
    if sep !in s then [s] else DropTrailingEmpty(SplitAll(s, sep))
  }

  /**
   * String.split keeps the pieces between separators in order, drops only
   * empty pieces at the end, and keeps no separator.
   */
  lemma JavaSplitPieces(s: string, sep: char)
    ensures var parts := JavaSplit(s, sep);
      && |parts| <= CountChar(s, sep) + 1
      && (sep !in s ==> parts == [s])
      && parts == SplitAll(s, sep)[..|parts|]
      && (forall k :: |parts| <= k < |SplitAll(s, sep)| ==> SplitAll(s, sep)[k] == [])
      && (forall k :: 0 <= k < |parts| ==> sep !in parts[k])
      && (forall k, c :: 0 <= k < |parts| && c in parts[k] ==> c in s)
  {
    SplitFromPieces(s, sep, 0);
    if sep !in s {
      assert NextSep(s, sep, 0) == |s|;
      assert SplitAll(s, sep) == [s[0..]];
      assert s[0..] == s;
    } else {
      var parts := JavaSplit(s, sep);
      forall k | 0 <= k < |parts| ensures parts[k] == SplitAll(s, sep)[k] {
      }
    }
  }
}
