/**
 * The handful of ECMAScript string operations the cloner and the driver rely on:
 * `trim`, `startsWith`/`endsWith`/`includes`, `split`/`join` (and the replace-all
 * idiom `s.split(a).join(b)`), ASCII `toLowerCase` and number formatting.
 */
module Text {

  /** ECMAScript WhiteSpace and LineTerminator code points: what `trim` removes and what `\s` matches. */
  predicate IsSpace(c: char) {
    || c == ' ' || c == '\t' || c == '\n' || c == '\r' || c == '\U{000B}' || c == '\U{000C}'
    || c == '\U{00A0}' || c == '\U{1680}' || ('\U{2000}' <= c <= '\U{200A}')
    || c == '\U{2028}' || c == '\U{2029}' || c == '\U{202F}' || c == '\U{205F}'
    || c == '\U{3000}' || c == '\U{FEFF}'
  }

  predicate AllSpace(s: string) {
    forall i :: 0 <= i < |s| ==> IsSpace(s[i])
  }

  /** The length of the run of white space at the start of `s`: all of it, up to a non-space or the end. */
  function SpaceRun(s: string): (k: nat)
    ensures k <= |s|
    ensures forall i :: 0 <= i < k ==> IsSpace(s[i])
    ensures k < |s| ==> !IsSpace(s[k])
  {
    if s != [] && IsSpace(s[0]) then 1 + SpaceRun(s[1..]) else 0
  }

  predicate StartsWith(s: string, prefix: string) {
    |prefix| <= |s| && s[..|prefix|] == prefix
  }

  predicate EndsWith(s: string, suffix: string) {
    |suffix| <= |s| && s[|s| - |suffix|..] == suffix
  }

  /** `pattern` occurs in `s` starting at index `i`. */
  predicate OccursAt(s: string, pattern: string, i: int) {
    0 <= i && i + |pattern| <= |s| && s[i..i + |pattern|] == pattern
  }

  /** `s.includes(pattern)` */
  predicate Contains(s: string, pattern: string) {
    exists i :: 0 <= i <= |s| && OccursAt(s, pattern, i)
  }

  /** `s.trimStart()`: the suffix of `s` left after its longest all-space prefix. */
  function TrimStart(s: string): (r: string)
    ensures |r| <= |s| && r == s[|s| - |r|..]
    ensures AllSpace(s[..|s| - |r|])
    ensures r == [] || !IsSpace(r[0])
  {
    if s != [] && IsSpace(s[0]) then
      var r := TrimStart(s[1..]);
      assert s[..|s| - |r|] == [s[0]] + s[1..][..|s| - 1 - |r|];
      r
    else s
  }

  /** `s.trimEnd()`: the prefix of `s` left before its longest all-space suffix. */
  function TrimEnd(s: string): (r: string)
    ensures |r| <= |s| && r == s[..|r|]
    ensures AllSpace(s[|r|..])
    ensures r == [] || !IsSpace(r[|r| - 1])
  {
    if s != [] && IsSpace(s[|s| - 1]) then
      var r := TrimEnd(s[..|s| - 1]);
      assert s[|r|..] == s[..|s| - 1][|r|..] + [s[|s| - 1]];
      r
    else s
  }

  /** `s.trim()` */
  function Trim(s: string): string {
    TrimEnd(TrimStart(s))
  }

  /** `s.toLowerCase()` restricted to the ASCII letters, which is all a ".css" suffix test can observe. */
  function ToLowerAscii(s: string): (r: string)
    ensures |r| == |s|
  {
    seq(|s|, i requires 0 <= i < |s| => if 'A' <= s[i] <= 'Z' then (s[i] as int + 32) as char else s[i])
  }

  /**
   * `s.split(sep)`. With a non-empty separator the string is cut at every occurrence found
   * scanning from the left, occurrences not overlapping; with the empty separator every
   * character becomes its own piece.
   */
  function Split(s: string, sep: string): (parts: seq<string>)
    ensures sep != [] ==> |parts| >= 1
    decreases |s|
  {
    if sep == [] then seq(|s|, i requires 0 <= i < |s| => [s[i]])
    else if |s| < |sep| then [s]
    else if s[..|sep|] == sep then [[]] + Split(s[|sep|..], sep)
    else
      var rest := Split(s[1..], sep);
      [[s[0]] + rest[0]] + rest[1..]
  }

  /** `parts.join(sep)` */
  function Join(parts: seq<string>, sep: string): string {
    if parts == [] then []
    else if |parts| == 1 then parts[0]
    else parts[0] + sep + Join(parts[1..], sep)
  }

  /** `s.split(pattern).join(replacement)`: every occurrence of `pattern` replaced. */
  function ReplaceAll(s: string, pattern: string, replacement: string): string {
    Join(Split(s, pattern), replacement)
  }

  function Digit(d: nat): char
    requires d < 10
  {
    "0123456789"[d]
  }

  /** The number a string of decimal digits spells, most significant digit first. */
  function DecimalValue(r: string): nat
    requires forall i :: 0 <= i < |r| ==> '0' <= r[i] <= '9'
    decreases |r|
  {
    if r == [] then 0 else DecimalValue(r[..|r| - 1]) * 10 + (r[|r| - 1] as int - '0' as int)
  }

  /**
   * The decimal numeral of `n`, as a template literal prints it: digits that spell `n`,
   * with no leading zero.
   */
  function NatToString(n: nat): (r: string)
    ensures |r| >= 1
    ensures forall i :: 0 <= i < |r| ==> '0' <= r[i] <= '9'
    ensures DecimalValue(r) == n
    ensures r[0] == '0' ==> r == "0"
  {
    if n < 10 then [Digit(n)]
    else
      var prefix := NatToString(n / 10);
      var r := prefix + [Digit(n % 10)];
      assert r[..|r| - 1] == prefix;
      r
  }

  /** Different counts print differently. */
  lemma NatToStringInjective(m: nat, n: nat)
    requires NatToString(m) == NatToString(n)
    ensures m == n
  {
  }

  // ---------------------------------------------------------------------------
  // Split and Join are inverse to each other.

  lemma {:induction false} JoinHeadIsPrefix(parts: seq<string>, sep: string)
    requires |parts| >= 1
    ensures StartsWith(Join(parts, sep), parts[0])
  {
  }

  lemma {:induction false} JoinPrepend(c: char, rest: seq<string>, sep: string)
    requires |rest| >= 1
    ensures Join([[c] + rest[0]] + rest[1..], sep) == [c] + Join(rest, sep)
  {
    var parts := [[c] + rest[0]] + rest[1..];
    assert parts[1..] == rest[1..];
  }

  lemma {:induction false} JoinChars(s: string)
    ensures Join(Split(s, []), []) == s
    decreases |s|
  {
    if |s| > 1 {
      var parts := Split(s, []);
      assert parts[1..] == Split(s[1..], []);
      JoinChars(s[1..]);
      assert s == [s[0]] + s[1..];
    }
  }

  /** Joining the pieces of a split with the same separator gives back the string. */
  lemma {:induction false} SplitJoin(s: string, sep: string)
    ensures Join(Split(s, sep), sep) == s
    decreases |s|
  {
    if sep == [] {
      JoinChars(s);
    } else if |s| < |sep| {
    } else if s[..|sep|] == sep {
      SplitJoinAtSeparator(s, sep);
    } else {
      SplitJoinAtChar(s, sep);
    }
  }

  lemma {:induction false} SplitJoinAtSeparator(s: string, sep: string)
    requires sep != [] && |sep| <= |s| && s[..|sep|] == sep
    ensures Join(Split(s, sep), sep) == s
    decreases |s|, 0
  {
    var rest := Split(s[|sep|..], sep);
    assert Split(s, sep) == [[]] + rest;
    SplitJoin(s[|sep|..], sep);
    var parts := [[]] + rest;
    assert parts[1..] == rest;
    assert Join(parts, sep) == [] + sep + Join(rest, sep);
    assert s == sep + s[|sep|..];
  }

  lemma {:induction false} SplitJoinAtChar(s: string, sep: string)
    requires sep != [] && |sep| <= |s| && s[..|sep|] != sep
    ensures Join(Split(s, sep), sep) == s
    decreases |s|, 0
  {
    var rest := Split(s[1..], sep);
    assert Split(s, sep) == [[s[0]] + rest[0]] + rest[1..];
    SplitJoin(s[1..], sep);
    JoinPrepend(s[0], rest, sep);
    assert s == [s[0]] + s[1..];
  }

  /** No piece of a split on a non-empty separator contains the separator. */
  lemma {:induction false} SplitPiecesFree(s: string, sep: string)
    requires sep != []
    ensures forall p :: p in Split(s, sep) ==> !Contains(p, sep)
    decreases |s|
  {
    var parts := Split(s, sep);
    if |s| < |sep| {
    } else if s[..|sep|] == sep {
      SplitPiecesFree(s[|sep|..], sep);
      assert forall p :: p in parts ==> p == [] || p in Split(s[|sep|..], sep);
    } else {
      var rest := Split(s[1..], sep);
      SplitPiecesFree(s[1..], sep);
      var head := [s[0]] + rest[0];
      assert rest[0] in rest;
      SplitJoin(s, sep);
      JoinHeadIsPrefix(parts, sep);
      forall i | 0 <= i <= |head| ensures !OccursAt(head, sep, i) {
        if i == 0 {
          if |sep| <= |head| {
            assert head[..|sep|] == s[..|sep|];
          }
        } else if i + |sep| <= |head| {
          assert head[i..i + |sep|] == rest[0][i - 1..i - 1 + |sep|];
          assert !OccursAt(rest[0], sep, i - 1);
        }
      }
      assert forall p :: p in parts ==> p == head || p in rest[1..];
    }
  }

  /** A string without the separator is not cut. */
  lemma {:induction false} SplitWithoutSeparator(s: string, sep: string)
    requires sep != [] && !Contains(s, sep)
    ensures Split(s, sep) == [s]
    decreases |s|
  {
    if |s| < |sep| {
    } else if s[..|sep|] == sep {
      assert OccursAt(s, sep, 0);
    } else {
      assert !Contains(s[1..], sep) by {
        forall i | OccursAt(s[1..], sep, i) ensures false {
          assert s[1..][i..i + |sep|] == s[i + 1..i + 1 + |sep|];
          assert OccursAt(s, sep, i + 1);
        }
      }
      SplitWithoutSeparator(s[1..], sep);
      assert s == [s[0]] + s[1..];
    }
  }

  /** Replacing a pattern that does not occur changes nothing. */
  lemma ReplaceAllAbsent(s: string, pattern: string, replacement: string)
    requires pattern != [] && !Contains(s, pattern)
    ensures ReplaceAll(s, pattern, replacement) == s
  {
    SplitWithoutSeparator(s, pattern);
  }

  /**
   * What `s.split(pattern).join(replacement)` means: `s` is the pieces glued with `pattern`,
   * no piece holds `pattern`, and the result is the same pieces glued with `replacement`.
   */
  lemma ReplaceAllPieces(s: string, pattern: string, replacement: string)
    requires pattern != []
    ensures var pieces := Split(s, pattern);
      && Join(pieces, pattern) == s
      && (forall p :: p in pieces ==> !Contains(p, pattern))
      && ReplaceAll(s, pattern, replacement) == Join(pieces, replacement)
  {
    SplitJoin(s, pattern);
    SplitPiecesFree(s, pattern);
  }

  /** Splitting on a one-character separator undoes a join of pieces that do not contain it. */
  lemma {:induction false} JoinSplitChar(parts: seq<string>, c: char)
    requires |parts| >= 1
    requires forall p :: p in parts ==> c !in p
    ensures Split(Join(parts, [c]), [c]) == parts
    decreases |Join(parts, [c])|, |parts[0]|
  {
    var s := Join(parts, [c]);
    if parts[0] == [] {
      if |parts| > 1 {
        assert s == [c] + Join(parts[1..], [c]);
        SplitAtSeparator(s, c);
        assert s[1..] == Join(parts[1..], [c]);
        assert forall p :: p in parts[1..] ==> p in parts;
        JoinSplitChar(parts[1..], c);
        assert [[]] + parts[1..] == parts;
      }
    } else {
      var p0 := parts[0];
      assert p0 in parts;
      var shorter := [p0[1..]] + parts[1..];
      assert forall p :: p in shorter ==> p == p0[1..] || p in parts;
      assert parts == [p0] + parts[1..];
      JoinShorter(p0, parts[1..], c);
      SplitAtOther(s, c);
      assert s[1..] == Join(shorter, [c]);
      JoinSplitChar(shorter, c);
      assert [[p0[0]] + shorter[0]] + shorter[1..] == parts by {
        assert [p0[0]] + p0[1..] == p0;
      }
    }
  }

  lemma SplitAtSeparator(s: string, c: char)
    requires |s| >= 1 && s[0] == c
    ensures Split(s, [c]) == [[]] + Split(s[1..], [c])
  {
    assert s[..1] == [c];
  }

  lemma SplitAtOther(s: string, c: char)
    requires |s| >= 1 && s[0] != c
    ensures Split(s, [c]) == [[s[0]] + Split(s[1..], [c])[0]] + Split(s[1..], [c])[1..]
  {
    assert s[..1] != [c];
  }

  /** Joining parts whose first part is non-empty starts with that part's first character. */
  lemma JoinShorter(p0: string, rest: seq<string>, c: char)
    requires p0 != []
    ensures Join([p0] + rest, [c]) == [p0[0]] + Join([p0[1..]] + rest, [c])
  {
    if rest == [] {
      assert [p0] + rest == [p0];
      assert [p0[1..]] + rest == [p0[1..]];
      assert p0 == [p0[0]] + p0[1..];
    } else {
      assert ([p0] + rest)[1..] == rest;
      assert ([p0[1..]] + rest)[1..] == rest;
      ConsHead(p0, [c] + Join(rest, [c]));
    }
  }

  /** Appending to a non-empty string keeps its first character in front. */
  lemma ConsHead(p: string, t: string)
    requires p != []
    ensures p + t == [p[0]] + (p[1..] + t)
  {
    assert p == [p[0]] + p[1..];
  }

  // ---------------------------------------------------------------------------
  // Counting a one-character separator.

  /** A pattern whose first character is absent from `s` does not occur in it. */
  lemma FirstCharAbsent(s: string, pattern: string)
    requires pattern != [] && pattern[0] !in s
    ensures !Contains(s, pattern)
  {
    forall i | 0 <= i <= |s| ensures !OccursAt(s, pattern, i) {
      if i + |pattern| <= |s| {
        assert s[i..i + |pattern|][0] == s[i];
      }
    }
  }

  /** A character absent from a string does not occur in it as a one-character pattern, and conversely. */
  lemma NotContainsChar(s: string, c: char)
    ensures !Contains(s, [c]) <==> c !in s
  {
    if c in s {
      var i :| 0 <= i < |s| && s[i] == c;
      assert s[i..i + 1] == [c];
      assert OccursAt(s, [c], i);
    } else {
      forall i | 0 <= i <= |s| ensures !OccursAt(s, [c], i) {
        if i < |s| {
          assert s[i] != c;
          assert s[i..i + 1] != [c];
        }
      }
    }
  }

  /** Splitting on a character gives one piece more than the character occurs. */
  lemma {:induction false} SplitCharCount(s: string, c: char)
    ensures |Split(s, [c])| == multiset(s)[c] + 1
    decreases |s|
  {
    if |s| >= 1 {
      assert s == [s[0]] + s[1..];
      assert multiset(s)[c] == multiset([s[0]])[c] + multiset(s[1..])[c];
      SplitCharCount(s[1..], c);
      if s[..1] == [c] {
        assert s[0] == c;
      } else {
        assert s[0] != c by { assert s[..1] == [s[0]]; }
      }
    }
  }

  /** Gluing pieces free of `c` adds exactly the occurrences of `c` in the separators. */
  lemma {:induction false} JoinCharCount(parts: seq<string>, sep: string, c: char)
    requires |parts| >= 1
    requires forall i :: 0 <= i < |parts| ==> c !in parts[i]
    ensures multiset(Join(parts, sep))[c] == (|parts| - 1) * multiset(sep)[c]
    decreases |parts|
  {
    var head := parts[0];
    assert multiset(head)[c] == 0;
    if |parts| > 1 {
      var tail := parts[1..];
      assert forall i :: 0 <= i < |tail| ==> tail[i] == parts[i + 1];
      JoinCharCount(tail, sep, c);
      var rest := Join(tail, sep);
      assert Join(parts, sep) == head + sep + rest;
      CountOfThree(head, sep, rest, c);
      MultiplySucc(|tail| - 1, multiset(sep)[c]);
    } else {
      assert Join(parts, sep) == head;
    }
  }

  lemma CountOfThree(a: string, b: string, d: string, c: char)
    ensures multiset(a + b + d)[c] == multiset(a)[c] + multiset(b)[c] + multiset(d)[c]
  {
  }

  lemma MultiplySucc(n: int, k: int)
    ensures n * k + k == (n + 1) * k
  {
  }

  /** Gluing pieces free of `c` with a separator free of `c` gives a string free of `c`. */
  lemma {:induction false} JoinFree(parts: seq<string>, sep: string, c: char)
    requires c !in sep
    requires forall p :: p in parts ==> c !in p
    ensures c !in Join(parts, sep)
    decreases |parts|
  {
    if parts != [] {
      assert parts[0] in parts;
      if |parts| > 1 {
        assert forall p :: p in parts[1..] ==> p in parts;
        JoinFree(parts[1..], sep, c);
      }
    }
  }

  /** Trimming only removes characters. */
  lemma TrimFree(s: string, c: char)
    requires c !in s
    ensures c !in Trim(s)
  {
    var t := TrimStart(s);
    assert t == s[|s| - |t|..];
    var u := TrimEnd(t);
    assert u == t[..|u|];
    assert Trim(s) == u;
  }

  /** Splitting on `c` undoes a join of pieces free of `c` whose separator holds `c` once. */
  lemma JoinSplitCount(parts: seq<string>, sep: string, c: char)
    requires |parts| >= 1
    requires forall i :: 0 <= i < |parts| ==> c !in parts[i]
    requires multiset(sep)[c] == 1
    ensures |Split(Join(parts, sep), [c])| == |parts|
  {
    JoinCharCount(parts, sep, c);
    SplitCharCount(Join(parts, sep), c);
  }

  lemma CommaSpaceHasOneComma()
    ensures multiset(", ")[','] == 1
  {
    assert ", " == [','] + [' '];
    assert multiset([','])[','] == 1;
  }
}
