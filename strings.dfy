/**
 * The JavaScript string operations the modelled code relies on, stated over
 * `seq<char>`: `toLowerCase` (ASCII letters only), `trim`, `split` on a
 * character class, `startsWith`, `slice`, `indexOf`, `padEnd` and `replace`
 * with a string pattern.
 */
module Strings {

  /** ASCII upper-case letters become lower case; every other character is kept. */
  function LowerChar(c: char): char
  {
    if 'A' <= c <= 'Z' then (c as int + 32) as char else c
  }

  function Lower(s: string): (r: string)
    ensures |r| == |s|
  {
    seq(|s|, i requires 0 <= i < |s| => LowerChar(s[i]))
  }

  /** The characters `String.prototype.trim` removes: white space and line terminators. */
  predicate IsSpace(c: char)
  {
    || c == '\t' || c == '\n' || c == '\U{000B}' || c == '\U{000C}' || c == '\r'
    || c == ' ' || c == '\U{00A0}' || c == '\U{1680}' || '\U{2000}' <= c <= '\U{200A}'
    || c == '\U{2028}' || c == '\U{2029}' || c == '\U{202F}' || c == '\U{205F}'
    || c == '\U{3000}' || c == '\U{FEFF}'
  }

  function TrimStart(s: string): (r: string)
    ensures |r| <= |s|
    decreases |s|
  {
    if |s| > 0 && IsSpace(s[0]) then TrimStart(s[1..]) else s
  }

  function TrimEnd(s: string): (r: string)
    ensures |r| <= |s|
    decreases |s|
  {
    if |s| > 0 && IsSpace(s[|s| - 1]) then TrimEnd(s[..|s| - 1]) else s
  }

  function Trim(s: string): string
  {
    TrimEnd(TrimStart(s))
  }

  predicate StartsWith(s: string, prefix: string)
  {
    |prefix| <= |s| && s[..|prefix|] == prefix
  }

  /** `s.slice(from)`: the suffix from `from`, or "" when `from` is past the end. */
  function SliceFrom(s: string, from: nat): string
  {
    if from <= |s| then s[from..] else ""
  }

  /** `s.slice(from, to)` for 0 <= from <= to, clamped to the string's length. */
  function Slice(s: string, from: nat, to: nat): string
    requires from <= to
  {
    if to <= |s| then s[from..to] else if from <= |s| then s[from..] else ""
  }

  /** A position clamped into `0..n`, as JavaScript's string methods treat the positions they are given. */
  function Clamp(i: int, n: nat): (c: nat)
    ensures c <= n
    ensures 0 <= i <= n ==> c == i
  {
    if i < 0 then 0 else if i > n then n else i
  }

  /** `s.substring(a, b)`: both positions clamped into the string, and swapped when `a` is past `b`. */
  function Substring(s: string, a: int, b: int): string
  {
    var x := Clamp(a, |s|);
    var y := Clamp(b, |s|);
    if x <= y then s[x..y] else s[y..x]
  }

  /** Within the string and in order, `substring` is the slice. */
  lemma {:induction false} SubstringWithin(s: string, a: int, b: int)
    requires 0 <= a <= b <= |s|
    ensures Substring(s, a, b) == s[a..b]
  {
  }

  /** `s.padEnd(n, c)`: `s` followed by as many `c` as needed to reach length `n`. */
  function PadEnd(s: string, n: nat, c: char): (r: string)
    ensures |r| == if |s| < n then n else |s|
  {
    if |s| < n then s + seq(n - |s|, _ => c) else s
  }

  /** `padEnd` keeps `s` in front and fills the rest with `c`. */
  lemma {:induction false} PadEndPads(s: string, n: nat, c: char)
    ensures PadEnd(s, n, c)[..|s|] == s
    ensures forall i :: |s| <= i < |PadEnd(s, n, c)| ==> PadEnd(s, n, c)[i] == c
  {
  }

  /** Index of the first character of `s` at or after `from` that is in `seps`, or |s|. */
  function FindFirst(s: string, seps: set<char>, from: nat): (i: nat)
    requires from <= |s|
    ensures from <= i <= |s|
    ensures i < |s| ==> s[i] in seps
    decreases |s| - from
  {
    if from == |s| || s[from] in seps then from else FindFirst(s, seps, from + 1)
  }

  /** Nothing before the separator `FindFirst` stops at is a separator. */
  lemma {:induction false} FindFirstSkips(s: string, seps: set<char>, from: nat)
    requires from <= |s|
    ensures forall j :: from <= j < FindFirst(s, seps, from) ==> s[j] !in seps
    decreases |s| - from
  {
    if from < |s| && s[from] !in seps {
      FindFirstSkips(s, seps, from + 1);
    }
  }

  /** `s.split(/[seps]/)`: the pieces between separator characters; never empty. */
  function Split(s: string, seps: set<char>): (parts: seq<string>)
    ensures |parts| >= 1
    decreases |s|
  {
    var i := FindFirst(s, seps, 0);
    if i == |s| then [s] else [s[..i]] + Split(s[i + 1..], seps)
  }

  /** `FindFirst` stops at the first separator at or after `from`. */
  lemma {:induction false} FindFirstIs(s: string, seps: set<char>, from: nat, p: nat)
    requires from <= p <= |s|
    requires forall j :: from <= j < p ==> s[j] !in seps
    requires p < |s| ==> s[p] in seps
    ensures FindFirst(s, seps, from) == p
    decreases p - from
  {
    if from < p {
      FindFirstIs(s, seps, from + 1, p);
    }
  }

  /** A string without separators splits into itself alone. */
  lemma {:induction false} SplitNoSeparator(s: string, seps: set<char>)
    requires forall j :: 0 <= j < |s| ==> s[j] !in seps
    ensures Split(s, seps) == [s]
  {
    FindFirstSkips(s, seps, 0);
  }

  /** `a + [c] + b`, with `c` a separator and none in `a`, splits at that `c` first. */
  lemma {:induction false} SplitAtFirst(a: string, c: char, b: string, seps: set<char>)
    requires c in seps
    requires forall j :: 0 <= j < |a| ==> a[j] !in seps
    ensures Split(a + [c] + b, seps) == [a] + Split(b, seps)
  {
    var s := a + [c] + b;
    assert FindFirst(s, seps, 0) == |a| by {
      assert s[|a|] == c;
      assert forall j :: 0 <= j < |a| ==> s[j] == a[j];
      FindFirstIs(s, seps, 0, |a|);
    }
    assert s[..|a|] == a;
    assert s[|a| + 1..] == b;
  }

  predicate OccursAt(s: string, t: string, i: nat)
  {
    i + |t| <= |s| && s[i..i + |t|] == t
  }

  /** `s.indexOf(t, from)`: the first position at or after `from` where `t` occurs, or -1. */
  function IndexOf(s: string, t: string, from: nat): (r: int)
    requires from <= |s|
    ensures r == -1 || (from <= r && r + |t| <= |s|)
    decreases |s| - from
  {
    if from + |t| > |s| then -1
    else if s[from..from + |t|] == t then from
    else IndexOf(s, t, from + 1)
  }

  /** `s.indexOf(t, from)` for any `from`: the search starts at `from` clamped into the string. */
  function IndexFrom(s: string, t: string, from: int): int
  {
    IndexOf(s, t, Clamp(from, |s|))
  }

  /** A position `indexOf` answers is an occurrence. */
  lemma {:induction false} IndexOfOccurs(s: string, t: string, from: nat)
    requires from <= |s|
    ensures IndexOf(s, t, from) >= 0 ==> OccursAt(s, t, IndexOf(s, t, from))
    decreases |s| - from
  {
    if from + |t| <= |s| && s[from..from + |t|] != t {
      IndexOfOccurs(s, t, from + 1);
    }
  }

  /** `indexOf` finds the first occurrence, and -1 means there is none. */
  lemma {:induction false} IndexOfFirst(s: string, t: string, from: nat)
    requires from <= |s|
    ensures IndexOf(s, t, from) == -1 ==> forall q :: from <= q ==> !OccursAt(s, t, q)
    ensures IndexOf(s, t, from) >= 0 ==> forall q :: from <= q < IndexOf(s, t, from) ==> !OccursAt(s, t, q)
    decreases |s| - from
  {
    if from + |t| <= |s| && s[from..from + |t|] != t {
      IndexOfFirst(s, t, from + 1);
    }
  }

  /** The first occurrence at or after `from` is at `p`. */
  lemma {:induction false} IndexOfIs(s: string, t: string, from: nat, p: nat)
    requires from <= p && OccursAt(s, t, p)
    requires forall q :: from <= q < p ==> !OccursAt(s, t, q)
    ensures IndexOf(s, t, from) == p
    decreases p - from
  {
    if from < p {
      assert !OccursAt(s, t, from);
      IndexOfIs(s, t, from + 1, p);
    }
  }

  /** With no occurrence at or after `from`, `indexOf` answers -1. */
  lemma {:induction false} IndexOfNone(s: string, t: string, from: nat)
    requires from <= |s|
    requires forall q :: from <= q ==> !OccursAt(s, t, q)
    ensures IndexOf(s, t, from) == -1
    decreases |s| - from
  {
    if from + |t| <= |s| {
      assert !OccursAt(s, t, from);
      IndexOfNone(s, t, from + 1);
    }
  }

  /**
   * The replacement text of `String.prototype.replace` with a string pattern:
   * `$$` stands for `$`, `$&` for the matched text, `` $` `` for the text
   * before the match and `$'` for the text after it; with no capture groups
   * every other `$` is literal.
   */
  function Expand(rep: string, matched: string, before: string, after: string): string
    decreases |rep|
  {
    if |rep| >= 2 && rep[0] == '$' && rep[1] == '$' then "$" + Expand(rep[2..], matched, before, after)
    else if |rep| >= 2 && rep[0] == '$' && rep[1] == '&' then matched + Expand(rep[2..], matched, before, after)
    else if |rep| >= 2 && rep[0] == '$' && rep[1] == '`' then before + Expand(rep[2..], matched, before, after)
    else if |rep| >= 2 && rep[0] == '$' && rep[1] == '\'' then after + Expand(rep[2..], matched, before, after)
    else if rep == [] then []
    else [rep[0]] + Expand(rep[1..], matched, before, after)
  }

  /** A replacement without `$` is inserted literally. */
  lemma {:induction false} ExpandLiteral(rep: string, matched: string, before: string, after: string)
    requires forall j :: 0 <= j < |rep| ==> rep[j] != '$'
    ensures Expand(rep, matched, before, after) == rep
    decreases |rep|
  {
    if rep != [] {
      ExpandLiteral(rep[1..], matched, before, after);
    }
  }

  /** `s.replace(pat, rep)`: only the first occurrence of `pat` is replaced. */
  function ReplaceFirst(s: string, pat: string, rep: string): string
  {
    var i := IndexOf(s, pat, 0);
    if i < 0 then s
    else s[..i] + Expand(rep, pat, s[..i], s[i + |pat|..]) + s[i + |pat|..]
  }

  /** How many times `c` occurs in `s`. */
  function Count(s: string, c: char): nat
  {
    if s == [] then 0 else (if s[0] == c then 1 else 0) + Count(s[1..], c)
  }

  /** `parts` glued back together with `c` between neighbours. */
  function Join(parts: seq<string>, c: char): string
  {
    if |parts| <= 1 then (if parts == [] then "" else parts[0])
    else parts[0] + [c] + Join(parts[1..], c)
  }

  lemma {:induction false} CountAppend(a: string, b: string, c: char)
    ensures Count(a + b, c) == Count(a, c) + Count(b, c)
  {
    if a != [] {
      assert (a + b)[1..] == a[1..] + b;
      CountAppend(a[1..], b, c);
    } else {
      assert a + b == b;
    }
  }

  /** One `c` between two strings adds one to their counts. */
  lemma {:induction false} CountAround(a: string, c: char, b: string)
    ensures Count(a + [c] + b, c) == Count(a, c) + 1 + Count(b, c)
  {
    CountAppend(a + [c], b, c);
    CountAppend(a, [c], c);
  }

  /** Splitting on one character gives one more piece than it has occurrences. */
  lemma {:induction false} SplitCount(s: string, c: char)
    ensures |Split(s, {c})| == Count(s, c) + 1
    decreases |s|
  {
    var i := FindFirst(s, {c}, 0);
    var head := s[..i];
    assert Count(head, c) == 0 by {
      FindFirstSkips(s, {c}, 0);
      CountNone(head, c);
    }
    if i < |s| {
      var tail := s[i + 1..];
      SplitCount(tail, c);
      assert s == head + [c] + tail;
      CountAround(head, c, tail);
    } else {
      assert head == s;
    }
  }

  lemma {:induction false} CountNone(s: string, c: char)
    requires forall j :: 0 <= j < |s| ==> s[j] != c
    ensures Count(s, c) == 0
  {
    if s != [] {
      CountNone(s[1..], c);
    }
  }

  /** Splitting on one character loses nothing: joining the pieces with it gives `s` back. */
  lemma {:induction false} SplitJoin(s: string, c: char)
    ensures Join(Split(s, {c}), c) == s
    decreases |s|
  {
    var i := FindFirst(s, {c}, 0);
    if i < |s| {
      SplitJoin(s[i + 1..], c);
      assert s == s[..i] + [c] + s[i + 1..];
    }
  }
}
