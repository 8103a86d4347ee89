/**
 * The colour-markup renderer (components/common/color-text.tsx).  A text is
 * cut at its colour tags -- `[name]`, `[#hex]` or an SGR control sequence
 * `ESC [ digits m` (section 8.3.117 of ECMA-48) -- into segments, each drawn
 * in the colour of the tag that opens it; every line of a segment becomes a
 * span, with a line break between neighbouring lines, and every node gets
 * the next value of a running key.  `getColor`, which maps colour names, is
 * not part of this model and is a parameter.
 */
module ColorText {
  import opened Wrappers
  import opened Strings

  const Esc: char := '\U{001B}'

  predicate IsTagChar(c: char)
  {
    c == '#' || 'a' <= c <= 'z' || 'A' <= c <= 'Z' || '0' <= c <= '9'
  }

  predicate IsDigit(c: char)
  {
    '0' <= c <= '9'
  }

  /** The first index at or after `i` that does not hold a tag character, or |s|. */
  function TagCharsEnd(s: string, i: nat): (j: nat)
    requires i <= |s|
    ensures i <= j <= |s|
    ensures j < |s| ==> !IsTagChar(s[j])
    decreases |s| - i
  {
    if i == |s| || !IsTagChar(s[i]) then i else TagCharsEnd(s, i + 1)
  }

  /** The first index at or after `i` that does not hold a digit, or |s|. */
  function DigitsEnd(s: string, i: nat): (j: nat)
    requires i <= |s|
    ensures i <= j <= |s|
    ensures j < |s| ==> !IsDigit(s[j])
    decreases |s| - i
  {
    if i == |s| || !IsDigit(s[i]) then i else DigitsEnd(s, i + 1)
  }

  /**
   * The length of the colour tag `s` starts with, or 0 when it starts with
   * none: `[` then tag characters then `]`, or ESC `[` then one or more
   * digits then `m`.  Both scans are greedy, as the regular expression is.
   */
  function TagLen(s: string): (n: nat)
    ensures n == 0 || 2 <= n <= |s|
  {
    if |s| >= 2 && s[0] == '[' then
      var j := TagCharsEnd(s, 1);
      if j < |s| && s[j] == ']' then j + 1 else 0
    else if |s| >= 2 && s[0] == Esc && s[1] == '[' then
      var j := DigitsEnd(s, 2);
      if 2 < j < |s| && s[j] == 'm' then j + 1 else 0
    else 0
  }

  /** The tag-character scan depends only on the characters it reads. */
  lemma {:induction false} TagCharsAgree(s: string, t: string, i: nat)
    requires i <= |s|
    requires i <= TagCharsEnd(s, i) < |s| && TagCharsEnd(s, i) < |t|
    requires forall k :: i <= k <= TagCharsEnd(s, i) ==> s[k] == t[k]
    ensures TagCharsEnd(t, i) == TagCharsEnd(s, i)
    decreases |s| - i
  {
    if IsTagChar(s[i]) {
      TagCharsAgree(s, t, i + 1);
    }
  }

  /** The digit scan depends only on the characters it reads. */
  lemma {:induction false} DigitsAgree(s: string, t: string, i: nat)
    requires i <= |s|
    requires i <= DigitsEnd(s, i) < |s| && DigitsEnd(s, i) < |t|
    requires forall k :: i <= k <= DigitsEnd(s, i) ==> s[k] == t[k]
    ensures DigitsEnd(t, i) == DigitsEnd(s, i)
    decreases |s| - i
  {
    if IsDigit(s[i]) {
      DigitsAgree(s, t, i + 1);
    }
  }

  /** A tag is decided by its own characters: any text that starts with it starts with the same tag. */
  lemma {:induction false} TagLenPrefix(s: string, t: string)
    requires TagLen(s) > 0
    requires TagLen(s) <= |t| && t[..TagLen(s)] == s[..TagLen(s)]
    ensures TagLen(t) == TagLen(s)
  {
    var n := TagLen(s);
    assert forall k :: 0 <= k < n ==> t[k] == t[..n][k] == s[..n][k] == s[k];
    if s[0] == '[' {
      TagCharsAgree(s, t, 1);
    } else {
      DigitsAgree(s, t, 2);
    }
  }

  /** Wherever a tag's text occurs, a tag of that length starts. */
  lemma {:induction false} TagAtOccurrence(s: string, tag: string, q: nat)
    requires TagLen(tag) == |tag| > 0
    ensures OccursAt(s, tag, q) ==> TagLen(s[q..]) == |tag|
  {
    if OccursAt(s, tag, q) {
      assert s[q..][..|tag|] == tag[..|tag|];
      TagLenPrefix(tag, s[q..]);
    }
  }

  /** A tag found in a prefix of `s` is the tag `s` starts with. */
  lemma {:induction false} TagInPrefix(s: string, m: nat)
    requires m <= |s|
    ensures TagLen(s[..m]) > 0 ==> TagLen(s) == TagLen(s[..m])
  {
    if TagLen(s[..m]) > 0 {
      assert s[..TagLen(s[..m])] == s[..m][..TagLen(s[..m])];
      TagLenPrefix(s[..m], s);
    }
  }

  /** A tag, cut out of the text it starts, is a tag of the same length on its own. */
  lemma {:induction false} TagIsWhole(s: string)
    requires TagLen(s) > 0
    ensures TagLen(s[..TagLen(s)]) == TagLen(s)
  {
    var n := TagLen(s);
    assert s[..n][..n] == s[..n];
    TagLenPrefix(s, s[..n]);
  }

  /** The length of the tag that starts at position `q` of `s`, or 0. */
  function TagAt(s: string, q: nat): nat
    requires q <= |s|
  {
    TagLen(s[q..])
  }

  /** A table of tag lengths: an entry is 0 (no tag starts there) or a tag that fits in what is left. */
  predicate Fits(tl: seq<nat>)
  {
    forall q :: 0 <= q < |tl| ==> tl[q] == 0 || 2 <= tl[q] <= |tl| - q
  }

  /** The tag grammar applied at every position of `s`. */
  function Tags(s: string): (tl: seq<nat>)
    ensures |tl| == |s| && Fits(tl)
  {
    seq(|s|, q requires 0 <= q < |s| => TagAt(s, q))
  }

  /** The table of a suffix is the suffix of the table. */
  lemma {:induction false} TagsShift(s: string, n: nat)
    requires n <= |s|
    ensures Tags(s[n..]) == Tags(s)[n..]
  {
    forall q | 0 <= q < |s| - n
      ensures Tags(s[n..])[q] == Tags(s)[n..][q]
    {
      assert s[n..][q..] == s[n + q..];
    }
  }

  /** The first position at or after `from` where a tag starts, or |tl| when none does. */
  function NextTag(tl: seq<nat>, from: nat): (p: nat)
    requires from <= |tl|
    ensures from <= p <= |tl|
    ensures p < |tl| ==> tl[p] > 0
    decreases |tl| - from
  {
    if from == |tl| || tl[from] > 0 then from else NextTag(tl, from + 1)
  }

  /** No tag starts between `from` and the next tag. */
  lemma {:induction false} NoTagBefore(tl: seq<nat>, from: nat)
    requires from <= |tl|
    ensures forall q :: from <= q < NextTag(tl, from) ==> tl[q] == 0
    decreases |tl| - from
  {
    if from < |tl| && tl[from] == 0 {
      NoTagBefore(tl, from + 1);
    }
  }

  /** Looking for the next tag in a suffix is looking in the whole table from the cut. */
  lemma {:induction false} NextTagShift(tl: seq<nat>, n: nat, from: nat)
    requires n <= from <= |tl|
    ensures NextTag(tl, from) == n + NextTag(tl[n..], from - n)
    decreases |tl| - from
  {
    if from < |tl| && tl[from] == 0 {
      NextTagShift(tl, n, from + 1);
    }
  }

  /** `text.search(COLOR_REGEX)`: where the first tag starts, or -1. */
  function Search(s: string): (i: int)
    ensures -1 <= i < |s|
    ensures i >= 0 ==> Tags(s)[i] > 0
  {
    var p := NextTag(Tags(s), 0);
    if p == |s| then -1 else p
  }

  /** `search` finds the first tag, and answers -1 exactly when the text holds no tag. */
  lemma {:induction false} SearchFindsFirstTag(s: string)
    ensures Search(s) == -1 <==> forall q :: 0 <= q < |s| ==> TagAt(s, q) == 0
    ensures Search(s) >= 0 ==> TagAt(s, Search(s)) > 0 && forall q :: 0 <= q < Search(s) ==> TagAt(s, q) == 0
  {
    forall q | 0 <= q < |s|
      ensures Tags(s)[q] == TagAt(s, q)
    {
    }
    NoTagBefore(Tags(s), 0);
  }

  /**
   * `text.match(COLOR_REGEX)` with the `g` flag, for the part of `s` from
   * `from` on: every tag, left to right, without overlaps, as listed in the
   * table `tl` of `s`.
   */
  function Matches(s: string, tl: seq<nat>, from: nat): seq<string>
    requires |tl| == |s| && Fits(tl) && from <= |s|
    decreases |s| - from
  {
    var p := NextTag(tl, from);
    if p == |s| then [] else [s[p..p + tl[p]]] + Matches(s, tl, p + tl[p])
  }

  /** `text.match(COLOR_REGEX)`: all the tags of `s`, left to right. */
  function Match(s: string): seq<string>
  {
    Matches(s, Tags(s), 0)
  }

  /** A suffix of a table fits what is left of the text. */
  lemma {:induction false} FitsSuffix(tl: seq<nat>, n: nat)
    requires Fits(tl) && n <= |tl|
    ensures Fits(tl[n..])
  {
    forall q | 0 <= q < |tl| - n
      ensures tl[n..][q] == 0 || 2 <= tl[n..][q] <= |tl| - n - q
    {
      assert tl[n..][q] == tl[n + q];
    }
  }

  /** One step of matching in a suffix: the same next tag, seen from the cut. */
  lemma {:induction false} MatchesShiftStep(s: string, tl: seq<nat>, n: nat, from: nat)
    requires |tl| == |s| && Fits(tl) && n <= from <= |s|
    requires Fits(tl[n..])
    ensures var p := NextTag(tl, from);
            && (p == |s| ==> Matches(s[n..], tl[n..], from - n) == [] == Matches(s, tl, from))
            && (p < |s| ==> && Matches(s[n..], tl[n..], from - n) == [s[p..p + tl[p]]] + Matches(s[n..], tl[n..], p + tl[p] - n)
                            && Matches(s, tl, from) == [s[p..p + tl[p]]] + Matches(s, tl, p + tl[p]))
  {
    var p := NextTag(tl, from);
    NextTagShift(tl, n, from);
    if p < |s| {
      var m := tl[p];
      assert tl[n..][p - n] == m;
      assert s[n..][p - n..p - n + m] == s[p..p + m];
    }
  }

  /** Matching in a suffix is matching in the whole text from the cut. */
  lemma {:induction false} MatchesShift(s: string, tl: seq<nat>, n: nat, from: nat)
    requires |tl| == |s| && Fits(tl) && n <= from <= |s|
    requires Fits(tl[n..])
    ensures Matches(s[n..], tl[n..], from - n) == Matches(s, tl, from)
    decreases |s| - from
  {
    var p := NextTag(tl, from);
    MatchesShiftStep(s, tl, n, from);
    if p < |s| {
      var m := tl[p];
      assert 2 <= m <= |s| - p;
      MatchesShift(s, tl, n, p + m);
    }
  }

  /** Every match is a whole tag: it starts with a tag exactly as long as itself. */
  lemma {:induction false} MatchesAreTags(s: string, from: nat)
    requires from <= |s|
    ensures forall i :: 0 <= i < |Matches(s, Tags(s), from)| ==>
              TagLen(Matches(s, Tags(s), from)[i]) == |Matches(s, Tags(s), from)[i]| > 0
    decreases |s| - from
  {
    var tl := Tags(s);
    var p := NextTag(tl, from);
    if p < |s| {
      var n := tl[p];
      var tag := s[p..p + n];
      TagAtIsWhole(s, p);
      MatchesAreTags(s, p + n);
      var rest := Matches(s, tl, p + n);
      assert Matches(s, tl, from) == [tag] + rest;
    }
  }

  /** The text of a tag found at `p` is a tag on its own, of the same length. */
  lemma {:induction false} TagAtIsWhole(s: string, p: nat)
    requires p < |s| && Tags(s)[p] > 0
    ensures var n := Tags(s)[p]; TagLen(s[p..p + n]) == n == |s[p..p + n]|
  {
    var n := Tags(s)[p];
    assert n == TagLen(s[p..]);
    assert s[p..p + n] == s[p..][..n];
    TagIsWhole(s[p..]);
  }

  /** Text with a tag at `at` matches that tag first, then the matches from the next tag on. */
  lemma {:induction false} MatchesAtTag(s: string, tl: seq<nat>, at: nat)
    requires |tl| == |s| && Fits(tl) && at < |s| && tl[at] > 0
    ensures var p := NextTag(tl, at + tl[at]);
            && (p == |s| ==> Matches(s, tl, at) == [s[at..at + tl[at]]])
            && (p < |s| ==> Matches(s, tl, at) == [s[at..at + tl[at]]] + Matches(s, tl, p))
  {
    var p := NextTag(tl, at + tl[at]);
    if p < |s| {
      assert NextTag(tl, p) == p;
    }
  }

  /**
   * A stretch of text opened by a tag: the tag itself (empty for the text
   * before the first tag) and the text that follows it up to the next tag.
   */
  datatype Segment = Segment(tag: string, body: string)

  /**
   * The segments of a text `t` that starts with a tag, by the tag grammar
   * alone (`tl` is its table): each tag opens a segment that runs to the next
   * tag (or to the end), and the rest of the text is cut the same way.
   */
  function Runs(t: string, tl: seq<nat>): (segs: seq<Segment>)
    requires |tl| == |t| && Fits(tl) && |t| > 0 && tl[0] > 0
    ensures |segs| >= 1
    decreases |t|
  {
    var p := NextTag(tl, tl[0]);
    var seg := Segment(t[..tl[0]], t[tl[0]..p]);
    if p == |t| then [seg] else FitsSuffix(tl, p); [seg] + Runs(t[p..], tl[p..])
  }

  /** The segments of a text with at least one tag: the text before the first tag, if any, then the runs. */
  function Segments(text: string): seq<Segment>
    requires Search(text) >= 0
  {
    var i := Search(text);
    TagsShift(text, i);
    var runs := Runs(text[i..], Tags(text[i..]));
    if i != 0 then [Segment("", text[..i])] + runs else runs
  }

  /** The text a list of segments was cut from. */
  function Source(segs: seq<Segment>): string
  {
    if segs == [] then "" else segs[0].tag + segs[0].body + Source(segs[1..])
  }

  lemma {:induction false} SourceAppend(a: seq<Segment>, b: seq<Segment>)
    ensures Source(a + b) == Source(a) + Source(b)
  {
    if a != [] {
      assert (a + b)[0] == a[0] && (a + b)[1..] == a[1..] + b;
      SourceAppend(a[1..], b);
    } else {
      assert a + b == b;
    }
  }

  /** The runs lose nothing and keep order: their tags and bodies, in turn, are the text. */
  lemma {:induction false} RunsCoverText(t: string, tl: seq<nat>)
    requires |tl| == |t| && Fits(tl) && |t| > 0 && tl[0] > 0
    ensures Source(Runs(t, tl)) == t
    decreases |t|
  {
    var n := tl[0];
    var p := NextTag(tl, n);
    var segs := Runs(t, tl);
    assert t[..n] + t[n..p] == t[..p];
    if p < |t| {
      FitsSuffix(tl, p);
      RunsCoverText(t[p..], tl[p..]);
      assert segs[1..] == Runs(t[p..], tl[p..]);
      assert t[..p] + t[p..] == t;
    } else {
      assert segs[1..] == [];
    }
  }

  /** The text before the first tag and the runs from it lose nothing and keep order. */
  lemma {:induction false} LeadCoversText(text: string, i: nat, tl: seq<nat>)
    requires i < |text| && |tl| == |text| - i && Fits(tl) && tl[0] > 0
    ensures Source(if i != 0 then [Segment("", text[..i])] + Runs(text[i..], tl) else Runs(text[i..], tl)) == text
  {
    RunsCoverText(text[i..], tl);
    if i != 0 {
      var lead := [Segment("", text[..i])];
      SourceAppend(lead, Runs(text[i..], tl));
      assert lead[1..] == [];
      assert text[..i] + text[i..] == text;
    }
  }

  /** Every character of a text with a tag lies in exactly one segment, in input order. */
  lemma {:induction false} SegmentsCoverText(text: string)
    requires Search(text) >= 0
    ensures Source(Segments(text)) == text
  {
    var i := Search(text);
    TagsShift(text, i);
    LeadCoversText(text, i, Tags(text[i..]));
  }

  /** No tag starts anywhere inside `b`. */
  ghost predicate TagFree(b: string)
  {
    forall q :: 0 <= q < |b| ==> TagAt(b, q) == 0
  }

  /** A segment of the runs is opened by a real tag and its body holds no tag. */
  ghost predicate WellCut(seg: Segment)
  {
    TagLen(seg.tag) == |seg.tag| > 0 && TagFree(seg.body)
  }

  /** The text between `n` and the next tag holds no tag. */
  lemma {:induction false} GapIsTagFree(s: string, n: nat)
    requires n <= |s|
    ensures TagFree(s[n..NextTag(Tags(s), n)])
  {
    var p := NextTag(Tags(s), n);
    NoTagBefore(Tags(s), n);
    forall q | 0 <= q < p - n
      ensures TagAt(s[n..p], q) == 0
    {
      assert Tags(s)[n + q] == 0;
      assert s[n..p][q..] == s[n + q..][..p - n - q];
      TagInPrefix(s[n + q..], p - n - q);
    }
  }

  /** The first run is opened by a tag and holds no other tag. */
  lemma {:induction false} FirstRunWellCut(t: string)
    requires |t| > 0 && Tags(t)[0] > 0
    ensures WellCut(Runs(t, Tags(t))[0])
  {
    var tl := Tags(t);
    var n := tl[0];
    assert TagLen(t[..n]) == n by {
      assert t == t[0..];
      TagIsWhole(t);
    }
    GapIsTagFree(t, n);
  }

  /** The runs are the first run, then the runs of the text from the next tag on. */
  lemma {:induction false} RunsUnfold(t: string)
    requires |t| > 0 && Tags(t)[0] > 0
    ensures var p := NextTag(Tags(t), Tags(t)[0]);
            && (p == |t| ==> Runs(t, Tags(t)) == [Runs(t, Tags(t))[0]])
            && (p < |t| ==> && Tags(t[p..])[0] > 0
                            && Runs(t, Tags(t)) == [Runs(t, Tags(t))[0]] + Runs(t[p..], Tags(t[p..])))
  {
    var p := NextTag(Tags(t), Tags(t)[0]);
    if p < |t| {
      TagsShift(t, p);
    }
  }

  /** Every run is opened by a tag and holds no other tag. */
  lemma {:induction false} RunsAreWellCut(t: string)
    requires |t| > 0 && Tags(t)[0] > 0
    ensures forall seg :: seg in Runs(t, Tags(t)) ==> WellCut(seg)
    decreases |t|
  {
    var segs := Runs(t, Tags(t));
    var p := NextTag(Tags(t), Tags(t)[0]);
    FirstRunWellCut(t);
    RunsUnfold(t);
    if p < |t| {
      RunsAreWellCut(t[p..]);
    }
  }

  /** The tags the runs are opened by are the matches of the regular expression, in order. */
  lemma {:induction false} RunsFollowMatches(t: string, tl: seq<nat>)
    requires |tl| == |t| && Fits(tl) && |t| > 0 && tl[0] > 0
    ensures |Runs(t, tl)| == |Matches(t, tl, 0)|
    ensures forall i :: 0 <= i < |Matches(t, tl, 0)| ==> Runs(t, tl)[i].tag == Matches(t, tl, 0)[i]
    decreases |t|
  {
    var p := NextTag(tl, tl[0]);
    MatchesHead(t, tl);
    if p < |t| {
      RunsFollowMatches(t[p..], tl[p..]);
    }
  }

  /** Where no tag starts, no tag's text occurs. */
  lemma {:induction false} NoTagNoOccurrence(s: string, tag: string, lo: nat, hi: nat)
    requires TagLen(tag) == |tag| > 0 && hi <= |s|
    requires forall q :: lo <= q < hi ==> TagAt(s, q) == 0
    ensures forall q :: lo <= q < hi ==> !OccursAt(s, tag, q)
  {
    forall q | lo <= q < hi
      ensures !OccursAt(s, tag, q)
    {
      assert TagAt(s, q) == 0;
      TagAtOccurrence(s, tag, q);
    }
  }

  /**
   * `indexOf` from `n` finds the first tag at or after `n` where it starts:
   * its text occurs nowhere before, since any occurrence would itself be a tag.
   */
  lemma {:induction false} IndexOfNextTag(s: string, n: nat, p: nat)
    requires n <= p < |s| && TagAt(s, p) > 0
    requires forall q :: n <= q < p ==> TagAt(s, q) == 0
    ensures IndexOf(s, s[p..p + TagAt(s, p)], n) == p
  {
    var m := TagAt(s, p);
    var tag := s[p..p + m];
    assert TagLen(tag) == m by {
      assert tag == s[p..][..m];
      TagIsWhole(s[p..]);
    }
    NoTagNoOccurrence(s, tag, n, p);
    IndexOfIs(s, tag, n, p);
  }

  /**
   * The colour a tag stands for: the tag lower-cased without its first and
   * last characters; a `#` colour right-padded with `0` to seven characters,
   * any other name mapped by `getColor`.
   */
  function ColorOf(tag: string, getColor: string -> string): string
  {
    var c := Substring(Lower(tag), 1, |tag| - 1);
    if |c| > 0 && c[0] == '#' then PadEnd(c, 7, '0') else getColor(c)
  }

  /** The colour of each tag, with `getColor` for the names. */
  function TagColor(getColor: string -> string): string -> string
  {
    tag => ColorOf(tag, getColor)
  }

  /**
   * A `#` colour is never empty: it is the lower-cased name padded with `0`
   * to at least seven characters, whatever `getColor` does.
   */
  lemma {:induction false} ColorOfHex(tag: string, getColor: string -> string)
    requires |tag| >= 2
    ensures var c := Lower(tag)[1..|tag| - 1];
            var color := ColorOf(tag, getColor);
            |c| > 0 && c[0] == '#' ==>
              && |color| >= 7 && |color| >= |c| && color[..|c|] == c
              && forall i :: |c| <= i < |color| ==> color[i] == '0'
  {
    PadEndPads(Lower(tag)[1..|tag| - 1], 7, '0');
  }

  /** The colour of a segment: its tag's colour, none for the text before the first tag. */
  function SegmentColor(seg: Segment, colorOf: string -> string): string
  {
    if |seg.tag| >= 2 then colorOf(seg.tag) else ""
  }

  /** The text a segment shows: a coloured segment drops its tag, an uncoloured one shows it verbatim. */
  function Shown(seg: Segment, color: string): (shown: string)
    ensures |color| > 0 ==> shown == seg.body
    ensures |color| == 0 ==> shown == seg.tag + seg.body
  {
    if |color| > 0 then seg.body else seg.tag + seg.body
  }

  /** A rendered node: a span of text in a colour, or a line break. */
  datatype Node = Span(key: int, color: string, text: string) | Br(key: int)

  /**
   * The nodes for the lines of a segment: one span per line, in the
   * segment's colour, with a line break between neighbouring lines, keyed
   * `key`, `key + 1`, ... in order.
   */
  function LineNodes(lines: seq<string>, color: string, key: int): (nodes: seq<Node>)
    requires |lines| >= 1
    ensures |nodes| == 2 * |lines| - 1
    decreases |lines|
  {
    [Span(key, color, lines[0])] + (if |lines| == 1 then [] else [Br(key + 1)] + LineNodes(lines[1..], color, key + 2))
  }

  /** One more line adds a line break and a span at the end. */
  lemma {:induction false} LineNodesAppend(lines: seq<string>, line: string, color: string, key: int)
    requires |lines| >= 1
    ensures LineNodes(lines + [line], color, key)
            == LineNodes(lines, color, key) + [Br(key + 2 * |lines| - 1), Span(key + 2 * |lines|, color, line)]
    decreases |lines|
  {
    if |lines| == 1 {
      assert (lines + [line])[1..] == [line];
    } else {
      assert (lines + [line])[1..] == lines[1..] + [line];
      LineNodesAppend(lines[1..], line, color, key + 2);
    }
  }

  /** The texts of the spans among `nodes`, in order. */
  function SpanTexts(nodes: seq<Node>): seq<string>
  {
    if nodes == [] then [] else (if nodes[0].Span? then [nodes[0].text] else []) + SpanTexts(nodes[1..])
  }

  /** Line nodes alternate span and break, keys run on by one, and the spans hold the lines in order. */
  lemma {:induction false} LineNodesShape(lines: seq<string>, color: string, key: int)
    requires |lines| >= 1
    ensures forall i :: 0 <= i < |LineNodes(lines, color, key)| ==> LineNodes(lines, color, key)[i].key == key + i
    ensures forall i :: 0 <= i < |LineNodes(lines, color, key)| ==> (LineNodes(lines, color, key)[i].Span? <==> i % 2 == 0)
    ensures SpanTexts(LineNodes(lines, color, key)) == lines
    decreases |lines|
  {
    var nodes := LineNodes(lines, color, key);
    if |lines| == 1 {
      assert nodes[1..] == [];
    } else {
      var tail := LineNodes(lines[1..], color, key + 2);
      LineNodesShape(lines[1..], color, key + 2);
      assert nodes == [Span(key, color, lines[0]), Br(key + 1)] + tail;
      forall i | 2 <= i < |nodes|
        ensures nodes[i].key == key + i && (nodes[i].Span? <==> i % 2 == 0)
      {
        assert nodes[i] == tail[i - 2];
      }
      assert nodes[1..] == [Br(key + 1)] + tail;
      assert nodes[1..][1..] == tail;
      assert lines == [lines[0]] + lines[1..];
    }
  }

  /** The text is exactly `[]`. */
  predicate IsBrackets(text: string)
  {
    |text| == 2 && text[0] == '[' && text[1] == ']'
  }

  /**
   * The nodes for the lines of `text`, read up to each newline in turn: a
   * span for the line, then a line break and the nodes of what follows the
   * newline, keyed `key`, `key + 1`, ... in order.
   */
  function Lines(text: string, color: string, key: int): seq<Node>
    decreases |text|
  {
    var i := FindFirst(text, {'\n'}, 0);
    if i == |text| then [Span(key, color, text)]
    else [Span(key, color, text[..i]), Br(key + 1)] + Lines(text[i + 1..], color, key + 2)
  }

  /** Reading the lines one newline at a time gives the line nodes of the text split at newlines. */
  lemma {:induction false} LinesAreSplit(text: string, color: string, key: int)
    ensures Lines(text, color, key) == LineNodes(Split(text, {'\n'}), color, key)
    decreases |text|
  {
    var i := FindFirst(text, {'\n'}, 0);
    if i < |text| {
      var rest := Split(text[i + 1..], {'\n'});
      LinesAreSplit(text[i + 1..], color, key + 2);
      assert Split(text, {'\n'}) == [text[..i]] + rest;
      assert ([text[..i]] + rest)[1..] == rest;
    }
  }

  /**
   * The nodes `breakdown(text, color, key)` produces: nothing for exactly
   * `[]`; otherwise the line nodes of the text, keyed from `key + 1` on.
   */
  function BreakdownNodes(text: string, color: string, key: int): seq<Node>
  {
    if IsBrackets(text) then [] else Lines(text, color, key + 1)
  }

  /**
   * A segment with k newlines gives k + 1 spans and k line breaks, spans
   * and breaks alternating, with keys `key + 1`, `key + 2`, ... in order,
   * and the span texts joined by newlines are the segment's text.
   */
  lemma {:induction false} BreakdownShape(text: string, color: string, key: int)
    requires !IsBrackets(text)
    ensures var nodes := BreakdownNodes(text, color, key);
            && |nodes| == 2 * Count(text, '\n') + 1
            && (forall i :: 0 <= i < |nodes| ==> nodes[i].key == key + 1 + i)
            && (forall i :: 0 <= i < |nodes| ==> (nodes[i].Span? <==> i % 2 == 0))
            && Join(SpanTexts(nodes), '\n') == text
  {
    SplitCount(text, '\n');
    SplitJoin(text, '\n');
    LinesAreSplit(text, color, key + 1);
    LineNodesShape(Split(text, {'\n'}), color, key + 1);
  }

  /** The nodes of a list of segments, each in its colour, keyed on from `key`. */
  function Layout(segs: seq<Segment>, key: int, colorOf: string -> string, breakdown: (string, string, int) -> seq<Node>): seq<Node>
  {
    if segs == [] then []
    else
      var color := SegmentColor(segs[0], colorOf);
      var b := breakdown(Shown(segs[0], color), color, key);
      b + Layout(segs[1..], key + |b|, colorOf, breakdown)
  }

  /** Keys run on without gaps: the node at position i has key `key + 1 + i`, so keys are distinct and increasing. */
  lemma {:induction false} LayoutKeys(segs: seq<Segment>, key: int, colorOf: string -> string)
    ensures forall i :: 0 <= i < |Layout(segs, key, colorOf, BreakdownNodes)| ==> Layout(segs, key, colorOf, BreakdownNodes)[i].key == key + 1 + i
  {
    if segs != [] {
      var color := SegmentColor(segs[0], colorOf);
      var b := BreakdownNodes(Shown(segs[0], color), color, key);
      LayoutKeys(segs[1..], key + |b|, colorOf);
      if !IsBrackets(Shown(segs[0], color)) {
        BreakdownShape(Shown(segs[0], color), color, key);
      }
      var all := Layout(segs, key, colorOf, BreakdownNodes);
      assert all == b + Layout(segs[1..], key + |b|, colorOf, BreakdownNodes);
      forall i | |b| <= i < |all|
        ensures all[i].key == key + 1 + i
      {
        assert all[i] == Layout(segs[1..], key + |b|, colorOf, BreakdownNodes)[i - |b|];
      }
    }
  }

  /** What `render` returns: nothing, one plain span with the whole text, or the list of nodes. */
  datatype Rendered = Nothing | Whole(text: string) | Nodes(nodes: seq<Node>)

  /** The reference rendering of a text, from its segments. */
  function Rendering(text: Option<string>, getColor: string -> string): Rendered
  {
    if text.None? || |text.value| == 0 then Nothing
    else if Search(text.value) < 0 then Whole(text.value)
    else Nodes(Layout(Segments(text.value), 0, TagColor(getColor), BreakdownNodes))
  }

  /** `breakdown`: the loop over the lines of one segment. */
  method Breakdown(text: string, color: string, key: int) returns (nodes: seq<Node>, key': int)
    ensures nodes == BreakdownNodes(text, color, key)
    ensures key' == key + |nodes|
  {
    if IsBrackets(text) {
      return [], key;
    }
    var s := Split(text, {'\n'});
    key' := key + 1;
    if |s| == 1 {
      LinesAreSplit(text, color, key + 1);
      return [Span(key', color, text)], key';
    }
    nodes := [Span(key', color, s[0])];
    assert nodes == LineNodes(s[..1], color, key + 1);
    for i := 1 to |s|
      invariant nodes == LineNodes(s[..i], color, key + 1)
      invariant key' == key + |nodes|
    {
      LineNodesAppend(s[..i], s[i], color, key + 1);
      assert s[..i + 1] == s[..i] + [s[i]];
      key' := key' + 1;
      nodes := nodes + [Br(key')];
      key' := key' + 1;
      nodes := nodes + [Span(key', color, s[i])];
    }
    assert s[..|s|] == s;
    LinesAreSplit(text, color, key + 1);
  }

  /** `add`: appends one segment's nodes to `result` and returns the advanced key. */
  method Add(result: seq<Node>, text: string, color: string, key: int) returns (result': seq<Node>, key': int)
    ensures result' == result + BreakdownNodes(text, color, key)
    ensures key' == key + |BreakdownNodes(text, color, key)|
  {
    var r;
    r, key' := Breakdown(text, color, key);
    result' := result + r;
  }

  /** In a text that starts with a tag, `indexOf` from the end of that tag finds the next tag where it starts. */
  lemma {:induction false} FindsNextTag(t: string)
    requires |t| > 0 && Tags(t)[0] > 0
    requires NextTag(Tags(t), Tags(t)[0]) < |t|
    ensures var tl := Tags(t);
            var p := NextTag(tl, tl[0]);
            IndexFrom(t, t[p..p + tl[p]], tl[0]) == p
  {
    var tl := Tags(t);
    var p := NextTag(tl, tl[0]);
    NoTagBefore(tl, tl[0]);
    forall q | tl[0] <= q < p
      ensures TagAt(t, q) == 0
    {
      assert tl[q] == 0;
    }
    assert TagAt(t, p) == tl[p];
    IndexOfNextTag(t, tl[0], p);
    assert Clamp(tl[0], |t|) == tl[0];
  }

  /**
   * In a text `t` that starts with a tag (`tl` its table), `indexOf` finds
   * the text of each next tag, from the end of the one before, where that
   * tag starts: for the first tag, and on in the rest of the text.
   */
  ghost predicate FindsAll(t: string, tl: seq<nat>, find: (string, string, int) -> int)
    requires |tl| == |t| && Fits(tl) && |t| > 0 && tl[0] > 0
    decreases |t|
  {
    var p := NextTag(tl, tl[0]);
    p < |t| ==> find(t, t[p..p + tl[p]], tl[0]) == p && (FitsSuffix(tl, p); FindsAll(t[p..], tl[p..], find))
  }

  /** In the table of the tag grammar, `indexOf` finds every next tag. */
  lemma {:induction false} TagsFindAll(t: string)
    requires |t| > 0 && Tags(t)[0] > 0
    ensures FindsAll(t, Tags(t), IndexFrom)
    decreases |t|
  {
    var tl := Tags(t);
    var p := NextTag(tl, tl[0]);
    if p < |t| {
      FindsNextTag(t);
      TagsShift(t, p);
      TagsFindAll(t[p..]);
    }
  }

  /**
   * The nodes the `while` loop of `render` appends for what is left of the
   * text and of the match list, keys running on from `key`: each match
   * gives the text from its end (or, when its colour is empty, from its
   * start) up to where `indexOf` finds the next match, and the last match
   * the rest of the text.
   */
  function Walked(text: string, arr: seq<string>, key: int, colorOf: string -> string, breakdown: (string, string, int) -> seq<Node>, find: (string, string, int) -> int): seq<Node>
    decreases |arr|
  {
    if |arr| == 0 then []
    else
      var color := colorOf(arr[0]);
      if |arr| == 1 then
        breakdown(if |color| > 0 then Substring(text, |arr[0]|, |text|) else text, color, key)
      else
        var next := find(text, arr[1], |arr[0]|);
        var b := breakdown(if |color| > 0 then Substring(text, |arr[0]|, next) else Substring(text, 0, next), color, key);
        b + Walked(Substring(text, next, |text|), arr[1..], key + |b|, colorOf, breakdown, find)
  }

  /** A match list with a next match walks its first piece, then the rest of the text from that match. */
  lemma {:induction false} WalkedTurn(text: string, arr: seq<string>, key: int, colorOf: string -> string, breakdown: (string, string, int) -> seq<Node>, find: (string, string, int) -> int)
    requires |arr| >= 2
    ensures var color := colorOf(arr[0]);
            var next := find(text, arr[1], |arr[0]|);
            var b := breakdown(if |color| > 0 then Substring(text, |arr[0]|, next) else Substring(text, 0, next), color, key);
            Walked(text, arr, key, colorOf, breakdown, find) == b + Walked(Substring(text, next, |text|), arr[1..], key + |b|, colorOf, breakdown, find)
  {
  }

  /** `WalkedTurn` for the line breaks and `indexOf` of `render`. */
  lemma {:induction false} RenderTurn(text: string, arr: seq<string>, key: int, colorOf: string -> string)
    requires |arr| >= 2
    ensures var color := colorOf(arr[0]);
            var next := IndexFrom(text, arr[1], |arr[0]|);
            var b := BreakdownNodes(if |color| > 0 then Substring(text, |arr[0]|, next) else Substring(text, 0, next), color, key);
            Walked(text, arr, key, colorOf, BreakdownNodes, IndexFrom)
              == b + Walked(Substring(text, next, |text|), arr[1..], key + |b|, colorOf, BreakdownNodes, IndexFrom)
  {
    WalkedTurn(text, arr, key, colorOf, BreakdownNodes, IndexFrom);
  }

  /** Appending node lists is associative. */
  lemma {:induction false} NodesAssoc(a: seq<Node>, b: seq<Node>, c: seq<Node>)
    ensures (a + b) + c == a + (b + c)
  {
  }

  /**
   * One turn of the `while` loop of `render` on a match list with a next
   * match: the piece up to where `indexOf` finds that match is added, and
   * the text and the list are shifted to it.  `colorOf` is the colour of a
   * tag (`TagColor`).
   */
  method Turn(text: string, arr: seq<string>, result: seq<Node>, key: int, colorOf: string -> string)
    returns (text': string, arr': seq<string>, result': seq<Node>, key': int)
    requires |arr| >= 2
    ensures arr' == arr[1..]
    ensures result' + Walked(text', arr', key', colorOf, BreakdownNodes, IndexFrom)
            == result + Walked(text, arr, key, colorOf, BreakdownNodes, IndexFrom)
    ensures key' - key == |result'| - |result|
  {
    var color := colorOf(arr[0]);
    var nextIndex := IndexFrom(text, arr[1], |arr[0]|);
    var piece := if |color| > 0 then Substring(text, |arr[0]|, nextIndex) else Substring(text, 0, nextIndex);
    RenderTurn(text, arr, key, colorOf);
    ghost var b := BreakdownNodes(piece, color, key);
    result', key' := Add(result, piece, color, key);
    text' := Substring(text, nextIndex, |text|);
    arr' := arr[1..];
    assert key' == key + |b|;
    NodesAssoc(result, b, Walked(text', arr', key', colorOf, BreakdownNodes, IndexFrom));
  }

  /** The last turn of the loop: the last match's piece runs to the end of the text. */
  method LastTurn(text: string, arr: seq<string>, result: seq<Node>, key: int, colorOf: string -> string)
    returns (result': seq<Node>, key': int)
    requires |arr| == 1
    ensures result' == result + Walked(text, arr, key, colorOf, BreakdownNodes, IndexFrom)
    ensures key' - key == |result'| - |result|
  {
    var color := colorOf(arr[0]);
    if |color| > 0 {
      result', key' := Add(result, Substring(text, |arr[0]|, |text|), color, key);
    } else {
      result', key' := Add(result, text, "", key);
    }
  }

  /**
   * The `while` loop of `render`: it walks the match list `arr` of `t`,
   * shifting it as it goes, and appends the nodes of each piece of text to
   * `result`.
   */
  method Walk(t: string, arr: seq<string>, result: seq<Node>, key: int, colorOf: string -> string)
    returns (result': seq<Node>, key': int)
    ensures result' == result + Walked(t, arr, key, colorOf, BreakdownNodes, IndexFrom)
    ensures key' - key == |result'| - |result|
  {
    var text, arr' := t, arr;
    result', key' := result, key;
    while |arr'| > 0
      invariant result' + Walked(text, arr', key', colorOf, BreakdownNodes, IndexFrom)
                == result + Walked(t, arr, key, colorOf, BreakdownNodes, IndexFrom)
      invariant key' - key == |result'| - |result|
      decreases |arr'|
    {
      if |arr'| == 1 {
        result', key' := LastTurn(text, arr', result', key', colorOf);
        break;
      }
      text, arr', result', key' := Turn(text, arr', result', key', colorOf);
    }
    assert result' + [] == result';
  }

  /** The layout of a segment followed by more: the segment's nodes, then the rest keyed on after them. */
  lemma {:induction false} LayoutCons(seg: Segment, segs: seq<Segment>, key: int, colorOf: string -> string, breakdown: (string, string, int) -> seq<Node>)
    ensures var color := SegmentColor(seg, colorOf);
            var b := breakdown(Shown(seg, color), color, key);
            && Layout([seg] + segs, key, colorOf, breakdown) == b + Layout(segs, key + |b|, colorOf, breakdown)
            && Layout([seg], key, colorOf, breakdown) == b
  {
    assert ([seg] + segs)[1..] == segs;
  }

  /** The nodes of the segment the tag `t` starts with opens, keyed on from `key`. */
  function RunNodes(t: string, tl: seq<nat>, key: int, colorOf: string -> string, breakdown: (string, string, int) -> seq<Node>): seq<Node>
    requires |tl| == |t| && Fits(tl) && |t| > 0 && tl[0] > 0
  {
    var seg := Segment(t[..tl[0]], t[tl[0]..NextTag(tl, tl[0])]);
    var color := SegmentColor(seg, colorOf);
    breakdown(Shown(seg, color), color, key)
  }

  /** `MatchesHead` when a next tag follows: the matches from it are those of the text cut there. */
  lemma {:induction false} MatchesFromNext(t: string, tl: seq<nat>, p: nat)
    requires |tl| == |t| && Fits(tl) && p < |t| && tl[p] > 0
    ensures Fits(tl[p..])
    ensures Matches(t, tl, p) == Matches(t[p..], tl[p..], 0)
    ensures Matches(t[p..], tl[p..], 0)[0] == t[p..p + tl[p]]
  {
    FitsSuffix(tl, p);
    MatchesShift(t, tl, p, p);
    MatchesAtTag(t, tl, p);
  }

  /** The matches of a text that starts with a tag: that tag, then the matches of the text from the next tag. */
  lemma {:induction false} MatchesHead(t: string, tl: seq<nat>)
    requires |tl| == |t| && Fits(tl) && |t| > 0 && tl[0] > 0
    ensures var p := NextTag(tl, tl[0]);
            && (p < |t| ==> && Fits(tl[p..])
                            && Matches(t, tl, 0) == [t[..tl[0]]] + Matches(t[p..], tl[p..], 0)
                            && Matches(t[p..], tl[p..], 0)[0] == t[p..p + tl[p]])
            && (p == |t| ==> Matches(t, tl, 0) == [t[..tl[0]]])
  {
    var p := NextTag(tl, tl[0]);
    MatchesAtTag(t, tl, 0);
    var first := t[..tl[0]];
    assert t[0..0 + tl[0]] == first;
    if p < |t| {
      MatchesFromNext(t, tl, p);
      assert Matches(t, tl, 0) == [first] + Matches(t, tl, p);
    }
  }

  /**
   * One turn of the loop over a text `t` whose first match is its first `n`
   * characters, with `indexOf` finding the next match at `p`: the nodes of
   * the segment the match opens, then the walk over the text from `p`.
   */
  lemma {:induction false} WalkedStepMore(t: string, n: nat, p: nat, more: seq<string>, key: int, colorOf: string -> string, breakdown: (string, string, int) -> seq<Node>, find: (string, string, int) -> int)
    requires n <= p <= |t| && |more| > 0 && find(t, more[0], n) == p
    ensures var color := colorOf(t[..n]);
            var b := breakdown(Shown(Segment(t[..n], t[n..p]), color), color, key);
            Walked(t, [t[..n]] + more, key, colorOf, breakdown, find) == b + Walked(t[p..], more, key + |b|, colorOf, breakdown, find)
  {
    var arr := [t[..n]] + more;
    assert arr[0] == t[..n] && |arr[0]| == n;
    assert arr[1] == more[0] && arr[1..] == more;
    WalkedTurn(t, arr, key, colorOf, breakdown, find);
    PieceIsShown(t, n, p, colorOf(t[..n]));
  }

  /** The piece a turn of the loop cuts out is what the segment from `n` to `p` shows, and the rest is the text from `p`. */
  lemma {:induction false} PieceIsShown(t: string, n: nat, p: nat, color: string)
    requires n <= p <= |t|
    ensures (if |color| > 0 then Substring(t, n, p) else Substring(t, 0, p)) == Shown(Segment(t[..n], t[n..p]), color)
    ensures Substring(t, p, |t|) == t[p..]
  {
    SubstringWithin(t, n, p);
    SubstringWithin(t, 0, p);
    SubstringWithin(t, p, |t|);
    assert t[..n] + t[n..p] == t[0..p];
    assert t[p..|t|] == t[p..];
  }

  /** The last turn of the loop: the segment of the last match runs to the end of the text. */
  lemma {:induction false} WalkedStepLast(t: string, n: nat, key: int, colorOf: string -> string, breakdown: (string, string, int) -> seq<Node>, find: (string, string, int) -> int)
    requires n <= |t|
    ensures var color := colorOf(t[..n]);
            Walked(t, [t[..n]], key, colorOf, breakdown, find) == breakdown(Shown(Segment(t[..n], t[n..]), color), color, key)
  {
    var arr := [t[..n]];
    assert arr[0] == t[..n] && |arr[0]| == n;
    SubstringWithin(t, n, |t|);
    assert t[n..|t|] == t[n..];
    assert t[..n] + t[n..] == t;
  }

  /**
   * The loop's first step over a text that starts with a tag and has a next
   * tag at `p`: the nodes of the first tag's segment, then the walk over the
   * text from `p`, where `indexOf` goes on finding every next tag.
   */
  lemma {:induction false} WalkedHeadMore(t: string, tl: seq<nat>, key: int, colorOf: string -> string, breakdown: (string, string, int) -> seq<Node>, find: (string, string, int) -> int)
    requires |tl| == |t| && Fits(tl) && |t| > 0 && tl[0] > 0
    requires FindsAll(t, tl, find) && NextTag(tl, tl[0]) < |t|
    ensures var p := NextTag(tl, tl[0]);
            var b := RunNodes(t, tl, key, colorOf, breakdown);
            && Fits(tl[p..]) && |tl[p..]| == |t[p..]| > 0 && tl[p..][0] > 0
            && FindsAll(t[p..], tl[p..], find)
            && Walked(t, Matches(t, tl, 0), key, colorOf, breakdown, find)
               == b + Walked(t[p..], Matches(t[p..], tl[p..], 0), key + |b|, colorOf, breakdown, find)
  {
    var p := NextTag(tl, tl[0]);
    assert SegmentColor(Segment(t[..tl[0]], t[tl[0]..p]), colorOf) == colorOf(t[..tl[0]]);
    MatchesHead(t, tl);
    var more := Matches(t[p..], tl[p..], 0);
    assert find(t, more[0], tl[0]) == p;
    WalkedStepMore(t, tl[0], p, more, key, colorOf, breakdown, find);
  }

  /** The loop over a text with one tag, at its start: the nodes of that tag's segment alone. */
  lemma {:induction false} WalkedHeadLast(t: string, tl: seq<nat>, key: int, colorOf: string -> string, breakdown: (string, string, int) -> seq<Node>, find: (string, string, int) -> int)
    requires |tl| == |t| && Fits(tl) && |t| > 0 && tl[0] > 0
    requires NextTag(tl, tl[0]) == |t|
    ensures Walked(t, Matches(t, tl, 0), key, colorOf, breakdown, find) == RunNodes(t, tl, key, colorOf, breakdown)
  {
    var p := NextTag(tl, tl[0]);
    assert t[tl[0]..p] == t[tl[0]..];
    assert SegmentColor(Segment(t[..tl[0]], t[tl[0]..]), colorOf) == colorOf(t[..tl[0]]);
    MatchesHead(t, tl);
    WalkedStepLast(t, tl[0], key, colorOf, breakdown, find);
  }

  /** The layout of the runs of `t` with a next tag at `p`: the nodes of its first segment, then the layout of the runs from `p`. */
  lemma {:induction false} LayoutHeadMore(t: string, tl: seq<nat>, key: int, colorOf: string -> string, breakdown: (string, string, int) -> seq<Node>)
    requires |tl| == |t| && Fits(tl) && |t| > 0 && tl[0] > 0
    requires NextTag(tl, tl[0]) < |t|
    ensures var p := NextTag(tl, tl[0]);
            var b := RunNodes(t, tl, key, colorOf, breakdown);
            && Fits(tl[p..])
            && Layout(Runs(t, tl), key, colorOf, breakdown) == b + Layout(Runs(t[p..], tl[p..]), key + |b|, colorOf, breakdown)
  {
    var p := NextTag(tl, tl[0]);
    var segs := Runs(t, tl);
    FitsSuffix(tl, p);
    LayoutCons(segs[0], Runs(t[p..], tl[p..]), key, colorOf, breakdown);
    assert segs == [segs[0]] + Runs(t[p..], tl[p..]);
  }

  /** The layout of the runs of a text with one tag, at its start: the nodes of its one segment. */
  lemma {:induction false} LayoutHeadLast(t: string, tl: seq<nat>, key: int, colorOf: string -> string, breakdown: (string, string, int) -> seq<Node>)
    requires |tl| == |t| && Fits(tl) && |t| > 0 && tl[0] > 0
    requires NextTag(tl, tl[0]) == |t|
    ensures Layout(Runs(t, tl), key, colorOf, breakdown) == RunNodes(t, tl, key, colorOf, breakdown)
  {
    var segs := Runs(t, tl);
    LayoutCons(segs[0], [], key, colorOf, breakdown);
    assert segs == [segs[0]];
  }

  /**
   * Over a text that starts with a tag, the loop appends exactly the nodes
   * of the segments cut at its tags, whenever `indexOf` finds each next tag.
   */
  lemma {:induction false} WalkedRuns(t: string, tl: seq<nat>, key: int, colorOf: string -> string, breakdown: (string, string, int) -> seq<Node>, find: (string, string, int) -> int)
    requires |tl| == |t| && Fits(tl) && |t| > 0 && tl[0] > 0
    requires FindsAll(t, tl, find)
    ensures Walked(t, Matches(t, tl, 0), key, colorOf, breakdown, find) == Layout(Runs(t, tl), key, colorOf, breakdown)
    decreases |t|, 1
  {
    if NextTag(tl, tl[0]) < |t| {
      WalkedRunsMore(t, tl, key, colorOf, breakdown, find);
    } else {
      WalkedHeadLast(t, tl, key, colorOf, breakdown, find);
      LayoutHeadLast(t, tl, key, colorOf, breakdown);
    }
  }

  /** `WalkedRuns` on a text with a next tag: the first segment, then the same agreement from that tag on. */
  lemma {:induction false} WalkedRunsMore(t: string, tl: seq<nat>, key: int, colorOf: string -> string, breakdown: (string, string, int) -> seq<Node>, find: (string, string, int) -> int)
    requires |tl| == |t| && Fits(tl) && |t| > 0 && tl[0] > 0
    requires FindsAll(t, tl, find) && NextTag(tl, tl[0]) < |t|
    ensures Walked(t, Matches(t, tl, 0), key, colorOf, breakdown, find) == Layout(Runs(t, tl), key, colorOf, breakdown)
    decreases |t|, 0
  {
    var p := NextTag(tl, tl[0]);
    var b := RunNodes(t, tl, key, colorOf, breakdown);
    WalkedHeadMore(t, tl, key, colorOf, breakdown, find);
    LayoutHeadMore(t, tl, key, colorOf, breakdown);
    WalkedRuns(t[p..], tl[p..], key + |b|, colorOf, breakdown, find);
  }

  /**
   * The reference rendering of a text with a tag is what `render` builds:
   * the nodes of the text before the first tag, uncoloured, then the walk
   * over the rest of the text and its matches.
   */
  lemma {:induction false} RenderingIsWalked(whole: string, colorOf: string -> string, breakdown: (string, string, int) -> seq<Node>)
    requires Search(whole) >= 0
    ensures var i := Search(whole);
            var t := Substring(whole, i, |whole|);
            var lead := if i != 0 then breakdown(Substring(whole, 0, i), "", 0) else [];
            Layout(Segments(whole), 0, colorOf, breakdown) == lead + Walked(t, Match(t), |lead|, colorOf, breakdown, IndexFrom)
  {
    var i := Search(whole);
    var t := whole[i..];
    assert Substring(whole, i, |whole|) == t;
    TagsShift(whole, i);
    TagsFindAll(t);
    if i != 0 {
      var lead := Segment("", whole[..i]);
      assert Shown(lead, "") == Substring(whole, 0, i);
      var b := breakdown(Substring(whole, 0, i), "", 0);
      LayoutCons(lead, Runs(t, Tags(t)), 0, colorOf, breakdown);
      WalkedRuns(t, Tags(t), |b|, colorOf, breakdown, IndexFrom);
    } else {
      WalkedRuns(t, Tags(t), 0, colorOf, breakdown, IndexFrom);
      assert [] + Walked(t, Match(t), 0, colorOf, breakdown, IndexFrom) == Walked(t, Match(t), 0, colorOf, breakdown, IndexFrom);
    }
  }

  /** `RenderingIsWalked` for the colours and line breaks of `render`. */
  lemma {:induction false} RenderingWalks(t: string, index: int, colorOf: string -> string, text: string, lead: seq<Node>)
    requires index == Search(t) >= 0
    requires text == Substring(t, index, |t|)
    requires lead == if index != 0 then BreakdownNodes(Substring(t, 0, index), "", 0) else []
    ensures Layout(Segments(t), 0, colorOf, BreakdownNodes)
            == lead + Walked(text, Match(text), |lead|, colorOf, BreakdownNodes, IndexFrom)
  {
    RenderingIsWalked(t, colorOf, BreakdownNodes);
  }

  /**
   * The part of `render` after a tag was found at `index`: the text before
   * it, uncoloured, then the matches of the rest and the loop over them.
   */
  method RenderTagged(t: string, index: int, colorOf: string -> string) returns (nodes: seq<Node>)
    requires index == Search(t) >= 0
    ensures nodes == Layout(Segments(t), 0, colorOf, BreakdownNodes)
  {
    var key := 0;
    var text := t;
    nodes := [];
    if index != 0 {
      nodes, key := Add(nodes, Substring(t, 0, index), "", key);
      text := Substring(t, index, |t|);
    } else {
      SubstringWithin(t, 0, |t|);
      assert t[0..|t|] == t;
    }
    var arr := Match(text);
    assert key == |nodes|;
    RenderingWalks(t, index, colorOf, text, nodes);
    nodes, key := Walk(text, arr, nodes, key, colorOf);
  }

  /**
   * `render`: nothing for an absent or empty text, one plain span for a text
   * without tags, and otherwise the text before the first tag, uncoloured,
   * followed by what the loop appends.  It agrees with the reference
   * rendering, and its keys are 1, 2, 3, ... in order.
   */
  method Render(text: Option<string>, getColor: string -> string) returns (r: Rendered)
    ensures r == Rendering(text, getColor)
    ensures r.Nodes? ==> forall i :: 0 <= i < |r.nodes| ==> r.nodes[i].key == i + 1
  {
    if text.None? || |text.value| == 0 {
      return Nothing;
    }
    var t := text.value;
    var index := Search(t);
    if index < 0 {
      return Whole(t);
    }
    var nodes := RenderTagged(t, index, TagColor(getColor));
    LayoutKeys(Segments(t), 0, TagColor(getColor));
    r := Nodes(nodes);
  }
}
