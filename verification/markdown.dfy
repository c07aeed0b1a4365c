/**
 * clean_markdown: six regular-expression substitutions run one after the
 * other over the model's reply, then str.strip(). Each pass is modelled as
 * re.sub scans: from left to right, a match is tried at each position; a
 * match is replaced and scanning resumes after it, otherwise the character
 * is copied. Inside the patterns `.` never matches a line break, `\s` does,
 * `{m,n}` and `*` are greedy and `*?` is lazy, with the backtracking the
 * regular-expression engine does.
 *
 * Every replacement is either nothing, the group \1 or "\n\n", and each of
 * these is a slice of the text it replaces; a match is therefore given by
 * where it ends and which slice of it survives.
 */
module Markdown {
  import opened Text
  import opened Wrappers

  /** The six passes, in the order of the pattern list. */
  datatype Pass = Bold | Header | Link | Emphasis | Code | Newlines

  const Passes: seq<Pass> := [Bold, Header, Link, Emphasis, Code, Newlines]

  /** A match that ends before `end` and is replaced by s[keepFrom..keepTo]. */
  datatype Match = Match(end: nat, keepFrom: nat, keepTo: nat)

  /** [*_] */
  predicate IsMarker(c: char) { c == '*' || c == '_' }

  /** The character every match of the pass starts with. */
  predicate Opens(pass: Pass, c: char)
  {
    match pass
    case Bold => c == '*'
    case Header => c == '#'
    case Link => c == '['
    case Emphasis => IsMarker(c)
    case Code => c == '`'
    case Newlines => c == '\n'
  }

  /** A match that lies inside s from p and keeps a slice of itself. */
  predicate WellPlaced(s: string, p: nat, m: Match)
  {
    p < m.end <= |s| && p <= m.keepFrom <= m.keepTo <= m.end
  }

  /** c{1,cap} matched greedily at j (0 when s[j] is not c). */
  function Run(s: string, j: nat, c: char, cap: nat): (n: nat)
    requires j <= |s|
    ensures n <= cap && j + n <= |s|
    ensures forall i :: j <= i < j + n ==> s[i] == c
    ensures n < cap && j + n < |s| ==> s[j + n] != c
    decreases cap
  {
    if cap == 0 || j == |s| || s[j] != c then 0 else 1 + Run(s, j + 1, c, cap - 1)
  }

  /** \s* matched greedily at j; line breaks are whitespace. */
  function SpaceRun(s: string, j: nat): (n: nat)
    requires j <= |s|
    ensures j + n <= |s|
    ensures forall i :: j <= i < j + n ==> IsSpace(s[i])
    ensures j + n == |s| || !IsSpace(s[j + n])
    decreases |s| - j
  {
    if j == |s| || !IsSpace(s[j]) then 0 else 1 + SpaceRun(s, j + 1)
  }

  /**
   * `.*?` followed by one character of `targets`, from j: the first target
   * character, provided no line break comes before it.
   */
  function FirstOnLine(s: string, j: nat, targets: set<char>): (r: Option<nat>)
    requires j <= |s|
    ensures r.Some? ==> j <= r.value < |s| && s[r.value] in targets
    ensures r.Some? ==> forall i :: j <= i < r.value ==> s[i] != '\n' && s[i] !in targets
    ensures r.None? ==> forall i :: j <= i < |s| && s[i] in targets ==> '\n' in s[j..i]
    decreases |s| - j
  {
    if j == |s| then None
    else if s[j] in targets then Some(j)
    else if s[j] != '\n' then
      var r := FirstOnLine(s, j + 1, targets);
      assert forall i :: j + 1 <= i <= |s| ==> s[j + 1..i] == s[j..i][1..];
      r
    else
      assert forall i :: j < i <= |s| ==> s[j..i][0] == '\n';
      None
  }

  // ---------------------------------------------------------------------
  // The passes
  // ---------------------------------------------------------------------

  /** `.*?\*\*` from j: the first "**" with no line break before it. */
  function BoldClose(s: string, j: nat): (r: Option<nat>)
    requires j <= |s|
    ensures r.Some? ==> j <= r.value && r.value + 2 <= |s| && s[r.value] == '*' && s[r.value + 1] == '*'
    ensures r.Some? ==> forall i :: j <= i < r.value ==> s[i] != '\n' && !(s[i] == '*' && s[i + 1] == '*')
    decreases |s| - j
  {
    if j + 1 < |s| && s[j] == '*' && s[j + 1] == '*' then Some(j)
    else if j < |s| && s[j] != '\n' then BoldClose(s, j + 1)
    else None
  }

  /** \*\*(.*?)\*\* at p, replaced by \1. */
  function BoldAt(s: string, p: nat): (r: Option<Match>)
    requires p < |s|
    ensures r.Some? ==> WellPlaced(s, p, r.value) && s[p] == '*'
    ensures r.Some? ==> r.value.keepFrom == p + 2 && r.value.end == r.value.keepTo + 2
    ensures r.Some? ==> forall i :: r.value.keepFrom <= i < r.value.keepTo ==> s[i] != '\n'
  {
    if p + 1 < |s| && s[p] == '*' && s[p + 1] == '*' then
      match BoldClose(s, p + 2)
      case Some(k) => Some(Match(k + 2, p + 2, k))
      case None => None
    else None
  }

  /** #{1,6}\s* at p, deleted: up to six '#' and all the whitespace after them. */
  function HeaderAt(s: string, p: nat): (r: Option<Match>)
    requires p < |s|
    ensures r.Some? <==> s[p] == '#'
    ensures r.Some? ==> WellPlaced(s, p, r.value) && r.value.keepFrom == r.value.keepTo
    ensures r.Some? ==> forall i :: p <= i < r.value.end ==> s[i] == '#' || IsSpace(s[i])
  {
    if s[p] != '#' then None
    else
      var hashes := Run(s, p, '#', 6);
      Some(Match(p + hashes + SpaceRun(s, p + hashes), p, p))
  }

  /**
   * `.*?\]\(.*?\)` from j: the first "](" with no line break before it that a
   * ')' follows on the same line; when no ')' follows, the engine backtracks
   * and looks for a later "](".
   */
  function LinkClose(s: string, j: nat): (r: Option<(nat, nat)>)
    requires j <= |s|
    ensures r.Some? ==> j <= r.value.0 && r.value.0 + 2 <= r.value.1 < |s|
    ensures r.Some? ==> s[r.value.0] == ']' && s[r.value.0 + 1] == '(' && s[r.value.1] == ')'
    ensures r.Some? ==> forall i :: j <= i < r.value.0 ==> s[i] != '\n'
    decreases |s| - j
  {
    if j == |s| then None
    else if s[j] == ']' && j + 1 < |s| && s[j + 1] == '(' && FirstOnLine(s, j + 2, {')'}).Some? then
      Some((j, FirstOnLine(s, j + 2, {')'}).value))
    else if s[j] != '\n' then LinkClose(s, j + 1)
    else None
  }

  /** \[(.*?)\]\(.*?\) at p, replaced by \1: the link text. */
  function LinkAt(s: string, p: nat): (r: Option<Match>)
    requires p < |s|
    ensures r.Some? ==> WellPlaced(s, p, r.value) && s[p] == '['
    ensures r.Some? ==> r.value.keepFrom == p + 1 && r.value.keepTo < |s| && s[r.value.keepTo] == ']' && s[r.value.end - 1] == ')'
  {
    if s[p] != '[' then None
    else
      match LinkClose(s, p + 1)
      case Some((bracket, paren)) => Some(Match(paren + 1, p + 1, bracket))
      case None => None
  }

  /**
   * [*_]{1,2}(.*?)[*_]{1,2} at p once the opening run is fixed at `width`:
   * the group runs to the next marker on the line, and the closing run takes
   * one or two markers, greedily.
   */
  function EmphasisFrom(s: string, p: nat, width: nat): (r: Option<Match>)
    requires 1 <= width && p + width <= |s|
    ensures r.Some? ==> WellPlaced(s, p, r.value) && r.value.keepFrom == p + width
    ensures r.Some? ==> r.value.keepTo < |s| && IsMarker(s[r.value.keepTo]) && r.value.keepTo < r.value.end <= r.value.keepTo + 2
  {
    match FirstOnLine(s, p + width, {'*', '_'})
    case Some(j) =>
      var closing := if j + 1 < |s| && IsMarker(s[j + 1]) then 2 else 1;
      Some(Match(j + closing, p + width, j))
    case None => None
  }

  /** [*_]{1,2}(.*?)[*_]{1,2} at p, replaced by \1: two opening markers are tried before one. */
  function EmphasisAt(s: string, p: nat): (r: Option<Match>)
    requires p < |s|
    ensures r.Some? ==> WellPlaced(s, p, r.value) && IsMarker(s[p])
    ensures r.Some? ==> p + 1 <= r.value.keepFrom <= p + 2 && r.value.keepTo < |s| && IsMarker(s[r.value.keepTo])
  {
    if !IsMarker(s[p]) then None
    else
      var wide := if p + 1 < |s| && IsMarker(s[p + 1]) then EmphasisFrom(s, p, 2) else None;
      if wide.Some? then wide else EmphasisFrom(s, p, 1)
  }

  /**
   * `{1,3}.*?`{1,3} at p with at most `width` opening backticks: the widest
   * opening that a later backtick on the same line closes.
   */
  function CodeFrom(s: string, p: nat, width: nat): (r: Option<Match>)
    requires p + width <= |s|
    ensures r.Some? ==> WellPlaced(s, p, r.value) && r.value.keepFrom == r.value.keepTo
    ensures r.Some? ==> 1 <= width && s[r.value.end - 1] == '`'
    decreases width
  {
    if width == 0 then None
    else
      match FirstOnLine(s, p + width, {'`'})
      case Some(j) =>
        var closing := Run(s, j, '`', 3);
        Some(Match(j + closing, p, p))
      case None => CodeFrom(s, p, width - 1)
  }

  /** `{1,3}.*?`{1,3} at p, deleted. */
  function CodeAt(s: string, p: nat): (r: Option<Match>)
    requires p < |s|
    ensures r.Some? ==> WellPlaced(s, p, r.value) && s[p] == '`' && r.value.keepFrom == r.value.keepTo
  {
    if s[p] != '`' then None else CodeFrom(s, p, Run(s, p, '`', 3))
  }

  /** \n{3,} at p, replaced by "\n\n": the whole run of line breaks becomes two. */
  function NewlinesAt(s: string, p: nat): (r: Option<Match>)
    requires p < |s|
    ensures r.Some? <==> p + 2 < |s| && s[p] == '\n' && s[p + 1] == '\n' && s[p + 2] == '\n'
    ensures r.Some? ==> WellPlaced(s, p, r.value) && r.value.keepFrom == p && r.value.keepTo == p + 2
    ensures r.Some? ==> forall i :: p <= i < r.value.end ==> s[i] == '\n'
    ensures r.Some? ==> r.value.end == |s| || s[r.value.end] != '\n'
  {
    if s[p] != '\n' then None
    else
      var breaks := Run(s, p, '\n', |s| - p);
      if breaks >= 3 then Some(Match(p + breaks, p, p + 2)) else None
  }

  /** The match of the pass at position p, if there is one. */
  function MatchAt(pass: Pass, s: string, p: nat): (r: Option<Match>)
    requires p < |s|
    ensures r.Some? ==> WellPlaced(s, p, r.value) && Opens(pass, s[p])
  {
    match pass
    case Bold => BoldAt(s, p)
    case Header => HeaderAt(s, p)
    case Link => LinkAt(s, p)
    case Emphasis => EmphasisAt(s, p)
    case Code => CodeAt(s, p)
    case Newlines => NewlinesAt(s, p)
  }

  /** re.sub of the pass over s[p..]. */
  function SubstituteFrom(pass: Pass, s: string, p: nat): (r: string)
    requires p <= |s|
    ensures |r| <= |s| - p
    decreases |s| - p
  {
    if p == |s| then ""
    else
      match MatchAt(pass, s, p)
      case Some(m) => s[m.keepFrom..m.keepTo] + SubstituteFrom(pass, s, m.end)
      case None => [s[p]] + SubstituteFrom(pass, s, p + 1)
  }

  /** re.sub(pattern, replacement, s) for one pass. */
  function Substitute(pass: Pass, s: string): (r: string)
    ensures |r| <= |s|
  {
    SubstituteFrom(pass, s, 0)
  }

  /** The loop over the pattern list: each pass rewrites the result of the previous one. */
  function ApplyPasses(passes: seq<Pass>, text: string): (r: string)
  {
    if passes == [] then text
    else Substitute(passes[|passes| - 1], ApplyPasses(passes[..|passes| - 1], text))
  }

  /** No three line breaks in a row. */
  predicate NoTripleBreak(s: string)
  {
    forall i :: 0 <= i && i + 2 < |s| ==> !(s[i] == '\n' && s[i + 1] == '\n' && s[i + 2] == '\n')
  }

  /** clean_markdown(text): the six passes in order, then strip(). */
  function CleanMarkdown(text: string): (r: string)
  {
    Strip(ApplyPasses(Passes, text))
  }

  /**
   * The result of clean_markdown is no longer than the text and holds no '#',
   * no three line breaks in a row and no whitespace at either end.
   */
  lemma CleanMarkdownProperties(text: string)
    ensures var r := CleanMarkdown(text);
      && |r| <= |text|
      && '#' !in r
      && NoTripleBreak(r)
      && (r == [] || (!IsSpace(r[0]) && !IsSpace(r[|r| - 1])))
  {
    var passed := ApplyPasses(Passes, text);
    PassesShorten(Passes, text);
    PassesLeaveNoHash(text);
    PassesLeaveNoTriple(text);
    StripKeeps(passed);
  }

  /** The header pass is the second: no '#' survives it, and the passes after it only copy or delete. */
  lemma PassesLeaveNoHash(text: string)
    ensures '#' !in ApplyPasses(Passes, text)
  {
    ApplyPassesKeepsChars(Passes, 2, text);
    var first := ApplyPasses(Passes[..1], text);
    assert Passes[..2][..1] == Passes[..1];
    assert ApplyPasses(Passes[..2], text) == Substitute(Header, first);
    HeaderLeavesNoHash(first, 0);
  }

  /** The newline pass is the last one. */
  lemma PassesLeaveNoTriple(text: string)
    ensures NoTripleBreak(ApplyPasses(Passes, text))
  {
    var before := ApplyPasses(Passes[..5], text);
    assert ApplyPasses(Passes, text) == Substitute(Newlines, before);
    NewlinesLeavesNoTriple(before, 0);
  }

  /** strip() keeps only characters of its argument and keeps a text free of triple line breaks so. */
  lemma StripKeeps(s: string)
    ensures forall c :: c in Strip(s) ==> c in s
    ensures NoTripleBreak(s) ==> NoTripleBreak(Strip(s))
  {
    var k := SkipSpace(s, 0);
    var r := Strip(s);
    SliceKeeps(s, k, k + |r|);
  }

  // ---------------------------------------------------------------------
  // Lemmas
  // ---------------------------------------------------------------------

  /** A pass only copies or deletes: every character of its output is a character of its input. */
  lemma {:induction false} SubstituteKeepsChars(pass: Pass, s: string, p: nat)
    requires p <= |s|
    ensures forall c :: c in SubstituteFrom(pass, s, p) ==> c in s[p..]
    decreases |s| - p
  {
    if p < |s| {
      match MatchAt(pass, s, p)
      case Some(m) =>
        SubstituteKeepsChars(pass, s, m.end);
        SliceInSuffix(s, p, m.keepFrom, m.keepTo);
        SliceInSuffix(s, p, m.end, |s|);
        assert s[m.end..] == s[m.end..|s|];
      case None =>
        SubstituteKeepsChars(pass, s, p + 1);
        assert s[p..] == [s[p]] + s[p + 1..];
    }
  }

  /** Every character of s[a..b] occurs in s[p..] when p <= a. */
  lemma SliceInSuffix(s: string, p: nat, a: nat, b: nat)
    requires p <= a <= b <= |s|
    ensures forall c :: c in s[a..b] ==> c in s[p..]
  {
    forall c | c in s[a..b] ensures c in s[p..] {
      var i :| 0 <= i < b - a && s[a..b][i] == c;
      assert s[p..][a - p + i] == c;
    }
  }

  /** Running more passes never lengthens the text. */
  lemma {:induction false} PassesShorten(passes: seq<Pass>, text: string)
    ensures |ApplyPasses(passes, text)| <= |text|
  {
    if passes != [] {
      PassesShorten(passes[..|passes| - 1], text);
    }
  }

  /** The later passes only copy or delete characters left by the first k passes. */
  lemma {:induction false} ApplyPassesKeepsChars(passes: seq<Pass>, k: nat, text: string)
    requires k <= |passes|
    ensures forall c :: c in ApplyPasses(passes, text) ==> c in ApplyPasses(passes[..k], text)
    decreases |passes|
  {
    if k < |passes| {
      var init := passes[..|passes| - 1];
      ApplyPassesKeepsChars(init, k, text);
      assert init[..k] == passes[..k];
      var before := ApplyPasses(init, text);
      SubstituteKeepsChars(passes[|passes| - 1], before, 0);
      assert before[0..] == before;
    } else {
      assert passes[..k] == passes;
    }
  }

  /** The header pass deletes every '#': a run of more than six is deleted by consecutive matches. */
  lemma {:induction false} HeaderLeavesNoHash(s: string, p: nat)
    requires p <= |s|
    ensures '#' !in SubstituteFrom(Header, s, p)
    decreases |s| - p
  {
    if p < |s| {
      match MatchAt(Header, s, p)
      case Some(m) => HeaderLeavesNoHash(s, m.end);
      case None => HeaderLeavesNoHash(s, p + 1);
    }
  }

  /**
   * The newline pass leaves no three line breaks in a row; moreover its
   * output from p starts with a line break only where the input does, and
   * with two only where the input does.
   */
  lemma {:induction false} NewlinesLeavesNoTriple(s: string, p: nat)
    requires p <= |s|
    ensures CleanBreaksFrom(s, p)
    decreases |s| - p
  {
    if p < |s| {
      match NewlinesAt(s, p)
      case Some(m) =>
        NewlinesLeavesNoTriple(s, m.end);
        BreaksMatchStep(s, p, m);
      case None =>
        NewlinesLeavesNoTriple(s, p + 1);
        BreaksKeepStep(s, p);
    }
  }

  /**
   * Substituting the Newlines pass from p leaves no three breaks in a row, and
   * its output opens with one or two breaks only where s does at p.
   */
  predicate CleanBreaksFrom(s: string, p: nat)
    requires p <= |s|
  {
    var r := SubstituteFrom(Newlines, s, p);
    && NoTripleBreak(r)
    && (|r| > 0 && r[0] == '\n' ==> s[p] == '\n')
    && (|r| > 1 && r[0] == '\n' && r[1] == '\n' ==> p + 1 < |s| && s[p + 1] == '\n')
  }

  /** A run of three or more breaks at p becomes two, followed by what comes after the run. */
  lemma BreaksMatchStep(s: string, p: nat, m: Match)
    requires p < |s| && NewlinesAt(s, p) == Some(m)
    requires CleanBreaksFrom(s, m.end)
    ensures CleanBreaksFrom(s, p)
  {
    var rest := SubstituteFrom(Newlines, s, m.end);
    assert SubstituteFrom(Newlines, s, p) == "\n\n" + rest;
    TwoBreaksThenOther(rest);
  }

  /** Where no run of three breaks starts at p, s[p] is copied. */
  lemma BreaksKeepStep(s: string, p: nat)
    requires p < |s| && NewlinesAt(s, p).None?
    requires CleanBreaksFrom(s, p + 1)
    ensures CleanBreaksFrom(s, p)
  {
    var rest := SubstituteFrom(Newlines, s, p + 1);
    assert SubstituteFrom(Newlines, s, p) == [s[p]] + rest;
    ConsKeepsNoTriple(s[p], rest);
  }

  lemma TwoBreaksThenOther(rest: string)
    requires NoTripleBreak(rest) && (rest == [] || rest[0] != '\n')
    ensures NoTripleBreak("\n\n" + rest)
  {
    var r := "\n\n" + rest;
    forall i | 0 <= i && i + 2 < |r| ensures !(r[i] == '\n' && r[i + 1] == '\n' && r[i + 2] == '\n') {
      if i >= 2 {
        assert r[i] == rest[i - 2] && r[i + 1] == rest[i - 1] && r[i + 2] == rest[i];
      } else {
        assert r[2] == rest[0];
      }
    }
  }

  lemma ConsKeepsNoTriple(c: char, rest: string)
    requires NoTripleBreak(rest) && !(c == '\n' && |rest| > 1 && rest[0] == '\n' && rest[1] == '\n')
    ensures NoTripleBreak([c] + rest)
  {
    var r := [c] + rest;
    forall i | 0 <= i && i + 2 < |r| ensures !(r[i] == '\n' && r[i + 1] == '\n' && r[i + 2] == '\n') {
      if i >= 1 {
        assert r[i] == rest[i - 1] && r[i + 1] == rest[i] && r[i + 2] == rest[i + 1];
      }
    }
  }

  /** A slice holds only characters of the text, and no three line breaks in a row if the text has none. */
  lemma SliceKeeps(s: string, a: nat, b: nat)
    requires a <= b <= |s|
    ensures forall c :: c in s[a..b] ==> c in s
    ensures NoTripleBreak(s) ==> NoTripleBreak(s[a..b])
  {
    var t := s[a..b];
    forall c | c in t ensures c in s {
      var i :| 0 <= i < |t| && t[i] == c;
      assert s[a + i] == c;
    }
    if NoTripleBreak(s) {
      forall i | 0 <= i && i + 2 < |t| ensures !(t[i] == '\n' && t[i + 1] == '\n' && t[i + 2] == '\n') {
        assert t[i] == s[a + i] && t[i + 1] == s[a + i + 1] && t[i + 2] == s[a + i + 2];
      }
    }
  }

  /** Text without any markup character and without three line breaks in a row. */
  predicate Plain(s: string)
  {
    NoTripleBreak(s) && forall i :: 0 <= i < |s| ==> s[i] !in {'*', '_', '#', '[', '`'}
  }

  /** No pass finds a match anywhere in plain text, so it copies the text unchanged. */
  lemma {:induction false} PlainUnchanged(pass: Pass, s: string, p: nat)
    requires p <= |s| && Plain(s)
    ensures SubstituteFrom(pass, s, p) == s[p..]
    decreases |s| - p
  {
    if p < |s| {
      if MatchAt(pass, s, p).Some? {
        assert false;
      }
      PlainUnchanged(pass, s, p + 1);
      assert s[p..] == [s[p]] + s[p + 1..];
    }
  }

  lemma {:induction false} PlainThroughPasses(passes: seq<Pass>, s: string)
    requires Plain(s)
    ensures ApplyPasses(passes, s) == s
  {
    if passes != [] {
      PlainThroughPasses(passes[..|passes| - 1], s);
      PlainUnchanged(passes[|passes| - 1], s, 0);
      assert s[0..] == s;
    }
  }

  /** Plain text comes back from clean_markdown only stripped. */
  lemma PlainTextOnlyStripped(s: string)
    requires Plain(s)
    ensures CleanMarkdown(s) == Strip(s)
  {
    PlainThroughPasses(Passes, s);
  }
}
