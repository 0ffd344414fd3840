/** Keyword extraction of `identifyKeyword`: the pattern
    `\B?<trigger>[a-z0-9_-]+|\B?<trigger>` with flags `gi` (the `\B` only in
    new-word-only mode), matched globally against the text before the cursor,
    written out as an explicit scan; the last match is the keyword. */
module Keyword {
  import opened Wrappers
  import opened JsText
  import opened ComponentProps

  /** A regular-expression word character: `[A-Za-z0-9_]`. */
  predicate IsWordChar(c: char) {
    ('A' <= c <= 'Z') || ('a' <= c <= 'z') || ('0' <= c <= '9') || c == '_'
  }

  /** The class `[a-z0-9_-]` under the case-insensitive flag: `[A-Za-z0-9_-]`. */
  predicate IsRunChar(c: char) {
    IsWordChar(c) || c == '-'
  }

  /** An ECMAScript regular-expression SyntaxCharacter. */
  predicate IsRegexSyntaxChar(c: char) {
    c in "^$\\.*+?()[]{}|"
  }

  /** The triggers for which the pattern means what the component intends:
      one printable ASCII character (so case folding leaves it alone) that is
      neither a word character, nor `-`, nor a character the pattern would
      read as syntax (only the anywhere mode escapes it). */
  predicate ValidTrigger(t: char) {
    ' ' <= t <= '~' && !IsWordChar(t) && t != '-' && !IsRegexSyntaxChar(t)
  }

  /** The word character test of the `\B` assertion at index `i` of `s`;
      the positions before the start and at the end count as non-word. */
  predicate IsWordAt(s: string, i: int) {
    0 <= i < |s| && IsWordChar(s[i])
  }

  /** `\B` holds at position `i`: both neighbours are word characters or
      neither is. */
  predicate NotWordBoundary(s: string, i: int) {
    IsWordAt(s, i - 1) == IsWordAt(s, i)
  }

  /** The pattern can start a match at index `i` of `s`: the trigger is
      there and, in new-word-only mode, `\B` holds in front of it. */
  predicate Qualifies(s: string, i: int, t: char, loc: TriggerLocation) {
    0 <= i < |s| && s[i] == t && (loc == NewWordOnly ==> NotWordBoundary(s, i))
  }

  /** For a valid trigger, `\B` in front of it means the trigger is at the
      start of the text or follows a non-word character. */
  lemma BoundaryBeforeTrigger(s: string, i: nat, t: char)
    requires ValidTrigger(t) && i < |s| && s[i] == t
    ensures NotWordBoundary(s, i) <==> i == 0 || !IsWordChar(s[i - 1])
  {
  }

  /** The end of the longest run of `[A-Za-z0-9_-]` in `s` from index `j`. */
  function RunEnd(s: string, j: nat): (e: nat)
    requires j <= |s|
    ensures j <= e <= |s|
    ensures forall k :: j <= k < e ==> IsRunChar(s[k])
    ensures e == |s| || !IsRunChar(s[e])
    decreases |s| - j
  {
    if j == |s| || !IsRunChar(s[j]) then j else RunEnd(s, j + 1)
  }

  /** The run end is the only index with the two properties above. */
  lemma {:induction false} RunEndUnique(s: string, j: nat, e: nat)
    requires j <= e <= |s|
    requires forall k :: j <= k < e ==> IsRunChar(s[k])
    requires e == |s| || !IsRunChar(s[e])
    ensures RunEnd(s, j) == e
    decreases e - j
  {
    if j < e {
      RunEndUnique(s, j + 1, e);
    }
  }

  /** The match that starts at a qualifying index `i`: the trigger and the
      greedy `[a-z0-9_-]+`, or the trigger alone when no such character
      follows it (the second alternative). */
  function MatchAt(s: string, i: nat): (m: string)
    requires i < |s|
    ensures 1 <= |m| && i + |m| <= |s| && m == s[i..i + |m|]
    ensures forall k :: i < k < i + |m| ==> IsRunChar(s[k])
    ensures i + |m| == |s| || !IsRunChar(s[i + |m|])
  {
    s[i..RunEnd(s, i + 1)]
  }

  /** The leftmost index at or after `pos` where a match starts, as the
      regular-expression engine finds it when it resumes at `lastIndex = pos`. */
  function FirstQualifyingFrom(s: string, pos: nat, t: char, loc: TriggerLocation): (r: Option<nat>)
    requires pos <= |s|
    ensures r.Some? ==> pos <= r.value < |s| && Qualifies(s, r.value, t, loc)
    ensures r.Some? ==> forall j :: pos <= j < r.value ==> !Qualifies(s, j, t, loc)
    ensures r.None? ==> forall j :: pos <= j < |s| ==> !Qualifies(s, j, t, loc)
    decreases |s| - pos
  {
    if pos == |s| then None
    else if Qualifies(s, pos, t, loc) then Some(pos)
    else FirstQualifyingFrom(s, pos + 1, t, loc)
  }

  /** `s.match(pattern)` with the global flag, from index `pos` on: every
      match in order, each search resuming where the previous match ended. */
  function GlobalMatches(s: string, pos: nat, t: char, loc: TriggerLocation): (ms: seq<string>)
    requires pos <= |s|
    ensures forall n :: 0 <= n < |ms| ==> |ms[n]| >= 1 && ms[n][0] == t
    decreases |s| - pos
  {
    match FirstQualifyingFrom(s, pos, t, loc)
    case None => []
    case Some(k) => [MatchAt(s, k)] + GlobalMatches(s, RunEnd(s, k + 1), t, loc)
  }

  /** The last of the global matches in `s`, or nothing when there is none. */
  function LastMatch(s: string, t: char, loc: TriggerLocation): (r: Option<string>)
    ensures r.Some? ==> |r.value| >= 1 && r.value[0] == t
  {
    var ms := GlobalMatches(s, 0, t, loc);
    if |ms| == 0 then None else Some(ms[|ms| - 1])
  }

  /** Lines 69-75 of `identifyKeyword`: the last match in the text up to and
      including the cursor, or nothing when there is no match. */
  function LastKeyword(val: string, selEnd: nat, t: char, loc: TriggerLocation): (r: Option<string>)
    ensures r.Some? ==> |r.value| >= 1 && r.value[0] == t
  {
    LastMatch(Prefix(val, selEnd), t, loc)
  }

  // Reference definition: the last occurrence of the trigger that qualifies.

  /** The greatest index below `n` where a match can start. */
  function LastQualifyingBefore(s: string, n: nat, t: char, loc: TriggerLocation): (r: Option<nat>)
    requires n <= |s|
    ensures r.Some? ==> r.value < n && Qualifies(s, r.value, t, loc)
    ensures r.Some? ==> forall j :: r.value < j < n ==> !Qualifies(s, j, t, loc)
    ensures r.None? ==> forall j :: 0 <= j < n ==> !Qualifies(s, j, t, loc)
  {
    if n == 0 then None
    else if Qualifies(s, n - 1, t, loc) then Some(n - 1)
    else LastQualifyingBefore(s, n - 1, t, loc)
  }

  /** `w` is the mention that starts at index `i` of `p`: a qualifying
      trigger followed by the longest run of `[A-Za-z0-9_-]` inside `p`. */
  ghost predicate IsMentionAt(p: string, i: nat, t: char, loc: TriggerLocation, w: string) {
    Qualifies(p, i, t, loc) && 1 <= |w| && i + |w| <= |p| && w == p[i..i + |w|]
    && (forall k :: i < k < i + |w| ==> IsRunChar(p[k]))
    && (i + |w| == |p| || !IsRunChar(p[i + |w|]))
  }

  /** `w` is the mention at the last qualifying trigger of `p`. */
  ghost predicate IsLastMention(p: string, i: nat, t: char, loc: TriggerLocation, w: string) {
    IsMentionAt(p, i, t, loc, w) && forall j :: i < j < |p| ==> !Qualifies(p, j, t, loc)
  }

  /** No match at or after `pos` when no trigger there qualifies. */
  lemma NoMatchesWithoutQualifying(s: string, pos: nat, t: char, loc: TriggerLocation)
    requires pos <= |s|
    requires forall j :: pos <= j < |s| ==> !Qualifies(s, j, t, loc)
    ensures GlobalMatches(s, pos, t, loc) == []
  {
  }

  /** A valid trigger never occurs inside a run of `[A-Za-z0-9_-]`. */
  lemma NoTriggerInRun(s: string, j: nat, t: char)
    requires ValidTrigger(t) && j <= |s|
    ensures forall k :: j <= k < RunEnd(s, j) ==> s[k] != t
  {
  }

  /** The search from `pos` finds a match at or before any qualifying `i`. */
  lemma FirstQualifyingAtMost(s: string, pos: nat, i: nat, t: char, loc: TriggerLocation)
    requires pos <= i < |s| && Qualifies(s, i, t, loc)
    ensures FirstQualifyingFrom(s, pos, t, loc).Some? && FirstQualifyingFrom(s, pos, t, loc).value <= i
  {
  }

  /** One step of the global search: the match found, then the search
      resumed at the end of that match. */
  lemma GlobalMatchesStep(s: string, pos: nat, k: nat, t: char, loc: TriggerLocation)
    requires pos <= |s| && FirstQualifyingFrom(s, pos, t, loc) == Some(k)
    ensures GlobalMatches(s, pos, t, loc) == [MatchAt(s, k)] + GlobalMatches(s, RunEnd(s, k + 1), t, loc)
  {
  }

  /** A qualifying trigger inside the match that starts at `k` is `k` itself. */
  lemma QualifyingInsideMatch(s: string, k: nat, i: nat, t: char, loc: TriggerLocation)
    requires ValidTrigger(t) && k < |s| && Qualifies(s, k, t, loc)
    requires k <= i < RunEnd(s, k + 1) && Qualifies(s, i, t, loc)
    ensures k == i
  {
    NoTriggerInRun(s, k + 1, t);
  }

  /** The global matches from `pos` end with the match at the last
      qualifying trigger. A match never swallows a later trigger, because
      the trigger is not a run character. */
  lemma {:induction false} GlobalMatchesEndAtLastOccurrence(s: string, pos: nat, i: nat, t: char, loc: TriggerLocation)
    requires ValidTrigger(t) && pos <= i < |s|
    requires Qualifies(s, i, t, loc)
    requires forall j :: i < j < |s| ==> !Qualifies(s, j, t, loc)
    ensures var ms := GlobalMatches(s, pos, t, loc); |ms| > 0 && ms[|ms| - 1] == MatchAt(s, i)
    decreases |s| - pos
  {
    FirstQualifyingAtMost(s, pos, i, t, loc);
    var k := FirstQualifyingFrom(s, pos, t, loc).value;
    var e := RunEnd(s, k + 1);
    GlobalMatchesStep(s, pos, k, t, loc);
    if i < e {
      QualifyingInsideMatch(s, k, i, t, loc);
      NoMatchesWithoutQualifying(s, e, t, loc);
    } else {
      GlobalMatchesEndAtLastOccurrence(s, e, i, t, loc);
    }
  }

  /** A last mention is determined by the text: its index is the last
      qualifying one and the mention is the match there. */
  lemma LastMentionUnique(p: string, i: nat, t: char, loc: TriggerLocation, w: string)
    requires IsLastMention(p, i, t, loc, w)
    ensures LastQualifyingBefore(p, |p|, t, loc) == Some(i)
    ensures w == MatchAt(p, i)
  {
    RunEndUnique(p, i + 1, i + |w|);
  }

  /** Nothing is reported exactly when no trigger in the text up to and
      including the cursor qualifies. */
  lemma LastKeywordNoneIff(val: string, selEnd: nat, t: char, loc: TriggerLocation)
    requires ValidTrigger(t)
    ensures var p := Prefix(val, selEnd);
            LastKeyword(val, selEnd, t, loc) == None <==> forall j :: 0 <= j < |p| ==> !Qualifies(p, j, t, loc)
  {
    var p := Prefix(val, selEnd);
    var last := LastQualifyingBefore(p, |p|, t, loc);
    if last.None? {
      NoMatchesWithoutQualifying(p, 0, t, loc);
    } else {
      GlobalMatchesEndAtLastOccurrence(p, 0, last.value, t, loc);
    }
  }

  /** The match at a qualifying trigger is the mention there. */
  lemma MatchAtIsMention(s: string, i: nat, t: char, loc: TriggerLocation)
    requires Qualifies(s, i, t, loc)
    ensures IsMentionAt(s, i, t, loc, MatchAt(s, i))
  {
    var e := RunEnd(s, i + 1);
    assert |MatchAt(s, i)| == e - i;
    assert i + |MatchAt(s, i)| == e;
  }

  /** The mention at the last qualifying trigger is the last match. */
  lemma LastMentionIsLastMatch(s: string, i: nat, t: char, loc: TriggerLocation, w: string)
    requires ValidTrigger(t) && IsLastMention(s, i, t, loc, w)
    ensures LastMatch(s, t, loc) == Some(w)
  {
    LastMentionUnique(s, i, t, loc, w);
    GlobalMatchesEndAtLastOccurrence(s, 0, i, t, loc);
  }

  /** The last match is the mention at the last qualifying trigger. */
  lemma LastMatchIsLastMention(s: string, t: char, loc: TriggerLocation)
    requires ValidTrigger(t) && LastMatch(s, t, loc).Some?
    ensures exists i: nat :: IsLastMention(s, i, t, loc, LastMatch(s, t, loc).value)
  {
    var last := LastQualifyingBefore(s, |s|, t, loc);
    if last.None? {
      NoMatchesWithoutQualifying(s, 0, t, loc);
    } else {
      var i := last.value;
      GlobalMatchesEndAtLastOccurrence(s, 0, i, t, loc);
      MatchAtIsMention(s, i, t, loc);
      assert LastMatch(s, t, loc).value == MatchAt(s, i);
      assert IsLastMention(s, i, t, loc, LastMatch(s, t, loc).value);
    }
  }

  /** What `identifyKeyword` reports is exactly the mention at the last
      qualifying trigger in the text up to and including the cursor. */
  lemma LastKeywordIsLastMention(val: string, selEnd: nat, t: char, loc: TriggerLocation, w: string)
    requires ValidTrigger(t)
    ensures LastKeyword(val, selEnd, t, loc) == Some(w) <==> exists i: nat :: IsLastMention(Prefix(val, selEnd), i, t, loc, w)
  {
    var p := Prefix(val, selEnd);
    if exists i: nat :: IsLastMention(p, i, t, loc, w) {
      var i: nat :| IsLastMention(p, i, t, loc, w);
      LastMentionIsLastMatch(p, i, t, loc, w);
    } else if LastMatch(p, t, loc).Some? {
      LastMatchIsLastMention(p, t, loc);
    }
  }

  /** `w` occurs in `val` at index `i`. */
  ghost predicate OccursAt(val: string, i: nat, w: string) {
    i + |w| <= |val| && val[i..i + |w|] == w
  }

  /** The reported keyword starts with the trigger and is a slice of the
      text that lies within the prefix up to and including the cursor. */
  lemma LastKeywordWithinPrefix(val: string, selEnd: nat, t: char, loc: TriggerLocation, w: string)
    requires ValidTrigger(t)
    requires LastKeyword(val, selEnd, t, loc) == Some(w)
    ensures |w| >= 1 && w[0] == t
    ensures exists i: nat :: i + |w| <= selEnd + 1 && OccursAt(val, i, w)
  {
    var p := Prefix(val, selEnd);
    LastKeywordIsLastMention(val, selEnd, t, loc, w);
    var i: nat :| IsLastMention(p, i, t, loc, w);
    assert p[i..i + |w|] == val[i..i + |w|];
    assert OccursAt(val, i, w);
  }

  /** "hello @bob" with the cursor on the last character, anywhere mode:
      the keyword is "@bob". */
  lemma ExampleHelloBob()
    ensures LastKeyword("hello @bob", 9, '@', Anywhere) == Some("@bob")
  {
    var s := "hello @bob";
    assert Prefix(s, 9) == s;
    assert forall j :: 6 < j < 10 ==> s[j] != '@';
    assert IsLastMention(s, 6, '@', Anywhere, "@bob");
    LastMentionIsLastMatch(s, 6, '@', Anywhere, "@bob");
  }

  /** Matching ignores case: "hello @BoB" gives "@BoB". */
  lemma ExampleIgnoresCase()
    ensures LastKeyword("hello @BoB", 9, '@', Anywhere) == Some("@BoB")
  {
    var s := "hello @BoB";
    assert Prefix(s, 9) == s;
    assert forall j :: 6 < j < 10 ==> s[j] != '@';
    assert IsLastMention(s, 6, '@', Anywhere, "@BoB");
    LastMentionIsLastMatch(s, 6, '@', Anywhere, "@BoB");
  }

  /** The keyword is cut at the cursor and belongs to the last trigger before
      it: in "hi @al @bob" with the cursor on the "o", it is "@bo". */
  lemma ExampleCutAtCursor()
    ensures LastKeyword("hi @al @bob", 9, '@', Anywhere) == Some("@bo")
  {
    assert Prefix("hi @al @bob", 9) == "hi @al @bo";
    assert IsLastMention("hi @al @bo", 7, '@', Anywhere, "@bo");
    LastMentionIsLastMatch("hi @al @bo", 7, '@', Anywhere, "@bo");
  }

  /** New-word-only mode: a trigger right after a word character does not
      start a match, one after a space does. */
  lemma ExampleNewWordOnly()
    ensures LastKeyword("x@bob", 4, '@', NewWordOnly) == None
    ensures LastKeyword(" @bob", 4, '@', NewWordOnly) == Some("@bob")
  {
    assert Prefix("x@bob", 4) == "x@bob";
    assert forall j :: 0 <= j < 5 ==> !Qualifies("x@bob", j, '@', NewWordOnly);
    LastKeywordNoneIff("x@bob", 4, '@', NewWordOnly);
    assert Prefix(" @bob", 4) == " @bob";
    assert IsLastMention(" @bob", 1, '@', NewWordOnly, "@bob");
    LastMentionIsLastMatch(" @bob", 1, '@', NewWordOnly, "@bob");
  }
}
