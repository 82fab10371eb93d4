/**
 Splitting a thinking answer at its last marker (`processThinkingResponse`): the matches of the
 three marker patterns are given as positions; the two searches over them are the code's.
 */
module AnswerSplit {
  import opened Common

  /** A match occupies raw[from..to]. */
  datatype Span = Span(from: nat, to: nat)

  /** What running each pattern over the text yields: non-empty matches, left to right. */
  ghost predicate ValidMatches(matches: seq<seq<Span>>, n: nat) {
    forall p, i :: 0 <= p < |matches| && 0 <= i < |matches[p]| ==>
      && matches[p][i].from < matches[p][i].to <= n
      && (i > 0 ==> matches[p][i - 1].to <= matches[p][i].from)
  }

  /** The state after `k` patterns: where the answer would start (-1 for nowhere) and the
      pattern whose last match decided that. */
  datatype Choice = Choice(answerStart: int, pattern: Option<nat>)

  function Consider(c: Choice, p: nat, spans: seq<Span>): Choice {
    if spans != [] && spans[|spans| - 1].from > c.answerStart then Choice(spans[|spans| - 1].to, Some(p)) else c
  }

  function Chosen(matches: seq<seq<Span>>, k: nat): (c: Choice)
    requires k <= |matches|
    ensures c.answerStart >= -1
  {
    if k == 0 then Choice(-1, None) else Consider(Chosen(matches, k - 1), k - 1, matches[k - 1])
  }

  /** The first search: per pattern its last match, kept if it starts after the answer start
      found so far. */
  method FindAnswerStart(matches: seq<seq<Span>>) returns (answerStart: int)
    ensures answerStart == Chosen(matches, |matches|).answerStart
  {
    answerStart := -1;
    for p := 0 to |matches|
      invariant answerStart == Chosen(matches, p).answerStart
    {
      var lastMatch: Option<Span> := None;
      for i := 0 to |matches[p]|
        invariant lastMatch == if i == 0 then None else Some(matches[p][i - 1])
      {
        lastMatch := Some(matches[p][i]);
      }
      if lastMatch.Some? && lastMatch.value.from > answerStart {
        answerStart := lastMatch.value.to;
      }
    }
  }

  /** The second search: where the match that ends at the answer start begins. */
  method FindSeparatorStart(matches: seq<seq<Span>>, answerStart: nat) returns (separatorStart: int)
    ensures separatorStart != -1 ==>
      exists p, i :: 0 <= p < |matches| && 0 <= i < |matches[p]| && matches[p][i].from == separatorStart && matches[p][i].to == answerStart
    ensures separatorStart == -1 ==>
      forall p, i :: 0 <= p < |matches| && 0 <= i < |matches[p]| ==> matches[p][i].to != answerStart
  {
    separatorStart := -1;
    for p := 0 to |matches|
      invariant separatorStart == -1
      invariant forall q, i :: 0 <= q < p && 0 <= i < |matches[q]| ==> matches[q][i].to != answerStart
    {
      for i := 0 to |matches[p]|
        invariant forall j :: 0 <= j < i ==> matches[p][j].to != answerStart
      {
        if matches[p][i].to == answerStart {
          return matches[p][i].from;
        }
      }
    }
  }

  lemma {:induction false} ChosenIsAMatch(matches: seq<seq<Span>>, k: nat)
    requires k <= |matches|
    ensures Chosen(matches, k).pattern.None? ==> Chosen(matches, k).answerStart == -1
    ensures Chosen(matches, k).pattern.Some? ==>
      var p := Chosen(matches, k).pattern.value;
      p < k && matches[p] != [] && matches[p][|matches[p]| - 1].to == Chosen(matches, k).answerStart
  {
    if k > 0 {
      ChosenIsAMatch(matches, k - 1);
    }
  }

  /** A marker was found and is not at the very end. */
  predicate Cuts(matches: seq<seq<Span>>, n: nat) {
    var start := Chosen(matches, |matches|).answerStart;
    start != -1 && start < n
  }

  lemma {:induction false} SomethingChosenIff(matches: seq<seq<Span>>, k: nat)
    requires k <= |matches|
    ensures Chosen(matches, k).pattern.Some? <==> exists p :: 0 <= p < k && matches[p] != []
    ensures Chosen(matches, k).answerStart == -1 || Chosen(matches, k).pattern.Some?
  {
    if k > 0 {
      SomethingChosenIff(matches, k - 1);
    }
  }

  /** The text is cut exactly when some pattern matches and the chosen match is not at the end. */
  lemma CutsIff(matches: seq<seq<Span>>, n: nat)
    ensures Cuts(matches, n) <==>
      && (exists p :: 0 <= p < |matches| && matches[p] != [])
      && var p := Chosen(matches, |matches|).pattern;
         p.Some? && p.value < |matches| && matches[p.value] != [] && matches[p.value][|matches[p.value]| - 1].to < n
  {
    SomethingChosenIff(matches, |matches|);
    ChosenIsAMatch(matches, |matches|);
  }

  /** Both searches and the cut, before trimming. The second search always succeeds, what it
      finds is a real marker, and the three pieces are the text. */
  method Split(raw: string, matches: seq<seq<Span>>) returns (thinking: string, marker: string, answer: string)
    requires ValidMatches(matches, |raw|)
    ensures thinking + marker + answer == raw
    ensures Cuts(matches, |raw|) ==>
      && |thinking| + |marker| == Chosen(matches, |matches|).answerStart
      && exists p, i :: 0 <= p < |matches| && 0 <= i < |matches[p]| && matches[p][i] == Span(|thinking|, |thinking| + |marker|)
    ensures !Cuts(matches, |raw|) ==> answer == raw
  {
    var answerStart := FindAnswerStart(matches);
    ChosenIsAMatch(matches, |matches|);
    if answerStart == -1 || answerStart >= |raw| {
      return "", "", raw;
    }
    var separatorStart := FindSeparatorStart(matches, answerStart);
    assert separatorStart != -1;
    thinking, marker, answer := raw[..separatorStart], raw[separatorStart..answerStart], raw[answerStart..];
  }

  datatype Processed = Processed(finalAnswer: string, thinkingSteps: string)

  /** Some marker occupies raw[from..to]. */
  ghost predicate MarkerAt(matches: seq<seq<Span>>, from: nat, to: nat) {
    exists p, i :: 0 <= p < |matches| && 0 <= i < |matches[p]| && matches[p][i] == Span(from, to)
  }

  /** The whole text branch: the cut, trimming, removal of a marker left at the start of the
      answer (`clean`, the two replacements at the end), and the two ways back to the raw text.
      The answer is empty only if the raw text is. When something is left of the text after the
      chosen marker, that is the answer and the reasoning is the text before the marker;
      otherwise the raw text comes back whole, without reasoning. */
  method Process(raw: string, matches: seq<seq<Span>>, clean: string -> string) returns (r: Processed)
    requires ValidMatches(matches, |raw|)
    ensures r.finalAnswer == "" ==> raw == ""
    ensures !Cuts(matches, |raw|) ==> r == Processed(if clean(raw) != "" then clean(raw) else raw, "")
    ensures Cuts(matches, |raw|) ==>
      var start := Chosen(matches, |matches|).answerStart;
      var answer := clean(Trim(raw[start..]));
      if answer == "" then r == Processed(raw, "")
      else exists from: nat :: from < start && MarkerAt(matches, from, start) && r == Processed(answer, Trim(raw[..from]))
  {
    var thinking, marker, answer := Split(raw, matches);
    var start := FindAnswerStart(matches);
    var cuts := start != -1 && start < |raw|;
    var finalAnswer := clean(if cuts then Trim(answer) else answer);
    var thinkingSteps := if cuts then Trim(thinking) else "";
    if cuts {
      assert MarkerAt(matches, |thinking|, start);
      assert thinking == raw[..|thinking|] && answer == raw[start..] by {
        assert raw == thinking + (marker + answer) && raw == (thinking + marker) + answer;
      }
    }
    if finalAnswer == "" && thinkingSteps != "" {
      return Processed(raw, "");
    }
    r := Processed(if finalAnswer != "" then finalAnswer else raw, thinkingSteps);
  }

  /** Pattern `p` has a match, and its last one starts after every match of the other patterns. */
  ghost predicate HasLastMarker(matches: seq<seq<Span>>, p: nat) {
    && p < |matches| && matches[p] != []
    && forall q, i :: 0 <= q < |matches| && q != p && 0 <= i < |matches[q]| ==>
         matches[q][i].from < matches[p][|matches[p]| - 1].from
  }

  lemma {:induction false} DecidedAt(matches: seq<seq<Span>>, p: nat, k: nat, n: nat)
    requires ValidMatches(matches, n) && HasLastMarker(matches, p) && p < k <= |matches|
    ensures Chosen(matches, k) == Chosen(matches, p + 1)
    ensures Chosen(matches, p + 1).answerStart >= matches[p][|matches[p]| - 1].from
  {
    if k > p + 1 {
      DecidedAt(matches, p, k - 1, n);
    }
  }

  /** The intent is to cut at the last marker of all. That is what happens exactly when this
      marker starts after the position reached with the patterns tried before its own; a marker
      that touches or overlaps an earlier pattern's marker is passed over. */
  lemma LastMarkerChosenIff(matches: seq<seq<Span>>, p: nat, n: nat)
    requires ValidMatches(matches, n) && HasLastMarker(matches, p)
    ensures Chosen(matches, |matches|).pattern == Some(p) <==>
            Chosen(matches, p).answerStart < matches[p][|matches[p]| - 1].from
  {
    DecidedAt(matches, p, |matches|, n);
    ChosenIsAMatch(matches, p);
  }

  /** With a gap before it, the last marker is always the one chosen. */
  lemma LastMarkerChosenWithGap(matches: seq<seq<Span>>, p: nat, n: nat)
    requires ValidMatches(matches, n) && HasLastMarker(matches, p)
    requires forall q, i :: 0 <= q < p && 0 <= i < |matches[q]| ==> matches[q][i].to < matches[p][|matches[p]| - 1].from
    ensures Chosen(matches, |matches|) == Choice(matches[p][|matches[p]| - 1].to, Some(p))
  {
    ChosenIsAMatch(matches, p);
    DecidedAt(matches, p, |matches|, n);
  }

  /** A heading marker and, after it, a separator line that starts with the line break the
      heading's pattern has already consumed: the heading wins although the line is last. */
  lemma OverlappingMarkerPassedOver(a: nat, b: nat, c: nat)
    requires a < b - 1 && b < c
    ensures var matches := [[Span(a, b)], [], [Span(b - 1, c)]];
      ValidMatches(matches, c) && HasLastMarker(matches, 2) && Chosen(matches, 3) == Choice(b, Some(0))
  {
    var matches := [[Span(a, b)], [], [Span(b - 1, c)]];
    assert Chosen(matches, 1) == Choice(b, Some(0));
    assert Chosen(matches, 2) == Choice(b, Some(0));
  }
}
