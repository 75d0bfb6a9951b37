/**
 * What overviews say (core/document_reading.py): every part holds the answer to the request for its own
 * range, the text is the last saved merge, and a ready overview of a document is never empty.
 */
module OverviewTexts {
  import opened DocumentOverview
  import opened OverviewRuns

  function Least(a: nat, b: nat): nat {
    if a <= b then a else b
  }

  /** `t` is the first `n` characters of `s`, or all of it. */
  ghost predicate FirstChars(s: string, n: nat, t: string) {
    t <= s && |t| == Least(|s|, n)
  }

  lemma TakeIsFirstChars(s: string, n: nat)
    ensures FirstChars(s, n, Take(s, n))
  {
  }

  /** The part saved in round `k`: a chunk of 10000 characters or up to the end, and what was answered for it. */
  ghost predicate Answered(p: Part, k: nat, total: nat, env: Env) {
    && p.end == Least(p.start + 10_000, total)
    && var answer := env.part(k, p.start, p.end);
       answer.Says? && answer.text != "" && FirstChars(answer.text, 600, p.summary)
  }

  lemma NewPartIsAnswered(parts: seq<Part>, total: nat, k: nat, env: Env)
    requires AnswerAt(parts, total, k, env).Says? && AnswerAt(parts, total, k, env).text != ""
    ensures var answer := AnswerAt(parts, total, k, env).text;
            Answered(Part(Cursor(parts), ChunkEnd(Cursor(parts), total), Take(answer, PART_CHARS)), k, total, env)
  {
    TakeIsFirstChars(AnswerAt(parts, total, k, env).text, PART_CHARS);
  }

  lemma {:induction false} ChunksAnswered(parts: seq<Part>, saved: Overview, total: nat, k: nat, max: nat, env: Env, i: nat)
    requires k <= max && parts == saved.parts
    ensures var c := Chunks(parts, saved, total, k, max, env);
            && |parts| <= |c.saved.parts| <= |c.parts| <= |parts| + max - k
            && (|parts| <= i < |c.parts| ==> k + i - |parts| < max && Answered(c.parts[i], k + i - |parts|, total, env))
            && (i < |c.saved.parts| ==> c.saved.parts[i] == c.parts[i])
            && (i < |parts| ==> c.parts[i] == parts[i])
    decreases max - k
  {
    hide Answered;
    var cursor := Cursor(parts);
    if k < max && cursor < total && AnswerAt(parts, total, k, env).Says? && AnswerAt(parts, total, k, env).text != "" {
      var answer := AnswerAt(parts, total, k, env).text;
      var last := Part(cursor, ChunkEnd(cursor, total), Take(answer, PART_CHARS));
      NewPartIsAnswered(parts, total, k, env);
      var more := parts + [last];
      if env.savePart(k) {
        ChunksAnswered(more, saved.(parts := more, status := Partial), total, k + 1, max, env, i);
      }
    }
  }

  /**
   * A run adds at most `max` parts, the n-th of which holds the first 600 characters of the answer to
   * the n-th request, made for exactly its range.
   */
  lemma SavedPartsAreAnswers(o: Overview, total: nat, max: nat, env: Env, i: nat)
    requires OverviewOk(o, total, max)
    ensures var t := Summarize(o, total, max, env);
            && |o.parts| <= |t.parts| <= |o.parts| + max
            && (|o.parts| <= i < |t.parts| ==> Answered(t.parts[i], i - |o.parts|, total, env))
  {
    hide Answered, OverviewOk, Chunks;
    ChunksAnswered(o.parts, o, total, 0, max, env, i);
    var c := Chunks(o.parts, o, total, 0, max, env);
    assert c.parts == c.saved.parts || c.stopped by { SavedUnlessStopped(o, total, max, env); }
  }

  lemma SavedUnlessStopped(o: Overview, total: nat, max: nat, env: Env)
    ensures var c := Chunks(o.parts, o, total, 0, max, env); c.stopped || c.parts == c.saved.parts
  {
    ChunksInStep(o.parts, o, total, 0, max, env);
  }

  lemma {:induction false} ChunksInStep(parts: seq<Part>, saved: Overview, total: nat, k: nat, max: nat, env: Env)
    requires k <= max && parts == saved.parts
    ensures var c := Chunks(parts, saved, total, k, max, env);
            && (c.stopped || c.parts == c.saved.parts)
            && c.saved.covered == saved.covered && c.saved.text == saved.text
            && (c.saved.status == if c.saved.parts == parts then saved.status else Partial)
            && |c.saved.parts| >= |parts|
    decreases max - k
  {
    if k < max && Cursor(parts) < total && AnswerAt(parts, total, k, env).Says? && AnswerAt(parts, total, k, env).text != "" {
      var more := parts + [Part(Cursor(parts), ChunkEnd(Cursor(parts), total), Take(AnswerAt(parts, total, k, env).text, PART_CHARS))];
      if env.savePart(k) {
        ChunksInStep(more, saved.(parts := more, status := Partial), total, k + 1, max, env);
      }
    }
  }

  /** What a run leaves in the overview besides parts: an untouched text, or the merge of it with the new parts. */
  ghost predicate MergedOrKept(o: Overview, t: Overview, env: Env) {
    if t.covered == o.covered then t.text == o.text
    else
      var answer := env.merge(o.text, PendingSummaries(t.parts, o.covered));
      && t.covered == Cursor(t.parts) > o.covered
      && answer.Says? && answer.text != "" && FirstChars(answer.text, 1200, t.text)
  }

  /**
   * Whenever a run raises the covered length, the stored text is the first 1200 characters of that run's
   * answer to the request to merge the earlier text with the summaries of the parts not merged before;
   * otherwise it is the earlier text.
   */
  lemma RunStoresItsMerge(o: Overview, total: nat, max: nat, env: Env)
    requires OverviewOk(o, total, max)
    ensures MergedOrKept(o, Summarize(o, total, max, env), env)
  {
    hide Chunks, OverviewOk, FirstChars, PendingSummaries;
    if o.status != Ready && env.saveAttempt {
      RunKeepsOverview(o, total, max, env);
      ChunksInStep(o.parts, o, total, 0, max, env);
      var c := if Cursor(o.parts) == o.covered then Chunks(o.parts, o, total, 0, max, env) else Chunked(o.parts, o, false);
      if !c.stopped {
        var answer := env.merge(o.text, PendingSummaries(c.parts, o.covered));
        if answer.Says? {
          TakeIsFirstChars(answer.text, OVERVIEW_CHARS);
        }
        var t := Finish(o, c.parts, c.saved, total, env);
        PendingIsAhead(t, total, max);
        RunIsFinish(o, total, max, env, c);
        if HasPending(c.parts, o.covered) && t.parts == c.parts {
          PendingCursor(t, total, max, o.covered);
        }
      }
    }
  }

  lemma RunIsFinish(o: Overview, total: nat, max: nat, env: Env, c: Chunked)
    requires o.status != Ready && env.saveAttempt && !c.stopped
    requires c == if Cursor(o.parts) == o.covered then Chunks(o.parts, o, total, 0, max, env) else Chunked(o.parts, o, false)
    ensures Summarize(o, total, max, env) == Finish(o, c.parts, c.saved, total, env)
  {
  }

  lemma PendingIsAhead(t: Overview, total: nat, max: nat)
    ensures OverviewOk(t, total, max) ==> t.covered <= Cursor(t.parts)
  {
    if OverviewOk(t, total, max) {
      CoveredWithin(t, total, max);
    }
  }

  lemma PendingCursor(t: Overview, total: nat, max: nat, covered: nat)
    requires OverviewOk(t, total, max) && HasPending(t.parts, covered)
    ensures Cursor(t.parts) > covered
  {
    TilesEnds(t.parts, total);
  }

  lemma EndsBelowLast(parts: seq<Part>, total: nat)
    requires Tiles(parts, total) && parts != []
    ensures Tiles(parts[..|parts| - 1], total) && forall i | 0 <= i < |parts| - 1 :: parts[i].end < parts[|parts| - 1].end
  {
    forall i | 0 <= i < |parts| - 1
      ensures parts[i].end < parts[|parts| - 1].end
    {
      EndsIncrease(parts, total, i, |parts| - 1);
    }
  }

  /** The parts from `n` on, and only those, end beyond the covered length. */
  ghost predicate NewFrom(parts: seq<Part>, covered: nat, n: nat) {
    n <= |parts| && forall i | 0 <= i < |parts| :: parts[i].end > covered <==> i >= n
  }

  lemma {:induction false} NewPartsAreLast(parts: seq<Part>, total: nat, covered: nat) returns (n: nat)
    requires Tiles(parts, total)
    ensures NewFrom(parts, covered, n)
  {
    n := |parts|;
    if parts != [] {
      EndsBelowLast(parts, total);
      hide Tiles;
      var m := |parts| - 1;
      if parts[m].end > covered {
        n := NewPartsAreLast(parts[..m], total, covered);
        assert forall i | 0 <= i < m :: parts[..m][i] == parts[i];
      } else {
        assert forall i | 0 <= i < |parts| :: parts[i].end <= covered;
      }
    }
  }

  function SummariesOf(parts: seq<Part>): seq<string> {
    seq(|parts|, i requires 0 <= i < |parts| => parts[i].summary)
  }

  lemma {:induction false} PendingOfSplit(parts: seq<Part>, covered: nat, n: nat)
    requires NewFrom(parts, covered, n)
    ensures PendingSummaries(parts, covered) == SummariesOf(parts[n..])
  {
    if parts != [] {
      var m := |parts| - 1;
      assert forall i | 0 <= i < m :: parts[..m][i] == parts[i];
      if n == |parts| {
        PendingOfSplit(parts[..m], covered, m);
        assert parts[..m][m..] == [] && parts[n..] == [];
      } else {
        PendingOfSplit(parts[..m], covered, n);
        assert parts[n..] == parts[..m][n..] + [parts[m]];
        assert SummariesOf(parts[n..]) == SummariesOf(parts[..m][n..]) + [parts[m].summary];
      }
    }
  }

  /** The merge is asked for exactly the summaries of the parts beyond the covered length, in order. */
  lemma MergeGetsNewParts(parts: seq<Part>, total: nat, covered: nat)
    requires Tiles(parts, total)
    ensures exists n: nat :: NewFrom(parts, covered, n) && PendingSummaries(parts, covered) == SummariesOf(parts[n..])
  {
    hide Tiles, PendingSummaries, SummariesOf;
    var n := NewPartsAreLast(parts, total, covered);
    PendingOfSplit(parts, covered, n);
  }

  // ---- When a run merges ----

  /** Where round `k` of a run's part loop starts reading. */
  function Start(o: Overview, total: nat, k: nat): nat {
    Least(o.covered + 10_000 * k, total)
  }

  /** Round `k` saves a part. */
  ghost predicate SavesPart(o: Overview, total: nat, env: Env, k: nat) {
    && Start(o, total, k) < total && env.savePart(k)
    && var answer := env.part(k, Start(o, total, k), Start(o, total, k + 1));
       answer.Says? && answer.text != ""
  }

  /** The part loop ends after `n` saved parts: at the bound, at the end of the text, or at an empty answer. */
  ghost predicate EndsAfter(o: Overview, total: nat, max: nat, env: Env, n: nat) {
    && n <= max && (forall k | 0 <= k < n :: SavesPart(o, total, env, k))
    && (n == max || Start(o, total, n) == total || env.part(n, Start(o, total, n), Start(o, total, n + 1)) == Says(""))
  }

  lemma {:induction false} LoopEnds(o: Overview, parts: seq<Part>, saved: Overview, total: nat, k: nat, max: nat, env: Env) returns (n: nat)
    requires k <= max && parts == saved.parts && Cursor(parts) == Start(o, total, k)
    requires forall j | 0 <= j < k :: SavesPart(o, total, env, j)
    ensures var c := Chunks(parts, saved, total, k, max, env);
            if c.stopped then forall m: nat :: !EndsAfter(o, total, max, env, m)
            else EndsAfter(o, total, max, env, n) && Cursor(c.parts) == Start(o, total, n) && (c.parts == [] ==> parts == [])
    decreases max - k
  {
    n := k;
    if SavesPart(o, total, env, k) && k < max {
      var more := parts + [Part(Cursor(parts), ChunkEnd(Cursor(parts), total), Take(AnswerAt(parts, total, k, env).text, PART_CHARS))];
      n := LoopEnds(o, more, saved.(parts := more, status := Partial), total, k + 1, max, env);
    } else if Chunks(parts, saved, total, k, max, env).stopped {
      forall m: nat
        ensures !EndsAfter(o, total, max, env, m)
      {
        assert m < k ==> SavesPart(o, total, env, m);
        assert !SavesPart(o, total, env, k);
      }
    }
  }

  /** The run has new parts to merge: some were left over, or the loop saved some and ended well. */
  ghost predicate ReachesMerge(o: Overview, total: nat, max: nat, env: Env) {
    Cursor(o.parts) == o.covered ==> exists n: nat :: n > 0 && EndsAfter(o, total, max, env, n)
  }

  lemma EndsOnce(o: Overview, total: nat, max: nat, env: Env, n: nat, m: nat)
    requires EndsAfter(o, total, max, env, n) && EndsAfter(o, total, max, env, m)
    ensures n == m && (n > 0 ==> Start(o, total, n) > o.covered)
  {
    assert n > 0 ==> SavesPart(o, total, env, 0);
    assert n > m ==> SavesPart(o, total, env, m);
    assert m > n ==> SavesPart(o, total, env, n);
  }

  /** The end of a run that raises the covered length. */
  lemma FinishMergesIff(o: Overview, parts: seq<Part>, saved: Overview, total: nat, env: Env)
    requires Cursor(parts) >= o.covered == saved.covered && parts == saved.parts
    ensures var t := Finish(o, parts, saved, total, env);
            var answer := env.merge(o.text, PendingSummaries(t.parts, o.covered));
            t.covered > o.covered <==> Cursor(parts) > o.covered && answer.Says? && answer.text != "" && env.saveResult
  {
    hide PendingSummaries;
    if Cursor(parts) > o.covered {
      assert parts[|parts| - 1] in parts;
      assert HasPending(parts, o.covered);
    }
  }

  /**
   * A run raises the covered length exactly when it reaches the merge, the merge answers with a text and
   * the final checkpoint is accepted. An empty part answer does not prevent that, an exception does.
   */
  lemma RunMergesIff(o: Overview, total: nat, max: nat, env: Env)
    requires OverviewOk(o, total, max) && o.status != Ready && env.saveAttempt
    ensures var t := Summarize(o, total, max, env);
            var answer := env.merge(o.text, PendingSummaries(t.parts, o.covered));
            t.covered > o.covered <==>
            ReachesMerge(o, total, max, env) && answer.Says? && answer.text != "" && env.saveResult
  {
    hide Chunks, OverviewOk, PendingSummaries, EndsAfter;
    CoveredWithin(o, total, max);
    ChunksInStep(o.parts, o, total, 0, max, env);
    if Cursor(o.parts) != o.covered {
      RunIsFinish(o, total, max, env, Chunked(o.parts, o, false));
      FinishMergesIff(o, o.parts, o, total, env);
    } else {
      var c := Chunks(o.parts, o, total, 0, max, env);
      var n := LoopEnds(o, o.parts, o, total, 0, max, env);
      if !c.stopped {
        RunIsFinish(o, total, max, env, c);
        if m: nat :| m > 0 && EndsAfter(o, total, max, env, m) {
          EndsOnce(o, total, max, env, n, m);
        }
        FinishMergesIff(o, c.parts, c.saved, total, env);
      }
    }
  }

  // ---- Over runs ----

  /** The text as the runs left it: the last saved merge, or nothing. */
  ghost predicate LastMerge(total: nat, max: nat, envs: seq<Env>) {
    var t := RunAll(Fresh(), total, max, envs);
    (t.covered == 0 && t.text == "") ||
    exists i :: 0 <= i < |envs| && MergedIn(total, max, envs, i)
  }

  /** Run `i` stored the merge that is still the text, and no later run covered more. */
  ghost predicate MergedIn(total: nat, max: nat, envs: seq<Env>, i: nat)
    requires i < |envs|
  {
    var o, m, t := RunAll(Fresh(), total, max, envs[..i]), RunAll(Fresh(), total, max, envs[..i + 1]), RunAll(Fresh(), total, max, envs);
    var answer := envs[i].merge(o.text, PendingSummaries(m.parts, o.covered));
    && m.covered > o.covered && m.covered == t.covered
    && answer.Says? && answer.text != "" && FirstChars(answer.text, 1200, t.text)
  }

  /** Over any runs from a fresh overview, the text is the last saved merge, and the covered length is what it covers. */
  lemma {:induction false} TextIsLastMerge(total: nat, max: nat, envs: seq<Env>)
    ensures LastMerge(total, max, envs)
  {
    hide Summarize, OverviewOk, FirstChars, PendingSummaries, Cursor;
    if envs != [] {
      var n := |envs| - 1;
      var front := envs[..n];
      var o := RunAll(Fresh(), total, max, front);
      var t := RunAll(Fresh(), total, max, envs);
      TextIsLastMerge(total, max, front);
      RunsKeepOverview(total, max, front);
      RunStoresItsMerge(o, total, max, envs[n]);
      assert envs[..n + 1] == envs;
      if t.covered != o.covered {
        assert MergedIn(total, max, envs, n);
      } else if i :| 0 <= i < n && MergedIn(total, max, front, i) {
        assert front[..i] == envs[..i] && front[..i + 1] == envs[..i + 1] && front[i] == envs[i];
        assert MergedIn(total, max, envs, i);
      }
    }
  }

  /** A ready overview of a document that is not empty has a text. */
  lemma ReadyMeansText(total: nat, max: nat, envs: seq<Env>)
    requires total > 0 && RunAll(Fresh(), total, max, envs).status == Ready
    ensures RunAll(Fresh(), total, max, envs).text != ""
  {
    hide RunAll, PendingSummaries;
    TextIsLastMerge(total, max, envs);
    RunsKeepOverview(total, max, envs);
  }

  /** An empty document is ready after one run whose two checkpoints are accepted, without asking the model. */
  lemma EmptyDocumentIsReadyIff(max: nat, env: Env)
    ensures Summarize(Fresh(), 0, max, env) == if env.saveAttempt && env.saveResult then Overview(Ready, 0, "", []) else Fresh()
  {
  }

  /** Pending means that there is no part yet, partial that there is one. */
  ghost predicate StatusFits(o: Overview) {
    (o.status == Pending ==> o.parts == []) && (o.status == Partial ==> o.parts != [])
  }

  lemma RunKeepsStatus(o: Overview, total: nat, max: nat, env: Env)
    requires StatusFits(o)
    ensures StatusFits(Summarize(o, total, max, env))
  {
    ChunksInStep(o.parts, o, total, 0, max, env);
  }
}
