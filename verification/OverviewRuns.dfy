/**
 * Any number of overview runs cut short anywhere (core/document_reading.py): parts tile the text
 * read so far, nothing saved is summarised again, and the overview is ready only when it covers all.
 */
module OverviewRuns {
  import opened DocumentOverview

  /** Parts follow each other from offset 0 without gap or overlap, within the text. */
  ghost predicate Tiles(parts: seq<Part>, total: nat) {
    && (parts != [] ==> parts[0].start == 0)
    && (forall i | 0 <= i < |parts| :: parts[i].start < parts[i].end <= total)
    && forall i | 0 < i < |parts| :: parts[i].start == parts[i - 1].end
  }

  function PendingCount(parts: seq<Part>, covered: nat): nat {
    if parts == [] then 0
    else PendingCount(parts[..|parts| - 1], covered) + (if parts[|parts| - 1].end > covered then 1 else 0)
  }

  ghost predicate Boundary(parts: seq<Part>, covered: nat) {
    covered == 0 || exists p :: p in parts && p.end == covered
  }

  ghost predicate OverviewOk(o: Overview, total: nat, max: nat) {
    && Tiles(o.parts, total)
    && Boundary(o.parts, o.covered)
    && PendingCount(o.parts, o.covered) <= max
    && (o.status == Ready ==> o.covered == total)
  }

  lemma {:induction false} TilesEnds(parts: seq<Part>, total: nat)
    requires Tiles(parts, total)
    ensures Cursor(parts) <= total && forall p | p in parts :: 0 < p.end <= Cursor(parts)
  {
    if parts != [] {
      var front, last := parts[..|parts| - 1], parts[|parts| - 1];
      TilesEnds(front, total);
      assert forall p :: p in parts <==> p in front || p == last;
    }
  }

  lemma {:induction false} PendingZero(parts: seq<Part>, covered: nat)
    requires forall p | p in parts :: p.end <= covered
    ensures PendingCount(parts, covered) == 0
  {
    if parts != [] {
      PendingZero(parts[..|parts| - 1], covered);
    }
  }

  lemma {:induction false} PendingPositive(parts: seq<Part>, covered: nat)
    ensures HasPending(parts, covered) <==> PendingCount(parts, covered) > 0
  {
    if parts != [] {
      var front, last := parts[..|parts| - 1], parts[|parts| - 1];
      PendingPositive(front, covered);
      assert forall p :: p in parts <==> p in front || p == last;
    }
  }

  lemma BoundaryStays(parts: seq<Part>, last: Part, covered: nat)
    ensures Boundary(parts, covered) ==> Boundary(parts + [last], covered)
  {
    assert forall p | p in parts :: p in parts + [last];
  }

  lemma OneMorePart(parts: seq<Part>, total: nat, covered: nat, summary: string)
    requires Tiles(parts, total) && Cursor(parts) < total
    ensures var more := parts + [Part(Cursor(parts), ChunkEnd(Cursor(parts), total), summary)];
            && Tiles(more, total) && Cursor(more) == ChunkEnd(Cursor(parts), total) > Cursor(parts)
            && PendingCount(more, covered) <= PendingCount(parts, covered) + 1
            && (Boundary(parts, covered) ==> Boundary(more, covered))
  {
    var last := Part(Cursor(parts), ChunkEnd(Cursor(parts), total), summary);
    assert (parts + [last])[..|parts|] == parts;
    BoundaryStays(parts, last, covered);
    hide Boundary;
  }

  /** The answer to the request of round `k`. */
  function AnswerAt(parts: seq<Part>, total: nat, k: nat, env: Env): Answer {
    env.part(k, Cursor(parts), ChunkEnd(Cursor(parts), total))
  }

  /** The part loop keeps everything but the merged text, and only ever appends parts. */
  lemma {:induction false} ChunksFacts(parts: seq<Part>, saved: Overview, total: nat, k: nat, max: nat, env: Env)
    requires k <= max && Tiles(parts, total) && parts == saved.parts
    requires Boundary(parts, saved.covered) && PendingCount(parts, saved.covered) <= k && saved.status != Ready
    ensures var c := Chunks(parts, saved, total, k, max, env);
            && OverviewOk(c.saved, total, max)
            && parts <= c.saved.parts <= c.parts && Tiles(c.parts, total)
            && c.saved.covered == saved.covered && c.saved.text == saved.text && c.saved.status != Ready
            && Boundary(c.parts, saved.covered)
            && (!c.stopped ==> c.parts == c.saved.parts)
    decreases max - k
  {
    hide Tiles, Boundary, PendingCount;
    if k < max && Cursor(parts) < total && AnswerAt(parts, total, k, env).Says? && AnswerAt(parts, total, k, env).text != "" {
      var summary := Take(AnswerAt(parts, total, k, env).text, PART_CHARS);
      OneMorePart(parts, total, saved.covered, summary);
      var more := parts + [Part(Cursor(parts), ChunkEnd(Cursor(parts), total), summary)];
      if env.savePart(k) {
        ChunksFacts(more, saved.(parts := more, status := Partial), total, k + 1, max, env);
      }
    }
  }

  /** Merging and the final checkpoint keep the overview well-formed. */
  lemma FinishFacts(o: Overview, parts: seq<Part>, saved: Overview, total: nat, max: nat, env: Env)
    requires OverviewOk(saved, total, max) && saved.parts == parts && saved.covered == o.covered && saved.text == o.text
    ensures OverviewOk(Finish(o, parts, saved, total, env), total, max)
    ensures Finish(o, parts, saved, total, env).parts == parts
    ensures Finish(o, parts, saved, total, env).covered >= o.covered
  {
    hide Tiles, PendingCount;
    TilesEnds(parts, total);
    PendingZero(parts, Cursor(parts));
    if HasPending(parts, o.covered) {
      assert parts[|parts| - 1] in parts;
    }
  }

  /** No run, however it is cut short, breaks the overview: parts only grow, and coverage never shrinks. */
  lemma RunKeepsOverview(o: Overview, total: nat, max: nat, env: Env)
    requires OverviewOk(o, total, max)
    ensures var t := Summarize(o, total, max, env);
            OverviewOk(t, total, max) && o.parts <= t.parts && t.covered >= o.covered
  {
    hide Chunks, Finish, Tiles, Boundary, PendingCount;
    if o.status != Ready && env.saveAttempt {
      if Cursor(o.parts) == o.covered {
        TilesEnds(o.parts, total);
        PendingZero(o.parts, o.covered);
        ChunksFacts(o.parts, o, total, 0, max, env);
        var c := Chunks(o.parts, o, total, 0, max, env);
        if !c.stopped {
          FinishFacts(o, c.parts, c.saved, total, max, env);
        }
      } else {
        FinishFacts(o, o.parts, o, total, max, env);
      }
    }
  }

  function RunAll(o: Overview, total: nat, max: nat, envs: seq<Env>): Overview {
    if envs == [] then o else Summarize(RunAll(o, total, max, envs[..|envs| - 1]), total, max, envs[|envs| - 1])
  }

  function Fresh(): Overview {
    Overview(Pending, 0, "", [])
  }

  lemma {:induction false} RunsKeepOverview(total: nat, max: nat, envs: seq<Env>)
    ensures OverviewOk(RunAll(Fresh(), total, max, envs), total, max)
  {
    hide Summarize;
    if envs != [] {
      RunsKeepOverview(total, max, envs[..|envs| - 1]);
      RunKeepsOverview(RunAll(Fresh(), total, max, envs[..|envs| - 1]), total, max, envs[|envs| - 1]);
    }
  }

  // ---- Nothing saved is summarised again ----

  /** The ranges a part loop asks the model to summarise, in order. */
  function Asked(parts: seq<Part>, total: nat, k: nat, max: nat, env: Env): seq<(nat, nat)>
    requires k <= max
    decreases max - k
  {
    var cursor := Cursor(parts);
    if k == max || cursor >= total then []
    else
      var range := (cursor, ChunkEnd(cursor, total));
      [range] +
      (match env.part(k, range.0, range.1)
       case Raises => []
       case Says(text) =>
         if text == "" || !env.savePart(k) then []
         else Asked(parts + [Part(cursor, range.1, Take(text, PART_CHARS))], total, k + 1, max, env))
  }

  function AskedInRun(o: Overview, total: nat, max: nat, env: Env): seq<(nat, nat)> {
    if o.status == Ready || !env.saveAttempt || Cursor(o.parts) != o.covered then [] else Asked(o.parts, total, 0, max, env)
  }

  /** Ranges that follow each other from `start`, within the text. */
  ghost predicate Consecutive(a: seq<(nat, nat)>, start: nat, total: nat) {
    && (forall i | 0 <= i < |a| :: start <= a[i].0 < a[i].1 <= total)
    && (forall i | 0 < i < |a| :: a[i].0 == a[i - 1].1)
    && (a != [] ==> a[0].0 == start)
  }

  lemma PrependConsecutive(start: nat, end: nat, a: seq<(nat, nat)>, total: nat)
    requires start < end <= total && Consecutive(a, end, total)
    ensures Consecutive([(start, end)] + a, start, total)
  {
    var b := [(start, end)] + a;
    forall i | 0 < i < |b|
      ensures b[i].0 == b[i - 1].1
    {
      assert b[i] == a[i - 1] && (i > 1 ==> b[i - 1] == a[i - 2]);
    }
  }

  lemma {:induction false} AskedBeyond(parts: seq<Part>, total: nat, k: nat, max: nat, env: Env)
    requires k <= max && Tiles(parts, total)
    ensures |Asked(parts, total, k, max, env)| <= max - k
    ensures Consecutive(Asked(parts, total, k, max, env), Cursor(parts), total)
    decreases max - k
  {
    hide Tiles, Consecutive;
    var cursor := Cursor(parts);
    NothingConsecutive(cursor, total);
    if k < max && cursor < total {
      var end := ChunkEnd(cursor, total);
      NothingConsecutive(end, total);
      PrependConsecutive(cursor, end, [], total);
      assert [(cursor, end)] + [] == [(cursor, end)];
      if AnswerAt(parts, total, k, env).Says? && AnswerAt(parts, total, k, env).text != "" && env.savePart(k) {
        var summary := Take(AnswerAt(parts, total, k, env).text, PART_CHARS);
        OneMorePart(parts, total, 0, summary);
        var more := parts + [Part(cursor, end, summary)];
        AskedBeyond(more, total, k + 1, max, env);
        PrependConsecutive(cursor, end, Asked(more, total, k + 1, max, env), total);
      }
    }
  }

  lemma NothingConsecutive(start: nat, total: nat)
    ensures Consecutive([], start, total)
  {
  }

  /** A run asks for at most `max` consecutive ranges, none of which any saved part overlaps. */
  lemma SavedPartsAreNotReread(o: Overview, total: nat, max: nat, env: Env, i: nat, p: Part)
    requires OverviewOk(o, total, max) && i < |AskedInRun(o, total, max, env)| && p in o.parts
    ensures |AskedInRun(o, total, max, env)| <= max && p.end <= AskedInRun(o, total, max, env)[i].0
  {
    hide Asked, Tiles, Boundary, PendingCount;
    TilesEnds(o.parts, total);
    AskedBeyond(o.parts, total, 0, max, env);
  }

  // ---- Progress ----

  /** Text not yet summarised plus summaries not yet merged. */
  function Work(o: Overview, total: nat): int {
    2 * total - Cursor(o.parts) - o.covered
  }

  lemma CursorGrows(a: seq<Part>, b: seq<Part>, total: nat)
    requires Tiles(b, total) && a <= b
    ensures Cursor(a) <= Cursor(b) && (Cursor(a) == Cursor(b) ==> a == b)
  {
    TilesEnds(b, total);
    if a != [] {
      assert a[|a| - 1] == b[|a| - 1] && a[|a| - 1] in b;
      if |a| < |b| {
        EndsIncrease(b, total, |a| - 1, |b| - 1);
      }
    } else if b != [] {
      assert b[|b| - 1] in b;
    }
  }

  lemma {:induction false} EndsIncrease(parts: seq<Part>, total: nat, i: nat, j: nat)
    requires Tiles(parts, total) && i < j < |parts|
    ensures parts[i].end < parts[j].end
    decreases j
  {
    assert parts[j].start == parts[j - 1].end && parts[j].start < parts[j].end;
    if i < j - 1 {
      EndsIncrease(parts, total, i, j - 1);
    }
  }

  /** No run adds work, and one that saves a part or a merge removes some. */
  lemma RunNeverAddsWork(o: Overview, total: nat, max: nat, env: Env)
    requires OverviewOk(o, total, max)
    ensures var t := Summarize(o, total, max, env);
            && 0 <= Work(t, total) <= Work(o, total)
            && (t.parts != o.parts || t.covered != o.covered ==> Work(t, total) < Work(o, total))
  {
    hide Summarize, Tiles, PendingCount;
    var t := Summarize(o, total, max, env);
    RunKeepsOverview(o, total, max, env);
    CursorGrows(o.parts, t.parts, total);
    TilesEnds(t.parts, total);
    CoveredWithin(t, total, max);
  }

  lemma CoveredWithin(o: Overview, total: nat, max: nat)
    requires OverviewOk(o, total, max)
    ensures o.covered <= Cursor(o.parts) <= total
  {
    TilesEnds(o.parts, total);
  }

  ghost predicate AllSucceed(env: Env) {
    && (forall k: nat, i: nat, j: nat :: env.part(k, i, j).Says? && env.part(k, i, j).text != "")
    && (forall k: nat :: env.savePart(k))
    && (forall text, pending :: env.merge(text, pending).Says? && env.merge(text, pending).text != "")
    && env.saveAttempt && env.saveResult
  }

  function MinNat(a: nat, b: nat): nat {
    if a <= b then a else b
  }

  lemma {:induction false} ChunksAdvance(parts: seq<Part>, saved: Overview, total: nat, k: nat, max: nat, env: Env)
    requires k <= max && Tiles(parts, total) && AllSucceed(env)
    ensures var c := Chunks(parts, saved, total, k, max, env);
            !c.stopped && Cursor(c.parts) == MinNat(Cursor(parts) + (max - k) * SUMMARY_CHARS, total)
    decreases max - k
  {
    hide Tiles;
    TilesEnds(parts, total);
    if k < max && Cursor(parts) < total {
      var summary := Take(AnswerAt(parts, total, k, env).text, PART_CHARS);
      OneMorePart(parts, total, 0, summary);
      var more := parts + [Part(Cursor(parts), ChunkEnd(Cursor(parts), total), summary)];
      ChunksAdvance(more, saved.(parts := more, status := Partial), total, k + 1, max, env);
      assert (max - k) * SUMMARY_CHARS == (max - k - 1) * SUMMARY_CHARS + SUMMARY_CHARS;
    }
  }

  /** A run without failures covers `max` more chunks, or finishes a pending merge. */
  lemma SuccessfulRunAdvances(o: Overview, total: nat, max: nat, env: Env)
    requires OverviewOk(o, total, max) && AllSucceed(env) && o.status != Ready
    ensures var t := Summarize(o, total, max, env);
            && t.covered == Cursor(t.parts)
            && (t.status == Ready <==> t.covered == total)
            && t.covered == (if Cursor(o.parts) == o.covered then MinNat(o.covered + max * SUMMARY_CHARS, total) else Cursor(o.parts))
  {
    hide Tiles, PendingCount, Chunks;
    TilesEnds(o.parts, total);
    CoveredWithin(o, total, max);
    var parts := o.parts;
    if Cursor(o.parts) == o.covered {
      PendingZero(o.parts, o.covered);
      ChunksFacts(o.parts, o, total, 0, max, env);
      ChunksAdvance(o.parts, o, total, 0, max, env);
      parts := Chunks(o.parts, o, total, 0, max, env).parts;
      TilesEnds(parts, total);
    }
    if Cursor(parts) > o.covered {
      assert parts[|parts| - 1] in parts;
    }
  }

  /** From a fresh document, `n` runs without failures cover `n * max` chunks or everything. */
  lemma {:induction false} SuccessfulRunsFinish(total: nat, max: nat, envs: seq<Env>)
    requires max > 0 && forall env | env in envs :: AllSucceed(env)
    ensures var t := RunAll(Fresh(), total, max, envs);
            && OverviewOk(t, total, max)
            && t.covered == Cursor(t.parts) == MinNat(|envs| * max * SUMMARY_CHARS, total)
            && (envs != [] && |envs| * max * SUMMARY_CHARS >= total ==> t.status == Ready)
  {
    hide Summarize, AllSucceed, Tiles, PendingCount, Boundary;
    RunsKeepOverview(total, max, envs);
    if envs != [] {
      var n := |envs|;
      var front := envs[..n - 1];
      SuccessfulRunsFinish(total, max, front);
      var o := RunAll(Fresh(), total, max, front);
      assert n * max * SUMMARY_CHARS == (n - 1) * max * SUMMARY_CHARS + max * SUMMARY_CHARS;
      if o.status == Ready {
        assert Summarize(o, total, max, envs[n - 1]) == o by { ReadyStays(o, total, max, envs[n - 1]); }
      } else {
        SuccessfulRunAdvances(o, total, max, envs[n - 1]);
      }
    }
  }

  lemma ReadyStays(o: Overview, total: nat, max: nat, env: Env)
    requires o.status == Ready
    ensures Summarize(o, total, max, env) == o
  {
  }
}
