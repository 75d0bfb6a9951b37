/**
 * Checkpointed overviews of long documents (core/document_reading.py): parts are summarised one at a
 * time and saved, then merged; any model call may fail or raise and any checkpoint may be refused.
 */
module DocumentOverview {

  const SUMMARY_CHARS: nat := 10_000
  const PART_CHARS: nat := 600
  const OVERVIEW_CHARS: nat := 1200

  datatype Status = Pending | Partial | Ready

  datatype Part = Part(start: nat, end: nat, summary: string)

  /** The persisted overview of one document. */
  datatype Overview = Overview(status: Status, covered: nat, text: string, parts: seq<Part>)

  /** A model call: a text, empty when the model gave nothing, or an exception. */
  datatype Answer = Says(text: string) | Raises

  /**
   * Everything outside that one run meets: the model's answer to the request of a round for a range of the
   * text, its answer to the request to merge new part summaries into the earlier text, and which
   * checkpoints are accepted.
   */
  datatype Env = Env(part: (nat, nat, nat) -> Answer, merge: (string, seq<string>) -> Answer,
                     saveAttempt: bool, savePart: nat -> bool, saveResult: bool)

  function Take(s: string, n: nat): string {
    if |s| <= n then s else s[..n]
  }

  function Cursor(parts: seq<Part>): nat {
    if parts == [] then 0 else parts[|parts| - 1].end
  }

  function ChunkEnd(cursor: nat, total: nat): nat {
    if cursor + SUMMARY_CHARS <= total then cursor + SUMMARY_CHARS else total
  }

  /** How the part loop ends: ready to merge, refused by a checkpoint, or by an exception. */
  datatype Chunked = Chunked(parts: seq<Part>, saved: Overview, stopped: bool)

  /** The part loop from its `k`-th round: the parts in memory, and the overview on disk. */
  function Chunks(parts: seq<Part>, saved: Overview, total: nat, k: nat, max: nat, env: Env): Chunked
    requires k <= max
    decreases max - k
  {
    var cursor := Cursor(parts);
    if k == max || cursor >= total then Chunked(parts, saved, false)
    else match env.part(k, cursor, ChunkEnd(cursor, total))
      case Raises => Chunked(parts, saved, true)
      case Says(text) =>
        if text == "" then Chunked(parts, saved, false)
        else
          var more := parts + [Part(cursor, ChunkEnd(cursor, total), Take(text, PART_CHARS))];
          if !env.savePart(k) then Chunked(more, saved, true)
          else Chunks(more, saved.(parts := more, status := Partial), total, k + 1, max, env)
  }

  predicate HasPending(parts: seq<Part>, covered: nat) {
    exists p :: p in parts && p.end > covered
  }

  /** The summaries of the parts not merged yet, in order. */
  function PendingSummaries(parts: seq<Part>, covered: nat): seq<string> {
    if parts == [] then []
    else
      var last := parts[|parts| - 1];
      PendingSummaries(parts[..|parts| - 1], covered) + (if last.end > covered then [last.summary] else [])
  }

  /** The merge and the final checkpoint. */
  function Finish(o: Overview, parts: seq<Part>, saved: Overview, total: nat, env: Env): Overview {
    var pending := HasPending(parts, o.covered);
    var answer := env.merge(o.text, PendingSummaries(parts, o.covered));
    if pending && answer.Raises? then saved
    else
      var merged := pending && answer.text != "";
      var covered := if merged then Cursor(parts) else o.covered;
      var text := if merged then Take(answer.text, OVERVIEW_CHARS) else o.text;
      var status := if covered == total then Ready else if parts != [] then Partial else Pending;
      if env.saveResult then Overview(status, covered, text, parts) else saved
  }

  /** One run: the persisted overview afterwards. */
  function Summarize(o: Overview, total: nat, max: nat, env: Env): Overview {
    if o.status == Ready || !env.saveAttempt then o
    else
      var c := if Cursor(o.parts) == o.covered then Chunks(o.parts, o, total, 0, max, env) else Chunked(o.parts, o, false);
      if c.stopped then c.saved else Finish(o, c.parts, c.saved, total, env)
  }

  method NewSummaries(parts: seq<Part>, covered: nat) returns (pending: seq<string>)
    ensures pending == PendingSummaries(parts, covered)
  {
    pending := [];
    var i := 0;
    while i < |parts|
      invariant 0 <= i <= |parts| && pending == PendingSummaries(parts[..i], covered)
    {
      assert parts[..i + 1][..i] == parts[..i];
      if parts[i].end > covered {
        pending := pending + [parts[i].summary];
      }
      i := i + 1;
    }
    assert parts[..i] == parts;
  }

  class DocumentRow {
    var overview: Overview
    const total: nat

    constructor (initial: Overview, length: nat)
      ensures overview == initial && total == length
    {
      overview, total := initial, length;
    }

    /** The source's run: checkpoints assign the persisted overview, returns leave it as last saved. */
    method Run(max: nat, env: Env)
      modifies this
      ensures overview == Summarize(old(overview), total, max, env)
    {
      if overview.status == Ready || !env.saveAttempt {
        return;
      }
      var parts, covered := overview.parts, overview.covered;
      var text := overview.text;
      var cursor := Cursor(parts);
      if cursor == covered {
        var k := 0;
        while k < max && cursor < total
          invariant 0 <= k <= max && cursor == Cursor(parts)
          invariant overview.covered == covered && overview.text == text
          invariant Chunks(parts, overview, total, k, max, env) == Chunks(old(overview).parts, old(overview), total, 0, max, env)
        {
          var end := ChunkEnd(cursor, total);
          var answer := env.part(k, cursor, end);
          if answer.Raises? {
            return;
          }
          if answer.text == "" {
            break;
          }
          parts := parts + [Part(cursor, end, Take(answer.text, PART_CHARS))];
          cursor := end;
          if !env.savePart(k) {
            return;
          }
          overview := overview.(parts := parts, status := Partial);
          k := k + 1;
        }
      }
      if HasPending(parts, covered) {
        var pending := NewSummaries(parts, covered);
        var answer := env.merge(text, pending);
        if answer.Raises? {
          return;
        }
        if answer.text != "" {
          text, covered := Take(answer.text, OVERVIEW_CHARS), cursor;
        }
      }
      if env.saveResult {
        overview := Overview(if covered == total then Ready else if parts != [] then Partial else Pending, covered, text, parts);
      }
    }
  }
}
