/**
 * Trailing `{false}` / `{true: intent}` control markers (core/control_markers.py): the batch
 * parser, the streaming filter, and the proof that the filter agrees with the parser however
 * the text is cut into pieces.
 */
module ControlMarkers {
  import opened Wrappers
  import opened Text

  datatype Word = WordTrue | WordFalse

  /** One match of the marker pattern: opening brace, spaces, word, spaces, optional colon. */
  datatype Match = Match(start: nat, end: nat, word: Word)

  function Spelling(w: Word): string {
    if w.WordTrue? then "true" else "false"
  }

  predicate IsColon(c: char) {
    c == ':' || c == '\U{FF1A}'
  }

  /** `s`, ignoring case, begins the word `w`. */
  predicate BeginsWord(s: string, w: string) {
    |s| <= |w| && forall k | 0 <= k < |s| :: Lower(s[k]) == w[k]
  }

  predicate WordAt(t: string, j: nat, w: string)
    requires j <= |t|
  {
    j + |w| <= |t| && BeginsWord(t[j..j + |w|], w)
  }

  function MatchEnd(t: string, k: nat): (e: nat)
    requires k <= |t|
    ensures k <= e <= |t|
  {
    var e := SkipSpaces(t, k);
    if e < |t| && IsColon(t[e]) then e + 1 else e
  }

  /** The pattern anchored at index `i`. */
  function MatchAt(t: string, i: nat): (m: Option<Match>)
    requires i <= |t|
    ensures m.Some? ==> m.value.start == i < m.value.end <= |t|
  {
    if i < |t| && t[i] == '{' then
      var j := SkipSpaces(t, i + 1);
      if WordAt(t, j, "true") then Some(Match(i, MatchEnd(t, j + 4), WordTrue))
      else if WordAt(t, j, "false") then Some(Match(i, MatchEnd(t, j + 5), WordFalse))
      else None
    else None
  }

  /** Nothing but an optional `}` (for `false`) or a closed intent (for `true`) follows the match. */
  predicate IsTail(t: string, m: Match)
    requires m.end <= |t|
  {
    match m.word
    case WordFalse =>
      var a := SkipSpaces(t, m.end);
      var b := if a < |t| && t[a] == '}' then a + 1 else a;
      SkipSpaces(t, b) == |t|
    case WordTrue =>
      var close := Find(t, m.end, '}');
      close == |t| || SkipSpaces(t, close + 1) == |t|
  }

  /** The match with the greatest start below `n`. */
  function LastMatch(t: string, n: nat): (m: Option<Match>)
    requires n <= |t|
    ensures m.Some? ==> m.value.start < n && MatchAt(t, m.value.start) == m
    ensures forall i | 0 <= i < n && MatchAt(t, i).Some? :: m.Some? && i <= m.value.start
  {
    if n == 0 then None
    else if MatchAt(t, n - 1).Some? then MatchAt(t, n - 1)
    else LastMatch(t, n - 1)
  }

  function TailMatch(t: string): (m: Option<Match>)
    ensures m.Some? ==> m.value.start < |t| && MatchAt(t, m.value.start) == m
  {
    var m := LastMatch(t, |t|);
    if m.Some? && IsTail(t, m.value) then m else None
  }

  /** Greatest index below `n` holding an opening brace. */
  function LastBrace(t: string, n: nat): (i: Option<nat>)
    requires n <= |t|
    ensures i.Some? ==> i.value < n && t[i.value] == '{'
    ensures forall k | 0 <= k < n && t[k] == '{' :: i.Some? && k <= i.value
  {
    if n == 0 then None else if t[n - 1] == '{' then Some(n - 1) else LastBrace(t, n - 1)
  }

  /** An opening brace, spaces, and a word still being spelt. */
  predicate OpenPrefix(s: string) {
    |s| > 0 && s[0] == '{' &&
    var i := SkipSpaces(s, 1);
    i == |s| || BeginsWord(s[i..], "true") || BeginsWord(s[i..], "false")
  }

  /** The display text and the intent of the batch parser. */
  function Parse(t: string): (string, Option<string>) {
    match TailMatch(t)
    case None => (t, None)
    case Some(m) =>
      var display := RStrip(t[..m.start]);
      if m.word.WordFalse? then (display, None)
      else
        var intent := Strip(t[m.end..Find(t, m.end, '}')]);
        (display, if intent == "" then None else Some(intent))
  }

  function StripControlMarkers(t: string): string {
    Parse(t).0
  }

  /** Where a dangling, still unspelt marker begins, if the text ends in one. */
  function Dangling(t: string): (i: Option<nat>)
    ensures i.Some? ==> i.value < |t| && t[i.value] == '{'
  {
    var i := LastBrace(t, |t|);
    if i.Some? && OpenPrefix(t[i.value..]) then i else None
  }

  /** Length of the part that may be shown; the rest must stay buffered. */
  function Hold(t: string): (h: nat)
    ensures h <= |t|
    ensures h > 0 ==> !IsSpace(t[h - 1])
  {
    match TailMatch(t)
    case Some(m) => TrimEnd(t, m.start)
    case None =>
      match Dangling(t)
      case Some(i) => TrimEnd(t, i)
      case None => TrimEnd(t, |t|)
  }

  /** What a whole stream must show for the text `t`. */
  function Final(t: string): string {
    match TailMatch(t)
    case Some(m) => RStrip(t[..m.start])
    case None =>
      match Dangling(t)
      case Some(i) => RStrip(t[..i])
      case None => t
  }

  function FeedSpec(buf: string, piece: string): (string, string) {
    if piece == "" then ("", buf)
    else
      var all := buf + piece;
      (all[..Hold(all)], all[Hold(all)..])
  }

  function FinishSpec(buf: string): string {
    var display := Parse(buf).0;
    match Dangling(display)
    case Some(i) => RStrip(display[..i])
    case None => display
  }

  // ---- The source's loops, proved against the functions above ----

  /** Leftmost match at or after `pos`, as one step of `finditer`. */
  function Search(t: string, pos: nat): (m: Option<Match>)
    requires pos <= |t|
    ensures m.Some? ==> pos <= m.value.start < |t| && MatchAt(t, m.value.start) == m
    ensures forall i | pos <= i < (if m.Some? then m.value.start else |t|) :: MatchAt(t, i).None?
    decreases |t| - pos
  {
    if pos == |t| then None
    else if MatchAt(t, pos).Some? then MatchAt(t, pos)
    else Search(t, pos + 1)
  }

  method LastTailMatch(t: string) returns (last: Option<Match>)
    ensures last == TailMatch(t)
  {
    hide MatchAt, IsTail;
    last := None;
    var pos: nat := 0;
    var next := Search(t, pos);
    while next.Some?
      invariant pos <= |t| && next == Search(t, pos) && last == LastMatch(t, pos)
      decreases |t| - pos
    {
      LastMatchSkips(t, pos, next.value.start);
      OneBracePerMatch(t, next.value.start);
      LastMatchSkips(t, next.value.start + 1, next.value.end);
      last := next;
      pos := last.value.end;
      next := Search(t, pos);
    }
    LastMatchSkips(t, pos, |t|);
    if last.Some? && !IsTail(t, last.value) {
      last := None;
    }
  }

  method ParseTailBrace(t: string) returns (display: string, intent: Option<string>)
    ensures (display, intent) == Parse(t)
  {
    if t == "" {
      return t, None;
    }
    var m := LastTailMatch(t);
    if m.None? {
      return t, None;
    }
    display := RStrip(t[..m.value.start]);
    if m.value.word.WordFalse? {
      return display, None;
    }
    var text := Strip(t[m.value.end..Find(t, m.value.end, '}')]);
    intent := if text == "" then None else Some(text);
  }

  method SuffixIsOpenMarkerPrefix(suffix: string) returns (open: bool)
    ensures open == OpenPrefix(suffix)
  {
    if |suffix| == 0 || suffix[0] != '{' {
      return false;
    }
    var i := 1;
    while i < |suffix| && IsSpace(suffix[i])
      invariant 1 <= i <= |suffix|
      invariant SkipSpaces(suffix, 1) == SkipSpaces(suffix, i)
    {
      i := i + 1;
    }
    if i >= |suffix| {
      return true;
    }
    open := BeginsWord(suffix[i..], "true") || BeginsWord(suffix[i..], "false");
  }

  method HoldIndex(buf: string) returns (hold: Option<nat>)
    ensures hold == if Hold(buf) < |buf| then Some(Hold(buf)) else None
  {
    var m := LastTailMatch(buf);
    var idx: nat := |buf|;
    if m.Some? {
      idx := m.value.start;
    } else {
      var brace := LastBrace(buf, |buf|);
      if brace.Some? {
        var open := SuffixIsOpenMarkerPrefix(buf[brace.value..]);
        if open {
          idx := brace.value;
        }
      }
    }
    ghost var from := idx;
    while idx > 0 && IsSpace(buf[idx - 1])
      invariant idx <= |buf|
      invariant TrimEnd(buf, from) == TrimEnd(buf, idx)
    {
      idx := idx - 1;
    }
    hold := if idx < |buf| then Some(idx) else None;
  }

  class ControlMarkerStreamFilter {
    var buf: string

    constructor ()
      ensures buf == ""
    {
      buf := "";
    }

    method Feed(piece: string) returns (out: string)
      modifies this
      ensures (out, buf) == FeedSpec(old(buf), piece)
    {
      if piece == "" {
        return "";
      }
      buf := buf + piece;
      var hold := HoldIndex(buf);
      if hold.None? {
        assert buf[..|buf|] == buf && buf[|buf|..] == "";
        out, buf := buf, "";
        return;
      }
      out, buf := buf[..hold.value], buf[hold.value..];
    }

    method Finish() returns (out: string)
      modifies this
      ensures out == FinishSpec(old(buf)) && buf == ""
    {
      var rest := buf;
      buf := "";
      if rest == "" {
        return "";
      }
      var display, _ := ParseTailBrace(rest);
      var brace := LastBrace(display, |display|);
      if brace.Some? {
        var open := SuffixIsOpenMarkerPrefix(display[brace.value..]);
        if open {
          return RStrip(display[..brace.value]);
        }
      }
      return display;
    }
  }

  /** A match holds one opening brace, its first character, so matches never overlap. */
  lemma OneBracePerMatch(t: string, i: nat)
    requires i < |t| && MatchAt(t, i).Some?
    ensures forall k | i < k < MatchAt(t, i).value.end :: t[k] != '{' && MatchAt(t, k).None?
  {
    var j := SkipSpaces(t, i + 1);
    var w := Spelling(MatchAt(t, i).value.word);
    forall k | i < k < MatchAt(t, i).value.end
      ensures t[k] != '{'
    {
      if j <= k < j + |w| {
        assert Lower(t[j..j + |w|][k - j]) == w[k - j];
      }
    }
  }

  lemma {:induction false} LastMatchSkips(t: string, a: nat, b: nat)
    requires a <= b <= |t|
    requires forall i | a <= i < b :: MatchAt(t, i).None?
    ensures LastMatch(t, b) == LastMatch(t, a)
    decreases b
  {
    hide MatchAt;
    if a < b {
      LastMatchSkips(t, a, b - 1);
    }
  }
}
