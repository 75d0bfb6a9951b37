/**
 * Whole-stream properties of the control-marker filter (core/control_markers.py): it agrees with
 * the batch parser for every chunking, never shows text it must take back, and never holds back
 * text it could show.
 */
module ControlMarkerStream {
  import opened Wrappers
  import opened Text
  import opened ControlMarkers

  // ---- Scans under truncation (`t[..n]`) and under dropping a prefix (`t[h..]`) ----

  lemma SkipTake(t: string, n: nat, i: nat)
    requires i <= n <= |t|
    ensures SkipSpaces(t[..n], i) == if SkipSpaces(t, i) < n then SkipSpaces(t, i) else n
  {
    hide *;
    var a, b := SkipSpaces(t[..n], i), SkipSpaces(t, i);
    assert a < n ==> t[..n][a] == t[a];
    assert b < n ==> t[..n][b] == t[b];
  }

  lemma SkipDrop(t: string, h: nat, i: nat)
    requires h + i <= |t|
    ensures SkipSpaces(t[h..], i) + h == SkipSpaces(t, h + i)
  {
    hide *;
    var a, b := SkipSpaces(t[h..], i), SkipSpaces(t, h + i);
    assert a + h < |t| ==> t[h..][a] == t[a + h];
    assert b < |t| ==> t[h..][b - h] == t[b];
  }

  lemma FindDrop(t: string, h: nat, i: nat, c: char)
    requires h + i <= |t|
    ensures Find(t[h..], i, c) + h == Find(t, h + i, c)
  {
    hide *;
    var a, b := Find(t[h..], i, c), Find(t, h + i, c);
    assert a + h < |t| ==> t[h..][a] == t[a + h];
    assert b < |t| ==> t[h..][b - h] == t[b];
  }

  lemma TrimMonotone(t: string, a: nat, b: nat)
    requires a <= b <= |t|
    ensures TrimEnd(t, a) <= TrimEnd(t, b)
  {
    hide *;
    var x := TrimEnd(t, a);
    assert x > 0 ==> !IsSpace(t[x - 1]);
  }

  lemma TrimTake(t: string, n: nat, i: nat)
    requires i <= n <= |t|
    ensures TrimEnd(t[..n], i) == TrimEnd(t, i)
  {
    var a, b := TrimEnd(t[..n], i), TrimEnd(t, i);
    hide *;
    assert a > 0 ==> t[..n][a - 1] == t[a - 1];
    assert b > 0 ==> t[..n][b - 1] == t[b - 1];
  }

  lemma TrimDrop(t: string, h: nat, i: nat)
    requires h + i <= |t|
    requires h > 0 ==> !IsSpace(t[h - 1])
    ensures TrimEnd(t[h..], i) + h == TrimEnd(t, h + i)
  {
    var a, b := TrimEnd(t[h..], i), TrimEnd(t, h + i);
    hide *;
    assert a > 0 ==> t[h..][a - 1] == t[h + a - 1];
    assert b > h ==> t[h..][b - h - 1] == t[b - 1];
  }

  lemma WordTake(t: string, n: nat, j: nat, w: string)
    requires j <= n <= |t| && j + |w| <= n
    ensures WordAt(t[..n], j, w) == WordAt(t, j, w)
  {
    assert t[..n][j..j + |w|] == t[j..j + |w|];
  }

  lemma WordDrop(t: string, h: nat, j: nat, w: string)
    requires h + j <= |t|
    ensures WordAt(t[h..], j, w) == WordAt(t, h + j, w)
    ensures WordAt(t, h + j, w) ==> h + j + |w| <= |t|
  {
    if h + j + |w| <= |t| {
      assert t[h..][j..j + |w|] == t[h + j..h + j + |w|];
    }
  }

  function Shift(m: Option<Match>, h: nat): Option<Match> {
    match m
    case None => None
    case Some(k) => Some(Match(k.start + h, k.end + h, k.word))
  }

  lemma MatchDrop(t: string, h: nat, i: nat)
    requires h + i <= |t|
    ensures Shift(MatchAt(t[h..], i), h) == MatchAt(t, h + i)
  {
    hide IsSpace, SkipSpaces, BeginsWord, IsColon, WordAt;
    if h + i < |t| && t[h + i] == '{' {
      SkipDrop(t, h, i + 1);
      var j := SkipSpaces(t[h..], i + 1);
      WordDrop(t, h, j, "true");
      WordDrop(t, h, j, "false");
      if WordAt(t, h + j, "true") {
        SkipDrop(t, h, j + 4);
      } else if WordAt(t, h + j, "false") {
        SkipDrop(t, h, j + 5);
      }
    }
  }

  lemma TailDrop(t: string, h: nat, m: Match)
    requires h + m.end <= |t|
    ensures IsTail(t[h..], m) == IsTail(t, Match(m.start + h, m.end + h, m.word))
  {
    hide IsSpace, SkipSpaces, Find;
    match m.word
    case WordFalse =>
      SkipDrop(t, h, m.end);
      var a := SkipSpaces(t[h..], m.end);
      SkipDrop(t, h, if a < |t[h..]| && t[h..][a] == '}' then a + 1 else a);
    case WordTrue =>
      FindDrop(t, h, m.end, '}');
      var close := Find(t[h..], m.end, '}');
      if close < |t[h..]| {
        SkipDrop(t, h, close + 1);
      }
  }

  lemma {:induction false} LastMatchDrop(t: string, h: nat, n: nat)
    requires h + n <= |t|
    ensures Shift(LastMatch(t[h..], n), h) ==
            var m := LastMatch(t, h + n); if m.Some? && m.value.start >= h then m else None
  {
    hide IsSpace, MatchAt;
    if n > 0 {
      MatchDrop(t, h, n - 1);
      LastMatchDrop(t, h, n - 1);
    }
  }

  lemma TailMatchDrop(t: string, h: nat)
    requires h <= |t|
    requires TailMatch(t).Some? ==> h <= TailMatch(t).value.start
    ensures Shift(TailMatch(t[h..]), h) == TailMatch(t)
  {
    hide IsSpace, MatchAt, LastMatch, IsTail;
    LastMatchDrop(t, h, |t| - h);
    var m := LastMatch(t[h..], |t| - h);
    if m.Some? {
      TailDrop(t, h, m.value);
    }
  }

  lemma {:induction false} LastBraceDrop(t: string, h: nat, n: nat)
    requires h + n <= |t|
    ensures var i, k := LastBrace(t[h..], n), LastBrace(t, h + n);
            if k.Some? && k.value >= h then i == Some(k.value - h) else i == None
  {
    if n > 0 {
      LastBraceDrop(t, h, n - 1);
    }
  }

  lemma DanglingDrop(t: string, h: nat)
    requires h <= |t|
    requires Dangling(t).Some? ==> h <= Dangling(t).value
    ensures Dangling(t[h..]) == match Dangling(t) case None => None case Some(i) => Some(i - h)
  {
    hide IsSpace, LastBrace, OpenPrefix;
    LastBraceDrop(t, h, |t| - h);
    var i := LastBrace(t[h..], |t| - h);
    if i.Some? {
      assert t[h..][i.value..] == t[h + i.value..];
    }
  }

  // ---- What a truncated text still reveals of a marker of the full text ----

  /** The index whose trailing spaces `Hold` drops. */
  function HoldPoint(t: string): (x: nat)
    ensures x <= |t|
    ensures Hold(t) == TrimEnd(t, x)
  {
    match TailMatch(t)
    case Some(m) => m.start
    case None =>
      match Dangling(t)
      case Some(i) => i
      case None => |t|
  }

  lemma MatchShape(t: string, i: nat)
    requires i < |t| && MatchAt(t, i).Some?
    ensures var m, j := MatchAt(t, i).value, SkipSpaces(t, i + 1);
            var k := j + |Spelling(m.word)|;
            t[i] == '{' && j < k <= |t| && WordAt(t, j, Spelling(m.word)) && m.end == MatchEnd(t, k)
  {
  }

  lemma MatchExists(t: string, i: nat, w: Word)
    requires i < |t| && t[i] == '{' && WordAt(t, SkipSpaces(t, i + 1), Spelling(w))
    ensures MatchAt(t, i).Some? && MatchAt(t, i).value.word == w
  {
    WordExclusive(t, SkipSpaces(t, i + 1));
  }

  lemma WordExclusive(t: string, j: nat)
    requires j <= |t|
    ensures !(WordAt(t, j, "true") && WordAt(t, j, "false"))
  {
    if WordAt(t, j, "true") {
      assert Lower(t[j..j + 4][0]) == 't';
      assert j + 5 <= |t| ==> t[j..j + 5][0] == t[j];
    }
  }

  lemma SpellingLength(w: Word)
    ensures 4 <= |Spelling(w)| <= 5
  {
  }

  /** A match, once complete, stays a match of every longer text. */
  lemma MatchTake(t: string, n: nat, i: nat)
    requires i < n <= |t| && MatchAt(t[..n], i).Some?
    ensures MatchAt(t, i).Some?
    ensures MatchAt(t, i).value.word == MatchAt(t[..n], i).value.word
    ensures SkipSpaces(t[..n], i + 1) == SkipSpaces(t, i + 1)
  {
    hide *;
    var w := MatchAt(t[..n], i).value.word;
    MatchShape(t[..n], i);
    SpellingLength(w);
    SkipTake(t, n, i + 1);
    WordTake(t, n, SkipSpaces(t[..n], i + 1), Spelling(w));
    MatchExists(t, i, w);
  }

  lemma OpenPrefixAt(t: string, i: nat, w: Word)
    requires i < |t| && t[i] == '{'
    requires var j := SkipSpaces(t, i + 1); j == |t| || BeginsWord(t[j..], Spelling(w))
    ensures OpenPrefix(t[i..])
  {
    hide IsSpace, SkipSpaces, BeginsWord;
    SkipDrop(t, i, 1);
    var j := SkipSpaces(t, i + 1);
    assert t[i..][j - i..] == t[j..];
  }

  lemma WordCut(t: string, n: nat, j: nat, w: string)
    requires j <= n <= |t| && n < j + |w| && WordAt(t, j, w)
    ensures BeginsWord(t[..n][j..], w)
  {
    forall k | 0 <= k < n - j
      ensures Lower(t[..n][j..][k]) == w[k]
    {
      assert t[j..j + |w|][k] == t[j + k];
    }
  }

  lemma IsLastBrace(t: string, i: nat)
    requires i < |t| && t[i] == '{' && forall k | i < k < |t| :: t[k] != '{'
    ensures LastBrace(t, |t|) == Some(i)
  {
  }

  /** A match of the full text is, in a truncation, complete or an open prefix at the last brace. */
  lemma MatchTruncated(t: string, n: nat, i: nat)
    requires i < n <= |t| && MatchAt(t, i).Some? && MatchAt(t[..n], i).None?
    ensures Dangling(t[..n]) == Some(i)
  {
    hide IsSpace, SkipSpaces, MatchAt, WordAt, BeginsWord, OpenPrefix, LastBrace;
    var u := t[..n];
    var w := MatchAt(t, i).value.word;
    var j := SkipSpaces(t, i + 1);
    MatchShape(t, i);
    SkipTake(t, n, i + 1);
    if j < n {
      if j + |Spelling(w)| <= n {
        WordTake(t, n, j, Spelling(w));
        MatchExists(u, i, w);
        assert false;
      }
      WordCut(t, n, j, Spelling(w));
    }
    OpenPrefixAt(u, i, w);
    OneBracePerMatch(t, i);
    IsLastBrace(u, i);
  }

  /** Cutting a text inside or after a match either keeps the match's end or leaves only spaces and a colon. */
  lemma MatchEndTake(t: string, n: nat, k: nat)
    requires k <= n <= |t|
    ensures var e, f := MatchEnd(t, k), MatchEnd(t[..n], k);
            f == (if e < n then e else n)
  {
    hide IsSpace, SkipSpaces;
    SkipTake(t, n, k);
    var e := SkipSpaces(t, k);
    assert e < n ==> t[..n][e] == t[e];
  }

  lemma FindTake(t: string, n: nat, i: nat, c: char)
    requires i <= n <= |t|
    ensures Find(t[..n], i, c) == if Find(t, i, c) < n then Find(t, i, c) else n
  {
    hide *;
    var a, b := Find(t[..n], i, c), Find(t, i, c);
    assert a < n ==> t[..n][a] == t[a];
    assert b < n ==> t[..n][b] == t[b];
  }

  lemma SkipAtEnd(t: string)
    ensures SkipSpaces(t, |t|) == |t|
  {
  }

  /** Cutting a text inside or after its tail match leaves that match a tail match. */
  lemma TailTruncated(t: string, n: nat, i: nat)
    requires i < n <= |t| && MatchAt(t[..n], i).Some? && MatchAt(t, i).Some?
    requires IsTail(t, MatchAt(t, i).value)
    ensures IsTail(t[..n], MatchAt(t[..n], i).value)
  {
    hide IsSpace, SkipSpaces, MatchAt, WordAt, BeginsWord, MatchEnd, Find;
    var u := t[..n];
    MatchTake(t, n, i);
    MatchShape(t, i);
    MatchShape(u, i);
    var m, v := MatchAt(t, i).value, MatchAt(u, i).value;
    MatchEndTake(t, n, SkipSpaces(t, i + 1) + |Spelling(m.word)|);
    if v.end == n {
      SkipAtEnd(u);
    } else {
      TailTake(t, n, m);
      assert IsTail(u, m) == IsTail(u, v);
    }
  }

  lemma TailTake(t: string, n: nat, m: Match)
    requires m.end <= n <= |t| && IsTail(t, m)
    ensures IsTail(t[..n], m)
  {
    hide IsSpace, SkipSpaces, Find;
    var u := t[..n];
    match m.word
    case WordTrue =>
      FindTake(t, n, m.end, '}');
      var d := Find(u, m.end, '}');
      if d < n {
        SkipTake(t, n, d + 1);
      }
    case WordFalse =>
      SkipTake(t, n, m.end);
      var a := SkipSpaces(t, m.end);
      SkipAtEnd(u);
      if a < n {
        SkipTake(t, n, if t[a] == '}' then a + 1 else a);
      }
  }

  lemma BeginsWordTake(s: string, n: nat)
    requires n <= |s|
    ensures forall w | BeginsWord(s, w) :: BeginsWord(s[..n], w)
  {
  }

  lemma DanglingTruncated(t: string, n: nat)
    requires n <= |t| && Dangling(t).Some? && Dangling(t).value < n
    ensures Dangling(t[..n]) == Dangling(t)
  {
    var i := Dangling(t).value;
    var u, s := t[..n][i..], t[i..];
    assert u == s[..n - i];
    SkipTake(s, n - i, 1);
    var j := SkipSpaces(s, 1);
    if j < |u| {
      assert u[j..] == s[j..][..|u| - j];
      BeginsWordTake(s[j..], |u| - j);
    }
    hide BeginsWord, SkipSpaces;
    assert OpenPrefix(u);
    hide OpenPrefix;
    assert LastBrace(t[..n], n) == Some(i);
  }

  /** The tail match of a full text, cut at `n`, is the tail match or the dangling brace of the cut. */
  lemma TailMatchTruncated(t: string, n: nat)
    requires n <= |t| && TailMatch(t).Some? && TailMatch(t).value.start < n
    ensures HoldPoint(t[..n]) <= TailMatch(t).value.start
  {
    hide IsSpace, MatchAt, LastMatch, IsTail, LastBrace, OpenPrefix, TrimEnd;
    var u, s := t[..n], TailMatch(t).value.start;
    if MatchAt(u, s).None? {
      MatchTruncated(t, n, s);
      assert TailMatch(u).Some? ==> u[TailMatch(u).value.start] == '{' by {
        if TailMatch(u).Some? { MatchShape(u, TailMatch(u).value.start); }
      }
    } else {
      TailTruncated(t, n, s);
      var m := LastMatch(u, n);
      MatchTake(t, n, m.value.start);
      assert m.value.start == s;
    }
  }

  /** A text never has to hold earlier than its truncations did. */
  lemma HoldMonotone(t: string, n: nat)
    requires n <= |t|
    ensures Hold(t[..n]) <= Hold(t)
  {
    hide IsSpace, TailMatch, Dangling, TrimEnd, Hold;
    var u, s := t[..n], HoldPoint(t);
    TrimTake(t, n, HoldPoint(u));
    if s < n {
      if TailMatch(t).Some? {
        TailMatchTruncated(t, n);
      } else {
        DanglingTruncated(t, n);
        assert TailMatch(u).Some? ==> TailMatch(u).value.start <= s by {
          if TailMatch(u).Some? { MatchShape(u, TailMatch(u).value.start); DanglingIsLast(u); }
        }
      }
    }
    TrimMonotone(t, HoldPoint(u), s);
  }

  lemma DanglingIsLast(t: string)
    requires Dangling(t).Some?
    ensures forall k | 0 <= k < |t| && t[k] == '{' :: k <= Dangling(t).value
  {
    hide IsSpace, OpenPrefix, LastBrace;
  }

  /** Dropping text that was already released moves the hold point by exactly that much. */
  lemma HoldDrop(t: string, h: nat)
    requires h <= Hold(t) && (h > 0 ==> !IsSpace(t[h - 1]))
    ensures Hold(t[h..]) == Hold(t) - h
    ensures Shift(TailMatch(t[h..]), h) == TailMatch(t)
    ensures TailMatch(t).None? ==>
              Dangling(t[h..]) == match Dangling(t) case None => None case Some(i) => Some(i - h)
  {
    TailMatchDrop(t, h);
    if TailMatch(t).None? {
      DanglingDrop(t, h);
    }
    TrimDrop(t, h, HoldPoint(t) - h);
  }

  // ---- Whole streams ----

  function Concat(pieces: seq<string>): string {
    if pieces == [] then "" else Concat(pieces[..|pieces| - 1]) + pieces[|pieces| - 1]
  }

  /** What `feed` has returned so far, and the buffer, after feeding the pieces to a new filter. */
  function Run(pieces: seq<string>): (string, string) {
    if pieces == [] then ("", "")
    else
      var (shown, buf) := Run(pieces[..|pieces| - 1]);
      var (out, rest) := FeedSpec(buf, pieces[|pieces| - 1]);
      (shown + out, rest)
  }

  /** Everything a stream shows: all `feed` results and then `finish`. */
  function StreamOutput(pieces: seq<string>): string {
    Run(pieces).0 + FinishSpec(Run(pieces).1)
  }

  lemma Slices(u: string, h: nat, k: nat)
    requires h <= k <= |u|
    ensures u[h..][..k - h] == u[h..k] && u[h..][k - h..] == u[k..] && u[..h] + u[h..k] == u[..k]
  {
  }

  /** One `feed` moves the split from the old text's hold point to the new text's. */
  lemma FeedMovesSplit(t: string, p: string)
    ensures var u := t + p;
            Hold(t) <= Hold(u) && FeedSpec(t[Hold(t)..], p) == (u[Hold(t)..Hold(u)], u[Hold(u)..])
  {
    hide IsSpace, Hold, TailMatch, Dangling, Shift;
    var u, h := t + p, Hold(t);
    assert u[..|t|] == t;
    HoldMonotone(u, |t|);
    if p == "" {
      assert u == t && u[h..h] == "";
    } else {
      assert h > 0 ==> u[h - 1] == t[h - 1];
      HoldDrop(u, h);
      assert t[h..] + p == u[h..];
      Slices(u, h, Hold(u));
    }
  }

  /** After any pieces, exactly the text before the hold point has been shown. */
  lemma {:induction false} RunSplitsAtHold(pieces: seq<string>)
    ensures var t := Concat(pieces); Run(pieces) == (t[..Hold(t)], t[Hold(t)..])
  {
    hide IsSpace, Hold, FeedSpec;
    if pieces != [] {
      var front, p := pieces[..|pieces| - 1], pieces[|pieces| - 1];
      RunSplitsAtHold(front);
      var t := Concat(front);
      var u := t + p;
      FeedMovesSplit(t, p);
      assert t[..Hold(t)] == u[..Hold(t)];
      Slices(u, Hold(t), Hold(u));
    }
  }

  lemma BlankPrefix(t: string, n: nat)
    requires n <= |t| && TrimEnd(t, n) == 0
    ensures RStrip(t[..n]) == ""
  {
    hide IsSpace, TrimEnd;
    TrimTake(t, n, n);
  }

  lemma StripCut(t: string, n: nat)
    requires n <= |t|
    ensures RStrip(t[..n]) == t[..TrimEnd(t, n)]
  {
    hide IsSpace, TrimEnd;
    TrimTake(t, n, n);
  }

  lemma FinishCompletes(t: string)
    ensures t[..Hold(t)] + FinishSpec(t[Hold(t)..]) == Final(t)
  {
    hide IsSpace, TailMatch, Dangling, TrimEnd, RStrip;
    var h := Hold(t);
    var buf := t[h..];
    HoldDrop(t, h);
    StripCut(t, HoldPoint(t));
    TrimDrop(t, h, HoldPoint(t) - h);
    if TailMatch(t).Some? || Dangling(t).Some? {
      BlankPrefix(buf, HoldPoint(t) - h);
      assert FinishSpec(buf) == "";
    } else {
      assert t[..h] + t[h..] == t;
    }
  }

  /** For every text and every way of cutting it, the stream shows the same string. */
  lemma ChunkingIsInvisible(pieces: seq<string>)
    ensures StreamOutput(pieces) == Final(Concat(pieces))
  {
    RunSplitsAtHold(pieces);
    FinishCompletes(Concat(pieces));
  }

  /** The stream agrees with the batch stripper exactly when no unspelt marker dangles at the end. */
  lemma StreamMeetsBatch(pieces: seq<string>)
    ensures var t := Concat(pieces);
            StreamOutput(pieces) == StripControlMarkers(t) <==> TailMatch(t).Some? || Dangling(t).None?
  {
    ChunkingIsInvisible(pieces);
  }

  /** A lone opening brace: the stream drops it, the batch stripper keeps it. */
  lemma LoneBraceDiffers()
    ensures StreamOutput(["{"]) == "" && StripControlMarkers("{") == "{"
  {
    assert ["{"][..0] == [] && Concat(["{"]) == "{";
    ChunkingIsInvisible(["{"]);
    assert SkipSpaces("{", 1) == 1 && LastMatch("{", 0).None? && MatchAt("{", 0).None?;
    assert LastMatch("{", 1).None? && TailMatch("{").None?;
    assert "{"[0..] == "{" && LastBrace("{", 1) == Some(0) && Dangling("{") == Some(0);
    assert RStrip("") == "";
  }

  /** Nothing shown is ever taken back, whatever text follows. */
  lemma NeverRetracts(pieces: seq<string>, rest: string)
    ensures Run(pieces).0 <= Final(Concat(pieces) + rest)
  {
    hide IsSpace, Hold, Final, FinishSpec, Run, Concat;
    RunSplitsAtHold(pieces);
    var t := Concat(pieces);
    var u := t + rest;
    assert u[..|t|] == t;
    HoldMonotone(u, |t|);
    FinishCompletes(u);
    assert t[..Hold(t)] == u[..Hold(u)][..Hold(t)];
  }

  /** Some continuation ends the stream with nothing beyond what was already shown. */
  lemma NeverOverHolds(pieces: seq<string>) returns (rest: string)
    ensures Final(Concat(pieces) + rest) == Run(pieces).0
  {
    RunSplitsAtHold(pieces);
    var t := Concat(pieces);
    if TailMatch(t).Some? || Dangling(t).Some? {
      rest := "";
      assert t + rest == t;
      TrimTake(t, HoldPoint(t), HoldPoint(t));
    } else {
      rest := "{false}";
      var u := t + rest;
      FalseMarkerIsTail(t);
      assert u[..|t|] == t;
    }
  }

  /** A tail match of a suffix is a tail match of the text. */
  lemma TailMatchExtends(d: string, v: string)
    requires TailMatch(v).Some?
    ensures TailMatch(d + v) == Shift(TailMatch(v), |d|)
  {
    hide IsSpace, MatchAt, LastMatch, IsTail;
    assert (d + v)[|d|..] == v;
    LastMatchDrop(d + v, |d|, |v|);
    TailDrop(d + v, |d|, TailMatch(v).value);
  }

  lemma FalseMarkerMatches()
    ensures MatchAt("{false}", 0) == Some(Match(0, 6, WordFalse)) && IsTail("{false}", Match(0, 6, WordFalse))
    ensures forall i | 1 <= i < 7 :: MatchAt("{false}", i).None?
  {
    var v := "{false}";
    assert SkipSpaces(v, 1) == 1 && SkipSpaces(v, 6) == 6 && SkipSpaces(v, 7) == 7;
    assert v[1..5][0] == 'f' && v[1..6] == "false";
  }

  lemma FalseMarkerIsTail(t: string)
    ensures TailMatch(t + "{false}") == Some(Match(|t|, |t| + 6, WordFalse))
  {
    hide MatchAt, IsTail;
    var v := "{false}";
    FalseMarkerMatches();
    LastMatchSkips(v, 1, 7);
    assert LastMatch(v, 1) == MatchAt(v, 0);
    hide LastMatch;
    assert TailMatch(v) == Some(Match(0, 6, WordFalse));
    hide TailMatch;
    TailMatchExtends(t, v);
  }

  /**
   * What has been shown is the longest prefix shared by the final outputs of all continuations:
   * it is one of their prefixes, and no longer text is.
   */
  lemma ShownIsLongestSharedPrefix(pieces: seq<string>, candidate: string)
    ensures forall rest :: Run(pieces).0 <= Final(Concat(pieces) + rest)
    ensures (forall rest :: candidate <= Final(Concat(pieces) + rest)) ==> candidate <= Run(pieces).0
  {
    forall rest
      ensures Run(pieces).0 <= Final(Concat(pieces) + rest)
    {
      NeverRetracts(pieces, rest);
    }
    var least := NeverOverHolds(pieces);
    assert Final(Concat(pieces) + least) == Run(pieces).0;
  }

  // ---- The batch parser recovers what a marker was built from ----

  lemma SkipIs(t: string, i: nat, j: nat)
    requires i <= j <= |t| && (forall k | i <= k < j :: IsSpace(t[k])) && (j < |t| ==> !IsSpace(t[j]))
    ensures SkipSpaces(t, i) == j
  {
    hide *;
    var a := SkipSpaces(t, i);
    assert a < |t| ==> !IsSpace(t[a]);
  }

  lemma TrimIs(t: string, n: nat, j: nat)
    requires j <= n <= |t| && (forall k | j <= k < n :: IsSpace(t[k])) && (j > 0 ==> !IsSpace(t[j - 1]))
    ensures TrimEnd(t, n) == j
  {
    hide *;
    var a := TrimEnd(t, n);
    assert a > 0 ==> !IsSpace(t[a - 1]);
  }

  lemma NoSpaces()
    ensures !IsSpace('}') && !IsSpace('{') && !IsSpace(':') && !IsSpace('t') && !IsSpace('T')
  {
  }

  /** A marker laid out as brace, spaces, word, spaces, colon, intent, brace, spaces matches at its start. */
  lemma MarkerLayoutMatches(v: string, j: nat, e: nat)
    requires 1 <= j && j + 4 <= e < |v| && v[0] == '{' && v[e] == ':'
    requires forall k | 1 <= k < j || j + 4 <= k < e :: IsSpace(v[k])
    requires BeginsWord(v[j..j + 4], "true")
    ensures MatchAt(v, 0) == Some(Match(0, e + 1, WordTrue))
  {
    hide IsSpace, SkipSpaces;
    NoSpaces();
    assert Lower(v[j..j + 4][0]) == 't';
    SkipIs(v, 1, j);
    SkipIs(v, j + 4, e);
  }

  lemma MarkerLayoutIsTail(v: string, m: Match, c: nat)
    requires MatchAt(v, 0) == Some(m) && m.word == WordTrue
    requires m.end <= c < |v| && v[c] == '}'
    requires forall k | m.end <= k < c :: v[k] != '{' && v[k] != '}'
    requires forall k | c < k < |v| :: IsSpace(v[k])
    ensures TailMatch(v) == Some(m) && Find(v, m.end, '}') == c
  {
    hide IsSpace, SkipSpaces, WordAt, MatchEnd;
    NoSpaces();
    SkipIs(v, c + 1, |v|);
    OneBracePerMatch(v, 0);
    LastMatchSkips(v, 1, |v|);
    assert LastMatch(v, 1) == Some(m);
    var f := Find(v, m.end, '}');
    assert f < |v| ==> v[f] == '}';
  }

  lemma MarkerText(w1: string, kw: string, w2: string, intent: string, trail: string)
    requires AllSpaces(w1) && AllSpaces(w2) && AllSpaces(trail)
    requires |kw| == 4 && BeginsWord(kw, "true")
    requires '{' !in intent && '}' !in intent
    ensures var v := "{" + w1 + kw + w2 + ":" + intent + "}" + trail;
            var e, c := 6 + |w1| + |w2|, 6 + |w1| + |w2| + |intent|;
            TailMatch(v) == Some(Match(0, e, WordTrue)) && Find(v, e, '}') == c && v[e..c] == intent
  {
    hide IsSpace, SkipSpaces, TailMatch, Find, BeginsWord, MatchAt;
    var v := "{" + w1 + kw + w2 + ":" + intent + "}" + trail;
    var j := 1 + |w1|;
    var e := j + 4 + |w2|;
    var c := e + 1 + |intent|;
    assert v[1..j] == w1 && v[j..j + 4] == kw && v[j + 4..e] == w2 && v[e + 1..c] == intent && v[c + 1..] == trail;
    assert forall k | 1 <= k < j :: v[k] == w1[k - 1];
    assert forall k | j + 4 <= k < e :: v[k] == w2[k - j - 4];
    assert forall k | c < k < |v| :: v[k] == trail[k - c - 1];
    assert forall k | e + 1 <= k < c :: v[k] == intent[k - e - 1];
    MarkerLayoutMatches(v, j, e);
    MarkerLayoutIsTail(v, Match(0, e + 1, WordTrue), c);
  }

  /**
   * A `true` marker written after any display text, with any spelling and spacing, parses back to
   * that text and its intent.
   */
  lemma TrueMarkerRoundTrip(d: string, sp: string, w1: string, kw: string, w2: string, intent: string, trail: string)
    requires |d| > 0 ==> !IsSpace(d[|d| - 1])
    requires AllSpaces(sp) && AllSpaces(w1) && AllSpaces(w2) && AllSpaces(trail)
    requires |kw| == 4 && BeginsWord(kw, "true")
    requires '{' !in intent && '}' !in intent
    ensures Parse((d + sp) + ("{" + w1 + kw + w2 + ":" + intent + "}" + trail)) ==
            (d, if Strip(intent) == "" then None else Some(Strip(intent)))
  {
    hide IsSpace, SkipSpaces, TrimEnd, TailMatch, Find, Strip, BeginsWord;
    var v := "{" + w1 + kw + w2 + ":" + intent + "}" + trail;
    MarkerText(w1, kw, w2, intent, trail);
    ParseAfterPrefix(d + sp, v);
    TrimPadding(d, sp);
  }

  lemma TrimPadding(d: string, sp: string)
    requires AllSpaces(sp) && (|d| > 0 ==> !IsSpace(d[|d| - 1]))
    ensures RStrip(d + sp) == d
  {
    hide IsSpace, TrimEnd;
    assert forall k | |d| <= k < |d + sp| :: (d + sp)[k] == sp[k - |d|];
    TrimIs(d + sp, |d| + |sp|, |d|);
    assert (d + sp)[..|d|] == d;
  }

  lemma SliceAfter(d: string, v: string, a: nat, b: nat)
    requires a <= b <= |v|
    ensures (d + v)[|d| + a..|d| + b] == v[a..b]
  {
  }

  /** Text before a marker becomes the display text and does not touch the intent. */
  lemma ParseAfterPrefix(d: string, v: string)
    requires TailMatch(v).Some? && TailMatch(v).value.start == 0 && TailMatch(v).value.word == WordTrue
    ensures var intent := Strip(v[TailMatch(v).value.end..Find(v, TailMatch(v).value.end, '}')]);
            Parse(d + v) == (RStrip(d), if intent == "" then None else Some(intent))
  {
    hide IsSpace, TailMatch, Find, Strip, RStrip, OpenPrefix;
    var m, t := TailMatch(v).value, d + v;
    assert |t| == |d| + |v|;
    TailMatchExtends(d, v);
    assert t[|d|..] == v && t[..|d|] == d;
    FindDrop(t, |d|, m.end, '}');
    SliceAfter(d, v, m.end, Find(v, m.end, '}'));
  }
}
