/**
 * What control markers look like (core/control_markers.py), stated on the characters of the text and
 * not through the parser: which endings of a text are markers, which are markers still being spelt,
 * and what the batch parser and the streaming filter make of each.
 */
module ControlMarkerGrammar {
  import opened Wrappers
  import opened Text
  import opened ControlMarkers
  import opened ControlMarkerStream

  ghost predicate SpellsWord(s: string, w: Word) {
    match w
    case WordTrue => Spells(s, "true")
    case WordFalse => Spells(s, "false")
  }

  /** `s` without its spaces. */
  function Dense(s: string): string {
    if s == "" then "" else (if IsSpace(s[0]) then "" else [s[0]]) + Dense(s[1..])
  }

  /** What may stand, without spaces, behind `false`. */
  ghost predicate FalseEnd(x: string) {
    x in {"", "}", ":", ":}", "\U{FF1A}", "\U{FF1A}}"}
  }

  /**
   * What may follow the word of a marker: behind `false` at most a colon and a closing brace, among
   * spaces; behind `true` anything, but only spaces behind the first closing brace.
   */
  ghost predicate Closes(w: Word, r: string) {
    match w
    case WordFalse => FalseEnd(Dense(r))
    case WordTrue => forall i, j | 0 <= i < j < |r| && r[i] == '}' :: IsSpace(r[j])
  }

  /** A brace, spaces, a word, and `r` behind it. */
  ghost predicate OpensWith(v: string, w: Word, w1: string, kw: string, r: string) {
    v == "{" + w1 + kw + r && AllSpaces(w1) && SpellsWord(kw, w)
  }

  ghost predicate Opening(v: string) {
    exists w, w1, kw, r :: OpensWith(v, w, w1, kw, r)
  }

  /** A marker that ends its text: no other opening behind its own. */
  ghost predicate Marker(v: string) {
    && (exists w, w1, kw, r :: OpensWith(v, w, w1, kw, r) && Closes(w, r))
    && forall j | 0 < j < |v| :: !Opening(v[j..])
  }

  /** A marker whose word is still being spelt. */
  ghost predicate Unspelt(v: string) {
    exists w1, p :: UnspeltParts(v, w1, p)
  }

  ghost predicate UnspeltParts(v: string, w1: string, p: string) {
    v == "{" + w1 + p && AllSpaces(w1)
    && ((|p| <= 4 && Spells(p, "true"[..|p|])) || (|p| <= 5 && Spells(p, "false"[..|p|])))
  }

  // ---- Openings are the matches of the pattern ----

  lemma SpellsBegins(s: string, w: string)
    requires w == "true" || w == "false"
    ensures |s| <= |w| ==> (Spells(s, w[..|s|]) <==> BeginsWord(s, w))
  {
    assert forall k | 0 <= k < |w| :: 'a' <= w[k] <= 'z';
  }

  lemma WordIsNoSpace(kw: string, w: Word)
    requires SpellsWord(kw, w)
    ensures |kw| == |Spelling(w)| >= 4 && BeginsWord(kw, Spelling(w)) && !IsSpace(kw[0]) && kw[0] != '{'
  {
    SpellsBegins(kw, Spelling(w));
    assert Spelling(w)[..|Spelling(w)|] == Spelling(w);
  }

  /** An opening is a match, and fixes where its word and what follows begin. */
  lemma OpeningMatches(v: string, w: Word, w1: string, kw: string, r: string)
    requires OpensWith(v, w, w1, kw, r)
    ensures SkipSpaces(v, 1) == 1 + |w1| && v[1 + |w1| + |kw|..] == r
    ensures MatchAt(v, 0) == Some(Match(0, MatchEnd(v, 1 + |w1| + |kw|), w))
  {
    hide IsSpace, SkipSpaces, MatchEnd, BeginsWord, Spells;
    WordIsNoSpace(kw, w);
    var j := 1 + |w1|;
    assert forall k | 1 <= k < j :: v[k] == w1[k - 1];
    assert v[j] == kw[0] && v[j..j + |kw|] == kw;
    SkipIs(v, 1, j);
    WordExclusive(v, j);
    assert WordAt(v, j, Spelling(w));
  }

  lemma MatchOpens(v: string)
    requires v != "" && MatchAt(v, 0).Some?
    ensures var m, j := MatchAt(v, 0).value, SkipSpaces(v, 1);
            var k := j + |Spelling(m.word)|;
            k <= |v| && OpensWith(v, m.word, v[1..j], v[j..k], v[k..]) && m.end == MatchEnd(v, k)
  {
    hide SkipSpaces, MatchEnd, IsSpace, BeginsWord;
    MatchShape(v, 0);
    var m, j := MatchAt(v, 0).value, SkipSpaces(v, 1);
    var k := j + |Spelling(m.word)|;
    assert v == "{" + v[1..j] + v[j..k] + v[k..];
    assert forall i | 0 <= i < |v[1..j]| :: v[1..j][i] == v[1 + i];
    SpellsBegins(v[j..k], Spelling(m.word));
    assert Spelling(m.word)[..|Spelling(m.word)|] == Spelling(m.word);
  }

  lemma OpeningIsMatch(v: string)
    requires v != ""
    ensures Opening(v) <==> MatchAt(v, 0).Some?
  {
    hide MatchAt, OpensWith, MatchEnd, SkipSpaces;
    if MatchAt(v, 0).Some? {
      MatchOpens(v);
    }
    if w, w1, kw, r :| OpensWith(v, w, w1, kw, r) {
      OpeningMatches(v, w, w1, kw, r);
    }
  }

  lemma OpeningIff(t: string, i: nat)
    requires i < |t|
    ensures Opening(t[i..]) <==> MatchAt(t, i).Some?
  {
    hide MatchAt, Opening;
    MatchDrop(t, i, 0);
    OpeningIsMatch(t[i..]);
  }

  // ---- Closings are the tail test ----

  lemma {:induction false} DenseBlank(s: string)
    ensures Dense(s) == "" <==> AllSpaces(s)
  {
    if s != "" {
      DenseBlank(s[1..]);
      assert forall k | 1 <= k < |s| :: s[k] == s[1..][k - 1];
    }
  }

  lemma {:induction false} DenseSkip(s: string, i: nat)
    requires i <= |s|
    ensures Dense(s[i..]) == Dense(s[SkipSpaces(s, i)..])
    decreases |s| - i
  {
    if i < |s| && IsSpace(s[i]) {
      DenseSkip(s, i + 1);
      assert s[i..][1..] == s[i + 1..];
    }
  }

  lemma DenseHead(s: string, i: nat)
    requires i < |s| && !IsSpace(s[i])
    ensures Dense(s[i..]) == [s[i]] + Dense(s[i + 1..])
  {
    assert s[i..][1..] == s[i + 1..];
  }

  lemma SkipToEnd(s: string, i: nat)
    requires i <= |s|
    ensures SkipSpaces(s, i) == |s| <==> Dense(s[i..]) == ""
  {
    hide IsSpace;
    var j := SkipSpaces(s, i);
    DenseSkip(s, i);
    if j < |s| {
      DenseHead(s, j);
    }
  }

  /** The tail test of `false` leaves nothing, or a brace, behind the match. */
  lemma FalseTailDense(v: string, e: nat)
    requires e <= |v|
    ensures IsTail(v, Match(0, e, WordFalse)) <==> Dense(v[e..]) == "" || Dense(v[e..]) == "}"
  {
    hide IsSpace, SkipSpaces, Dense;
    NoSpaces();
    var a := SkipSpaces(v, e);
    DenseSkip(v, e);
    SkipToEnd(v, a);
    if a < |v| {
      DenseHead(v, a);
      SkipToEnd(v, a + 1);
      var rest := Dense(v[a + 1..]);
      assert [v[a]] + rest == "}" <==> v[a] == '}' && rest == "" by { OneChar(v[a], rest); }
      SkipNothing(v, a);
    }
  }

  lemma OneChar(c: char, rest: string)
    ensures [c] + rest == "}" <==> c == '}' && rest == ""
  {
    if [c] + rest == "}" {
      assert ([c] + rest)[0] == c && |[c] + rest| == 1 + |rest|;
    }
  }

  lemma SkipNothing(v: string, a: nat)
    requires a < |v| && !IsSpace(v[a])
    ensures SkipSpaces(v, a) == a
  {
  }

  /** Spaces and the optional colon behind the word, seen without spaces. */
  lemma MatchEndDense(v: string, k: nat)
    requires k <= |v|
    ensures var e, rest := MatchEnd(v, k), Dense(v[MatchEnd(v, k)..]);
            || (Dense(v[k..]) == rest && (rest == "" || !IsColon(rest[0])))
            || (e > 0 && IsColon(v[e - 1]) && Dense(v[k..]) == [v[e - 1]] + rest)
  {
    hide SkipSpaces, Dense, IsColon;
    var a := SkipSpaces(v, k);
    DenseSkip(v, k);
    SkipToEnd(v, a);
    if a < |v| {
      DenseHead(v, a);
    }
  }

  lemma FalseClosesIff(v: string, k: nat)
    requires k <= |v|
    ensures IsTail(v, Match(0, MatchEnd(v, k), WordFalse)) <==> Closes(WordFalse, v[k..])
  {
    hide SkipSpaces, Dense, IsSpace, IsTail, MatchEnd, IsColon, FalseEnd;
    FalseTailDense(v, MatchEnd(v, k));
    MatchEndDense(v, k);
    var rest := Dense(v[MatchEnd(v, k)..]);
    var e := MatchEnd(v, k);
    if e > 0 && IsColon(v[e - 1]) && Dense(v[k..]) == [v[e - 1]] + rest {
      AfterColon(v[e - 1], rest);
    } else {
      WithoutColon(rest);
    }
  }

  lemma AfterColon(c: char, rest: string)
    requires IsColon(c)
    ensures FalseEnd([c] + rest) <==> rest == "" || rest == "}"
  {
    var x := [c] + rest;
    assert x[0] == c && x[1..] == rest;
    assert ":}"[1..] == "}" && "\U{FF1A}}"[1..] == "}" && ":"[1..] == "" && "\U{FF1A}"[1..] == "";
    if rest == "}" {
      assert x == ":}" || x == "\U{FF1A}}";
    }
    if rest == "" {
      assert x == ":" || x == "\U{FF1A}";
    }
    assert "}"[0] != c;
  }

  lemma WithoutColon(rest: string)
    requires rest == "" || !IsColon(rest[0])
    ensures FalseEnd(rest) <==> rest == "" || rest == "}"
  {
    assert ":}"[0] == ':' && "\U{FF1A}}"[0] == '\U{FF1A}' && ":"[0] == ':' && "\U{FF1A}"[0] == '\U{FF1A}';
  }

  lemma TrueClosesIff(v: string, k: nat)
    requires k <= |v|
    ensures IsTail(v, Match(0, MatchEnd(v, k), WordTrue)) <==> Closes(WordTrue, v[k..])
  {
    hide SkipSpaces, IsSpace, Find;
    NoSpaces();
    var e, r := MatchEnd(v, k), v[k..];
    var close := Find(v, e, '}');
    assert forall i | k <= i < close :: v[i] != '}' by { NoBraceBeforeEnd(v, k); }
    assert forall i | 0 <= i < |r| :: r[i] == v[k + i];
    if close < |v| {
      var s := SkipSpaces(v, close + 1);
      if s < |v| {
        assert r[close - k] == '}' && !IsSpace(r[s - k]);
      }
    }
  }

  lemma NoBraceBeforeEnd(v: string, k: nat)
    requires k <= |v|
    ensures forall i | k <= i < MatchEnd(v, k) :: v[i] != '}'
  {
    hide SkipSpaces;
    NoSpaces();
  }

  // ---- Markers are the tail matches ----

  lemma MarkerIsTail(v: string)
    requires Marker(v)
    ensures TailMatch(v).Some? && TailMatch(v).value.start == 0
  {
    hide MatchAt, IsTail, Closes, Opening;
    var w, w1, kw, r :| OpensWith(v, w, w1, kw, r) && Closes(w, r);
    OpeningMatches(v, w, w1, kw, r);
    forall i | 1 <= i < |v| ensures MatchAt(v, i).None? { OpeningIff(v, i); }
    LastMatchSkips(v, 1, |v|);
    assert LastMatch(v, 1) == MatchAt(v, 0);
    match w
    case WordFalse => FalseClosesIff(v, 1 + |w1| + |kw|);
    case WordTrue => TrueClosesIff(v, 1 + |w1| + |kw|);
  }

  lemma TailIsMarker(v: string)
    requires TailMatch(v).Some? && TailMatch(v).value.start == 0
    ensures Marker(v)
  {
    hide MatchAt, IsTail, Closes, Opening, OpensWith;
    var m := TailMatch(v).value;
    MatchOpens(v);
    forall j | 0 < j < |v| ensures !Opening(v[j..]) { OpeningIff(v, j); }
    var k := SkipSpaces(v, 1) + |Spelling(m.word)|;
    match m.word
    case WordFalse => FalseClosesIff(v, k);
    case WordTrue => TrueClosesIff(v, k);
  }

  /** A text has a tail match exactly where an ending of it is a marker. */
  lemma MarkerIff(t: string, i: nat)
    requires i < |t|
    ensures Marker(t[i..]) <==> TailMatch(t).Some? && TailMatch(t).value.start == i
  {
    hide Marker, TailMatch;
    var v := t[i..];
    assert t[..i] + v == t;
    if Marker(v) {
      MarkerIsTail(v);
      TailMatchExtends(t[..i], v);
    }
    if TailMatch(t).Some? && TailMatch(t).value.start == i {
      TailMatchDrop(t, i);
      TailIsMarker(v);
    }
  }

  // ---- Unspelt markers are the open prefixes ----

  lemma UnspeltIff(v: string)
    ensures Unspelt(v) <==> OpenPrefix(v)
  {
    hide IsSpace, SkipSpaces, BeginsWord, Spells;
    if OpenPrefix(v) {
      var j := SkipSpaces(v, 1);
      var w1, p := v[1..j], v[j..];
      assert v == "{" + w1 + p;
      assert forall i | 0 <= i < |w1| :: w1[i] == v[1 + i];
      SpellsBegins(p, "true");
      SpellsBegins(p, "false");
      EmptyBegins();
      BeginsShort(p);
      assert UnspeltParts(v, w1, p);
    }
    if w1, p :| UnspeltParts(v, w1, p) {
      SpellsBegins(p, "true");
      SpellsBegins(p, "false");
      assert forall k | 1 <= k < 1 + |w1| :: v[k] == w1[k - 1];
      if p != "" {
        NoSpaceBegins(p);
        assert v[1 + |w1|] == p[0];
      }
      SkipIs(v, 1, 1 + |w1|);
      assert v[1 + |w1|..] == p;
    }
  }

  lemma EmptyBegins()
    ensures BeginsWord("", "true")
  {
  }

  lemma BeginsShort(p: string)
    ensures (BeginsWord(p, "true") ==> |p| <= 4) && (BeginsWord(p, "false") ==> |p| <= 5)
  {
  }

  lemma NoSpaceBegins(p: string)
    requires p != "" && (BeginsWord(p, "true") || BeginsWord(p, "false"))
    ensures !IsSpace(p[0])
  {
    assert Lower(p[0]) == 't' || Lower(p[0]) == 'f';
  }

  /** An unspelt marker holds no other brace. */
  lemma UnspeltHasOneBrace(v: string)
    requires OpenPrefix(v)
    ensures forall k | 1 <= k < |v| :: v[k] != '{'
  {
    var j := SkipSpaces(v, 1);
    if j < |v| {
      var w := if BeginsWord(v[j..], "true") then "true" else "false";
      assert BeginsWord(v[j..], w);
      forall k | j <= k < |v| ensures v[k] != '{' { assert Lower(v[j..][k - j]) == w[k - j]; }
    }
  }

  lemma DanglingIff(t: string, i: nat)
    requires i < |t|
    ensures Unspelt(t[i..]) <==> Dangling(t) == Some(i)
  {
    hide OpenPrefix, Unspelt;
    UnspeltIff(t[i..]);
    if OpenPrefix(t[i..]) {
      UnspeltHasOneBrace(t[i..]);
      assert forall k | i < k < |t| :: t[k] == t[i..][k - i];
      OpenStarts(t[i..]);
      IsLastBrace(t, i);
    }
  }

  lemma OpenStarts(v: string)
    requires OpenPrefix(v)
    ensures v != "" && v[0] == '{'
  {
  }

  // ---- What becomes of a text ----

  /** No ending of `t` is a marker. */
  ghost predicate NoMarker(t: string) {
    forall i | 0 <= i < |t| :: !Marker(t[i..])
  }

  /** No ending of `t` is a marker still being spelt. */
  ghost predicate NothingUnspelt(t: string) {
    forall i | 0 <= i < |t| :: !Unspelt(t[i..])
  }

  lemma NoMarkerIff(t: string)
    ensures NoMarker(t) <==> TailMatch(t).None?
  {
    hide Marker, TailMatch;
    if TailMatch(t).Some? {
      MarkerIff(t, TailMatch(t).value.start);
    }
    forall i | 0 <= i < |t| ensures Marker(t[i..]) ==> TailMatch(t).Some? { MarkerIff(t, i); }
  }

  lemma NothingUnspeltIff(t: string)
    ensures NothingUnspelt(t) <==> Dangling(t).None?
  {
    hide Unspelt, Dangling;
    if Dangling(t).Some? {
      DanglingIff(t, Dangling(t).value);
    }
    forall i | 0 <= i < |t| ensures Unspelt(t[i..]) ==> Dangling(t).Some? { DanglingIff(t, i); }
  }

  /** `x` shows nothing of the spaces before a marker. */
  ghost predicate Trimmed(x: string) {
    x != "" ==> !IsSpace(x[|x| - 1])
  }

  /** The batch parser touches a text exactly when an ending of it is a marker. */
  lemma ParseKeepsIff(t: string)
    ensures NoMarker(t) <==> StripControlMarkers(t) == t
    ensures NoMarker(t) ==> Parse(t) == (t, None)
  {
    hide Marker, NoMarker, TailMatch, TrimEnd;
    NoMarkerIff(t);
    if TailMatch(t).Some? {
      StripCut(t, TailMatch(t).value.start);
    }
  }

  /** A marker, with the spaces before it, is taken off, whole streams and batch alike. */
  lemma MarkerIsHidden(pieces: seq<string>, x: string, sp: string, v: string)
    requires Concat(pieces) == x + sp + v && Trimmed(x) && AllSpaces(sp) && Marker(v)
    ensures StreamOutput(pieces) == x && StripControlMarkers(x + sp + v) == x
  {
    hide Marker, TailMatch, RStrip, IsSpace;
    var t := x + sp + v;
    assert v != "" by { MarkerIsTail(v); }
    assert t[|x + sp|..] == v && t[..|x + sp|] == x + sp;
    MarkerIff(t, |x + sp|);
    TrimPadding(x, sp);
    ChunkingIsInvisible(pieces);
  }

  /** Where no marker ends the text, a stream drops a marker still being spelt; the batch parser keeps it. */
  lemma UnspeltIsDropped(pieces: seq<string>, x: string, sp: string, v: string)
    requires Concat(pieces) == x + sp + v && Trimmed(x) && AllSpaces(sp) && Unspelt(v) && NoMarker(x + sp + v)
    ensures StreamOutput(pieces) == x && StripControlMarkers(x + sp + v) == x + sp + v
  {
    hide Unspelt, TailMatch, Dangling, RStrip, IsSpace, NoMarker;
    var t := x + sp + v;
    assert v != "" by { UnspeltIff(v); OpenStarts(v); }
    assert t[|x + sp|..] == v && t[..|x + sp|] == x + sp;
    DanglingIff(t, |x + sp|);
    NoMarkerIff(t);
    TrimPadding(x, sp);
    ChunkingIsInvisible(pieces);
  }

  /** Every other text is shown as it is, whole streams and batch alike. */
  lemma OrdinaryTextIsShown(pieces: seq<string>)
    requires NoMarker(Concat(pieces)) && NothingUnspelt(Concat(pieces))
    ensures StreamOutput(pieces) == Concat(pieces) == StripControlMarkers(Concat(pieces))
  {
    hide TailMatch, Dangling, NoMarker, NothingUnspelt;
    NoMarkerIff(Concat(pieces));
    NothingUnspeltIff(Concat(pieces));
    ChunkingIsInvisible(pieces);
  }

  /** Where the last brace of a text opens a marker, the text is left as it is exactly when it does not close. */
  lemma LastOpeningDecides(d: string, w: Word, w1: string, kw: string, r: string)
    requires AllSpaces(w1) && SpellsWord(kw, w) && '{' !in r
    ensures var t := d + ("{" + w1 + kw + r);
            && (NoMarker(t) <==> !Closes(w, r))
            && (!Closes(w, r) ==> NothingUnspelt(t))
  {
    hide Closes, NoMarker, NothingUnspelt, SpellsWord, IsSpace, TailMatch, Marker;
    var v := "{" + w1 + kw + r;
    LaterIsNoBrace(w, w1, kw, r);
    LastOpeningTail(v, w, w1, kw, r);
    var t := d + v;
    assert t[|d|..] == v;
    NoMarkerIff(t);
    if Closes(w, r) {
      TailMatchExtends(d, v);
    } else {
      NoTailExtends(d, v);
      LastOpeningIsSpelt(d, v, w, w1, kw, r);
    }
  }

  lemma LastOpeningTail(v: string, w: Word, w1: string, kw: string, r: string)
    requires OpensWith(v, w, w1, kw, r) && forall i | 1 <= i < |v| :: v[i] != '{'
    ensures MatchAt(v, 0).Some? && (TailMatch(v).Some? <==> Closes(w, r))
    ensures LastMatch(v, |v|) == MatchAt(v, 0)
  {
    hide Closes, IsTail, MatchAt, SpellsWord, MatchEnd, IsSpace;
    OpeningMatches(v, w, w1, kw, r);
    forall i | 1 <= i < |v| ensures MatchAt(v, i).None? { NoBraceNoMatch(v, i); }
    LastMatchSkips(v, 1, |v|);
    assert LastMatch(v, 1) == MatchAt(v, 0);
    match w
    case WordFalse => FalseClosesIff(v, 1 + |w1| + |kw|);
    case WordTrue => TrueClosesIff(v, 1 + |w1| + |kw|);
  }

  lemma NoTailExtends(d: string, v: string)
    requires TailMatch(v).None? && LastMatch(v, |v|).Some?
    ensures TailMatch(d + v).None?
  {
    hide MatchAt, LastMatch, IsTail;
    var t := d + v;
    assert t[|d|..] == v;
    LastMatchDrop(t, |d|, |v|);
    TailDrop(t, |d|, LastMatch(v, |v|).value);
  }

  lemma LastOpeningIsSpelt(d: string, v: string, w: Word, w1: string, kw: string, r: string)
    requires OpensWith(v, w, w1, kw, r) && !Closes(w, r) && forall i | 1 <= i < |v| :: v[i] != '{'
    ensures NothingUnspelt(d + v)
  {
    hide Closes, NothingUnspelt, Dangling, OpenPrefix, SpellsWord, AllSpaces, Unspelt;
    var t := d + v;
    assert t[|d|..] == v && v[0] == '{';
    NotUnspelt(v, w, w1, kw, r);
    NothingUnspeltIff(t);
    forall i | |d| < i < |t| ensures t[i] != '{' { assert t[i] == v[i - |d|]; }
    IsLastBrace(t, |d|);
    NoOpenPrefixNoDangling(t, |d|);
  }

  lemma NoOpenPrefixNoDangling(t: string, i: nat)
    requires i < |t| && LastBrace(t, |t|) == Some(i) && !OpenPrefix(t[i..])
    ensures Dangling(t).None?
  {
  }

  lemma NoBraceNoMatch(v: string, i: nat)
    requires i < |v| && v[i] != '{'
    ensures MatchAt(v, i).None?
  {
  }

  lemma LaterIsNoBrace(w: Word, w1: string, kw: string, r: string)
    requires AllSpaces(w1) && SpellsWord(kw, w) && '{' !in r
    ensures var v := "{" + w1 + kw + r; forall i | 1 <= i < |v| :: v[i] != '{'
  {
    hide IsSpace;
    NoSpaces();
    var v := "{" + w1 + kw + r;
    forall i | 1 <= i < |v|
      ensures v[i] != '{'
    {
      assert v[i] == if i < 1 + |w1| then w1[i - 1] else if i < 1 + |w1| + |kw| then kw[i - 1 - |w1|] else r[i - 1 - |w1| - |kw|];
    }
  }

  /** What does not close is longer than its word. */
  lemma NotUnspelt(v: string, w: Word, w1: string, kw: string, r: string)
    requires OpensWith(v, w, w1, kw, r) && !Closes(w, r)
    ensures !OpenPrefix(v) && !Unspelt(v)
  {
    hide SkipSpaces, IsSpace, Unspelt, BeginsWord, SpellsWord, Closes;
    OpeningMatches(v, w, w1, kw, r);
    WordIsNoSpace(kw, w);
    UnspeltIff(v);
    assert r != "" by { EmptyCloses(w); }
    assert v[1 + |w1|..] == kw + r;
    TooLong(w, kw, r);
  }

  lemma EmptyCloses(w: Word)
    ensures Closes(w, "")
  {
  }

  lemma TooLong(w: Word, kw: string, r: string)
    requires r != "" && BeginsWord(kw, Spelling(w)) && |kw| == |Spelling(w)|
    ensures !BeginsWord(kw + r, "true") && !BeginsWord(kw + r, "false")
  {
    assert (kw + r)[0] == kw[0];
    assert Lower(kw[0]) == Spelling(w)[0];
  }

  lemma {:induction false} DenseAppend(a: string, b: string)
    ensures Dense(a + b) == Dense(a) + Dense(b)
  {
    if a == "" {
      assert a + b == b;
    } else {
      assert (a + b)[1..] == a[1..] + b;
      DenseAppend(a[1..], b);
    }
  }

  lemma BraceIsLast(x: string)
    ensures FalseEnd(x) ==> forall i | 0 <= i < |x| && x[i] == '}' :: i == |x| - 1
  {
    if FalseEnd(x) {
      assert |x| <= 2;
    }
  }

  lemma NotClosed(w: Word, body: string, rest: string)
    requires '}' !in body && !AllSpaces(rest)
    ensures !Closes(w, body + "}" + rest)
  {
    var r := body + "}" + rest;
    hide FalseEnd;
    DenseAppend(body + "}", rest);
    DenseAppend(body, "}");
    DenseBlank(rest);
    assert !IsSpace('}') && Dense("}") == "}" by { NoSpaces(); assert "}"[1..] == ""; }
    var x := Dense(body) + "}" + Dense(rest);
    assert Dense(r) == x;
    assert x[|Dense(body)|] == '}' && |x| > |Dense(body)| + 1;
    BraceIsLast(x);
    var k :| 0 <= k < |rest| && !IsSpace(rest[k]);
    assert r[|body|] == '}' && r[|body| + 1 + k] == rest[k];
  }

  /**
   * A closed marker with more text behind it is left intact, whichever its word: by the batch parser,
   * and by the stream for every way of cutting the text.
   */
  lemma MiddleMarkerStays(pieces: seq<string>, d: string, w: Word, w1: string, kw: string, body: string, rest: string)
    requires AllSpaces(w1) && SpellsWord(kw, w)
    requires '{' !in body && '}' !in body && '{' !in rest && !AllSpaces(rest)
    requires Concat(pieces) == d + ("{" + w1 + kw + (body + "}" + rest))
    ensures Parse(Concat(pieces)) == (Concat(pieces), None) && StreamOutput(pieces) == Concat(pieces)
  {
    hide Closes, SpellsWord, IsSpace, AllSpaces, NoMarker, NothingUnspelt, Parse;
    NotClosed(w, body, rest);
    LastOpeningDecides(d, w, w1, kw, body + "}" + rest);
    OrdinaryTextIsShown(pieces);
    ParseKeepsIff(Concat(pieces));
  }

  lemma OtherFirst(x: string)
    requires x != "" && x[0] != '}' && !IsColon(x[0])
    ensures !FalseEnd(x)
  {
    WithoutColon(x);
  }

  /** So is `false` in a brace with anything but a colon and a closing brace behind it. */
  lemma OpenFalseStays(pieces: seq<string>, d: string, w1: string, kw: string, w2: string, rest: string)
    requires AllSpaces(w1) && Spells(kw, "false") && AllSpaces(w2)
    requires '{' !in rest && rest != "" && !IsSpace(rest[0]) && rest[0] != '}' && !IsColon(rest[0])
    requires Concat(pieces) == d + ("{" + w1 + kw + (w2 + rest))
    ensures Parse(Concat(pieces)) == (Concat(pieces), None) && StreamOutput(pieces) == Concat(pieces)
  {
    hide IsSpace, Spells, NoMarker, NothingUnspelt, Parse;
    DenseAppend(w2, rest);
    DenseBlank(w2);
    DenseHead(rest, 0);
    assert rest[0..] == rest;
    assert '{' !in w2 by { NoSpaces(); }
    assert Dense(w2 + rest)[0] == rest[0];
    hide Dense, AllSpaces;
    OtherFirst(Dense(w2 + rest));
    LastOpeningDecides(d, WordFalse, w1, kw, w2 + rest);
    OrdinaryTextIsShown(pieces);
    ParseKeepsIff(Concat(pieces));
  }

  // ---- What the batch parser reads in a marker ----

  /** A text without the spaces at either end. */
  lemma StripIs(a: string, core: string, b: string)
    requires AllSpaces(a) && AllSpaces(b) && Trimmed(core) && (core != "" ==> !IsSpace(core[0]))
    ensures Strip(a + core + b) == core
  {
    hide IsSpace, TrimEnd, SkipSpaces;
    var u := a + core + b;
    var n := if core == "" then 0 else |a + core|;
    assert forall k | n <= k < |u| :: u[k] == if k < |a| then a[k] else b[k - |a + core|];
    assert core != "" ==> u[|a + core| - 1] == core[|core| - 1];
    TrimIs(u, |u|, n);
    var r := u[..n];
    if core != "" {
      assert r == a + core;
      assert forall k | 0 <= k < |a| :: r[k] == a[k];
      assert r[|a|] == core[0];
      SkipIs(r, 0, |a|);
      assert r[|a|..] == core;
    } else {
      SkipIs(r, 0, 0);
    }
  }

  ghost predicate MayClose(close: string) {
    close == "" || (close[0] == '}' && AllSpaces(close[1..]))
  }

  /** Behind `k` the text is these four pieces. */
  ghost predicate LaidOut(v: string, k: nat, w2: string, c: string, body: string, close: string) {
    var j, e := k + |w2|, k + |w2| + |c|;
    var f := e + |body|;
    && |v| == f + |close| && v[k..j] == w2 && v[e..f] == body
    && (c != "" ==> v[j] == c[0]) && (body != "" ==> v[e] == body[0]) && (close != "" ==> v[f] == close[0])
  }

  lemma Layout(v: string, k: nat, w2: string, c: string, body: string, close: string)
    requires k <= |v| && v[k..] == w2 + c + body + close
    ensures LaidOut(v, k, w2, c, body, close)
  {
    var r, n := v[k..], |w2| + |c|;
    assert r[..|w2|] == w2 && r[n..n + |body|] == body;
    assert v[k..k + |w2|] == r[..|w2|];
    assert v[k + n..k + n + |body|] == r[n..n + |body|];
    assert c != "" ==> r[|w2|] == c[0];
    assert body != "" ==> r[n] == body[0];
    assert close != "" ==> r[n + |body|] == close[0];
  }

  /** Where the intent of a `true` marker begins and ends. */
  lemma IntentSlice(v: string, k: nat, w2: string, c: string, body: string, close: string)
    requires LaidOut(v, k, w2, c, body, close)
    requires AllSpaces(w2) && c in {"", ":", "\U{FF1A}"} && '}' !in body && MayClose(close)
    requires c == "" ==> body == "" || (!IsSpace(body[0]) && !IsColon(body[0]))
    ensures var e := MatchEnd(v, k); e <= Find(v, e, '}') && v[e..Find(v, e, '}')] == body
  {
    hide IsSpace, SkipSpaces, Find;
    var j, e := k + |w2|, k + |w2| + |c|;
    var f := e + |body|;
    assert forall i | k <= i < j :: v[i] == v[k..j][i - k];
    assert forall i | e <= i < f :: v[i] == v[e..f][i - e];
    if c != "" {
      ColonIsNoSpace(c[0]);
    }
    SliceEnds(v, k, j, e, f);
  }

  /** Spaces up to `j`, a colon up to `e` or none, and no closing brace up to `f`. */
  lemma SliceEnds(v: string, k: nat, j: nat, e: nat, f: nat)
    requires k <= j <= e <= j + 1 && e <= f <= |v|
    requires forall i | k <= i < j :: IsSpace(v[i])
    requires if j < e then IsColon(v[j]) && !IsSpace(v[j]) else j < f ==> !IsSpace(v[j]) && !IsColon(v[j])
    requires (forall i | e <= i < f :: v[i] != '}') && (f < |v| ==> v[f] == '}')
    ensures MatchEnd(v, k) == e && Find(v, e, '}') == f
  {
    hide IsSpace, SkipSpaces, Find, IsColon;
    NoSpaces();
    BraceIsNoColon();
    SkipIs(v, k, j);
    FindIs(v, e, f);
  }

  lemma BraceIsNoColon()
    ensures !IsColon('}')
  {
  }

  lemma ColonIsNoSpace(c: char)
    requires c == ':' || c == '\U{FF1A}'
    ensures IsColon(c) && !IsSpace(c)
  {
  }

  lemma FindIs(v: string, e: nat, f: nat)
    requires e <= f <= |v| && (forall i | e <= i < f :: v[i] != '}') && (f < |v| ==> v[f] == '}')
    ensures Find(v, e, '}') == f
  {
    hide *;
    var x := Find(v, e, '}');
    assert x < |v| ==> v[x] == '}';
  }

  /**
   * A `true` marker in any layout, with or without a colon and a closing brace, parses to the text before
   * it and its intent, both without the spaces around them.
   */
  lemma TrueMarkerParses(x: string, sp: string, w1: string, kw: string, w2: string, c: string, a: string, core: string,
                         b: string, close: string)
    requires Trimmed(x) && AllSpaces(sp) && AllSpaces(w1) && Spells(kw, "true")
    requires AllSpaces(w2) && c in {"", ":", "\U{FF1A}"} && AllSpaces(a) && AllSpaces(b) && MayClose(close)
    requires c == "" ==> a == "" && (core == "" ==> b == "") && (core != "" ==> !IsColon(core[0]))
    requires Trimmed(core) && (core != "" ==> !IsSpace(core[0])) && '{' !in core && '}' !in core
    ensures Parse(x + sp + ("{" + w1 + kw + (w2 + c + (a + core + b) + close))) == (x, if core == "" then None else Some(core))
  {
    hide IsSpace, SkipSpaces, MatchEnd, Spells, TailMatch, Find, Strip, RStrip, IsTail, MatchAt, Opening;
    var body := a + core + b;
    var r := w2 + c + body + close;
    var v, k := "{" + w1 + kw + r, 1 + |w1| + |kw|;
    NoSpaces();
    assert '{' !in r && '}' !in body;
    TrueCloses(w2 + c + body, close);
    assert OpensWith(v, WordTrue, w1, kw, r);
    OpeningMatches(v, WordTrue, w1, kw, r);
    LaterIsNoBrace(WordTrue, w1, kw, r);
    forall i | 0 < i < |v| ensures !Opening(v[i..]) { OpeningIff(v, i); NoBraceNoMatch(v, i); }
    MarkerIsTail(v);
    ParseAfterPrefix(x + sp, v);
    TrimPadding(x, sp);
    Layout(v, k, w2, c, body, close);
    hide LaidOut;
    IntentSlice(v, k, w2, c, body, close);
    StripIs(a, core, b);
  }

  lemma TrueCloses(before: string, close: string)
    requires '}' !in before && MayClose(close)
    ensures Closes(WordTrue, before + close)
  {
    hide IsSpace;
    var r := before + close;
    forall i, j | 0 <= i < j < |r| && r[i] == '}'
      ensures IsSpace(r[j])
    {
      assert i >= |before|;
      assert r[j] == close[1..][j - |before| - 1];
    }
  }

  /** A `false` marker in any layout parses to the text before it, and to no intent. */
  lemma FalseMarkerParses(x: string, sp: string, w1: string, kw: string, w2: string, c: string, w3: string, close: string)
    requires Trimmed(x) && AllSpaces(sp) && AllSpaces(w1) && Spells(kw, "false")
    requires AllSpaces(w2) && c in {"", ":", "\U{FF1A}"} && AllSpaces(w3) && MayClose(close)
    ensures Parse(x + sp + ("{" + w1 + kw + (w2 + c + w3 + close))) == (x, None)
  {
    hide IsSpace, SkipSpaces, MatchEnd, Spells, RStrip, IsTail, MatchAt, Opening, FalseEnd, LastMatch;
    var r := w2 + c + w3 + close;
    var v := "{" + w1 + kw + r;
    NoSpaces();
    assert '{' !in r;
    FalseCloses(w2, c, w3, close);
    assert OpensWith(v, WordFalse, w1, kw, r);
    OpeningMatches(v, WordFalse, w1, kw, r);
    LaterIsNoBrace(WordFalse, w1, kw, r);
    forall i | 0 < i < |v| ensures !Opening(v[i..]) { OpeningIff(v, i); NoBraceNoMatch(v, i); }
    MarkerIsTail(v);
    assert TailMatch(v) == MatchAt(v, 0);
    hide TailMatch;
    TailMatchExtends(x + sp, v);
    assert (x + sp + v)[..|x + sp|] == x + sp;
    TrimPadding(x, sp);
  }

  lemma FalseCloses(w2: string, c: string, w3: string, close: string)
    requires AllSpaces(w2) && c in {"", ":", "\U{FF1A}"} && AllSpaces(w3) && MayClose(close)
    ensures FalseEnd(Dense(w2 + c + w3 + close))
  {
    hide IsSpace;
    DenseAppend(w2 + c + w3, close);
    DenseAppend(w2 + c, w3);
    DenseAppend(w2, c);
    DenseBlank(w2);
    DenseBlank(w3);
    NoSpaces();
    if close != "" {
      DenseBlank(close[1..]);
      DenseHead(close, 0);
      assert close[0..] == close;
    }
    if c != "" {
      ColonIsNoSpace(c[0]);
      DenseHead(c, 0);
      assert c[0..] == c && c[1..] == "";
    }
    var x, y := Dense(c), Dense(close);
    assert x == c && (y == "" || y == "}");
    assert Dense(w2 + c + w3 + close) == x + y;
    assert "" + "}" == "}" && ":" + "}" == ":}" && "\U{FF1A}" + "}" == "\U{FF1A}}";
  }
}
