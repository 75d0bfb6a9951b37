/**
 * Coverage of a document by the ranges already read (core/document_reading.py), and reading on in
 * continue mode (core/character_document_library.py).
 */
module ReadingRanges {

  const PAGE_CHARS: int := 6000

  /** A stored pair of character offsets, end excluded. */
  datatype Range = Range(start: int, end: int)

  predicate Before(a: Range, b: Range) {
    a.start < b.start || (a.start == b.start && a.end <= b.end)
  }

  function Insert(r: Range, rs: seq<Range>): seq<Range> {
    if rs == [] || Before(r, rs[0]) then [r] + rs else [rs[0]] + Insert(r, rs[1..])
  }

  /** `sorted` on pairs. */
  function Sorted(rs: seq<Range>): seq<Range> {
    if rs == [] then [] else Insert(rs[|rs| - 1], Sorted(rs[..|rs| - 1]))
  }

  function Max(a: int, b: int): int {
    if a >= b then a else b
  }

  function Min(a: int, b: int): int {
    if a <= b then a else b
  }

  /** One step of the merge loop: extend the last range or start a new one. */
  function Absorb(merged: seq<Range>, r: Range): seq<Range> {
    if merged != [] && r.start <= merged[|merged| - 1].end
    then merged[|merged| - 1 := Range(merged[|merged| - 1].start, Max(r.end, merged[|merged| - 1].end))]
    else merged + [r]
  }

  function Coalesce(rs: seq<Range>): seq<Range> {
    if rs == [] then [] else Absorb(Coalesce(rs[..|rs| - 1]), rs[|rs| - 1])
  }

  function WithRange(rs: seq<Range>, start: int, end: int): seq<Range> {
    if end > start then rs + [Range(start, end)] else rs
  }

  function Merged(rs: seq<Range>, start: int, end: int): seq<Range> {
    Coalesce(Sorted(WithRange(rs, start, end)))
  }

  method MergedRanges(ranges: seq<Range>, start: int, end: int) returns (merged: seq<Range>)
    ensures merged == Merged(ranges, start, end)
  {
    var valid := ranges;
    if end > start {
      valid := valid + [Range(start, end)];
    }
    valid := Sorted(valid);
    merged := [];
    var i := 0;
    while i < |valid|
      invariant 0 <= i <= |valid|
      invariant merged == Coalesce(valid[..i])
    {
      assert valid[..i + 1][..i] == valid[..i];
      var n := |merged|;
      if n > 0 && valid[i].start <= merged[n - 1].end {
        merged := merged[n - 1 := Range(merged[n - 1].start, Max(valid[i].end, merged[n - 1].end))];
      } else {
        merged := merged + [valid[i]];
      }
      i := i + 1;
    }
    assert valid[..i] == valid;
  }

  // ---- What merging means ----

  ghost predicate Proper(rs: seq<Range>) {
    forall r | r in rs :: r.start < r.end
  }

  predicate In(r: Range, x: int) {
    r.start <= x < r.end
  }

  ghost predicate Covers(rs: seq<Range>, x: int) {
    exists r :: r in rs && In(r, x)
  }

  /** Sorted, non-empty and not touching each other. */
  ghost predicate Normal(rs: seq<Range>) {
    Proper(rs) && forall i, j | 0 <= i < j < |rs| :: rs[i].end < rs[j].start
  }

  ghost predicate Ordered(rs: seq<Range>) {
    forall i, j | 0 <= i < j < |rs| :: rs[i].start <= rs[j].start
  }

  lemma {:induction false} InsertFacts(r: Range, rs: seq<Range>)
    requires Ordered(rs)
    ensures Ordered(Insert(r, rs))
    ensures forall x :: x in Insert(r, rs) <==> x == r || x in rs
  {
    if rs != [] && !Before(r, rs[0]) {
      InsertFacts(r, rs[1..]);
      assert rs == [rs[0]] + rs[1..];
      var rest := Insert(r, rs[1..]);
      forall i | 0 <= i < |rest|
        ensures rs[0].start <= rest[i].start
      {
        assert rest[i] in rest;
      }
    }
  }

  lemma {:induction false} SortedFacts(rs: seq<Range>)
    ensures Ordered(Sorted(rs))
    ensures forall x :: x in Sorted(rs) <==> x in rs
  {
    if rs != [] {
      SortedFacts(rs[..|rs| - 1]);
      assert forall x :: x in rs <==> x in rs[..|rs| - 1] || x == rs[|rs| - 1];
      InsertFacts(rs[|rs| - 1], Sorted(rs[..|rs| - 1]));
    }
  }

  /** Absorbing a range that starts no earlier than the last keeps the list normal and adds its offsets. */
  lemma AbsorbFacts(m: seq<Range>, r: Range, x: int)
    requires Normal(m) && r.start < r.end && forall k | k in m :: k.start <= r.start
    ensures Normal(Absorb(m, r)) && (forall k | k in Absorb(m, r) :: k.start <= r.start)
    ensures Covers(Absorb(m, r), x) <==> Covers(m, x) || In(r, x)
  {
    hide Covers;
    var t := Absorb(m, r);
    if m != [] && r.start <= m[|m| - 1].end {
      var front, last := m[..|m| - 1], m[|m| - 1];
      assert m == front + [last] && t == front + [t[|m| - 1]];
      assert last in m;
      CoversAppend(front, last, x);
      CoversAppend(front, t[|m| - 1], x);
    } else {
      CoversAppend(m, r, x);
    }
    AbsorbedStarts(m, r);
  }

  lemma AbsorbedStarts(m: seq<Range>, r: Range)
    requires Normal(m) && r.start < r.end && forall k | k in m :: k.start <= r.start
    ensures Normal(Absorb(m, r)) && (forall k | k in Absorb(m, r) :: k.start <= r.start)
  {
    var t := Absorb(m, r);
    assert forall i | 0 <= i < |m| :: m[i] in m;
    assert forall i | 0 <= i < |t| - 1 :: t[i] == m[i];
  }

  lemma CoversAppend(a: seq<Range>, r: Range, x: int)
    ensures Covers(a + [r], x) <==> Covers(a, x) || In(r, x)
  {
    assert forall k :: k in a + [r] <==> k in a || k == r;
  }

  lemma {:induction false} CoalesceFacts(rs: seq<Range>, x: int)
    requires Ordered(rs) && Proper(rs)
    ensures Normal(Coalesce(rs)) && Covers(Coalesce(rs), x) == Covers(rs, x)
    ensures rs != [] ==> forall k | k in Coalesce(rs) :: k.start <= rs[|rs| - 1].start
  {
    if rs != [] {
      hide Covers, Absorb, Normal;
      var front, last := rs[..|rs| - 1], rs[|rs| - 1];
      assert rs == front + [last];
      assert last in rs && forall k | k in front :: k in rs && k.start <= last.start;
      CoalesceFacts(front, x);
      hide Ordered, In;
      AbsorbFacts(Coalesce(front), last, x);
      CoversAppend(front, last, x);
    }
  }

  /** The merge is normal and covers exactly the old offsets and the new range. */
  lemma MergedCovers(rs: seq<Range>, start: int, end: int, x: int)
    requires Proper(rs)
    ensures Normal(Merged(rs, start, end))
    ensures Covers(Merged(rs, start, end), x) <==> Covers(rs, x) || start <= x < end
  {
    var all := WithRange(rs, start, end);
    SortedFacts(all);
    CoalesceFacts(Sorted(all), x);
    assert Covers(Sorted(all), x) == Covers(all, x);
    if end > start {
      assert Covers(all, x) <==> Covers(rs, x) || In(Range(start, end), x) by {
        assert Range(start, end) in all;
        assert forall r :: r in all <==> r in rs || r == Range(start, end);
      }
    }
  }

  // ---- Normal lists are determined by their offsets ----

  lemma FirstRange(a: seq<Range>, b: seq<Range>)
    requires Normal(a) && Normal(b) && a != [] && b != []
    requires forall x :: Covers(a, x) == Covers(b, x)
    ensures a[0] == b[0]
  {
    assert a[0] in a && b[0] in b && In(a[0], a[0].start) && In(b[0], b[0].start);
    assert Covers(a, a[0].start) && Covers(b, b[0].start);
    StartsAreLeast(a, b[0].start);
    StartsAreLeast(b, a[0].start);
    EndIsGap(a);
    EndIsGap(b);
    assert !Covers(b, a[0].end) && !Covers(a, b[0].end);
    assert !In(b[0], a[0].end) && !In(a[0], b[0].end);
  }

  lemma StartsAreLeast(a: seq<Range>, x: int)
    requires Normal(a) && a != [] && Covers(a, x)
    ensures a[0].start <= x
  {
    var r :| r in a && In(r, x);
    var i :| 0 <= i < |a| && a[i] == r;
    assert a[0] in a;
  }

  lemma EndIsGap(a: seq<Range>)
    requires Normal(a) && a != []
    ensures !Covers(a, a[0].end)
  {
    forall r | r in a
      ensures !In(r, a[0].end)
    {
      var i :| 0 <= i < |a| && a[i] == r;
    }
  }

  lemma TailCovers(a: seq<Range>, x: int)
    requires Normal(a) && a != []
    ensures Covers(a[1..], x) <==> Covers(a, x) && !In(a[0], x)
  {
    assert a == [a[0]] + a[1..];
    if r :| r in a[1..] && In(r, x) {
      var i :| 0 <= i < |a[1..]| && a[1..][i] == r;
      assert a[i + 1] == r && r in a;
    }
    if Covers(a, x) && !In(a[0], x) {
      var r :| r in a && In(r, x);
      assert r in a[1..];
    }
  }

  lemma FirstIsCovered(a: seq<Range>)
    requires Normal(a) && a != []
    ensures Covers(a, a[0].start) && !Covers([], a[0].start)
  {
    assert a[0] in a && In(a[0], a[0].start);
  }

  lemma {:induction false} NormalIsUnique(a: seq<Range>, b: seq<Range>)
    requires Normal(a) && Normal(b)
    requires forall x :: Covers(a, x) == Covers(b, x)
    ensures a == b
    decreases |a|
  {
    hide Covers;
    if a == [] && b != [] {
      FirstIsCovered(b);
    } else if a != [] && b == [] {
      FirstIsCovered(a);
    } else if a != [] && b != [] {
      FirstRange(a, b);
      forall x
        ensures Covers(a[1..], x) == Covers(b[1..], x)
      {
        TailCovers(a, x);
        TailCovers(b, x);
      }
      NormalIsUnique(a[1..], b[1..]);
      assert a == [a[0]] + a[1..] && b == [b[0]] + b[1..];
    }
  }

  // ---- Repeated recording ----

  /** The ranges after recording the given reads, from nothing. */
  function Recorded(pages: seq<Range>): seq<Range> {
    if pages == [] then []
    else Merged(Recorded(pages[..|pages| - 1]), pages[|pages| - 1].start, pages[|pages| - 1].end)
  }

  lemma {:induction false} RecordedCovers(pages: seq<Range>, x: int)
    ensures Normal(Recorded(pages)) && Covers(Recorded(pages), x) == Covers(pages, x)
  {
    hide Merged, Covers;
    if pages == [] {
      NothingCovered(x);
    } else {
      var front, last := pages[..|pages| - 1], pages[|pages| - 1];
      RecordedCovers(front, x);
      MergedCovers(Recorded(front), last.start, last.end, x);
      assert pages == front + [last];
      CoversAppend(front, last, x);
    }
  }

  lemma NothingCovered(x: int)
    ensures !Covers([], x)
  {
  }

  /** The stored ranges depend only on which offsets were read, not on the order or cut of the reads. */
  lemma RecordingOrderIsIrrelevant(a: seq<Range>, b: seq<Range>)
    requires forall x :: Covers(a, x) == Covers(b, x)
    ensures Recorded(a) == Recorded(b)
  {
    hide Recorded, Covers, Normal;
    forall x
      ensures Covers(Recorded(a), x) == Covers(Recorded(b), x)
    {
      RecordedCovers(a, x);
      RecordedCovers(b, x);
    }
    RecordedCovers(a, 0);
    RecordedCovers(b, 0);
    NormalIsUnique(Recorded(a), Recorded(b));
  }

  // ---- Progress ----

  function Contiguous(rs: seq<Range>): int {
    if rs != [] && rs[0].start == 0 then rs[0].end else 0
  }

  function ProvidedChars(rs: seq<Range>): int {
    if rs == [] then 0 else rs[0].end - rs[0].start + ProvidedChars(rs[1..])
  }

  function NextUnread(rs: seq<Range>, total: nat): int {
    Min(Contiguous(rs), total)
  }

  predicate ProvidedComplete(rs: seq<Range>, total: nat) {
    Contiguous(rs) >= total && total > 0
  }

  ghost function Inside(r: Range): set<int> {
    set x | r.start <= x < r.end && In(r, x)
  }

  ghost function Offsets(rs: seq<Range>): set<int> {
    if rs == [] then {} else Inside(rs[0]) + Offsets(rs[1..])
  }

  lemma {:induction false} OffsetsAreCovered(rs: seq<Range>, x: int)
    ensures x in Offsets(rs) <==> Covers(rs, x)
  {
    if rs != [] {
      OffsetsAreCovered(rs[1..], x);
      assert forall r :: r in rs <==> r == rs[0] || r in rs[1..];
    }
  }

  lemma {:induction false} InsideSize(r: Range)
    requires r.start <= r.end
    ensures |Inside(r)| == r.end - r.start
    decreases r.end - r.start
  {
    if r.start < r.end {
      var shorter := Range(r.start, r.end - 1);
      InsideSize(shorter);
      forall x
        ensures x in Inside(r) <==> x in Inside(shorter) || x == r.end - 1
      {
        assert In(r, x) <==> In(shorter, x) || x == r.end - 1;
      }
      assert Inside(r) == Inside(shorter) + {r.end - 1};
    } else {
      assert Inside(r) == {};
    }
  }

  /** The provided character count is the number of distinct offsets covered. */
  lemma {:induction false} ProvidedCharsCountsOffsets(rs: seq<Range>)
    requires Normal(rs)
    ensures ProvidedChars(rs) == |Offsets(rs)|
    decreases |rs|
  {
    if rs != [] {
      assert rs[0] in rs && forall r | r in rs[1..] :: r in rs;
      ProvidedCharsCountsOffsets(rs[1..]);
      InsideSize(rs[0]);
      forall x | x in Inside(rs[0])
        ensures x !in Offsets(rs[1..])
      {
        OffsetsAreCovered(rs[1..], x);
        TailCovers(rs, x);
      }
      assert Inside(rs[0]) !! Offsets(rs[1..]);
    }
  }

  /** The next unread offset is the least offset of the text not covered, or its end. */
  lemma NextUnreadIsLeastUncovered(rs: seq<Range>, total: nat)
    requires Normal(rs) && forall r | r in rs :: r.start >= 0
    ensures 0 <= NextUnread(rs, total) <= total
    ensures forall x | 0 <= x < NextUnread(rs, total) :: Covers(rs, x)
    ensures NextUnread(rs, total) < total ==> !Covers(rs, NextUnread(rs, total))
    ensures ProvidedComplete(rs, total) <==> total > 0 && forall x | 0 <= x < total :: Covers(rs, x)
  {
    if rs != [] {
      assert rs[0] in rs;
      EndIsGap(rs);
      if rs[0].start == 0 {
        assert forall x | 0 <= x < rs[0].end :: In(rs[0], x);
      } else if Covers(rs, 0) {
        StartsAreLeast(rs, 0);
      }
    }
    if total > 0 && !ProvidedComplete(rs, total) {
      assert !Covers(rs, Contiguous(rs));
    }
  }

  // ---- Reading on ----

  function PageSize(limit: int): int {
    Max(1, Min(limit, PAGE_CHARS))
  }

  /** A page is what was asked for, at least one character and at most 6000. */
  lemma PageSizeMeans(limit: int)
    ensures PageSize(limit) == if limit < 1 then 1 else Min(limit, 6000)
  {
  }

  /** One read in continue mode: the range it shows. */
  function ContinueRange(rs: seq<Range>, total: nat, limit: int): Range {
    var start := Min(NextUnread(rs, total), total);
    Range(start, start + Min(PageSize(limit), total - start))
  }

  /** Ranges after `n` reads in continue mode, each recorded. */
  function AfterReads(rs: seq<Range>, total: nat, limit: int, n: nat): seq<Range> {
    if n == 0 then rs
    else
      var before := AfterReads(rs, total, limit, n - 1);
      var page := ContinueRange(before, total, limit);
      Merged(before, page.start, page.end)
  }

  /** The pages shown, joined. */
  function Shown(rs: seq<Range>, text: string, limit: int, n: nat): string {
    if n == 0 then ""
    else
      var page := ContinueRange(AfterReads(rs, |text|, limit, n - 1), |text|, limit);
      Shown(rs, text, limit, n - 1) + (if 0 <= page.start <= page.end <= |text| then text[page.start..page.end] else "")
  }

  ghost predicate Sound(rs: seq<Range>) {
    Normal(rs) && forall r | r in rs :: r.start >= 0
  }

  lemma MergedIsSound(rs: seq<Range>, start: int, end: int)
    requires Sound(rs) && start >= 0
    ensures Sound(Merged(rs, start, end))
  {
    var m := Merged(rs, start, end);
    MergedCovers(rs, start, end, 0);
    forall r | r in m
      ensures r.start >= 0
    {
      assert In(r, r.start) && Covers(m, r.start);
      MergedCovers(rs, start, end, r.start);
    }
  }

  /** A recorded continue read moves the next unread offset forward by a page or to the end. */
  lemma ContinueAdvances(rs: seq<Range>, total: nat, limit: int)
    requires Sound(rs)
    ensures var page := ContinueRange(rs, total, limit);
            var next := Merged(rs, page.start, page.end);
            && page.start == NextUnread(rs, total)
            && page.end == Min(page.start + (if limit < 1 then 1 else Min(limit, 6000)), total)
            && Sound(next)
            && NextUnread(next, total) >= page.end
  {
    NextUnreadIsLeastUncovered(rs, total);
    var page := ContinueRange(rs, total, limit);
    var next := Merged(rs, page.start, page.end);
    MergedIsSound(rs, page.start, page.end);
    NextUnreadIsLeastUncovered(next, total);
    var u := NextUnread(next, total);
    MergedCovers(rs, page.start, page.end, u);
  }

  lemma {:induction false} ReadsAdvance(rs: seq<Range>, total: nat, limit: int, n: nat)
    requires Sound(rs)
    ensures Sound(AfterReads(rs, total, limit, n))
    ensures NextUnread(AfterReads(rs, total, limit, n), total) >= Min(n * PageSize(limit), total)
  {
    hide Merged, Sound, NextUnread;
    if n == 0 {
      NextUnreadIsNatural(rs, total);
    } else {
      ReadsAdvance(rs, total, limit, n - 1);
      ContinueAdvances(AfterReads(rs, total, limit, n - 1), total, limit);
      PageSizeMeans(limit);
      OneMorePage(n, PageSize(limit));
    }
  }

  lemma NextUnreadIsNatural(rs: seq<Range>, total: nat)
    requires Sound(rs)
    ensures NextUnread(rs, total) >= 0
  {
    NextUnreadIsLeastUncovered(rs, total);
  }

  lemma OneMorePage(n: nat, size: int)
    requires n > 0
    ensures n * size == (n - 1) * size + size
  {
  }

  /** Reading on completes any document in at most ceil(total / limit) recorded reads. */
  lemma ContinueReadsComplete(rs: seq<Range>, total: nat, limit: int, n: nat)
    requires Sound(rs)
    ensures Sound(AfterReads(rs, total, limit, n))
    ensures var size := if limit < 1 then 1 else Min(limit, 6000);
            && NextUnread(AfterReads(rs, total, limit, n), total) >= Min(n * size, total)
            && (n * size >= total > 0 ==> ProvidedComplete(AfterReads(rs, total, limit, n), total))
  {
    hide AfterReads, Sound;
    ReadsAdvance(rs, total, limit, n);
    PageSizeMeans(limit);
  }

  /** The list covers exactly the offsets below its next unread one. */
  ghost predicate CoversPrefix(rs: seq<Range>, total: nat) {
    Sound(rs) && forall x :: Covers(rs, x) <==> 0 <= x < NextUnread(rs, total)
  }

  /** Reading on from a covered beginning covers that beginning and the page. */
  lemma ContinueCoversPrefix(rs: seq<Range>, total: nat, limit: int)
    requires CoversPrefix(rs, total)
    ensures var page := ContinueRange(rs, total, limit);
            var next := Merged(rs, page.start, page.end);
            CoversPrefix(next, total) && NextUnread(next, total) == page.end
  {
    hide Covers, Merged, NextUnread;
    var page := ContinueRange(rs, total, limit);
    var next := Merged(rs, page.start, page.end);
    ContinueAdvances(rs, total, limit);
    NextUnreadIsLeastUncovered(rs, total);
    NextUnreadIsLeastUncovered(next, total);
    forall x
      ensures Covers(next, x) <==> 0 <= x < page.end
    {
      MergedCovers(rs, page.start, page.end, x);
    }
    var u := NextUnread(next, total);
    assert u > page.end ==> Covers(next, page.end);
    assert u < page.end ==> Covers(next, u);
  }

  lemma FreshCoversPrefix(total: nat)
    ensures CoversPrefix([], total) && NextUnread([], total) == 0
  {
  }

  /** From a fresh document the pages shown join to the text read so far: no gap, no overlap. */
  lemma {:induction false} PagesJoinToText(text: string, limit: int, n: nat)
    ensures CoversPrefix(AfterReads([], |text|, limit, n), |text|)
    ensures var next := NextUnread(AfterReads([], |text|, limit, n), |text|);
            0 <= next <= |text| && Shown([], text, limit, n) == text[..next]
    decreases n
  {
    hide CoversPrefix, NextUnread, Merged;
    if n == 0 {
      FreshCoversPrefix(|text|);
    } else {
      PagesJoinToText(text, limit, n - 1);
      var before := AfterReads([], |text|, limit, n - 1);
      var page := ContinueRange(before, |text|, limit);
      ContinueCoversPrefix(before, |text|, limit);
      PageWithin(before, |text|, limit);
      assert text[..page.start] + text[page.start..page.end] == text[..page.end];
    }
  }

  lemma PageWithin(rs: seq<Range>, total: nat, limit: int)
    requires CoversPrefix(rs, total)
    ensures var page := ContinueRange(rs, total, limit); page.start == NextUnread(rs, total) && 0 <= page.start <= page.end <= total
  {
    hide Covers, Normal;
    NextUnreadIsLeastUncovered(rs, total);
  }
}
