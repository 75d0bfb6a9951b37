/**
 * The other half of the numbering law (channels/mobile.py): once the stored counter is not past every
 * number given out, some continuation gives a number to a second item.
 */
module MobileQueueReuse {
  import opened Wrappers
  import opened MobileQueue
  import opened MobileQueueRuns
  import opened MobileQueueContents

  // ---- Runs put together ----

  lemma {:induction false} RunAppend(s: Sys, a: seq<Event>, b: seq<Event>)
    ensures Run(s, a + b) == Run(Run(s, a), b)
  {
    hide Step;
    if b == [] {
      assert a + b == a;
    } else {
      var n := |b| - 1;
      assert (a + b)[..|a + b| - 1] == a + b[..n];
      RunAppend(s, a, b[..n]);
    }
  }

  lemma RunOne(s: Sys, e: Event)
    ensures Run(s, [e]) == Step(s, e)
  {
    hide Step;
    assert [e][..0] == [];
  }

  lemma GivenStays(s: Sys, e: Event)
    ensures s.given <= Step(s, e).given
  {
    hide Load, Numbered, Prune, ToFile, FileRaws, Keep, First, NextSeq;
  }

  // ---- Emptying the queue without a repair ----

  /** An ack of everything whose queue write succeeds and whose repair does not. */
  function AckAll(upTo: int): Event {
    AckEvent(upTo, 0.0, LoadIo(false, true), true)
  }

  lemma {:induction false} SortLength(q: seq<Msg>)
    ensures |Sort(q)| == |q|
  {
    if q != [] {
      SortLength(q[..|q| - 1]);
      InsertLength(q[|q| - 1], Sort(q[..|q| - 1]));
    }
  }

  lemma {:induction false} InsertLength(m: Msg, q: seq<Msg>)
    ensures |Insert(m, q)| == |q| + 1
  {
    if q != [] && m.number >= q[0].number {
      InsertLength(m, q[1..]);
    }
  }

  /** A load with its queue write, but not its repair, leaves the counter; if it returns nothing the file is empty too. */
  lemma UnrepairedLoad(st: Store, now: real)
    ensures var (st1, q) := Load(st, now, LoadIo(false, true));
            && st1.seqFile == st.seqFile
            && (q == [] ==> FileRaws(st1.queueFile) == [])
  {
    hide Prune, NextSeq, MaxOf, ReadStored;
    if !st.queueFile.NoFile? {
      var rs := FileRaws(st.queueFile);
      var numbered := Assign(rs, NextSeq(st.seqFile, rs)).0;
      AssignLength(rs, NextSeq(st.seqFile, rs));
      SortLength(numbered);
      FileRawsOfQueue([]);
    }
  }

  lemma AckAllEmpties(s: Sys) returns (e: Event)
    ensures var t := Step(s, e);
            FileRaws(t.store.queueFile) == [] && t.store.seqFile == s.store.seqFile && s.given <= t.given
  {
    hide Load, Numbered, Prune, FileRaws;
    var q := Load(s.store, 0.0, LoadIo(false, true)).1;
    e := AckAll(MaxOf(q));
    UnrepairedLoad(s.store, 0.0);
    KeepFacts(q, Above(MaxOf(q)));
    var left := Keep(q, Above(MaxOf(q)));
    HasFirst(left);
    FileRawsOfQueue([]);
    GivenStays(s, e);
  }

  lemma HasFirst(q: seq<Msg>)
    ensures q != [] ==> exists m :: m in q
  {
    if q != [] {
      assert q[0] in q;
    }
  }

  // ---- Counting up to the number ----

  /** An enqueue all of whose writes succeed. */
  function EnqueueNow(uid: nat): Event {
    EnqueueEvent(uid, EnqueueIo(LoadIo(true, true), true, true, 0.0, 0.0, 0.0))
  }

  lemma LoadOfEmpty(st: Store, now: real, io: LoadIo)
    requires FileRaws(st.queueFile) == []
    ensures var (st1, q) := Load(st, now, io);
            st1.seqFile == st.seqFile && q == []
  {
    hide FileRaws, ToFile;
  }

  /** On an empty queue an enqueue gives out the stored counter. */
  lemma EnqueueTakesCounter(s: Sys, uid: nat)
    requires FileRaws(s.store.queueFile) == []
    ensures var c, t := ReadStored(s.store.seqFile), Step(s, EnqueueNow(uid));
            t.store.seqFile == Stored(c + 1) && (c, uid) in t.given && s.given <= t.given
  {
    hide Load, Prune, FileRaws, Numbered;
    LoadOfEmpty(s.store, 0.0, LoadIo(true, true));
    FileRawsOfQueue([]);
    GivenStays(s, EnqueueNow(uid));
  }

  /** Enqueues, each followed by an ack, give out every number from the counter on. */
  lemma {:induction false} CountUpTo(s: Sys, g: (nat, nat)) returns (events: seq<Event>)
    requires FileRaws(s.store.queueFile) == [] && g in s.given && g.0 >= ReadStored(s.store.seqFile)
    ensures !Functional(Run(s, events).given)
    decreases g.0 - ReadStored(s.store.seqFile)
  {
    hide Step, FileRaws, Functional;
    var c, e := ReadStored(s.store.seqFile), EnqueueNow(g.1 + 1);
    var t := Step(s, e);
    EnqueueTakesCounter(s, g.1 + 1);
    RunOne(s, e);
    if c == g.0 {
      events := [e];
      TwoNames(t.given, g, (c, g.1 + 1));
    } else {
      var ack := AckAllEmpties(t);
      var rest := CountUpTo(Step(t, ack), g);
      RunOne(t, ack);
      RunAppend(s, [e], [ack]);
      RunAppend(s, [e] + [ack], rest);
      events := [e] + [ack] + rest;
    }
  }

  lemma TwoNames(names: Naming, a: (nat, nat), b: (nat, nat))
    requires a in names && b in names && a.0 == b.0 && a != b
    ensures !Functional(names)
  {
  }

  /** Once the counter is not past some number given, some continuation gives that number to a second item. */
  lemma BehindReusesANumber(s: Sys) returns (events: seq<Event>)
    requires Behind(s)
    ensures !Functional(Run(s, events).given)
  {
    hide FileRaws, Functional, ReadStored, Step;
    if !Functional(s.given) {
      events := [];
    } else {
      var g :| g in s.given && g.0 >= ReadStored(s.store.seqFile);
      var ack := AckAllEmpties(s);
      var rest := CountUpTo(Step(s, ack), g);
      RunOne(s, ack);
      RunAppend(s, [ack], rest);
      events := [ack] + rest;
    }
  }

  /** The condition the runs ask of every event is exact: without it some continuation gives a number to two items. */
  lemma UnkeptCounterReusesANumber(s: Sys, e: Event) returns (events: seq<Event>)
    requires !KeepsCounter(s.store, e)
    ensures !Functional(Run(Step(s, e), events).given)
  {
    hide Step, Run, KeepsCounter, Functional;
    UnkeptStepIsBehind(s, e);
    events := BehindReusesANumber(Step(s, e));
  }
}
