/** What others see of a ledger that is being flushed (internal/ledger/ledger.go): the
    transitions that pings report, the answer of `IsOnline`, and the view of `All`, which
    reads the disk before it takes the lock. One peer's entry, over every interleaving of
    `LedgerRace`. */
module LedgerObservers {
  import opened Base
  import opened Ledger
  import opened Liveness
  import Race = LedgerRace

  /** The entry found if the disk can be read. */
  function Sees(p: Peer, c: Race.Cell): Entry {
    Race.Found(p, c, false)
  }

  /** The flush took the entry away, has not written it yet, and nothing was recorded since. */
  predicate InWindow(c: Race.Cell) {
    c.dirty.None? && c.pending.Some?
  }

  // ----- reports -----

  /** The transition that a ping reports: true for "went offline". */
  function Report(p: Peer, c: Race.Cell, s: Stamped, unread: bool): Option<bool> {
    if !s.event.Ping? then None
    else
      var r := PingOutcome(Race.Found(p, c, unread), s.event.ok, s.at);
      if r.wentOffline then Some(true) else if r.wentOnline then Some(false) else None
  }

  function Reported(p: Peer, c: Race.Cell, a: Race.Act): seq<bool> {
    if a.Record? && Report(p, c, a.s, a.unread).Some? then [Report(p, c, a.s, a.unread).value] else []
  }

  function Reports(p: Peer, run: seq<Race.Act>): seq<bool> {
    if run == [] then []
    else Reports(p, run[..|run| - 1]) + Reported(p, Race.Run(p, run[..|run| - 1]), run[|run| - 1])
  }

  /** Outside the window, and with nothing lost so far, the entry seen is that of all events. */
  lemma SeesAll(p: Peer, run: seq<Race.Act>)
    requires !Race.EverLoses(p, run) && !InWindow(Race.Run(p, run))
    ensures Sees(p, Race.Run(p, run)) == Fold(p, Race.Recorded(run))
  {
    Race.ExactlyWhenEventsSurvive(p, run);
  }

  /** Over every interleaving that loses no events, the reports are the transitions of the
      history, in order. */
  lemma {:induction false} ReportsAreTransitions(p: Peer, run: seq<Race.Act>)
    requires !Race.EverLoses(p, run)
    ensures Reports(p, run) == Transitions(p, Race.Recorded(run))
  {
    if run != [] {
      var before, a := run[..|run| - 1], run[|run| - 1];
      var h := Race.Recorded(before);
      ReportsAreTransitions(p, before);
      if a.Record? {
        SeesAll(p, before);
        assert Race.Recorded(run) == h + [a.s] && (h + [a.s])[..|h|] == h;
      } else {
        assert Race.Recorded(run) == h;
      }
    }
  }

  /** So then they strictly alternate, with exactly one repair scan per outage. */
  lemma OneScanPerOutage(p: Peer, run: seq<Race.Act>)
    requires !Race.EverLoses(p, run) && Timed(Race.Recorded(run))
    ensures CountOffline(Reports(p, run)) == Outages(Race.Recorded(run))
    ensures var t := Reports(p, run); forall i :: 0 <= i < |t| - 1 ==> t[i] != t[i + 1]
  {
    ReportsAreTransitions(p, run);
    OneReportPerOutage(p, Race.Recorded(run));
    TransitionsAlternate(p, Race.Recorded(run));
  }

  lemma RunSnoc(p: Peer, run: seq<Race.Act>, a: Race.Act)
    ensures Race.Run(p, run + [a]) == Race.Step(p, Race.Run(p, run), a)
    ensures Reports(p, run + [a]) == Reports(p, run) + Reported(p, Race.Run(p, run), a)
    ensures Race.Recorded(run + [a]) == Race.Recorded(run) + (if a.Record? then [a.s] else [])
  {
    assert (run + [a])[..|run|] == run;
  }

  /** Everything is flushed, nothing was lost, and the peer is one failure from offline. */
  ghost predicate OnTheBrink(p: Peer, run: seq<Race.Act>) {
    && !Race.EverLoses(p, run) && Timed(Race.Recorded(run))
    && Race.Run(p, run).dirty.None? && Race.Run(p, run).pending.None?
    && Seen(Race.Recorded(run)) && Trailing(Race.Recorded(run)) == OFFLINE_THRESHOLD - 1
  }

  /** Otherwise an outage can be reported twice: after any run on the brink, a third failing
      ping is reported, and a fourth one between the swap and the write of the next flush
      is reported again. One more outage, two more scans. */
  lemma DoubledReport(p: Peer, run: seq<Race.Act>, t1: nat, t2: nat)
    requires OnTheBrink(p, run) && t1 > 0 && t2 > 0
    ensures var longer := run + [Race.Record(Stamped(Ping(false), t1))] + [Race.Swap] +
              [Race.Record(Stamped(Ping(false), t2))];
            && Reports(p, longer) == Reports(p, run) + [true] + [true]
            && Outages(Race.Recorded(longer)) == Outages(Race.Recorded(run)) + 1
  {
    var f1, f2 := Race.Record(Stamped(Ping(false), t1)), Race.Record(Stamped(Ping(false), t2));
    var c, h := Race.Run(p, run), Race.Recorded(run);
    SeesAll(p, run);
    TransitionsExactly(p, h, f1.s);
    TransitionsExactly(p, h, f2.s);
    assert Reported(p, c, f1) == [true];
    RunSnoc(p, run, f1);
    RunSnoc(p, run + [f1], Race.Swap);
    RunSnoc(p, run + [f1] + [Race.Swap], f2);
    var w := Race.Run(p, run + [f1] + [Race.Swap]);
    assert w.dirty.None? && w.disk == c.disk;
    assert Sees(p, w) == Sees(p, c);
    assert Reported(p, w, f2) == [true];
    assert Reports(p, run + [f1] + [Race.Swap]) == Reports(p, run) + [true];
    OutagesSnoc(h, f1.s);
    OutagesSnoc(h + [f1.s], f2.s);
    assert Race.Recorded(run + [f1] + [Race.Swap] + [f2]) == h + [f1.s] + [f2.s];
  }

  /** Such runs exist: a success and two failures, flushed. */
  lemma BrinkIsReached(p: Peer) returns (run: seq<Race.Act>)
    ensures OnTheBrink(p, run)
  {
    var s1, s2, s3 := Stamped(Ping(true), 1), Stamped(Ping(false), 2), Stamped(Ping(false), 3);
    run := [];
    RecordQuietly(p, run, s1);
    RecordQuietly(p, run + [Race.Record(s1)], s2);
    RecordQuietly(p, run + [Race.Record(s1)] + [Race.Record(s2)], s3);
    run := run + [Race.Record(s1)] + [Race.Record(s2)] + [Race.Record(s3)];
    FlushQuietly(p, run);
    run := run + [Race.Swap] + [Race.Write];
    assert Race.Recorded(run) == [s1, s2, s3];
    OutagesSnoc([], s1);
    OutagesSnoc([s1], s2);
    OutagesSnoc([s1, s2], s3);
    assert [] + [s1] == [s1] && [s1] + [s2] == [s1, s2] && [s1, s2] + [s3] == [s1, s2, s3];
  }

  /** Nothing was lost and no flush is underway. */
  ghost predicate Quiet(p: Peer, run: seq<Race.Act>) {
    !Race.EverLoses(p, run) && Race.Run(p, run).pending.None?
  }

  lemma RecordQuietly(p: Peer, run: seq<Race.Act>, s: Stamped)
    requires Quiet(p, run)
    ensures Quiet(p, run + [Race.Record(s)]) && Race.Recorded(run + [Race.Record(s)]) == Race.Recorded(run) + [s]
  {
    RunSnoc(p, run, Race.Record(s));
    LossSnoc(p, run, Race.Record(s));
  }

  lemma FlushQuietly(p: Peer, run: seq<Race.Act>)
    requires Quiet(p, run)
    ensures var longer := run + [Race.Swap] + [Race.Write];
            Quiet(p, longer) && Race.Run(p, longer).dirty.None? && Race.Recorded(longer) == Race.Recorded(run)
  {
    RunSnoc(p, run, Race.Swap);
    LossSnoc(p, run, Race.Swap);
    RunSnoc(p, run + [Race.Swap], Race.Write);
    LossSnoc(p, run + [Race.Swap], Race.Write);
  }

  lemma LossSnoc(p: Peer, run: seq<Race.Act>, a: Race.Act)
    ensures Race.EverLoses(p, run + [a]) <==> Race.EverLoses(p, run) || Race.Loses(Race.Run(p, run), a)
  {
    assert (run + [a])[..|run|] == run;
  }

  lemma OutagesSnoc(h: seq<Stamped>, s: Stamped)
    ensures Outages(h + [s]) == Outages(h) +
              (if s.event == Ping(false) && Seen(h) && Trailing(h) == OFFLINE_THRESHOLD - 1 then 1 else 0)
    ensures Seen(h + [s]) <==> s.event == Ping(true) || Seen(h)
    ensures s.event == Ping(false) ==> Trailing(h + [s]) == Trailing(h) + 1
    ensures s.event == Ping(true) ==> Trailing(h + [s]) == 0
  {
    assert (h + [s])[..|h|] == h;
  }

  // ----- answers and views -----

  /** The events that have reached the disk. */
  function OnDisk(run: seq<Race.Act>): seq<Stamped> {
    Race.ShadowRun(run).disk
  }

  /** With nothing lost, the disk accounts for the first events recorded, and for all of them
      exactly when none is dirty or being flushed. */
  lemma {:induction false} DiskIsPrefix(p: Peer, run: seq<Race.Act>)
    requires !Race.EverLoses(p, run)
    ensures OnDisk(run) <= Race.Recorded(run)
    ensures OnDisk(run) == Race.Recorded(run) <==> Race.Run(p, run).dirty.None? && Race.Run(p, run).pending.None?
    ensures Race.Loaded(p, Race.Run(p, run).disk) == Fold(p, OnDisk(run))
  {
    Race.RunMirrors(p, run);
    Race.RunSane(p, run);
    if run != [] {
      var before := run[..|run| - 1];
      DiskIsPrefix(p, before);
      Race.RunMirrors(p, before);
      Race.RunSane(p, before);
    }
  }

  /** The events that `IsOnline` goes by: all of them if the entry is dirty, else those on disk,
      or none if the read fails. */
  function Heard(p: Peer, run: seq<Race.Act>, unread: bool): seq<Stamped> {
    if Race.Run(p, run).dirty.Some? then Race.Recorded(run) else if unread then [] else OnDisk(run)
  }

  /** With nothing lost, `IsOnline` answers by those events, and it is right exactly if the
      others leave the peer as it was. There are no others exactly if the entry is dirty, or
      the disk can be read and no flush is between its swap and its write, or nothing was
      ever recorded. */
  lemma AnswerExactly(p: Peer, run: seq<Race.Act>, unread: bool)
    requires !Race.EverLoses(p, run) && Timed(Race.Recorded(run))
    ensures var c, h := Race.Run(p, run), Race.Recorded(run);
            && (Race.Found(p, c, unread).isOnline <==> Online(Heard(p, run, unread)))
            && ((Race.Found(p, c, unread).isOnline <==> Online(h)) <==> (Online(Heard(p, run, unread)) <==> Online(h)))
            && (Heard(p, run, unread) == h <==> c.dirty.Some? || (!unread && !InWindow(c)) || h == [])
  {
    if unread && Race.Run(p, run).dirty.None? {
      EntryTellsLiveness(p, []);
      assert Fold(p, []) == Fresh(p);
    }
    var h := Race.Recorded(run);
    DiskIsPrefix(p, run);
    if InWindow(Race.Run(p, run)) {
      EntryTellsLiveness(p, OnDisk(run));
    } else {
      SeesAll(p, run);
      EntryTellsLiveness(p, h);
    }
  }

  /** The entry that `All` lists if it reads the disk after `first` and the dirty entries
      after `rest`, and the events this accounts for. */
  function View(p: Peer, first: seq<Race.Act>, rest: seq<Race.Act>): Entry {
    var c := Race.Run(p, first + rest);
    if c.dirty.Some? then c.dirty.value else Race.Loaded(p, Race.Run(p, first).disk)
  }

  function ViewEvents(first: seq<Race.Act>, rest: seq<Race.Act>): seq<Stamped> {
    var h := Race.ShadowRun(first + rest);
    if h.dirty.Some? then h.dirty.value else OnDisk(first)
  }

  /** With nothing lost, the view accounts for the first events recorded by its end, and it
      has all events recorded before the call exactly if the peer is dirty at the end or
      everything was on disk at the beginning. */
  lemma AllExactly(p: Peer, first: seq<Race.Act>, rest: seq<Race.Act>)
    requires !Race.EverLoses(p, first + rest)
    ensures View(p, first, rest) == Fold(p, ViewEvents(first, rest))
    ensures ViewEvents(first, rest) <= Race.Recorded(first + rest)
    ensures Race.Recorded(first) <= ViewEvents(first, rest) <==>
              || Race.Run(p, first + rest).dirty.Some?
              || (Race.Run(p, first).dirty.None? && Race.Run(p, first).pending.None?)
  {
    LossPrefix(p, first, rest);
    RecordedPrefix(first, rest);
    DiskIsPrefix(p, first);
    Race.RunMirrors(p, first + rest);
    Race.RunSane(p, first + rest);
  }

  lemma {:induction false} LossPrefix(p: Peer, first: seq<Race.Act>, rest: seq<Race.Act>)
    requires !Race.EverLoses(p, first + rest)
    ensures !Race.EverLoses(p, first)
  {
    if rest == [] {
      assert first + rest == first;
    } else {
      assert (first + rest)[..|first + rest| - 1] == first + rest[..|rest| - 1];
      LossPrefix(p, first, rest[..|rest| - 1]);
    }
  }

  lemma {:induction false} RecordedPrefix(first: seq<Race.Act>, rest: seq<Race.Act>)
    ensures Race.Recorded(first) <= Race.Recorded(first + rest)
  {
    if rest == [] {
      assert first + rest == first;
    } else {
      assert (first + rest)[..|first + rest| - 1] == first + rest[..|rest| - 1];
      RecordedPrefix(first, rest[..|rest| - 1]);
    }
  }

  /** For every event: recorded before the call, it is missing from the view if a whole flush
      falls between the two reads. */
  lemma AllMissesFlushed(p: Peer, s: Stamped)
    ensures var first, rest := [Race.Record(s)], [Race.Swap, Race.Write];
            !Race.EverLoses(p, first + rest) && Race.Recorded(first) == [s] && View(p, first, rest) == Fold(p, [])
  {
    var none: seq<Race.Act> := [];
    var a := Race.Record(s);
    RunSnoc(p, none, a);
    RunSnoc(p, none + [a], Race.Swap);
    RunSnoc(p, none + [a] + [Race.Swap], Race.Write);
    LossSnoc(p, none, a);
    LossSnoc(p, none + [a], Race.Swap);
    LossSnoc(p, none + [a] + [Race.Swap], Race.Write);
    assert none + [a] == [a] && [a] + [Race.Swap, Race.Write] == none + [a] + [Race.Swap] + [Race.Write];
  }
}
