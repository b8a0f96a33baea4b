/** `Flush` is not one step: it takes the dirty entries away under the lock and writes
    them after releasing it (internal/ledger/ledger.go). This module runs one peer's
    entry through every interleaving of records, swaps and writes, and says exactly when
    events are lost. A write may also fail, and then what was taken away is dropped; and a
    read of the disk may fail, which the code takes for an entry that is not there. */
module LedgerRace {
  import opened Base
  import opened Ledger

  /** One peer's entry on disk, among the dirty ones, and among those being flushed. */
  datatype Cell = Cell(disk: Option<Entry>, dirty: Option<Entry>, pending: Option<Entry>)

  /** A record may find the disk unreadable, if it has to look there. */
  datatype Act = Record(s: Stamped, unread: bool := false) | Swap | Write | Fail

  function Loaded(p: Peer, e: Option<Entry>): Entry {
    if e.Some? then e.value else Fresh(p)
  }

  /** The entry that `touchLocked` and `IsOnline` find: the dirty one, or what `loadEntry`
      makes of the disk, which is a new one if the read fails. */
  function Found(p: Peer, c: Cell, unread: bool): Entry {
    if c.dirty.Some? then c.dirty.value else if unread then Fresh(p) else Loaded(p, c.disk)
  }

  function Step(p: Peer, c: Cell, a: Act): Cell {
    match a
    case Record(s, unread) => c.(dirty := Some(Applied(Found(p, c, unread), s)))
    case Swap => if c.pending.Some? then c else c.(pending := c.dirty, dirty := None)
    case Write => if c.pending.None? then c else c.(disk := c.pending, pending := None)
    case Fail => c.(pending := None)
  }

  /** What the entry is worth once every flush has ended: the newest copy wins. */
  function Newest(p: Peer, c: Cell): Entry {
    if c.dirty.Some? then c.dirty.value else if c.pending.Some? then c.pending.value else Loaded(p, c.disk)
  }

  function Run(p: Peer, run: seq<Act>): Cell {
    if run == [] then Cell(None, None, None) else Step(p, Run(p, run[..|run| - 1]), run[|run| - 1])
  }

  function Recorded(run: seq<Act>): seq<Stamped> {
    if run == [] then []
    else Recorded(run[..|run| - 1]) + (if run[|run| - 1].Record? then [run[|run| - 1].s] else [])
  }

  /** A record that finds the entry swapped out but not yet written reloads the stale copy
      on disk, one that cannot read the entry on disk starts from nothing, and a failed
      write drops the entry swapped out. */
  predicate Loses(c: Cell, a: Act) {
    || (a.Record? && c.dirty.None? && (c.pending.Some? || (a.unread && c.disk.Some?)))
    || (a.Fail? && c.pending.Some?)
  }

  /** A record fell between a swap and its write or could not read the entry, or a write
      failed. */
  function EverLoses(p: Peer, run: seq<Act>): bool {
    run != [] && (EverLoses(p, run[..|run| - 1]) || Loses(Run(p, run[..|run| - 1]), run[|run| - 1]))
  }

  // ----- the same machine on histories -----

  datatype Shadow = Shadow(disk: seq<Stamped>, dirty: Option<seq<Stamped>>, pending: Option<seq<Stamped>>)

  function ShadowStep(c: Shadow, a: Act): Shadow {
    match a
    case Record(s, unread) =>
      c.(dirty := Some((if c.dirty.Some? then c.dirty.value else if unread then [] else c.disk) + [s]))
    case Swap => if c.pending.Some? then c else c.(pending := c.dirty, dirty := None)
    case Write => if c.pending.None? then c else c.(disk := c.pending.value, pending := None)
    case Fail => c.(pending := None)
  }

  function ShadowRun(run: seq<Act>): Shadow {
    if run == [] then Shadow([], None, None) else ShadowStep(ShadowRun(run[..|run| - 1]), run[|run| - 1])
  }

  /** The events the newest copy accounts for. */
  function Kept(c: Shadow): seq<Stamped> {
    if c.dirty.Some? then c.dirty.value else if c.pending.Some? then c.pending.value else c.disk
  }

  ghost predicate Mirrors(p: Peer, c: Cell, h: Shadow) {
    && Loaded(p, c.disk) == Fold(p, h.disk) && (c.disk.Some? <==> h.disk != [])
    && (h.dirty.Some? ==> h.dirty.value != []) && (h.pending.Some? ==> h.pending.value != [])
    && c.dirty == (if h.dirty.Some? then Some(Fold(p, h.dirty.value)) else None)
    && c.pending == (if h.pending.Some? then Some(Fold(p, h.pending.value)) else None)
  }

  lemma {:induction false} RunMirrors(p: Peer, run: seq<Act>)
    ensures Mirrors(p, Run(p, run), ShadowRun(run))
  {
    if run != [] {
      var h, a := ShadowRun(run[..|run| - 1]), run[|run| - 1];
      RunMirrors(p, run[..|run| - 1]);
      if a.Record? {
        FoldSnoc(p, if h.dirty.Some? then h.dirty.value else if a.unread then [] else h.disk, a.s);
      }
    }
  }

  /** After every run the newest copy is the fold of the events it kept. */
  lemma NewestIsFold(p: Peer, run: seq<Act>)
    ensures Newest(p, Run(p, run)) == Fold(p, Kept(ShadowRun(run)))
  {
    RunMirrors(p, run);
  }

  ghost predicate Sane(p: Peer, run: seq<Act>) {
    var h := ShadowRun(run);
    var n := |Recorded(run)|;
    && |h.disk| <= n && (h.dirty.Some? || h.pending.Some? ==> |h.disk| < n)
    && (h.pending.Some? ==> |h.pending.value| <= n)
    && (h.dirty.Some? && h.pending.Some? ==> |h.pending.value| < n)
    && |Kept(h)| <= n
    && (if EverLoses(p, run) then |Kept(h)| < n else Kept(h) == Recorded(run))
    && (!EverLoses(p, run) ==> h.dirty.None? || h.pending.None?)
  }

  lemma {:induction false} RunSane(p: Peer, run: seq<Act>)
    ensures Sane(p, run)
  {
    if run != [] {
      RunSane(p, run[..|run| - 1]);
      RunMirrors(p, run[..|run| - 1]);
    }
  }

  /** For every interleaving: all events are accounted for, in order, if and only if no
      record fell between a swap and its write or could not read the entry on disk, and no
      write failed; otherwise at least one is gone for good. */
  lemma ExactlyWhenEventsSurvive(p: Peer, run: seq<Act>)
    ensures Kept(ShadowRun(run)) == Recorded(run) <==> !EverLoses(p, run)
    ensures EverLoses(p, run) ==> |Kept(ShadowRun(run))| < |Recorded(run)|
    ensures !EverLoses(p, run) ==> Newest(p, Run(p, run)) == Fold(p, Recorded(run))
  {
    RunSane(p, run);
    NewestIsFold(p, run);
  }

  /** For all events: flushed, and followed by a record that cannot read the disk, the first
      is forgotten, though no write failed and no record fell into a flush. */
  lemma UnreadForgets(p: Peer, s1: Stamped, s2: Stamped)
    ensures var run := [Record(s1), Swap, Write, Record(s2, true)];
            Recorded(run) == [s1, s2] && Newest(p, Run(p, run)) == Applied(Fresh(p), s2)
  {
    var a1, a4 := Record(s1), Record(s2, true);
    assert [a1, Swap, Write, a4][..3] == [a1, Swap, Write];
    assert [a1, Swap, Write][..2] == [a1, Swap] && [a1, Swap][..1] == [a1] && [a1][..0] == [];
    assert Run(p, [a1]) == Cell(None, Some(Applied(Fresh(p), s1)), None);
    assert Run(p, [a1, Swap, Write]) == Cell(Some(Applied(Fresh(p), s1)), None, None);
    assert Recorded([a1]) == [s1] && Recorded([a1, Swap, Write]) == [s1];
  }

  /** Sixteen bytes go missing: recorded, swapped out, and overwritten by a record made
      before the write. */
  lemma LostUpdate(p: Peer)
    ensures var run := [Record(Stamped(StoredOnThem(16), 1)), Swap, Record(Stamped(StoredOnThem(1), 2)), Write, Swap,
                        Write];
            && Newest(p, Run(p, run)).storedOnThem == 1
            && Fold(p, Recorded(run)).storedOnThem == 17
  {
    var s1, s2 := Stamped(StoredOnThem(16), 1), Stamped(StoredOnThem(1), 2);
    var r1 := [Record(s1)];
    var r2 := r1 + [Swap];
    var r3 := r2 + [Record(s2)];
    var r4 := r3 + [Write];
    var r5 := r4 + [Swap];
    var r6 := r5 + [Write];
    assert r1[..0] == [] && r2[..1] == r1 && r3[..2] == r2 && r4[..3] == r3 && r5[..4] == r4 && r6[..5] == r5;
    assert Run(p, r1) == Cell(None, Some(Applied(Fresh(p), s1)), None);
    assert Run(p, r2) == Cell(None, None, Some(Applied(Fresh(p), s1)));
    assert Run(p, r3) == Cell(None, Some(Applied(Fresh(p), s2)), Some(Applied(Fresh(p), s1)));
    assert Run(p, r4) == Cell(Some(Applied(Fresh(p), s1)), Some(Applied(Fresh(p), s2)), None);
    assert Run(p, r6) == Cell(Some(Applied(Fresh(p), s2)), None, None);
    assert Recorded(r1) == [s1] && Recorded(r2) == [s1] && Recorded(r3) == [s1, s2];
    assert Recorded(r4) == [s1, s2] && Recorded(r5) == [s1, s2] && Recorded(r6) == [s1, s2];
    assert [s1, s2][..1] == [s1] && [s1][..0] == [];
    assert Fold(p, [s1]) == Applied(Fresh(p), s1);
    assert r6 == [Record(s1), Swap, Record(s2), Write, Swap, Write];
  }
}
