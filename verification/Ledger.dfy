/** internal/ledger: per-peer accounting and liveness. An entry is a fold of the peer's
    events; time stamps are positive and 0 stands for the zero time. */
module Ledger {
  import opened Base

  const OFFLINE_THRESHOLD := 3
  const REPUTATION_BASELINE := 100
  const REPUTATION_MIN := 0
  const REPUTATION_MAX := 100
  const REPUTATION_GAIN := 1
  const REPUTATION_LOSS := 5

  datatype Entry = Entry(
    peer: Peer, storedForThem: int, servedToThem: int, storedOnThem: int, downloadedFrom: int,
    isOnline: bool, consecFailures: int, lastPingAt: nat, lastSeenAt: nat, offlineSince: nat, reputation: int,
    updatedAt: nat)

  datatype Event =
    | StoredForThem(n: int) | ServedToThem(n: int) | StoredOnThem(n: int) | DownloadedFrom(n: int) | Ping(ok: bool)

  datatype Stamped = Stamped(event: Event, at: nat)

  datatype PingResult = PingResult(wentOffline: bool, wentOnline: bool, isOnline: bool, reputation: int)

  function Fresh(peer: Peer): Entry {
    Entry(peer, 0, 0, 0, 0, false, 0, 0, 0, 0, 0, 0)
  }

  // ----- RecordPing on an entry -----

  function AfterSuccess(e: Entry, now: nat): Entry {
    var rep :=
      if e.reputation < REPUTATION_MAX then Min(e.reputation + REPUTATION_GAIN, REPUTATION_MAX) else e.reputation;
    e.(lastPingAt := now, consecFailures := 0, lastSeenAt := now, isOnline := true, offlineSince := 0,
       reputation := rep)
  }

  function AfterFailure(e: Entry, now: nat): Entry {
    var failures := e.consecFailures + 1;
    if failures < OFFLINE_THRESHOLD then e.(lastPingAt := now, consecFailures := failures)
    else
      var room := e.reputation - REPUTATION_MIN;
      var loss := if e.reputation - REPUTATION_LOSS < REPUTATION_MIN then room else REPUTATION_LOSS;
      e.(lastPingAt := now, consecFailures := failures, isOnline := false,
         offlineSince := if e.offlineSince == 0 then now else e.offlineSince,
         reputation := if loss > 0 then e.reputation - loss else e.reputation)
  }

  function Pinged(e: Entry, ok: bool, now: nat): Entry {
    var e1 := if e.lastPingAt == 0 then e.(reputation := REPUTATION_BASELINE) else e;
    if ok then AfterSuccess(e1, now) else AfterFailure(e1, now)
  }

  function PingOutcome(e: Entry, ok: bool, now: nat): PingResult {
    var was := if e.lastPingAt == 0 then ok else e.isOnline;
    var e' := Pinged(e, ok, now);
    PingResult(was && !e'.isOnline, !was && e'.isOnline, e'.isOnline, e'.reputation)
  }

  /** One event on an entry, as `touchLocked` followed by the field updates does it. */
  function Applied(e: Entry, s: Stamped): Entry {
    var t := e.(updatedAt := s.at);
    match s.event
    case StoredForThem(n) => t.(storedForThem := t.storedForThem + n)
    case ServedToThem(n) => t.(servedToThem := t.servedToThem + n)
    case StoredOnThem(n) => t.(storedOnThem := t.storedOnThem + n)
    case DownloadedFrom(n) => t.(downloadedFrom := t.downloadedFrom + n)
    case Ping(ok) => Pinged(t, ok, s.at)
  }

  function Fold(peer: Peer, h: seq<Stamped>): Entry {
    if h == [] then Fresh(peer) else Applied(Fold(peer, h[..|h| - 1]), h[|h| - 1])
  }

  // ----- the write-coalescing ledger -----

  type History = map<Peer, seq<Stamped>>

  function Logged(h: History, p: Peer, s: Stamped): History {
    h[p := (if p in h then h[p] else []) + [s]]
  }

  /** The entries a history amounts to. */
  ghost predicate Reflects(entries: map<Peer, Entry>, h: History) {
    entries.Keys == h.Keys && forall p :: p in h ==> entries[p] == Fold(p, h[p])
  }

  lemma FoldSnoc(p: Peer, h: seq<Stamped>, s: Stamped)
    ensures Fold(p, h + [s]) == Applied(Fold(p, h), s)
  {
    assert (h + [s])[..|h|] == h;
  }

  lemma ReflectsUpdate(view: map<Peer, Entry>, h: History, p: Peer, events: seq<Stamped>)
    requires Reflects(view, h)
    ensures Reflects(view[p := Fold(p, events)], h[p := events])
  {
  }

  lemma MergeUpdate(disk: map<Peer, Entry>, dirty: map<Peer, Entry>, p: Peer, e: Entry)
    ensures disk + dirty[p := e] == (disk + dirty)[p := e]
  {
  }

  /** The merged view accounts for `history` and the disk for `flushed`; only dirty peers
      are ahead of the disk. */
  ghost predicate Coherent(dirty: map<Peer, Entry>, disk: map<Peer, Entry>, history: History, flushed: History) {
    Reflects(disk, flushed) && Reflects(disk + dirty, history) && Ahead(dirty.Keys, history, flushed)
  }

  ghost predicate Ahead(dirty: set<Peer>, history: History, flushed: History) {
    && (forall p :: p in history && p !in dirty ==> p in flushed && history[p] == flushed[p])
    && (forall p :: p in dirty ==> p in history && (p in flushed ==> |flushed[p]| < |history[p]|))
  }

  lemma AheadUpdate(dirty: set<Peer>, history: History, flushed: History, p: Peer, events: seq<Stamped>)
    requires Ahead(dirty, history, flushed) && (p in flushed ==> |flushed[p]| < |events|)
    ensures Ahead(dirty + {p}, history[p := events], flushed)
  {
  }

  /** `touchLocked`: the dirty entry, or the one on disk, or a new one. */
  function Current(dirty: map<Peer, Entry>, disk: map<Peer, Entry>, p: Peer): Entry {
    if p in dirty then dirty[p] else if p in disk then disk[p] else Fresh(p)
  }

  lemma CurrentIsFold(dirty: map<Peer, Entry>, disk: map<Peer, Entry>, history: History, p: Peer)
    requires Reflects(disk + dirty, history)
    ensures Current(dirty, disk, p) == Fold(p, if p in history then history[p] else [])
  {
    assert p in history <==> p in disk + dirty;
  }

  lemma UpdatedCoherent(dirty: map<Peer, Entry>, disk: map<Peer, Entry>, history: History, flushed: History, p: Peer,
                        events: seq<Stamped>)
    requires Coherent(dirty, disk, history, flushed)
    requires p in flushed ==> |flushed[p]| < |events|
    ensures Coherent(dirty[p := Fold(p, events)], disk, history[p := events], flushed)
  {
    MergeUpdate(disk, dirty, p, Fold(p, events));
    ReflectsUpdate(disk + dirty, history, p, events);
    AheadUpdate(dirty.Keys, history, flushed, p, events);
    assert dirty[p := Fold(p, events)].Keys == dirty.Keys + {p};
  }

  lemma FlushedNotAhead(dirty: map<Peer, Entry>, disk: map<Peer, Entry>, history: History, flushed: History, p: Peer)
    requires Coherent(dirty, disk, history, flushed) && p in flushed
    ensures p in history && |flushed[p]| <= |history[p]|
  {
    assert p in disk + dirty;
  }

  /** Recording an event in the current entry accounts for the history with that event. */
  lemma RecordedCoherent(dirty: map<Peer, Entry>, disk: map<Peer, Entry>, history: History, flushed: History, p: Peer,
                         s: Stamped)
    requires Coherent(dirty, disk, history, flushed)
    ensures Coherent(dirty[p := Applied(Current(dirty, disk, p), s)], disk, Logged(history, p, s), flushed)
  {
    var events := if p in history then history[p] else [];
    if p in flushed {
      FlushedNotAhead(dirty, disk, history, flushed, p);
    }
    CurrentIsFold(dirty, disk, history, p);
    FoldSnoc(p, events, s);
    UpdatedCoherent(dirty, disk, history, flushed, p, events + [s]);
  }

  lemma MergeEmpty(disk: map<Peer, Entry>)
    ensures disk + map[] == disk
  {
  }

  /** How a partly written flush stands: what is written is up to date on disk, the rest
      is as it was. */
  ghost predicate Written(pending: map<Peer, Entry>, rest: set<Peer>, before: History, now: History, all: History) {
    && (forall p :: p in now <==> p in before || (p in pending && p !in rest))
    && (forall p :: p in now && p in pending && p !in rest ==> p in all && now[p] == all[p])
    && (forall p :: p in now && (p !in pending || p in rest) ==> p in before && now[p] == before[p])
  }

  lemma WriteOne(pending: map<Peer, Entry>, rest: set<Peer>, p: Peer, before: History, now: History, all: History,
                 disk: map<Peer, Entry>)
    requires Written(pending, rest, before, now, all) && p in rest && rest <= pending.Keys && p in all
    requires Reflects(disk, now) && pending[p] == Fold(p, all[p])
    ensures Written(pending, rest - {p}, before, now[p := all[p]], all)
    ensures Reflects(disk[p := pending[p]], now[p := all[p]])
  {
    ReflectsUpdate(disk, now, p, all[p]);
  }

  lemma AllWritten(pending: map<Peer, Entry>, before: History, now: History, all: History)
    requires Written(pending, {}, before, now, all)
    requires all.Keys == before.Keys + pending.Keys
    requires forall p :: p in all && p !in pending ==> p in before && all[p] == before[p]
    ensures now == all
  {
  }

  /** Every peer's events are still there, with more after them. */
  ghost predicate Longer(h: History, g: History) {
    forall p :: p in h ==> p in g && h[p] <= g[p]
  }

  class Book {
    var dirty: map<Peer, Entry>
    var disk: map<Peer, Entry>
    /** The events the merged view accounts for, and those already on disk. */
    ghost var history: History
    ghost var flushed: History

    ghost predicate Valid()
      reads this
    {
      Coherent(dirty, disk, history, flushed)
    }

    constructor ()
      ensures Valid() && history == map[]
    {
      dirty, disk, history, flushed := map[], map[], map[], map[];
    }

    /** The dirty entries with that of p updated. */
    method Touch(p: Peer, s: Stamped) returns (next: map<Peer, Entry>)
      requires Valid()
      ensures Coherent(next, disk, Logged(history, p, s), flushed) && next.Keys == dirty.Keys + {p}
    {
      RecordedCoherent(dirty, disk, history, flushed, p, s);
      next := dirty[p := Applied(Current(dirty, disk, p), s)];
    }

    /** The four traffic records, and the update `RecordPing` makes. */
    method Record(p: Peer, s: Stamped)
      requires Valid()
      modifies this
      ensures Valid() && history == Logged(old(history), p, s) && disk == old(disk) && flushed == old(flushed)
      ensures dirty.Keys == old(dirty).Keys + {p}
    {
      var next := Touch(p, s);
      dirty, history := next, Logged(history, p, s);
    }

    /** `RecordPing`: the transition it reports is that of the peer's history so far. */
    method RecordPing(p: Peer, ok: bool, now: nat) returns (r: PingResult)
      requires Valid()
      modifies this
      ensures Valid() && history == Logged(old(history), p, Stamped(Ping(ok), now)) && disk == old(disk)
      ensures flushed == old(flushed)
      ensures r == PingOutcome(Fold(p, if p in old(history) then old(history)[p] else []), ok, now)
    {
      CurrentIsFold(dirty, disk, history, p);
      r := PingOutcome(Current(dirty, disk, p), ok, now);
      Record(p, Stamped(Ping(ok), now));
    }

    /** `IsOnline`: false for the unknown. */
    method IsOnline(p: Peer) returns (b: bool)
      requires Valid()
      ensures b == (p in history && Fold(p, history[p]).isOnline)
    {
      if p in dirty {
        return dirty[p].isOnline;
      }
      return p in disk && disk[p].isOnline;
    }

    /** Other goroutines record events and flush, with every flush one step that succeeds.
        The body does nothing; callers know only the contract. */
    method Others()
      requires Valid()
      modifies this
      ensures Valid() && Longer(old(history), history) && Longer(old(flushed), flushed)
    {
    }

    /** `All`: it reads the disk, and only then takes the lock and adds the dirty entries. Each
        entry is the fold of the events in `covered`, and these include all events that a
        peer had before the call exactly if the peer was not dirty then or is dirty now. */
    method All() returns (entries: map<Peer, Entry>, ghost covered: History)
      requires Valid()
      modifies this
      ensures Valid() && Longer(old(history), history) && Reflects(entries, covered)
      ensures forall p :: p in covered <==> p in old(flushed) || p in dirty
      ensures forall p :: p in covered ==> covered[p] == if p in dirty then history[p] else old(flushed)[p]
      ensures forall p :: p in old(history) ==>
                (p in covered && old(history)[p] <= covered[p] <==> p !in old(dirty) || p in dirty)
    {
      var first := disk;
      Others();
      entries := first + dirty;
      covered := map p | p in old(flushed).Keys + dirty.Keys :: if p in dirty then history[p] else old(flushed)[p];
    }

    /** `Flush` as one step, in any order, with the disk refusing the peers in `refused`. It
        stops at the first refusal and reports it, so it succeeds exactly if no dirty peer
        is refused. The events of a dirty peer survive exactly if it was written before
        that; else the ledger falls back to what was on disk. Other peers are not touched. */
    method Flush(refused: set<Peer>) returns (ok: bool, written: set<Peer>)
      requires Valid()
      modifies this
      ensures Valid() && dirty == map[] && history == flushed
      ensures written <= old(dirty).Keys && written !! refused
      ensures ok <==> old(dirty).Keys !! refused
      ensures ok <==> written == old(dirty).Keys
      ensures forall p :: p in old(dirty) ==> (p in written <==> p in history && history[p] == old(history)[p])
      ensures forall p :: p in old(dirty) && p !in written ==>
                (p in history <==> p in old(flushed)) && (p in history ==> history[p] == old(flushed)[p])
      ensures forall p :: p !in old(dirty) ==>
                (p in history <==> p in old(history)) && (p in history ==> history[p] == old(history)[p])
    {
      var pending := dirty;
      dirty := map[];
      var rest := pending.Keys;
      while rest != {}
        invariant rest <= pending.Keys && dirty == map[] && history == old(history)
        invariant (pending.Keys - rest) !! refused
        invariant forall p :: p in pending ==> p in history && pending[p] == Fold(p, history[p])
        invariant Reflects(disk, flushed) && Written(pending, rest, old(flushed), flushed, history)
        decreases rest
      {
        var p :| p in rest;
        if p in refused {
          FlushEnds(pending, rest, old(flushed), flushed, history, old(disk));
          history := flushed;
          MergeEmpty(disk);
          return false, pending.Keys - rest;
        }
        WriteOne(pending, rest, p, old(flushed), flushed, history, disk);
        disk, rest := disk[p := pending[p]], rest - {p};
        flushed := flushed[p := history[p]];
      }
      AllWritten(pending, old(flushed), flushed, history);
      MergeEmpty(disk);
      return true, pending.Keys;
    }
  }

  /** What a flush that ends with `rest` unwritten leaves on disk. */
  lemma FlushEnds(pending: map<Peer, Entry>, rest: set<Peer>, before: History, now: History, all: History,
                  disk: map<Peer, Entry>)
    requires Written(pending, rest, before, now, all) && Coherent(pending, disk, all, before)
    ensures forall p :: p in pending ==> (p !in rest <==> p in now && now[p] == all[p])
    ensures forall p :: p in rest && p in pending ==> (p in now <==> p in before) && (p in now ==> now[p] == before[p])
    ensures forall p :: p !in pending ==> (p in now <==> p in all) && (p in now ==> now[p] == all[p])
  {
    forall p | p !in pending
      ensures (p in now <==> p in all) && (p in now ==> now[p] == all[p])
    {
      if p in before {
        FlushedNotAhead(pending, disk, all, before, p);
      }
    }
  }

  /** For every peer and event: recorded on a new ledger, it is gone if the disk refuses the
      peer at the first flush. */
  method FailedFlushForgets(p: Peer, s: Stamped) returns (book: Book, ghost had: History)
    ensures fresh(book) && book.Valid() && had == map[p := [s]] && book.history == map[]
  {
    book := new Book();
    book.Record(p, s);
    had := book.history;
    var ok, written := book.Flush({p});
  }
}
