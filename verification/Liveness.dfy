/** What the liveness half of a ledger entry says about the peer's pings, whatever
    traffic events lie between them, and when the heartbeat reports a transition
    (internal/ledger/ledger.go, internal/heartbeat/heartbeat.go). */
module Liveness {
  import opened Base
  import opened Ledger

  ghost predicate Timed(h: seq<Stamped>) {
    forall i :: 0 <= i < |h| ==> h[i].at > 0
  }

  /** A ping ever succeeded. */
  function Seen(h: seq<Stamped>): bool {
    h != [] && (h[|h| - 1].event == Ping(true) || Seen(h[..|h| - 1]))
  }

  function EverPinged(h: seq<Stamped>): bool {
    h != [] && (h[|h| - 1].event.Ping? || EverPinged(h[..|h| - 1]))
  }

  /** Failed pings since the last success. */
  function Trailing(h: seq<Stamped>): nat {
    if h == [] then 0
    else
      var e := h[|h| - 1].event;
      if e.Ping? && e.ok then 0 else Trailing(h[..|h| - 1]) + (if e.Ping? then 1 else 0)
  }

  /** When the current run of failures reached the threshold; 0 if it has not. */
  function ThirdFailureAt(h: seq<Stamped>): nat {
    if Trailing(h) < OFFLINE_THRESHOLD then 0
    else if h[|h| - 1].event.Ping? && Trailing(h[..|h| - 1]) == OFFLINE_THRESHOLD - 1 then h[|h| - 1].at
    else ThirdFailureAt(h[..|h| - 1])
  }

  ghost predicate Online(h: seq<Stamped>) {
    Seen(h) && Trailing(h) < OFFLINE_THRESHOLD
  }

  /** When the last ping was made, and the last that succeeded; 0 for never. */
  function PingedAt(h: seq<Stamped>): nat {
    if h == [] then 0 else if h[|h| - 1].event.Ping? then h[|h| - 1].at else PingedAt(h[..|h| - 1])
  }

  function SeenAt(h: seq<Stamped>): nat {
    if h == [] then 0 else if h[|h| - 1].event == Ping(true) then h[|h| - 1].at else SeenAt(h[..|h| - 1])
  }

  /** What the pings of a history are worth: 100 to begin with, one more for each success up to
      100, five less for each failure from the third straight one on, down to 0. */
  function Standing(h: seq<Stamped>): (r: int)
    ensures 0 <= r <= 100
  {
    if h == [] then 100
    else
      var was, e := Standing(h[..|h| - 1]), h[|h| - 1].event;
      if e == Ping(true) then Min(was + 1, 100)
      else if e == Ping(false) && Trailing(h) >= 3 then Max(was - 5, 0)
      else was
  }

  /** What the entry after history h says about it. */
  ghost predicate Tells(e: Entry, h: seq<Stamped>) {
    && (e.isOnline <==> Online(h))
    && e.consecFailures == Trailing(h)
    && e.offlineSince == ThirdFailureAt(h)
    && (e.offlineSince != 0 <==> Trailing(h) >= OFFLINE_THRESHOLD)
    && (e.lastPingAt != 0 <==> EverPinged(h))
    && e.lastPingAt == PingedAt(h) && e.lastSeenAt == SeenAt(h)
    && e.reputation == (if EverPinged(h) then Standing(h) else 0)
    && (!EverPinged(h) ==> Standing(h) == 100)
    && (EverPinged(h) || (!Seen(h) && Trailing(h) == 0))
  }

  lemma SuccessTells(e: Entry, h: seq<Stamped>, at: nat)
    requires Tells(e, h) && at > 0
    ensures Tells(Applied(e, Stamped(Ping(true), at)), h + [Stamped(Ping(true), at)])
  {
  }

  lemma FailureTells(e: Entry, h: seq<Stamped>, at: nat)
    requires Tells(e, h) && at > 0
    ensures Tells(Applied(e, Stamped(Ping(false), at)), h + [Stamped(Ping(false), at)])
  {
    var g := h + [Stamped(Ping(false), at)];
    assert g[..|g| - 1] == h;
    assert Trailing(g) == Trailing(h) + 1 && Seen(g) == Seen(h) && EverPinged(g);
    assert ThirdFailureAt(g) == if Trailing(h) < 2 then 0 else if Trailing(h) == 2 then at else ThirdFailureAt(h);
  }

  lemma TrafficTells(e: Entry, h: seq<Stamped>, s: Stamped)
    requires Tells(e, h) && !s.event.Ping?
    ensures Tells(Applied(e, s), h + [s])
  {
    var g := h + [s];
    assert g[..|g| - 1] == h;
    assert Trailing(g) == Trailing(h) && Seen(g) == Seen(h) && EverPinged(g) == EverPinged(h);
    assert ThirdFailureAt(g) == ThirdFailureAt(h);
  }

  /** For every history: online means seen and fewer than three failures since; the offline
      stamp is the time of the third; the other stamps are those of the last ping and the
      last success; and the reputation is what the pings are worth. */
  lemma {:induction false} EntryTellsLiveness(p: Peer, h: seq<Stamped>)
    requires Timed(h)
    ensures Tells(Fold(p, h), h)
  {
    if h != [] {
      var before, s := h[..|h| - 1], h[|h| - 1];
      EntryTellsLiveness(p, before);
      assert h == before + [s];
      match s.event {
        case Ping(ok) =>
          if ok {
            SuccessTells(Fold(p, before), before, s.at);
          } else {
            FailureTells(Fold(p, before), before, s.at);
          }
        case _ => TrafficTells(Fold(p, before), before, s);
      }
    }
  }

  /** The entry is about that peer, and was updated at its last event. */
  lemma {:induction false} EntryIsDated(p: Peer, h: seq<Stamped>)
    ensures Fold(p, h).peer == p && Fold(p, h).updatedAt == if h == [] then 0 else h[|h| - 1].at
  {
    if h != [] {
      EntryIsDated(p, h[..|h| - 1]);
    }
  }

  /** The transition reported for a ping after history h. */
  function Transition(p: Peer, h: seq<Stamped>, s: Stamped): Option<bool> {
    if !s.event.Ping? then None
    else
      var r := PingOutcome(Fold(p, h), s.event.ok, s.at);
      if r.wentOffline then Some(true) else if r.wentOnline then Some(false) else None
  }

  /** "Went offline" is reported exactly at the third straight failure after a success,
      "went online" exactly at a success while offline that is not the first ping. */
  lemma TransitionsExactly(p: Peer, h: seq<Stamped>, s: Stamped)
    requires Timed(h) && s.at > 0
    ensures Transition(p, h, s) == Some(true) <==>
              s.event == Ping(false) && Seen(h) && Trailing(h) == OFFLINE_THRESHOLD - 1
    ensures Transition(p, h, s) == Some(false) <==> s.event == Ping(true) && EverPinged(h) && !Online(h)
  {
    EntryTellsLiveness(p, h);
  }

  /** Besides transitions, the answer to a ping gives the state and the reputation after it. */
  lemma PingTellsState(p: Peer, h: seq<Stamped>, ok: bool, at: nat)
    requires Timed(h) && at > 0
    ensures var r, g := PingOutcome(Fold(p, h), ok, at), h + [Stamped(Ping(ok), at)];
            (r.isOnline <==> Online(g)) && r.reputation == Standing(g)
  {
    var g := h + [Stamped(Ping(ok), at)];
    EntryTellsLiveness(p, g);
    FoldSnoc(p, h, Stamped(Ping(ok), at));
  }

  // ----- what an outage costs -----

  /** The pings in g, none of which turned out otherwise than `ok`. */
  ghost predicate AllPings(g: seq<Stamped>, ok: bool) {
    forall i :: 0 <= i < |g| ==> g[i].event != Ping(!ok)
  }

  function CountPings(g: seq<Stamped>): nat {
    if g == [] then 0 else CountPings(g[..|g| - 1]) + (if g[|g| - 1].event.Ping? then 1 else 0)
  }

  /** n failures after a success cost five each from the third on, whatever traffic there is
      between them. */
  lemma {:induction false} FailuresCost(h: seq<Stamped>, g: seq<Stamped>)
    requires Trailing(h) == 0 && AllPings(g, false)
    ensures Trailing(h + g) == CountPings(g)
    ensures Standing(h + g) == Max(0, Standing(h) - 5 * Max(0, CountPings(g) - 2))
  {
    if g == [] {
      assert h + g == h;
    } else {
      FailuresCost(h, g[..|g| - 1]);
      assert (h + g)[..|h + g| - 1] == h + g[..|g| - 1];
    }
  }

  /** n successes earn one each. */
  lemma {:induction false} SuccessesEarn(h: seq<Stamped>, g: seq<Stamped>)
    requires AllPings(g, true)
    ensures Standing(h + g) == Min(100, Standing(h) + CountPings(g))
  {
    if g == [] {
      assert h + g == h;
    } else {
      SuccessesEarn(h, g[..|g| - 1]);
      assert (h + g)[..|h + g| - 1] == h + g[..|g| - 1];
    }
  }

  /** All transitions reported over a history, in order; true is "went offline". */
  function Transitions(p: Peer, h: seq<Stamped>): seq<bool> {
    if h == [] then []
    else
      var before := h[..|h| - 1];
      Transitions(p, before) + (match Transition(p, before, h[|h| - 1]) case Some(t) => [t] case None => [])
  }

  /** Over every history the reports strictly alternate, and the last one tells the
      present state. `LedgerObservers` says when the code reports just these. */
  lemma {:induction false} TransitionsAlternate(p: Peer, h: seq<Stamped>)
    requires Timed(h)
    ensures var t := Transitions(p, h);
            && (forall i :: 0 <= i < |t| - 1 ==> t[i] != t[i + 1])
            && (t != [] ==> EverPinged(h) && (t[|t| - 1] <==> !Online(h)))
  {
    if h != [] {
      var before := h[..|h| - 1];
      TransitionsAlternate(p, before);
      TransitionsExactly(p, before, h[|h| - 1]);
    }
  }

  /** The number of outages a history shows: runs of failures, after a success, that
      reached the threshold. */
  function Outages(h: seq<Stamped>): nat {
    if h == [] then 0
    else
      var before := h[..|h| - 1];
      Outages(before) + (if h[|h| - 1].event == Ping(false) && Seen(before) &&
                         Trailing(before) == OFFLINE_THRESHOLD - 1 then 1 else 0)
  }

  function CountOffline(t: seq<bool>): nat {
    if t == [] then 0 else CountOffline(t[..|t| - 1]) + (if t[|t| - 1] then 1 else 0)
  }

  /** Exactly one "went offline" per outage. */
  lemma {:induction false} OneReportPerOutage(p: Peer, h: seq<Stamped>)
    requires Timed(h)
    ensures CountOffline(Transitions(p, h)) == Outages(h)
  {
    if h != [] {
      var before := h[..|h| - 1];
      OneReportPerOutage(p, before);
      TransitionsExactly(p, before, h[|h| - 1]);
      var t := Transitions(p, before);
      assert CountOffline(t + [true]) == CountOffline(t) + 1 && CountOffline(t + [false]) == CountOffline(t) by {
        assert (t + [true])[..|t|] == t && (t + [false])[..|t|] == t;
      }
      assert t + [] == t;
    }
  }
}
