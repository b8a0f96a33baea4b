/** Accounting on both sides of a block request (internal/node/blocks.go): the server
    records before it answers, the client when an OK reply arrives. Each entry lives in a
    ledger that is flushed in the background, with the races of `LedgerRace`. */
module Traffic {
  import opened Base
  import opened Ledger
  import Race = LedgerRace

  /** An OK reply on its way from server to client, to a put or a get of n bytes. */
  datatype Reply = Reply(client: Peer, server: Peer, put: bool, n: nat)

  /** The entry that `node` keeps about `peer`. */
  datatype Pair = Pair(node: Peer, peer: Peer)

  datatype State = State(books: map<Pair, Race.Cell>, flying: seq<Reply>, lost: seq<Reply>)

  /** When a record is made, and whether the disk is unreadable then. */
  datatype When = When(time: nat, unread: bool)

  datatype Act =
    | Serve(r: Reply, at: When)            // handleBlocks, successful request
    | Deliver(i: nat, at: When)            // PutShardOnPeer / GetShardFromPeer return
    | Lose(i: nat)                        // the stream breaks before the reply is read
    | Probe(node: Peer, peer: Peer, ok: bool, at: When)
    | Flush(node: Peer, peer: Peer, step: Race.Act) // swap, write or failed write

  function CellOf(s: State, node: Peer, peer: Peer): Race.Cell {
    if Pair(node, peer) in s.books then s.books[Pair(node, peer)] else Race.Cell(None, None, None)
  }

  function Served(r: Reply, at: When): Race.Act {
    Race.Record(Stamped(if r.put then StoredForThem(r.n) else ServedToThem(r.n), at.time), at.unread)
  }

  function Received(r: Reply, at: When): Race.Act {
    Race.Record(Stamped(if r.put then StoredOnThem(r.n) else DownloadedFrom(r.n), at.time), at.unread)
  }

  function Probed(ok: bool, at: When): Race.Act {
    Race.Record(Stamped(Ping(ok), at.time), at.unread)
  }

  function Noted(s: State, node: Peer, peer: Peer, a: Race.Act): State {
    s.(books := s.books[Pair(node, peer) := Race.Step(peer, CellOf(s, node, peer), a)])
  }

  function Without(q: seq<Reply>, i: nat): seq<Reply>
    requires i < |q|
  {
    q[..i] + q[i + 1..]
  }

  function Step(s: State, a: Act): State {
    match a
    case Serve(r, at) => Noted(s, r.server, r.client, Served(r, at)).(flying := s.flying + [r])
    case Deliver(i, at) =>
      if i >= |s.flying| then s
      else
        var r := s.flying[i];
        Noted(s, r.client, r.server, Received(r, at)).(flying := Without(s.flying, i))
    case Lose(i) =>
      if i >= |s.flying| then s else s.(flying := Without(s.flying, i), lost := s.lost + [s.flying[i]])
    case Probe(node, peer, ok, at) => Noted(s, node, peer, Probed(ok, at))
    case Flush(node, peer, step) => if step.Record? then s else Noted(s, node, peer, step)
  }

  function Run(run: seq<Act>): State {
    if run == [] then State(map[], [], []) else Step(Run(run[..|run| - 1]), run[|run| - 1])
  }

  // ----- one entry at a time -----

  /** What a step does to the entry that `node` keeps about `peer`. */
  function Touches(s: State, a: Act, node: Peer, peer: Peer): seq<Race.Act> {
    match a
    case Serve(r, at) => if r.server == node && r.client == peer then [Served(r, at)] else []
    case Deliver(i, at) =>
      if i < |s.flying| && s.flying[i].client == node && s.flying[i].server == peer
      then [Received(s.flying[i], at)] else []
    case Lose(i) => []
    case Probe(n, p, ok, at) => if n == node && p == peer then [Probed(ok, at)] else []
    case Flush(n, p, step) => if n == node && p == peer && !step.Record? then [step] else []
  }

  function Entries(run: seq<Act>, node: Peer, peer: Peer): seq<Race.Act> {
    if run == [] then []
    else Entries(run[..|run| - 1], node, peer) + Touches(Run(run[..|run| - 1]), run[|run| - 1], node, peer)
  }

  lemma StepOnCell(s: State, a: Act, node: Peer, peer: Peer)
    ensures var t := Touches(s, a, node, peer);
            CellOf(Step(s, a), node, peer) ==
              if t == [] then CellOf(s, node, peer) else Race.Step(peer, CellOf(s, node, peer), t[0])
  {
  }

  /** The entry is what its own swaps, writes and records make it. */
  lemma {:induction false} CellIsRun(run: seq<Act>, node: Peer, peer: Peer)
    ensures CellOf(Run(run), node, peer) == Race.Run(peer, Entries(run, node, peer))
  {
    if run != [] {
      var before, a := run[..|run| - 1], run[|run| - 1];
      CellIsRun(before, node, peer);
      StepOnCell(Run(before), a, node, peer);
      var e, t := Entries(before, node, peer), Touches(Run(before), a, node, peer);
      if t == [] {
        assert e + t == e;
      } else {
        assert (e + t)[..|e|] == e && (e + t)[|e|] == t[0];
      }
    }
  }

  // ----- the four columns -----

  datatype Column = StoredFor | ServedTo | StoredOn | Fetched

  function Counter(e: Entry, c: Column): int {
    match c
    case StoredFor => e.storedForThem
    case ServedTo => e.servedToThem
    case StoredOn => e.storedOnThem
    case Fetched => e.downloadedFrom
  }

  function Gain(e: Event, c: Column): int {
    match e
    case StoredForThem(n) => if c.StoredFor? then n else 0
    case ServedToThem(n) => if c.ServedTo? then n else 0
    case StoredOnThem(n) => if c.StoredOn? then n else 0
    case DownloadedFrom(n) => if c.Fetched? then n else 0
    case Ping(_) => 0
  }

  function Total(h: seq<Stamped>, c: Column): int {
    if h == [] then 0 else Total(h[..|h| - 1], c) + Gain(h[|h| - 1].event, c)
  }

  lemma TotalSnoc(h: seq<Stamped>, s: Stamped, c: Column)
    ensures Total(h + [s], c) == Total(h, c) + Gain(s.event, c)
  {
    assert (h + [s])[..|h|] == h;
  }

  lemma AppliedCounter(e: Entry, s: Stamped, c: Column)
    ensures Counter(Applied(e, s), c) == Counter(e, c) + Gain(s.event, c)
  {
  }

  lemma {:induction false} FoldCounter(p: Peer, h: seq<Stamped>, c: Column)
    ensures Counter(Fold(p, h), c) == Total(h, c)
  {
    if h != [] {
      FoldCounter(p, h[..|h| - 1], c);
      AppliedCounter(Fold(p, h[..|h| - 1]), h[|h| - 1], c);
    }
  }

  ghost predicate Counts(h: seq<Stamped>, c: Column) {
    forall i :: 0 <= i < |h| ==> Gain(h[i].event, c) >= 0
  }

  /** No copy of an entry accounts for more than was recorded. */
  ghost predicate Bounded(h: Race.Shadow, most: int, c: Column) {
    && 0 <= Total(h.disk, c) <= most
    && (h.dirty.Some? ==> 0 <= Total(h.dirty.value, c) <= most)
    && (h.pending.Some? ==> 0 <= Total(h.pending.value, c) <= most)
  }

  lemma {:induction false} NothingInvented(acts: seq<Race.Act>, c: Column)
    requires Counts(Race.Recorded(acts), c)
    ensures Bounded(Race.ShadowRun(acts), Total(Race.Recorded(acts), c), c)
  {
    if acts != [] {
      var before, a := acts[..|acts| - 1], acts[|acts| - 1];
      var h, events := Race.ShadowRun(before), Race.Recorded(before);
      if a.Record? {
        assert Race.Recorded(acts) == events + [a.s];
        assert Counts(events, c) by {
          assert forall i :: 0 <= i < |events| ==> events[i] == Race.Recorded(acts)[i];
        }
        assert Gain(Race.Recorded(acts)[|events|].event, c) >= 0;
        NothingInvented(before, c);
        TotalSnoc(events, a.s, c);
        TotalSnoc(if h.dirty.Some? then h.dirty.value else if a.unread then [] else h.disk, a.s, c);
      } else {
        assert Race.Recorded(acts) == events;
        NothingInvented(before, c);
      }
    }
  }

  /** Bytes on record for an entry: never more than were recorded, and all of them if no
      record fell between a swap and its write or could not read the disk, and no write
      failed. */
  lemma CounterOfEntry(run: seq<Act>, node: Peer, peer: Peer, c: Column)
    requires Counts(Race.Recorded(Entries(run, node, peer)), c)
    ensures var acts := Entries(run, node, peer);
            && 0 <= Counter(Book(Run(run), node, peer), c) <= Total(Race.Recorded(acts), c)
            && (!Race.EverLoses(peer, acts) ==> Counter(Book(Run(run), node, peer), c) == Total(Race.Recorded(acts), c))
  {
    var acts := Entries(run, node, peer);
    CellIsRun(run, node, peer);
    Race.NewestIsFold(peer, acts);
    FoldCounter(peer, Race.Kept(Race.ShadowRun(acts)), c);
    NothingInvented(acts, c);
    Race.ExactlyWhenEventsSurvive(peer, acts);
  }

  // ----- both sides -----

  /** The entry as the node will see it once its flushes have ended. */
  function Book(s: State, node: Peer, peer: Peer): Entry {
    Race.Newest(peer, CellOf(s, node, peer))
  }

  function ServerColumn(put: bool): Column {
    if put then StoredFor else ServedTo
  }

  function ClientColumn(put: bool): Column {
    if put then StoredOn else Fetched
  }

  /** What the server has on record for the client, and the client for the server. */
  function ServerSide(s: State, client: Peer, server: Peer, put: bool): int {
    Counter(Book(s, server, client), ServerColumn(put))
  }

  function ClientSide(s: State, client: Peer, server: Peer, put: bool): int {
    Counter(Book(s, client, server), ClientColumn(put))
  }

  /** Bytes of the replies in `q` from `server` to `client`, puts or gets. */
  function Carried(q: seq<Reply>, client: Peer, server: Peer, put: bool): nat {
    if q == [] then 0
    else Carried(q[..|q| - 1], client, server, put) + Share(q[|q| - 1], client, server, put)
  }

  function Share(r: Reply, client: Peer, server: Peer, put: bool): nat {
    if r.client == client && r.server == server && r.put == put then r.n else 0
  }

  lemma CarriedSnoc(q: seq<Reply>, r: Reply, client: Peer, server: Peer, put: bool)
    ensures Carried(q + [r], client, server, put) == Carried(q, client, server, put) + Share(r, client, server, put)
  {
    assert (q + [r])[..|q|] == q;
  }

  lemma {:induction false} CarriedWithout(q: seq<Reply>, i: nat, client: Peer, server: Peer, put: bool)
    requires i < |q|
    ensures Carried(q, client, server, put) == Carried(Without(q, i), client, server, put) +
              Share(q[i], client, server, put)
  {
    var n := |q| - 1;
    if i == n {
      assert Without(q, i) == q[..n];
    } else {
      CarriedWithout(q[..n], i, client, server, put);
      assert Without(q, i) == Without(q[..n], i) + [q[n]];
      CarriedSnoc(Without(q[..n], i), q[n], client, server, put);
    }
  }

  /** What one step adds to an entry's records. */
  function Added(s: State, a: Act, node: Peer, peer: Peer, c: Column): int {
    var t := Touches(s, a, node, peer);
    if t != [] && t[0].Record? then Gain(t[0].s.event, c) else 0
  }

  lemma RecordedSnoc(acts: seq<Race.Act>, t: seq<Race.Act>, c: Column)
    requires |t| <= 1
    ensures Total(Race.Recorded(acts + t), c) ==
            Total(Race.Recorded(acts), c) + (if t != [] && t[0].Record? then Gain(t[0].s.event, c) else 0)
    ensures Counts(Race.Recorded(acts), c) && (t != [] && t[0].Record? ==> Gain(t[0].s.event, c) >= 0) ==>
              Counts(Race.Recorded(acts + t), c)
  {
    if t == [] {
      assert acts + t == acts;
    } else {
      assert (acts + t)[..|acts|] == acts && (acts + t)[|acts|] == t[0];
      if t[0].Record? {
        assert Race.Recorded(acts + t) == Race.Recorded(acts) + [t[0].s];
        TotalSnoc(Race.Recorded(acts), t[0].s, c);
      } else {
        assert Race.Recorded(acts + t) == Race.Recorded(acts);
      }
    }
  }

  /** Each step adds as much on the server's side as on the client's plus what it leaves in
      flight or loses. */
  ghost predicate Balances(s: State, a: Act, client: Peer, server: Peer, put: bool) {
    var t := Step(s, a);
    var more, less := Added(s, a, server, client, ServerColumn(put)), Added(s, a, client, server, ClientColumn(put));
    && more >= 0 && less >= 0
    && more + Carried(s.flying, client, server, put) + Carried(s.lost, client, server, put) ==
       less + Carried(t.flying, client, server, put) + Carried(t.lost, client, server, put)
  }

  lemma ServeBalances(s: State, r: Reply, at: When, client: Peer, server: Peer, put: bool)
    ensures Balances(s, Serve(r, at), client, server, put)
  {
    CarriedSnoc(s.flying, r, client, server, put);
  }

  lemma DeliverBalances(s: State, i: nat, at: When, client: Peer, server: Peer, put: bool)
    ensures Balances(s, Deliver(i, at), client, server, put)
  {
    DeliverAdds(s, i, at, client, server, put);
    DeliverMoves(s, i, at);
    if i < |s.flying| {
      CarriedWithout(s.flying, i, client, server, put);
    }
  }

  lemma DeliverAdds(s: State, i: nat, at: When, client: Peer, server: Peer, put: bool)
    ensures Added(s, Deliver(i, at), server, client, ServerColumn(put)) == 0
    ensures Added(s, Deliver(i, at), client, server, ClientColumn(put)) ==
            if i < |s.flying| then Share(s.flying[i], client, server, put) else 0
  {
  }

  lemma DeliverMoves(s: State, i: nat, at: When)
    ensures Step(s, Deliver(i, at)).flying == if i < |s.flying| then Without(s.flying, i) else s.flying
    ensures Step(s, Deliver(i, at)).lost == s.lost
  {
  }

  lemma LoseBalances(s: State, i: nat, client: Peer, server: Peer, put: bool)
    ensures Balances(s, Lose(i), client, server, put)
  {
    if i < |s.flying| {
      CarriedWithout(s.flying, i, client, server, put);
      CarriedSnoc(s.lost, s.flying[i], client, server, put);
    }
  }

  lemma StepBalances(s: State, a: Act, client: Peer, server: Peer, put: bool)
    ensures Balances(s, a, client, server, put)
  {
    match a {
      case Serve(r, at) => ServeBalances(s, r, at, client, server, put);
      case Deliver(i, at) => DeliverBalances(s, i, at, client, server, put);
      case Lose(i) => LoseBalances(s, i, client, server, put);
      case Probe(node, peer, ok, at) =>
      case Flush(node, peer, step) =>
    }
  }

  /** Everything that `node` recorded about `peer`. */
  function Records(run: seq<Act>, node: Peer, peer: Peer): seq<Stamped> {
    Race.Recorded(Entries(run, node, peer))
  }

  lemma RecordsGrow(run: seq<Act>, node: Peer, peer: Peer, c: Column)
    requires run != []
    ensures var before, a := run[..|run| - 1], run[|run| - 1];
            && Total(Records(run, node, peer), c) == Total(Records(before, node, peer), c) +
                Added(Run(before), a, node, peer, c)
            && (Counts(Records(before, node, peer), c) && Added(Run(before), a, node, peer, c) >= 0 ==>
                Counts(Records(run, node, peer), c))
  {
    var before, a := run[..|run| - 1], run[|run| - 1];
    RecordedSnoc(Entries(before, node, peer), Touches(Run(before), a, node, peer), c);
  }

  /** Over every run: what the server recorded is what the client recorded plus the replies
      still in flight or lost. */
  lemma {:induction false} RecordsBalance(run: seq<Act>, client: Peer, server: Peer, put: bool)
    ensures Total(Records(run, server, client), ServerColumn(put)) ==
            Total(Records(run, client, server), ClientColumn(put))
            + Carried(Run(run).flying, client, server, put) + Carried(Run(run).lost, client, server, put)
    ensures Counts(Records(run, server, client), ServerColumn(put))
    ensures Counts(Records(run, client, server), ClientColumn(put))
  {
    if run != [] {
      RecordsBalance(run[..|run| - 1], client, server, put);
      StepBalances(Run(run[..|run| - 1]), run[|run| - 1], client, server, put);
      RecordsGrow(run, server, client, ServerColumn(put));
      RecordsGrow(run, client, server, ClientColumn(put));
    }
  }

  /** The ledger of `node` never lost events about `peer`. */
  ghost predicate Lossless(run: seq<Act>, node: Peer, peer: Peer) {
    !Race.EverLoses(peer, Entries(run, node, peer))
  }

  /** Over every run and for every pair, with both ledgers flushed at any time: if neither
      lost events, what the server counts is what the client counts plus the replies still
      in flight or lost. If the server's did not, the client never counts more. And if the
      client's did not, the client counts exactly what was delivered. */
  lemma BothSidesAgree(run: seq<Act>, client: Peer, server: Peer, put: bool)
    ensures var s := Run(run);
            var waiting := Carried(s.flying, client, server, put) + Carried(s.lost, client, server, put);
            && 0 <= ClientSide(s, client, server, put) && 0 <= ServerSide(s, client, server, put)
            && (Lossless(run, server, client) ==>
                ClientSide(s, client, server, put) + waiting <= ServerSide(s, client, server, put))
            && (Lossless(run, client, server) ==>
                ServerSide(s, client, server, put) <= ClientSide(s, client, server, put) + waiting)
            && (Lossless(run, server, client) && Lossless(run, client, server) ==>
                  ServerSide(s, client, server, put) == ClientSide(s, client, server, put) + waiting)
  {
    RecordsBalance(run, client, server, put);
    CounterOfEntry(run, server, client, ServerColumn(put));
    CounterOfEntry(run, client, server, ClientColumn(put));
  }

  /** Otherwise the client can count more than the server: sixteen bytes were stored and
      acknowledged, and then the server's flush failed. */
  lemma ClientCanExceed(client: Peer, server: Peer)
    requires client != server
    ensures var run := [Serve(Reply(client, server, true, 16), When(1, false)), Deliver(0, When(2, false)),
                        Flush(server, client, Race.Swap), Flush(server, client, Race.Fail)];
            ClientSide(Run(run), client, server, true) == 16 && ServerSide(Run(run), client, server, true) == 0
  {
    var r := Reply(client, server, true, 16);
    var a1, a2, a3, a4 := Serve(r, When(1, false)), Deliver(0, When(2, false)), Flush(server, client, Race.Swap),
        Flush(server, client, Race.Fail);
    RunSnoc([], a1);
    RunSnoc([a1], a2);
    RunSnoc([a1, a2], a3);
    RunSnoc([a1, a2, a3], a4);
    assert [] + [a1] == [a1];
    assert [a1] + [a2] == [a1, a2] && [a1, a2] + [a3] == [a1, a2, a3] && [a1, a2, a3] + [a4] == [a1, a2, a3, a4];
    var s1, s2, s3, s4 := Run([a1]), Run([a1, a2]), Run([a1, a2, a3]), Run([a1, a2, a3, a4]);
    var e1 := Applied(Fresh(client), Stamped(StoredForThem(16), 1));
    var e2 := Applied(Fresh(server), Stamped(StoredOnThem(16), 2));
    assert s1.flying == [r] && CellOf(s1, server, client) == Race.Cell(None, Some(e1), None);
    assert CellOf(s2, client, server) == Race.Cell(None, Some(e2), None);
    assert CellOf(s3, server, client).dirty.None? && CellOf(s3, server, client).disk.None?;
    assert CellOf(s4, server, client) == Race.Cell(None, None, None) &&
        CellOf(s4, client, server) == CellOf(s2, client, server);
  }

  lemma RunSnoc(run: seq<Act>, a: Act)
    ensures Run(run + [a]) == Step(Run(run), a)
  {
    assert (run + [a])[..|run|] == run;
  }
}
