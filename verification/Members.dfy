/** `SyncGroupMembers` (internal/node/protocol.go): learning members from other nodes'
    tables, each accepted only with a proof of admission. */
module Members {
  import opened Base

  /** A member record; `proof` stands for its signature or invite. */
  datatype Member = Member(peer: Peer, nickname: string, proof: string)

  type Table = map<Peer, Member>

  /** Whether `VerifyMembership` accepts a record; signatures are not modelled. */
  type Verify = Member -> bool

  predicate Acceptable(m: Member, self: Peer, verify: Verify) {
    m.peer != self && verify(m)
  }

  /** What happens to a node's table during a round: a connected peer's list offers a record,
      which the store may refuse to take, or `handleJoin` stores one meanwhile. */
  datatype Item = Offered(m: Member, refused: bool) | Joined(m: Member)

  /** The stored table, and the peers the round counts as known. */
  datatype Round = Round(t: Table, known: set<Peer>)

  /** An offer is taken if it is about somebody not known and not this node, is proven, and
      the store takes it; whatever was stored about that peer is replaced. */
  function Took(r: Round, self: Peer, verify: Verify, x: Item): Round {
    match x
    case Joined(m) => r.(t := r.t[m.peer := m])
    case Offered(m, refused) =>
      if m.peer in r.known || !Acceptable(m, self, verify) || refused then r
      else Round(r.t[m.peer := m], r.known + {m.peer})
  }

  function TookAll(r: Round, self: Peer, verify: Verify, items: seq<Item>): Round {
    if items == [] then r else Took(TookAll(r, self, verify, items[..|items| - 1]), self, verify, items[|items| - 1])
  }

  function Flat(lists: seq<seq<Item>>): seq<Item> {
    if lists == [] then [] else Flat(lists[..|lists| - 1]) + lists[|lists| - 1]
  }

  lemma {:induction false} TookAllAppend(r: Round, self: Peer, verify: Verify, a: seq<Item>, b: seq<Item>)
    ensures TookAll(r, self, verify, a + b) == TookAll(TookAll(r, self, verify, a), self, verify, b)
  {
    if b == [] {
      assert a + b == a;
    } else {
      assert (a + b)[..|a + b| - 1] == a + b[..|b| - 1];
      TookAllAppend(r, self, verify, a, b[..|b| - 1]);
    }
  }

  /** One group's round: what the connected peers' lists bring, in their order. If the local
      members cannot be listed, nobody counts as known. */
  method SyncRound(table: Table, listed: bool, self: Peer, verify: Verify, fetched: seq<seq<Item>>) returns (t: Table)
    ensures t == TookAll(Round(table, if listed then table.Keys else {}), self, verify, Flat(fetched)).t
  {
    var known := if listed then table.Keys else {};
    ghost var start := Round(table, known);
    t := table;
    for i := 0 to |fetched|
      invariant Round(t, known) == TookAll(start, self, verify, Flat(fetched[..i]))
    {
      t, known := MergeList(t, known, self, verify, fetched[i]);
      assert fetched[..i + 1][..i] == fetched[..i];
      TookAllAppend(start, self, verify, Flat(fetched[..i]), fetched[i]);
    }
    assert fetched[..|fetched|] == fetched;
  }

  /** The inner loop: one peer's list, and what is stored meanwhile. */
  method MergeList(table: Table, knownBefore: set<Peer>, self: Peer, verify: Verify, items: seq<Item>)
    returns (t: Table, known: set<Peer>)
    ensures Round(t, known) == TookAll(Round(table, knownBefore), self, verify, items)
  {
    t, known := table, knownBefore;
    for i := 0 to |items|
      invariant Round(t, known) == TookAll(Round(table, knownBefore), self, verify, items[..i])
    {
      assert items[..i + 1][..i] == items[..i];
      match items[i] {
        case Joined(m) =>
          t := t[m.peer := m];
        case Offered(m, refused) =>
          if m.peer !in known && m.peer != self && verify(m) && !refused {
            t, known := t[m.peer := m], known + {m.peer};
          }
      }
    }
    assert items[..|items|] == items;
  }

  /** The item stores something about p, given who counted as known at the start. */
  predicate Touches(known: set<Peer>, self: Peer, verify: Verify, x: Item, p: Peer) {
    x.m.peer == p && (x.Joined? || (p !in known && !x.refused && Acceptable(x.m, self, verify)))
  }

  ghost predicate Touched(known: set<Peer>, self: Peer, verify: Verify, items: seq<Item>, p: Peer) {
    exists x :: x in items && Touches(known, self, verify, x, p)
  }

  /** Exactly what a round does to the record of p, whatever the order of lists and offers:
      one that nothing touches stays, or stays missing; any other is one of those that
      touch it. */
  lemma {:induction false} RoundExactly(r: Round, self: Peer, verify: Verify, items: seq<Item>, p: Peer)
    ensures var e := TookAll(r, self, verify, items);
            && (p in e.t <==> p in r.t || Touched(r.known, self, verify, items, p))
            && (!Touched(r.known, self, verify, items, p) && p in r.t ==> e.t[p] == r.t[p])
            && (Touched(r.known, self, verify, items, p) ==>
                  exists x :: x in items && Touches(r.known, self, verify, x, p) && e.t[p] == x.m)
            && r.known <= e.known && (p in e.known && p !in r.known ==> Touched(r.known, self, verify, items, p))
  {
    if items != [] {
      var n := |items| - 1;
      RoundExactly(r, self, verify, items[..n], p);
      assert items == items[..n] + [items[n]];
      TouchedSnoc(r.known, self, verify, items[..n], items[n], p);
      var d := TookAll(r, self, verify, items[..n]);
      if Touched(r.known, self, verify, items[..n], p) && d.t[p] == Took(d, self, verify, items[n]).t[p] {
        var x :| x in items[..n] && Touches(r.known, self, verify, x, p) && d.t[p] == x.m;
        assert x in items;
      } else if Touches(r.known, self, verify, items[n], p) {
        assert items[n] in items;
      }
    }
  }

  lemma TouchedSnoc(known: set<Peer>, self: Peer, verify: Verify, items: seq<Item>, x: Item, p: Peer)
    ensures Touched(known, self, verify, items + [x], p) <==>
              Touched(known, self, verify, items, p) || Touches(known, self, verify, x, p)
  {
    if y :| y in items && Touches(known, self, verify, y, p) {
      assert y in items + [x];
    }
    if Touches(known, self, verify, x, p) {
      assert x in items + [x];
    }
  }

  /** Item i stores a record of p: it is a join, or the first offer of p that is taken. */
  ghost predicate Takes(known: set<Peer>, self: Peer, verify: Verify, items: seq<Item>, p: Peer, i: nat)
    requires i < |items|
  {
    Touches(known, self, verify, items[i], p) &&
    (items[i].Offered? ==>
       forall k :: 0 <= k < i ==> !(items[k].Offered? && Touches(known, self, verify, items[k], p)))
  }

  /** A peer comes to be known by an offer that is taken, not by a join. */
  lemma {:induction false} KnownExactly(r: Round, self: Peer, verify: Verify, items: seq<Item>, p: Peer)
    ensures p in TookAll(r, self, verify, items).known <==>
              p in r.known || exists k :: 0 <= k < |items| && items[k].Offered? &&
                                          Touches(r.known, self, verify, items[k], p)
  {
    if items != [] {
      var n := |items| - 1;
      KnownExactly(r, self, verify, items[..n], p);
      assert items == items[..n] + [items[n]];
      assert forall k :: 0 <= k < n ==> items[k] == items[..n][k];
    }
  }

  /** Exactly which record a round leaves: that of the last item that takes. So of several
      proven offers the first one wins, and a join wins over what came before it. */
  lemma {:induction false} LastTakenWins(r: Round, self: Peer, verify: Verify, items: seq<Item>, p: Peer, i: nat)
    requires i < |items| && Takes(r.known, self, verify, items, p, i)
    requires forall j :: i < j < |items| ==> !Takes(r.known, self, verify, items, p, j)
    ensures var t := TookAll(r, self, verify, items).t; p in t && t[p] == items[i].m
  {
    var n := |items| - 1;
    var front := items[..n];
    KnownExactly(r, self, verify, front, p);
    assert forall k :: 0 <= k < n ==> items[k] == front[k];
    if i < n {
      forall j | i < j < n
        ensures !Takes(r.known, self, verify, front, p, j)
      {
        assert !Takes(r.known, self, verify, items, p, j);
      }
      LastTakenWins(r, self, verify, front, p, i);
      assert !Takes(r.known, self, verify, items, p, n);
    }
  }

  /** A stored record that differs from all that are about its peer survives exactly if none
      is stored meanwhile and, unless the peer counts as known, no proven one about
      somebody else than this node is offered and taken. */
  lemma SurvivesExactly(r: Round, self: Peer, verify: Verify, items: seq<Item>, p: Peer)
    requires p in r.t && forall x :: x in items && x.m.peer == p ==> x.m != r.t[p]
    ensures var e := TookAll(r, self, verify, items);
            p in e.t && (e.t[p] == r.t[p] <==> !Touched(r.known, self, verify, items, p))
  {
    RoundExactly(r, self, verify, items, p);
  }

  /** So a round keeps known records only if it could list them: when it could not, every
      stored record of another peer gives way to any proven one that is offered. */
  lemma OverwrittenWhenUnlisted(table: Table, self: Peer, verify: Verify, m: Member)
    requires m.peer in table && table[m.peer] != m && Acceptable(m, self, verify)
    ensures TookAll(Round(table, {}), self, verify, [Offered(m, false)]).t == table[m.peer := m] != table
    ensures TookAll(Round(table, table.Keys), self, verify, [Offered(m, false)]).t == table
  {
    assert [Offered(m, false)][..0] == [];
    assert table[m.peer := m][m.peer] == m;
  }

  /** Whom a round adds depends only on which offers and joins there were, not on their order. */
  lemma SameOffersSameMembers(r: Round, self: Peer, verify: Verify, a: seq<Item>, b: seq<Item>)
    requires forall x :: x in a <==> x in b
    ensures TookAll(r, self, verify, a).t.Keys == TookAll(r, self, verify, b).t.Keys
  {
    forall p
      ensures p in TookAll(r, self, verify, a).t <==> p in TookAll(r, self, verify, b).t
    {
      RoundExactly(r, self, verify, a, p);
      RoundExactly(r, self, verify, b, p);
    }
  }

  // ----- a round without mishaps -----

  function Plain(ms: seq<Member>): (items: seq<Item>)
    ensures |items| == |ms| && forall i :: 0 <= i < |ms| ==> items[i] == Offered(ms[i], false)
  {
    seq(|ms|, i requires 0 <= i < |ms| => Offered(ms[i], false))
  }

  /** The members were listed, nobody joined meanwhile, and the store took everything. */
  function MergedAll(t: Table, self: Peer, verify: Verify, ms: seq<Member>): Table {
    TookAll(Round(t, t.Keys), self, verify, Plain(ms)).t
  }

  lemma PlainTouched(t: Table, self: Peer, verify: Verify, ms: seq<Member>, p: Peer)
    ensures Touched(t.Keys, self, verify, Plain(ms), p) <==>
              p !in t && exists m :: m in ms && m.peer == p && Acceptable(m, self, verify)
    ensures forall x :: x in Plain(ms) <==> x.Offered? && !x.refused && x.m in ms
  {
    forall x
      ensures x in Plain(ms) <==> x.Offered? && !x.refused && x.m in ms
    {
      if x.Offered? && !x.refused && x.m in ms {
        var i :| 0 <= i < |ms| && ms[i] == x.m;
        assert Plain(ms)[i] == x;
      }
    }
    if m :| m in ms && m.peer == p && Acceptable(m, self, verify) && p !in t {
      assert Touches(t.Keys, self, verify, Offered(m, false), p);
    }
  }

  /** Whom such a round adds depends only on which records were offered. */
  lemma RoundIsConfluent(t: Table, self: Peer, verify: Verify, ms: seq<Member>)
    ensures var r := MergedAll(t, self, verify, ms);
            forall p :: p in r <==> p in t || exists m :: m in ms && m.peer == p && Acceptable(m, self, verify)
  {
    forall p
      ensures p in MergedAll(t, self, verify, ms) <==>
                p in t || exists m :: m in ms && m.peer == p && Acceptable(m, self, verify)
    {
      PlainTouched(t, self, verify, ms, p);
      RoundExactly(Round(t, t.Keys), self, verify, Plain(ms), p);
    }
  }

  /** It keeps what is known and adds only acceptable records. */
  lemma RoundKeeps(t: Table, self: Peer, verify: Verify, ms: seq<Member>, p: Peer)
    ensures var r := MergedAll(t, self, verify, ms);
            && (p in t ==> p in r && r[p] == t[p])
            && (p in r && p !in t ==> r[p].peer == p && Acceptable(r[p], self, verify) && r[p] in ms)
  {
    PlainTouched(t, self, verify, ms, p);
    RoundExactly(Round(t, t.Keys), self, verify, Plain(ms), p);
  }

  /** Of several proven records about a new peer it keeps the first. */
  lemma FirstProvenWins(t: Table, self: Peer, verify: Verify, ms: seq<Member>, i: nat)
    requires i < |ms| && ms[i].peer !in t && Acceptable(ms[i], self, verify)
    requires forall k :: 0 <= k < i ==> ms[k].peer != ms[i].peer || !Acceptable(ms[k], self, verify)
    ensures var r := MergedAll(t, self, verify, ms); ms[i].peer in r && r[ms[i].peer] == ms[i]
  {
    var items, p := Plain(ms), ms[i].peer;
    assert Touches(t.Keys, self, verify, items[i], p);
    LastTakenWins(Round(t, t.Keys), self, verify, items, p, i);
  }

  lemma NothingTaken(t: Table, self: Peer, verify: Verify, m: Member)
    requires m.peer in t || !Acceptable(m, self, verify)
    ensures MergedAll(t, self, verify, [m]) == t
  {
    var r, x := Round(t, t.Keys), Offered(m, false);
    assert Plain([m]) == [x] && [x][..0] == [];
    assert TookAll(r, self, verify, [x]) == Took(TookAll(r, self, verify, []), self, verify, x);
  }

  // ----- gossip over many nodes -----

  type Tables = map<Peer, Table>

  /** `node` syncs from `sources`; `offered` are the records they sent, in any order. */
  datatype Sync = Sync(node: Peer, sources: set<Peer>, offered: seq<Member>)

  /** The records offered are those in the sources' tables. */
  ghost predicate Honest(ts: Tables, s: Sync) {
    && s.node in ts && s.sources <= ts.Keys
    && forall m :: m in s.offered <==> exists q, p :: q in s.sources && p in ts[q] && ts[q][p] == m
  }

  ghost function Synced(ts: Tables, s: Sync, verify: Verify): Tables {
    if Honest(ts, s) then ts[s.node := MergedAll(ts[s.node], s.node, verify, s.offered)] else ts
  }

  ghost function Gossip(ts: Tables, run: seq<Sync>, verify: Verify): Tables {
    if run == [] then ts else Synced(Gossip(ts, run[..|run| - 1], verify), run[|run| - 1], verify)
  }

  ghost predicate HasProof(t: Table, x: Peer, verify: Verify) {
    x in t && verify(t[x])
  }

  /** Tables are keyed by the peer that a record is about. */
  ghost predicate Keyed(ts: Tables) {
    forall q, p :: q in ts && p in ts[q] ==> ts[q][p].peer == p
  }

  /** Exactly when a node has a proven record about x after a sync: it had one, or it had
      none at all, is not x, and some source sent one. */
  lemma ProofSpreadsExactly(ts: Tables, s: Sync, verify: Verify, x: Peer)
    requires Honest(ts, s) && Keyed(ts)
    ensures HasProof(Synced(ts, s, verify)[s.node], x, verify) <==>
              || HasProof(ts[s.node], x, verify)
              || (x !in ts[s.node] && x != s.node && exists q :: q in s.sources && HasProof(ts[q], x, verify))
  {
    RoundIsConfluent(ts[s.node], s.node, verify, s.offered);
    RoundKeeps(ts[s.node], s.node, verify, s.offered, x);
    if q :| q in s.sources && HasProof(ts[q], x, verify) {
      assert ts[q][x] in s.offered;
    }
    if x !in ts[s.node] && x in Synced(ts, s, verify)[s.node] {
      var q, p :| q in s.sources && p in ts[q] && ts[q][p] == Synced(ts, s, verify)[s.node][x];
      assert p == x;
    }
  }

  /** The node starts with a record about x that proves nothing. */
  ghost predicate Blocked(ts: Tables, q: Peer, x: Peer, verify: Verify) {
    q in ts && x in ts[q] && !verify(ts[q][x])
  }

  /** The nodes that x's proof reaches: those that have it to begin with and, sync by sync,
      those that fetch from one of them, are not x, and did not start out blocked. */
  ghost function Reach(ts: Tables, run: seq<Sync>, verify: Verify, x: Peer): set<Peer> {
    if run == [] then set q | q in ts && HasProof(ts[q], x, verify)
    else
      var before, s := run[..|run| - 1], run[|run| - 1];
      var r := Reach(ts, before, verify, x);
      if Honest(Gossip(ts, before, verify), s) && s.node != x && !Blocked(ts, s.node, x, verify) && s.sources * r != {}
      then r + {s.node} else r
  }

  /** What a sync keeps: who takes part, the keys, and every record about x. */
  lemma SyncKeeps(ts: Tables, s: Sync, verify: Verify, x: Peer)
    requires Keyed(ts)
    ensures var us := Synced(ts, s, verify);
            && us.Keys == ts.Keys && Keyed(us)
            && (forall q :: q in ts && x in ts[q] ==> x in us[q] && us[q][x] == ts[q][x])
            && (forall q :: q in ts && x in us[q] && x !in ts[q] ==> verify(us[q][x]))
  {
    if Honest(ts, s) {
      RoundKeeps(ts[s.node], s.node, verify, s.offered, x);
      forall p | p in Synced(ts, s, verify)[s.node]
        ensures Synced(ts, s, verify)[s.node][p].peer == p
      {
        RoundKeeps(ts[s.node], s.node, verify, s.offered, p);
      }
    }
  }

  /** Over every run of syncs: records persist, no unproven one is ever added, and exactly
      the nodes that x's proof reaches have one. */
  lemma {:induction false} ProvenRecordsSpread(ts: Tables, run: seq<Sync>, verify: Verify, x: Peer)
    requires Keyed(ts)
    ensures var us := Gossip(ts, run, verify);
            && us.Keys == ts.Keys && Keyed(us)
            && (forall q :: q in ts && x in ts[q] ==> x in us[q] && us[q][x] == ts[q][x])
            && (forall q :: Blocked(us, q, x, verify) <==> Blocked(ts, q, x, verify))
            && (forall q :: q in Reach(ts, run, verify, x) <==> q in us && HasProof(us[q], x, verify))
  {
    if run != [] {
      var before, s := run[..|run| - 1], run[|run| - 1];
      var vs := Gossip(ts, before, verify);
      ProvenRecordsSpread(ts, before, verify, x);
      SyncKeeps(vs, s, verify, x);
      if Honest(vs, s) {
        ProofSpreadsExactly(vs, s, verify, x);
        SourceHasProof(vs, s, Reach(ts, before, verify, x), verify, x);
      }
    }
  }

  lemma SourceHasProof(vs: Tables, s: Sync, r: set<Peer>, verify: Verify, x: Peer)
    requires s.sources <= vs.Keys && forall q :: q in r <==> q in vs && HasProof(vs[q], x, verify)
    ensures s.sources * r != {} <==> exists q :: q in s.sources && HasProof(vs[q], x, verify)
  {
    if q :| q in s.sources && HasProof(vs[q], x, verify) {
      assert q in s.sources * r;
    }
    if s.sources * r != {} {
      var q :| q in s.sources * r;
    }
  }

  /** A blocked node in between is enough to stop the proof: c fetches from b after b
      fetched from a, who has it, and c has nothing. */
  lemma UnprovenRecordBlocks(x: Peer, verify: Verify, good: Member, bad: Member)
    requires good.peer == x && bad.peer == x && verify(good) && !verify(bad)
    requires x != "b" && x != "c"
    ensures var ts := map["a" := map[x := good], "b" := map[x := bad], "c" := map[]];
            var s1, s2 := Sync("b", {"a"}, [good]), Sync("c", {"b"}, [bad]);
            && Honest(ts, s1) && Honest(Gossip(ts, [s1], verify), s2)
            && "c" in Gossip(ts, [s1, s2], verify) && x !in Gossip(ts, [s1, s2], verify)["c"]
  {
    var ts: Tables := map["a" := map[x := good], "b" := map[x := bad], "c" := map[]];
    var s1, s2 := Sync("b", {"a"}, [good]), Sync("c", {"b"}, [bad]);
    assert Honest(ts, s1) by {
      assert "a" in s1.sources && x in ts["a"];
    }
    NothingTaken(ts["b"], "b", verify, good);
    assert Synced(ts, s1, verify) == ts;
    assert Honest(ts, s2) by {
      assert "b" in s2.sources && x in ts["b"];
    }
    NothingTaken(ts["c"], "c", verify, bad);
    assert Synced(ts, s2, verify) == ts;
    assert [s1, s2][..1] == [s1] && [s1][..0] == [];
    assert Gossip(ts, [s1], verify) == ts;
    assert Gossip(ts, [s1, s2], verify) == ts;
  }
}
