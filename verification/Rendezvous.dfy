/** internal/holders: choosing a file's holders by highest rendezvous weight. `w(p)` is
    the weight of peer p for the file at hand, the first eight bytes of a SHA-256. */
module Rendezvous {
  import opened Base

  function Insert(x: Peer, ranked: seq<Peer>, w: Peer -> int): (r: seq<Peer>) {
    if ranked == [] || w(x) > w(ranked[0]) then [x] + ranked
    else [ranked[0]] + Insert(x, ranked[1..], w)
  }

  /** `sortByScore`: heaviest first. */
  function Ranked(candidates: seq<Peer>, w: Peer -> int): (r: seq<Peer>) {
    if candidates == [] then []
    else Insert(candidates[|candidates| - 1], Ranked(candidates[..|candidates| - 1], w), w)
  }

  function Top(scored: seq<Peer>, n: nat): seq<Peer> {
    if |scored| <= n then scored else scored[..n]
  }

  function Pick(candidates: seq<Peer>, w: Peer -> int, n: int): (r: seq<Peer>) {
    if n <= 0 then []
    else
      Top(Ranked(candidates, w), n)
  }

  method IndexOf(candidates: seq<Peer>, w: Peer -> int, peer: Peer) returns (i: int)
    ensures -1 <= i < |candidates|
    ensures i == -1 <==> peer !in candidates
    ensures i >= 0 ==> |Ranked(candidates, w)| == |candidates| && Ranked(candidates, w)[i] == peer
    ensures i >= 0 ==> peer !in Ranked(candidates, w)[..i]
  {
    var scored := Ranked(candidates, w);
    RankedPermutes(candidates, w);
    assert peer in candidates <==> peer in multiset(candidates);
    assert peer in scored <==> peer in multiset(scored);
    for j := 0 to |scored|
      invariant peer !in scored[..j]
    {
      if scored[j] == peer {
        return j;
      }
    }
    assert scored[..|scored|] == scored;
    return -1;
  }

  // ----- ranking -----

  ghost predicate Distinct(candidates: seq<Peer>, w: Peer -> int) {
    forall i, j :: 0 <= i < j < |candidates| ==> w(candidates[i]) != w(candidates[j])
  }

  ghost predicate Descending(s: seq<Peer>, w: Peer -> int) {
    forall i, j :: 0 <= i < j < |s| ==> w(s[i]) > w(s[j])
  }

  lemma {:induction false} InsertPermutes(x: Peer, s: seq<Peer>, w: Peer -> int)
    ensures multiset(Insert(x, s, w)) == multiset(s) + multiset{x}
    ensures |Insert(x, s, w)| == |s| + 1
  {
    if s != [] && w(x) <= w(s[0]) {
      InsertPermutes(x, s[1..], w);
      assert s == [s[0]] + s[1..];
    }
  }

  lemma {:induction false} RankedPermutes(c: seq<Peer>, w: Peer -> int)
    ensures multiset(Ranked(c, w)) == multiset(c)
    ensures |Ranked(c, w)| == |c|
  {
    if c != [] {
      var n := |c| - 1;
      RankedPermutes(c[..n], w);
      InsertPermutes(c[n], Ranked(c[..n], w), w);
      assert c == c[..n] + [c[n]];
    }
  }

  /** Insertion into a strictly descending list: everything heavier stays before, all
      else after. */
  lemma {:induction false} InsertPlaces(x: Peer, s: seq<Peer>, w: Peer -> int) returns (at: nat)
    requires Descending(s, w)
    requires forall y :: y in s ==> w(y) != w(x)
    ensures at <= |s| && Insert(x, s, w) == s[..at] + [x] + s[at..]
    ensures forall i :: 0 <= i < at ==> w(s[i]) > w(x)
    ensures forall i :: at <= i < |s| ==> w(x) > w(s[i])
  {
    if s == [] || w(x) > w(s[0]) {
      at := 0;
    } else {
      var t := s[1..];
      var rest := InsertPlaces(x, t, w);
      at := rest + 1;
      assert s[..at] == [s[0]] + t[..rest] && s[at..] == t[rest..];
      assert s[0] in s;
    }
  }

  lemma InsertDescends(x: Peer, s: seq<Peer>, w: Peer -> int)
    requires Descending(s, w)
    requires forall y :: y in s ==> w(y) != w(x)
    ensures Descending(Insert(x, s, w), w)
  {
    var at := InsertPlaces(x, s, w);
  }

  lemma LastWeighsDifferently(c: seq<Peer>, s: seq<Peer>, w: Peer -> int)
    requires Distinct(c, w) && c != [] && multiset(s) == multiset(c[..|c| - 1])
    ensures forall y :: y in s ==> w(y) != w(c[|c| - 1])
  {
    forall y | y in s
      ensures w(y) != w(c[|c| - 1])
    {
      assert y in multiset(s);
      var i :| 0 <= i < |c| - 1 && c[i] == y;
    }
  }

  lemma {:induction false} RankedDescends(c: seq<Peer>, w: Peer -> int)
    requires Distinct(c, w)
    ensures Descending(Ranked(c, w), w)
  {
    if c != [] {
      var n := |c| - 1;
      RankedDescends(c[..n], w);
      RankedPermutes(c[..n], w);
      LastWeighsDifferently(c, Ranked(c[..n], w), w);
      InsertDescends(c[n], Ranked(c[..n], w), w);
    }
  }

  /** Ranking lists the candidates, each once, heaviest first. */
  lemma RankedFacts(c: seq<Peer>, w: Peer -> int)
    requires Distinct(c, w)
    ensures |Ranked(c, w)| == |c| && Descending(Ranked(c, w), w)
    ensures forall x :: x in c <==> x in Ranked(c, w)
  {
    RankedPermutes(c, w);
    RankedDescends(c, w);
    forall x ensures x in c <==> x in Ranked(c, w) {
      assert x in multiset(c) <==> x in multiset(Ranked(c, w));
    }
  }

  lemma Inhabited(s: seq<Peer>)
    ensures s == [] || exists x :: x in s
  {
    if s != [] {
      assert s[0] in s;
    }
  }

  /** Two strictly descending lists of the same peers are the same list. */
  lemma {:induction false} DescendingUnique(s: seq<Peer>, t: seq<Peer>, w: Peer -> int)
    requires Descending(s, w) && Descending(t, w)
    requires forall x :: x in s <==> x in t
    ensures s == t
  {
    if s == [] || t == [] {
      Inhabited(s);
      Inhabited(t);
    } else {
      HeadIsHeaviest(s, t[0], w);
      HeadIsHeaviest(t, s[0], w);
      assert s == [s[0]] + s[1..] && t == [t[0]] + t[1..];
      assert s[0] in t && t[0] in s;
      forall x
        ensures x in s[1..] <==> x in t[1..]
      {
        if x in s[1..] { assert x in s; }
        if x in t[1..] { assert x in t; }
      }
      DescendingUnique(s[1..], t[1..], w);
    }
  }

  lemma HeadIsHeaviest(s: seq<Peer>, x: Peer, w: Peer -> int)
    requires Descending(s, w) && x in s
    ensures x == s[0] || w(s[0]) > w(x)
  {
  }

  // ----- what callers rely on -----

  /** `Pick` returns the n heaviest in order, and only that list has this property. */
  lemma PickIsTop(c: seq<Peer>, w: Peer -> int, n: int, r: seq<Peer>)
    requires Distinct(c, w)
    ensures r == Pick(c, w, n) <==> TopOf(r, c, w) && |r| == (if n <= 0 then 0 else Min(n, |c|))
  {
    RankedFacts(c, w);
    var top := Pick(c, w, n);
    if TopOf(r, c, w) && |r| == (if n <= 0 then 0 else Min(n, |c|)) {
      TopUnique(c, w, r, top);
    }
  }

  /** `r` is a descending list of candidates heavier than all the others. */
  ghost predicate TopOf(r: seq<Peer>, c: seq<Peer>, w: Peer -> int) {
    && Descending(r, w)
    && (forall x :: x in r ==> x in c)
    && (forall x, y :: x in c && x !in r && y in r ==> w(y) > w(x))
  }

  lemma TopUnique(c: seq<Peer>, w: Peer -> int, r: seq<Peer>, t: seq<Peer>)
    requires TopOf(r, c, w) && TopOf(t, c, w) && |r| == |t|
    ensures r == t
  {
    if x :| x in r && x !in t {
      TopContained(c, w, t, r, x);
      SubsetFull(t, r, w);
    } else if x :| x in t && x !in r {
      TopContained(c, w, r, t, x);
      SubsetFull(r, t, w);
    } else {
      DescendingUnique(r, t, w);
    }
  }

  /** If one top list has a peer the other lacks, it has all the other's peers. */
  lemma TopContained(c: seq<Peer>, w: Peer -> int, t: seq<Peer>, r: seq<Peer>, x: Peer)
    requires TopOf(r, c, w) && TopOf(t, c, w) && x in r && x !in t
    ensures forall y :: y in t ==> y in r
  {
    forall y | y in t
      ensures y in r
    {
      assert w(y) > w(x);
    }
  }

  lemma SubsetFull(t: seq<Peer>, r: seq<Peer>, w: Peer -> int)
    requires Descending(t, w) && Descending(r, w) && |t| == |r|
    requires forall y :: y in t ==> y in r
    ensures forall y :: y in r ==> y in t
  {
    var ts := set y | y in t;
    var rs := set y | y in r;
    NoDupCard(t, w);
    NoDupCard(r, w);
    assert ts <= rs;
    SubsetSameSize(ts, rs);
    forall y | y in r ensures y in t {
      assert y in ts;
    }
  }

  lemma SubsetSameSize(a: set<Peer>, b: set<Peer>)
    requires a <= b && |a| == |b|
    ensures a == b
  {
    assert |b - a| == |b| - |a|;
  }

  lemma {:induction false} NoDupCard(s: seq<Peer>, w: Peer -> int)
    requires Descending(s, w)
    ensures |set y | y in s| == |s|
  {
    if s != [] {
      var n := |s| - 1;
      NoDupCard(s[..n], w);
      assert s == s[..n] + [s[n]];
      assert (set y | y in s) == (set y | y in s[..n]) + {s[n]};
      assert s[n] !in s[..n];
    }
  }

  /** Whatever the weights, distinct candidates give distinct holders, one per slot. */
  lemma PickDistinct(c: seq<Peer>, w: Peer -> int, n: int)
    requires NoDup(c) && 1 <= n <= |c|
    ensures |Pick(c, w, n)| == n && NoDup(Pick(c, w, n))
    ensures forall x :: x in Pick(c, w, n) ==> x in c
  {
    var scored := Ranked(c, w);
    RankedPermutes(c, w);
    forall i, j | 0 <= i < j < |scored|
      ensures scored[i] != scored[j]
    {
      if scored[i] == scored[j] {
        TwiceInMultiset(scored, i, j);
        OnceInMultiset(c, scored[i]);
      }
    }
    forall x | x in Pick(c, w, n)
      ensures x in c
    {
      assert x in multiset(scored);
    }
  }

  lemma TwiceInMultiset(s: seq<Peer>, i: nat, j: nat)
    requires i < j < |s| && s[i] == s[j]
    ensures multiset(s)[s[i]] >= 2
  {
    assert s == s[..j] + [s[j]] + s[j + 1..];
    assert s[i] in s[..j];
  }

  lemma {:induction false} OnceInMultiset(s: seq<Peer>, x: Peer)
    requires NoDup(s)
    ensures multiset(s)[x] <= 1
  {
    if s != [] {
      var n := |s| - 1;
      assert s == s[..n] + [s[n]];
      OnceInMultiset(s[..n], x);
      assert s[n] !in s[..n];
    }
  }

  /** The choice depends on the candidate set alone, not on its order. */
  lemma PickOrderIndependent(c: seq<Peer>, d: seq<Peer>, w: Peer -> int, n: int)
    requires Distinct(c, w) && Distinct(d, w)
    requires forall x :: x in c <==> x in d
    ensures Pick(c, w, n) == Pick(d, w, n)
  {
    RankedFacts(c, w);
    RankedFacts(d, w);
    DescendingUnique(Ranked(c, w), Ranked(d, w), w);
  }

  lemma TopAfterInsert(s: seq<Peer>, x: Peer, at: nat, n: nat)
    requires at <= |s| && n >= 1
    ensures at >= n ==> Top(s[..at] + [x] + s[at..], n) == Top(s, n)
    ensures at < n ==> var before := Top(s, n);
                       at <= |before| &&
                       Top(s[..at] + [x] + s[at..], n) == before[..at] + [x] + before[at..Min(|before|, n - 1)]
  {
  }

  lemma TopAfterRemove(s: seq<Peer>, rank: nat, n: nat)
    requires rank < |s| && n >= 1
    ensures rank >= n ==> Top(s[..rank] + s[rank + 1..], n) == Top(s, n)
    ensures rank < n && |s| <= n ==> Top(s[..rank] + s[rank + 1..], n) == s[..rank] + s[rank + 1..]
    ensures rank < n < |s| ==> Top(s[..rank] + s[rank + 1..], n) == s[..n][..rank] + s[..n][rank + 1..] + [s[n]]
  {
  }

  /** A new member takes at most one slot: the others keep their order, and only the
      lightest holder of a full house gives way. */
  lemma JoinDisplacesAtMostOne(c: seq<Peer>, x: Peer, w: Peer -> int, n: int)
    requires Distinct(c, w) && (forall y :: y in c ==> w(y) != w(x)) && n >= 1
    ensures var before := Pick(c, w, n);
            var after := Pick(c + [x], w, n);
            || after == before
            || (exists at :: 0 <= at <= |before| && at < n &&
                  after == before[..at] + [x] + before[at..Min(|before|, n - 1)])
  {
    assert (c + [x])[..|c|] == c;
    RankedFacts(c, w);
    var at := InsertPlaces(x, Ranked(c, w), w);
    TopAfterInsert(Ranked(c, w), x, at, n);
  }

  lemma WithoutRank(s: seq<Peer>, w: Peer -> int, rank: nat)
    requires Descending(s, w) && rank < |s|
    ensures var rest := s[..rank] + s[rank + 1..];
            Descending(rest, w) && forall y :: y in rest <==> y in s && y != s[rank]
  {
    var rest := s[..rank] + s[rank + 1..];
    forall y ensures y in rest <==> y in s && y != s[rank] {
      if y in s && y != s[rank] {
        var i :| 0 <= i < |s| && s[i] == y;
        assert y == rest[if i < rank then i else i - 1];
      }
    }
  }

  /** A member that leaves changes nothing unless it was a holder; then the others keep
      their order and the next heaviest is appended. */
  lemma LeaveMovesOne(c: seq<Peer>, d: seq<Peer>, w: Peer -> int, n: int, rank: nat)
    requires Distinct(c, w) && Distinct(d, w) && n >= 1
    requires rank < |Ranked(c, w)| && forall y :: y in d <==> y in c && y != Ranked(c, w)[rank]
    ensures var before := Pick(c, w, n);
            var after := Pick(d, w, n);
            && (rank >= n ==> after == before)
            && (rank < n && |c| <= n ==> rank < |before| && after == before[..rank] + before[rank + 1..])
            && (rank < n < |c| ==>
                  n < |Ranked(c, w)| && rank < |before| &&
                  after == before[..rank] + before[rank + 1..] + [Ranked(c, w)[n]])
  {
    var scored := Ranked(c, w);
    RankedFacts(c, w);
    RankedFacts(d, w);
    WithoutRank(scored, w, rank);
    DescendingUnique(Ranked(d, w), scored[..rank] + scored[rank + 1..], w);
    TopAfterRemove(scored, rank, n);
  }

  /** A rank below n is exactly a place in `Pick`. */
  lemma RankIsPlace(c: seq<Peer>, w: Peer -> int, n: int, rank: nat)
    requires Distinct(c, w) && n >= 1 && rank < |c|
    ensures |Ranked(c, w)| == |c|
    ensures var p := Ranked(c, w)[rank];
            rank < n <==> (rank < |Pick(c, w, n)| && Pick(c, w, n)[rank] == p && p in Pick(c, w, n))
    ensures rank < n <==> Ranked(c, w)[rank] in Pick(c, w, n)
  {
    RankedFacts(c, w);
  }
}
