/** internal/file/cache.go: the byte-bounded LRU of decrypted stripes and its keys. */
module Cache {
  import opened Base

  // ----- cache keys -----

  const MIN_INT := -0x8000_0000_0000_0000
  const MAX_INT := 0x7fff_ffff_ffff_ffff
  const BUFFER := 20

  function Digit(d: nat): (c: char)
    requires d < 10
    ensures '0' <= c <= '9'
  {
    '0' + d as char
  }

  function Decimal(n: nat): (s: string)
    ensures |s| >= 1 && forall i :: 0 <= i < |s| ==> '0' <= s[i] <= '9'
  {
    if n < 10 then [Digit(n)] else Decimal(n / 10) + [Digit(n % 10)]
  }

  /** What `itoa` writes. Negating the least int64 gives itself, so it loses its digits. */
  function Itoa(n: int): (s: string) {
    if n == MIN_INT then "-" else if n < 0 then "-" + Decimal(-n) else Decimal(n)
  }

  function Pow10(e: nat): (p: nat)
    ensures p >= 1
  {
    if e == 0 then 1 else 10 * Pow10(e - 1)
  }

  /** `n` can be written in front of the last |buffer| - i bytes with a byte to spare. */
  ghost predicate Fits(n: int, i: nat) {
    i >= 1 && n < Pow10(i - 1)
  }

  lemma NineteenDigitsSuffice(n: int, i: nat)
    requires n <= MAX_INT && i == BUFFER
    ensures Fits(n, i)
  {
    assert Pow10(19) == 1000_0000 * Pow10(12) && Pow10(12) == 1000_0000 * Pow10(5);
  }

  function Digits(n: int): string {
    if n > 0 then Decimal(n) else ""
  }

  /** The digits of `num` are those of `n`, still to be written, and then `tail`. */
  ghost predicate Written(num: int, n: int, tail: string) {
    Digits(num) == Digits(n) + tail
  }

  /** One turn of the digit loop. */
  method PutDigit(ghost num: int, n: int, buf: array<char>, i: nat) returns (rest: int)
    requires n > 0 && i <= buf.Length && Fits(n, i) && Written(num, n, buf[i..])
    modifies buf
    ensures 0 <= rest < n && i >= 2 && Fits(rest, i - 1) && Written(num, rest, buf[i - 1..])
  {
    ghost var tail := buf[i..];
    PutChar(buf, i - 1, Digit(n % 10));
    rest := n / 10;
    assert Digits(n) + tail == Digits(rest) + ([Digit(n % 10)] + tail);
  }

  /** The digit loop of `itoa`, filling its buffer from the back; a byte is left for the
      sign. */
  method FillDigits(num: int, buf: array<char>) returns (i: nat)
    requires Fits(num, buf.Length)
    modifies buf
    ensures 1 <= i <= buf.Length && buf[i..] == Digits(num)
  {
    var n := num;
    i := buf.Length;
    while n > 0
      invariant 1 <= i <= buf.Length && Fits(n, i) && Written(num, n, buf[i..])
      decreases n
    {
      n := PutDigit(num, n, buf, i);
      i := i - 1;
    }
  }

  method PutChar(buf: array<char>, i: nat, c: char)
    requires i < buf.Length
    modifies buf
    ensures buf[i..] == [c] + old(buf[i + 1..])
  {
    buf[i] := c;
  }

  /** `itoa`. */
  method WriteItoa(num: int) returns (s: string)
    requires MIN_INT <= num <= MAX_INT
    ensures s == Itoa(num)
  {
    if num == 0 {
      return "0";
    }
    var neg := num < 0;
    var buf := new char[BUFFER];
    var n := if neg && num != MIN_INT then -num else num;
    NineteenDigitsSuffice(n, buf.Length);
    var i := FillDigits(n, buf);
    if neg {
      i := i - 1;
      PutChar(buf, i, '-');
    }
    s := buf[i..];
  }

  function CacheKey(fileId: FileId, stripe: int): (k: string) {
    fileId + ":" + Itoa(stripe)
  }

  /** The number that a string of decimal digits stands for. */
  function Value(s: string): int {
    if s == [] then 0 else 10 * Value(s[..|s| - 1]) + (s[|s| - 1] as int - '0' as int)
  }

  /** The decimal of a number has its value and no leading zero. */
  lemma {:induction false} DecimalIsCanonical(n: nat)
    ensures Value(Decimal(n)) == n && (n > 0 ==> Decimal(n)[0] != '0')
  {
    var s := Decimal(n);
    assert s[..|s| - 1] == if n < 10 then [] else Decimal(n / 10);
    if n >= 10 {
      DecimalIsCanonical(n / 10);
    }
  }

  /** `itoa` writes the number in decimal, with a minus sign in front of a negative one and no
      leading zero; only the least int64 has no digits. */
  lemma ItoaIsCanonical(n: int)
    ensures n >= 0 ==> Value(Itoa(n)) == n && (Itoa(n) == "0" || Itoa(n)[0] != '0')
    ensures n < 0 && n != -0x8000_0000_0000_0000 ==>
              Itoa(n)[0] == '-' && Value(Itoa(n)[1..]) == -n && Itoa(n)[1..] != "" && Itoa(n)[1] != '0'
    ensures Itoa(-0x8000_0000_0000_0000) == "-"
  {
    DecimalIsCanonical(if n < 0 then -n else n);
    if n < 0 && n != MIN_INT {
      assert Itoa(n)[1..] == Decimal(-n);
    }
  }

  lemma DecimalInjective(a: nat, b: nat)
    requires Decimal(a) == Decimal(b)
    ensures a == b
  {
    DecimalIsCanonical(a);
    DecimalIsCanonical(b);
  }

  lemma ItoaInjective(a: int, b: int)
    requires Itoa(a) == Itoa(b)
    ensures a == b
  {
    if a >= 0 && b >= 0 {
      DecimalInjective(a, b);
    } else if a < 0 && b < 0 && a != MIN_INT && b != MIN_INT {
      assert Itoa(a)[1..] == Decimal(-a) && Itoa(b)[1..] == Decimal(-b);
      DecimalInjective(-a, -b);
    } else {
      assert Itoa(a)[0] == Itoa(b)[0] && |Itoa(a)| == |Itoa(b)|;
    }
  }

  /** Keys never collide, whatever characters the file ids contain. */
  lemma CacheKeyInjective(f: FileId, i: int, g: FileId, j: int)
    requires CacheKey(f, i) == CacheKey(g, j)
    ensures f == g && i == j
  {
    ColonFree(i);
    ColonFree(j);
    LastColonSplits(f, Itoa(i), g, Itoa(j));
    ItoaInjective(i, j);
  }

  lemma ColonFree(n: int)
    ensures ':' !in Itoa(n)
  {
  }

  lemma ColonInside(f: string, d: string, g: string, e: string)
    requires f + ":" + d == g + ":" + e && |f| < |g|
    ensures ':' in d
  {
    assert (f + ":" + d)[|g|] == (g + ":" + e)[|g|];
    assert d[|g| - |f| - 1] == ':';
  }

  lemma LastColonSplits(f: string, d: string, g: string, e: string)
    requires f + ":" + d == g + ":" + e && ':' !in d && ':' !in e
    ensures f == g && d == e
  {
    if |f| < |g| {
      ColonInside(f, d, g, e);
    } else if |g| < |f| {
      ColonInside(g, e, f, d);
    } else {
      var k := f + ":" + d;
      assert k[|f| + 1..] == d && k[..|f|] == f;
      assert (g + ":" + e)[|g| + 1..] == e && (g + ":" + e)[..|g|] == g;
    }
  }

  // ----- the LRU list as a value -----

  datatype Element = Element(key: string, data: Bytes)

  function Total(l: seq<Element>): (n: nat) {
    if l == [] then 0 else Total(l[..|l| - 1]) + |l[|l| - 1].data|
  }

  function Without(l: seq<Element>, key: string): (r: seq<Element>) {
    if l == [] then []
    else
      var n := |l| - 1;
      Without(l[..n], key) + (if l[n].key == key then [] else [l[n]])
  }

  lemma {:induction false} WithoutMembers(l: seq<Element>, key: string)
    ensures forall e :: e in Without(l, key) <==> e in l && e.key != key
  {
    if l != [] {
      var n := |l| - 1;
      WithoutMembers(l[..n], key);
      assert l == l[..n] + [l[n]];
    }
  }

  /** Drop from the back until the rest fits. */
  function Fit(l: seq<Element>, max: int): (r: seq<Element>) {
    if Total(l) <= max || l == [] then l else Fit(l[..|l| - 1], max)
  }

  ghost predicate DistinctKeys(l: seq<Element>) {
    forall i, j :: 0 <= i < j < |l| ==> l[i].key != l[j].key
  }

  /** The list after a lookup of `key`, most recently used first. */
  function Touched(l: seq<Element>, e: Element): seq<Element> {
    [e] + Without(l, e.key)
  }

  /** The list after `Put`; a stripe over the whole budget is not cached. */
  function Inserted(l: seq<Element>, key: string, data: Bytes, max: int): seq<Element> {
    if |data| > max then l else Fit(Touched(l, Element(key, data)), max)
  }

  lemma {:induction false} WithoutKeepsDistinct(l: seq<Element>, key: string)
    requires DistinctKeys(l)
    ensures DistinctKeys(Without(l, key))
  {
    if l != [] {
      var n := |l| - 1;
      WithoutKeepsDistinct(l[..n], key);
      WithoutMembers(l[..n], key);
      forall i | 0 <= i < |Without(l[..n], key)|
        ensures Without(l[..n], key)[i].key != l[n].key
      {
        assert Without(l[..n], key)[i] in l[..n];
      }
    }
  }

  lemma {:induction false} WithoutAbsent(l: seq<Element>, key: string)
    requires forall i :: 0 <= i < |l| ==> l[i].key != key
    ensures Without(l, key) == l
  {
    if l != [] {
      WithoutAbsent(l[..|l| - 1], key);
    }
  }

  lemma {:induction false} WithoutPresent(l: seq<Element>, i: nat)
    requires DistinctKeys(l) && i < |l|
    ensures Total(Without(l, l[i].key)) == Total(l) - |l[i].data|
  {
    var n := |l| - 1;
    var w := Without(l[..n], l[i].key);
    if i == n {
      WithoutAbsent(l[..n], l[n].key);
      assert Without(l, l[i].key) == l[..n] + [] == l[..n];
    } else {
      WithoutPresent(l[..n], i);
      assert Without(l, l[i].key) == w + [l[n]];
      assert (w + [l[n]])[..|w|] == w;
    }
  }

  lemma {:induction false} TotalFront(e: Element, l: seq<Element>)
    ensures Total([e] + l) == |e.data| + Total(l)
  {
    if l == [] {
      assert [e] + l == [e];
    } else {
      var n := |l| - 1;
      assert ([e] + l)[..|l|] == [e] + l[..n];
      TotalFront(e, l[..n]);
    }
  }

  /** Moving to the front, or replacing, keeps keys distinct. */
  lemma TouchedFacts(l: seq<Element>, e: Element)
    requires DistinctKeys(l)
    ensures DistinctKeys(Touched(l, e))
    ensures forall x :: x in Touched(l, e) <==> x == e || (x in l && x.key != e.key)
  {
    var w := Without(l, e.key);
    WithoutKeepsDistinct(l, e.key);
    WithoutMembers(l, e.key);
    forall i | 0 <= i < |w| ensures w[i].key != e.key {
      assert w[i] in w;
    }
  }

  /** ... and changes the total by the difference in size. */
  lemma TouchedTotal(l: seq<Element>, e: Element, was: Option<Element>)
    requires DistinctKeys(l)
    requires was.Some? ==> was.value in l && was.value.key == e.key
    requires was.None? ==> forall x :: x in l ==> x.key != e.key
    ensures Total(Touched(l, e)) == Total(l) + |e.data| - (if was.Some? then |was.value.data| else 0)
  {
    TotalFront(e, Without(l, e.key));
    if was.Some? {
      var i :| 0 <= i < |l| && l[i] == was.value;
      WithoutPresent(l, i);
    } else {
      WithoutAbsent(l, e.key);
    }
  }

  /** List and index hold the same entries, each key once. */
  ghost predicate Indexed(l: seq<Element>, index: map<string, Element>) {
    && DistinctKeys(l)
    && (forall e :: e in l ==> e.key in index && index[e.key] == e)
    && (forall k :: k in index ==> index[k] in l && index[k].key == k)
  }

  lemma TouchedIndexed(l: seq<Element>, index: map<string, Element>, e: Element)
    requires Indexed(l, index)
    ensures Indexed(Touched(l, e), index[e.key := e])
    ensures Total(Touched(l, e)) == Total(l) + |e.data| - (if e.key in index then |index[e.key].data| else 0)
  {
    TouchedFacts(l, e);
    TouchedTotal(l, e, if e.key in index then Some(index[e.key]) else None);
  }

  lemma LastRemovedIndexed(l: seq<Element>, index: map<string, Element>)
    requires Indexed(l, index) && l != []
    ensures Indexed(l[..|l| - 1], index - {l[|l| - 1].key})
  {
    var n := |l| - 1;
    assert l == l[..n] + [l[n]];
  }

  /** `Fit` keeps exactly the longest most-recent-first prefix within the budget. */
  lemma {:induction false} FitIsLongestPrefix(l: seq<Element>, max: int)
    ensures var r := Fit(l, max);
            && |r| <= |l| && r == l[..|r|]
            && (r == [] || Total(r) <= max)
            && forall n :: |r| < n <= |l| ==> Total(l[..n]) > max
  {
    if Total(l) > max && l != [] {
      FitIsLongestPrefix(l[..|l| - 1], max);
      forall n | |Fit(l, max)| < n <= |l|
        ensures Total(l[..n]) > max
      {
        if n < |l| {
          assert l[..|l| - 1][..n] == l[..n];
        } else {
          assert l[..n] == l;
        }
      }
    } else {
      assert l == l[..|l|];
    }
  }

  /** The entry just put is never evicted. */
  lemma NewestSurvives(l: seq<Element>, key: string, data: Bytes, max: int)
    requires |data| <= max
    ensures var r := Inserted(l, key, data, max); |r| >= 1 && r[0] == Element(key, data)
  {
    var t := Touched(l, Element(key, data));
    FitIsLongestPrefix(t, max);
    assert t[..1] == [Element(key, data)];
    assert Total(t[..1]) == Total([]) + |data| by {
      assert t[..1][..0] == [];
    }
  }

  // ----- the cache -----

  class StripeCache {
    const maxBytes: int
    /** Any keys, possibly none, that the other users of the cache happen not to evict. */
    const lasting: set<string>
    var lru: seq<Element>
    var index: map<string, Element>
    var curBytes: int

    ghost predicate Agree()
      reads this
    {
      Indexed(lru, index) && curBytes == Total(lru)
    }

    ghost predicate Valid()
      reads this
    {
      Agree() && (lru == [] || curBytes <= maxBytes)
    }

    constructor (maxBytes: int, lasting: set<string>)
      ensures Valid() && lru == [] && this.maxBytes == maxBytes && this.lasting == lasting
    {
      this.maxBytes, this.lasting, lru, index, curBytes := maxBytes, lasting, [], map[], 0;
    }

    method Get(fileId: FileId, stripe: int) returns (r: Option<Bytes>)
      requires Valid()
      modifies this
      ensures Valid() && index == old(index)
      ensures CacheKey(fileId, stripe) !in index ==> r.None? && lru == old(lru)
      ensures CacheKey(fileId, stripe) in index ==>
                var e := index[CacheKey(fileId, stripe)];
                r == Some(e.data) && lru == Touched(old(lru), e)
      ensures lru == After(old(lru), GetOp(CacheKey(fileId, stripe)), maxBytes)
    {
      var k := CacheKey(fileId, stripe);
      if k !in index {
        return None;
      }
      var e := index[k];
      TouchedIndexed(lru, index, e);
      assert index[k := e] == index;
      lru := Touched(lru, e);
      return Some(e.data);
    }

    method Put(fileId: FileId, stripe: int, data: Bytes)
      requires Valid()
      modifies this
      ensures Valid()
      ensures lru == After(old(lru), PutOp(CacheKey(fileId, stripe), data), maxBytes)
    {
      if |data| > maxBytes {
        return;
      }
      var k := CacheKey(fileId, stripe);
      var e := Element(k, data);
      TouchedIndexed(lru, index, e);
      if k in index {
        curBytes := curBytes - |index[k].data| + |data|;
      } else {
        curBytes := curBytes + |data|;
      }
      lru := Touched(lru, e);
      index := index[k := e];
      Evict();
    }

    /** `evictLocked`. */
    method Evict()
      requires Agree()
      modifies this
      ensures Valid() && lru == Fit(old(lru), maxBytes)
    {
      while curBytes > maxBytes
        invariant Agree() && Fit(lru, maxBytes) == Fit(old(lru), maxBytes)
        decreases |lru|
      {
        if lru == [] {
          return;
        }
        LastRemovedIndexed(lru, index);
        var oldest := lru[|lru| - 1];
        lru := lru[..|lru| - 1];
        index := index - {oldest.key};
        curBytes := curBytes - |oldest.data|;
      }
    }
  }

  // ----- whole histories -----

  datatype Op = GetOp(key: string) | PutOp(key: string, data: Bytes)

  function Lookup(l: seq<Element>, key: string): (r: Option<Element>)
    ensures r.Some? ==> r.value in l && r.value.key == key
    ensures r.None? ==> forall e :: e in l ==> e.key != key
  {
    if l == [] then None
    else if l[|l| - 1].key == key then Some(l[|l| - 1])
    else
      assert l == l[..|l| - 1] + [l[|l| - 1]];
      Lookup(l[..|l| - 1], key)
  }

  function After(l: seq<Element>, op: Op, max: int): seq<Element> {
    match op
    case GetOp(key) => (match Lookup(l, key) case Some(e) => Touched(l, e) case None => l)
    case PutOp(key, data) => Inserted(l, key, data, max)
  }

  function Run(ops: seq<Op>, max: int): seq<Element> {
    if ops == [] then [] else After(Run(ops[..|ops| - 1], max), ops[|ops| - 1], max)
  }

  /** The data of the last put of `key` that was not over the whole budget. */
  function LastPut(ops: seq<Op>, key: string, max: int): Option<Bytes> {
    if ops == [] then None
    else
      var op := ops[|ops| - 1];
      if op.PutOp? && op.key == key && |op.data| <= max then Some(op.data)
      else LastPut(ops[..|ops| - 1], key, max)
  }

  /** Over every sequence of lookups and puts, each key is listed at most once, the
      budget is kept, and a hit is the last accepted put of its key. */
  lemma {:induction false} HitIsLastPut(ops: seq<Op>, max: int)
    ensures var l := Run(ops, max);
            && DistinctKeys(l) && (l == [] || Total(l) <= max)
            && forall e :: e in l ==> LastPut(ops, e.key, max) == Some(e.data)
  {
    if ops != [] {
      var before := ops[..|ops| - 1];
      var op := ops[|ops| - 1];
      var l := Run(before, max);
      HitIsLastPut(before, max);
      assert ops == before + [op];
      match op {
        case GetOp(key) =>
          var found := Lookup(l, key);
          if found.Some? {
            TouchedFacts(l, found.value);
            TouchedTotal(l, found.value, found);
          }
        case PutOp(key, data) =>
          PutKeepsHistory(l, before, op, max);
      }
    }
  }

  lemma PutKeepsHistory(l: seq<Element>, before: seq<Op>, op: Op, max: int)
    requires DistinctKeys(l) && (l == [] || Total(l) <= max) && op.PutOp?
    requires forall e :: e in l ==> LastPut(before, e.key, max) == Some(e.data)
    ensures var r := Inserted(l, op.key, op.data, max);
            && DistinctKeys(r) && (r == [] || Total(r) <= max)
            && forall e :: e in r ==> LastPut(before + [op], e.key, max) == Some(e.data)
  {
    assert (before + [op])[..|before|] == before;
    if |op.data| <= max {
      var t := Touched(l, Element(op.key, op.data));
      TouchedFacts(l, Element(op.key, op.data));
      FitIsLongestPrefix(t, max);
      forall e | e in Fit(t, max)
        ensures LastPut(before + [op], e.key, max) == Some(e.data)
      {
        assert e in t;
      }
    }
  }

  // ----- who is evicted -----

  /** `op`, coming after `before`, uses `key`: it is a lookup that hits or an accepted put. */
  predicate Uses(before: seq<Op>, op: Op, key: string, max: int) {
    op.key == key && if op.GetOp? then Lookup(Run(before, max), key).Some? else |op.data| <= max
  }

  /** The place of the last use of `key`, counted from 1; 0 if there is none. */
  function LastUse(ops: seq<Op>, key: string, max: int): (n: nat)
    ensures n <= |ops|
  {
    if ops == [] then 0
    else
      var before := ops[..|ops| - 1];
      if Uses(before, ops[|ops| - 1], key, max) then |ops| else LastUse(before, key, max)
  }

  ghost predicate Descending(l: seq<Element>, rank: string -> int) {
    forall i, j :: 0 <= i < j < |l| ==> rank(l[i].key) > rank(l[j].key)
  }

  lemma {:induction false} WithoutDescends(l: seq<Element>, key: string, rank: string -> int)
    requires Descending(l, rank)
    ensures Descending(Without(l, key), rank)
  {
    if l != [] {
      var n := |l| - 1;
      WithoutDescends(l[..n], key, rank);
      WithoutMembers(l[..n], key);
      forall i | 0 <= i < |Without(l[..n], key)|
        ensures rank(Without(l[..n], key)[i].key) > rank(l[n].key)
      {
        assert Without(l[..n], key)[i] in l[..n];
      }
    }
  }

  /** Using `e` puts it first and leaves the others in order. */
  lemma TouchedDescends(l: seq<Element>, e: Element, was: string -> int, rank: string -> int)
    requires Descending(l, was)
    requires forall x :: x in l && x.key != e.key ==> rank(x.key) == was(x.key) < rank(e.key)
    ensures Descending(Touched(l, e), rank)
  {
    var w := Without(l, e.key);
    WithoutDescends(l, e.key, was);
    WithoutMembers(l, e.key);
    forall i | 0 <= i < |w|
      ensures rank(w[i].key) == was(w[i].key) < rank(e.key)
    {
      assert w[i] in w;
    }
  }

  ghost function Recency(ops: seq<Op>, max: int): string -> int {
    key => LastUse(ops, key, max)
  }

  /** Over every sequence of calls the list is in the order of last use, latest first. */
  lemma {:induction false} ListedByLastUse(ops: seq<Op>, max: int)
    ensures var l := Run(ops, max);
            forall i, j :: 0 <= i < j < |l| ==> LastUse(ops, l[i].key, max) > LastUse(ops, l[j].key, max)
  {
    if ops != [] {
      var before, op := ops[..|ops| - 1], ops[|ops| - 1];
      ListedByLastUse(before, max);
      OpKeepsOrder(before, op, ops, max);
    }
  }

  lemma OpKeepsOrder(before: seq<Op>, op: Op, ops: seq<Op>, max: int)
    requires ops == before + [op] && Descending(Run(before, max), Recency(before, max))
    ensures Descending(Run(ops, max), Recency(ops, max))
  {
    var l := Run(before, max);
    assert ops[..|ops| - 1] == before;
    assert forall key :: !Uses(before, op, key, max) ==> LastUse(ops, key, max) == LastUse(before, key, max);
    if Uses(before, op, op.key, max) {
      var e := if op.GetOp? then Lookup(l, op.key).value else Element(op.key, op.data);
      TouchedDescends(l, e, Recency(before, max), Recency(ops, max));
      FitIsLongestPrefix(Touched(l, e), max);
    } else {
      NoUseNoChange(before, op, ops, max);
    }
  }

  lemma NoUseNoChange(before: seq<Op>, op: Op, ops: seq<Op>, max: int)
    requires ops == before + [op] && Descending(Run(before, max), Recency(before, max))
    requires !Uses(before, op, op.key, max)
    ensures Descending(Run(ops, max), Recency(ops, max))
  {
    assert ops[..|ops| - 1] == before;
    assert Run(ops, max) == Run(before, max);
  }

  /** The bytes of the entries whose key is wanted. */
  function Weight(l: seq<Element>, wanted: string -> bool): nat {
    if l == [] then 0
    else Weight(l[..|l| - 1], wanted) + (if wanted(l[|l| - 1].key) then |l[|l| - 1].data| else 0)
  }

  lemma {:induction false} WeightAll(l: seq<Element>, wanted: string -> bool)
    requires forall e :: e in l ==> wanted(e.key)
    ensures Weight(l, wanted) == Total(l)
  {
    if l != [] {
      WeightAll(l[..|l| - 1], wanted);
      assert l[|l| - 1] in l;
    }
  }

  lemma {:induction false} WeightWithout(l: seq<Element>, key: string, wanted: string -> bool, others: string -> bool)
    requires forall k :: others(k) <==> k != key && wanted(k)
    ensures Weight(l, others) == Weight(Without(l, key), wanted)
  {
    if l != [] {
      var n := |l| - 1;
      var w := Without(l[..n], key);
      WeightWithout(l[..n], key, wanted, others);
      if l[n].key == key {
        assert Without(l, key) == w;
      } else {
        assert Without(l, key) == w + [l[n]] && (w + [l[n]])[..|w|] == w;
      }
    }
  }

  /** In a list by last use, what is used no earlier than entry i is its front part. */
  lemma {:induction false} WeightFront(l: seq<Element>, i: nat, rank: string -> int, wanted: string -> bool)
    requires i < |l| && Descending(l, rank)
    requires forall k :: wanted(k) <==> rank(k) >= rank(l[i].key)
    ensures Weight(l, wanted) == Total(l[..i + 1])
  {
    var n := |l| - 1;
    if i == n {
      WeightAll(l, wanted);
      assert l[..i + 1] == l;
    } else {
      WeightFront(l[..n], i, rank, wanted);
      assert l[..n][..i + 1] == l[..i + 1];
    }
  }

  lemma {:induction false} TotalFrontPart(l: seq<Element>, n: nat)
    requires n <= |l|
    ensures Total(l[..n]) <= Total(l)
  {
    if n < |l| {
      TotalFrontPart(l[..|l| - 1], n);
      assert l[..|l| - 1][..n] == l[..n];
    } else {
      assert l[..n] == l;
    }
  }

  lemma FitKeepsExactly(l: seq<Element>, max: int, i: nat)
    requires i < |l|
    ensures i < |Fit(l, max)| <==> Total(l[..i + 1]) <= max
  {
    FitIsLongestPrefix(l, max);
    var r := Fit(l, max);
    if i < |r| {
      TotalFrontPart(r, i + 1);
      assert r[..i + 1] == l[..i + 1];
    }
  }

  lemma KeptInFront(l: seq<Element>, e: Element, max: int, i: nat)
    requires DistinctKeys(l) && i < |Without(l, e.key)|
    ensures Without(l, e.key)[i] in Fit(Touched(l, e), max) <==>
              |e.data| + Total(Without(l, e.key)[..i + 1]) <= max
  {
    var w, t := Without(l, e.key), Touched(l, e);
    assert t[..i + 2] == [e] + w[..i + 1];
    TotalFront(e, w[..i + 1]);
    FitKeepsExactly(t, max, i + 1);
    TouchedFacts(l, e);
    FitIsLongestPrefix(t, max);
    assert t[i + 1] == w[i];
  }

  /** Putting `e` in front keeps x exactly if those used no earlier than x still fit with e. */
  lemma KeptByRank(l: seq<Element>, e: Element, max: int, x: Element, rank: string -> int, others: string -> bool)
    requires DistinctKeys(l) && Descending(l, rank) && x in l && x.key != e.key
    requires forall k :: others(k) <==> k != e.key && rank(k) >= rank(x.key)
    ensures x in Fit(Touched(l, e), max) <==> |e.data| + Weight(l, others) <= max
  {
    var w, wanted := Without(l, e.key), (k: string) => rank(k) >= rank(x.key);
    WithoutDescends(l, e.key, rank);
    WithoutMembers(l, e.key);
    var i :| 0 <= i < |w| && w[i] == x;
    WeightWithout(l, e.key, wanted, others);
    WeightFront(w, i, rank, wanted);
    KeptInFront(l, e, max, i);
  }

  /** `x` still fits together with a new entry of n bytes under `key` and with all others that
      were used after x. */
  ghost predicate StillFits(ops: seq<Op>, max: int, x: Element, key: string, n: nat) {
    var since := k => k != key && LastUse(ops, k, max) >= LastUse(ops, x.key, max);
    n + Weight(Run(ops, max), since) <= max
  }

  /** An accepted put keeps another entry exactly if that still fits. */
  lemma EvictedExactly(ops: seq<Op>, op: Op, max: int, x: Element)
    requires op.PutOp? && |op.data| <= max && x in Run(ops, max) && x.key != op.key
    ensures x in Run(ops + [op], max) <==> StillFits(ops, max, x, op.key, |op.data|)
  {
    assert (ops + [op])[..|ops|] == ops;
    ListedByLastUse(ops, max);
    HitIsLastPut(ops, max);
    KeptByRank(Run(ops, max), Element(op.key, op.data), max, x, Recency(ops, max),
               k => k != op.key && LastUse(ops, k, max) >= LastUse(ops, x.key, max));
  }

  lemma OnlyOneOfKey(l: seq<Element>, e: Element, x: Element)
    requires DistinctKeys(l) && e in l && x in l && x.key == e.key
    ensures x == e
  {
  }

  /** Exactly what is in the cache after one more call: a lookup and a put over the whole budget
      leave all there is, and an accepted put adds its entry, replaces that of its key, and
      keeps of the others what still fits. */
  lemma ContentsExactly(ops: seq<Op>, op: Op, max: int, x: Element)
    ensures x in Run(ops + [op], max) <==>
              if op.PutOp? && |op.data| <= max
              then x == Element(op.key, op.data) ||
                   (x in Run(ops, max) && x.key != op.key && StillFits(ops, max, x, op.key, |op.data|))
              else x in Run(ops, max)
  {
    var l := Run(ops, max);
    assert (ops + [op])[..|ops|] == ops;
    HitIsLastPut(ops, max);
    if op.GetOp? {
      var found := Lookup(l, op.key);
      if found.Some? {
        TouchedFacts(l, found.value);
        if x in l && x.key == op.key {
          OnlyOneOfKey(l, found.value, x);
        }
      }
    } else if |op.data| <= max {
      NewestSurvives(l, op.key, op.data, max);
      TouchedFacts(l, Element(op.key, op.data));
      FitIsLongestPrefix(Touched(l, Element(op.key, op.data)), max);
      if x in l && x.key != op.key {
        EvictedExactly(ops, op, max, x);
      }
    }
  }
}
