/** What a reader amounts to for its caller: a cursor over the uploaded bytes
    (internal/file/reader.go), and what the stripe cache adds to it. */
module FlatFile {
  import opened Base
  import opened Manifests
  import opened ClusterModel
  import opened Network
  import opened Cache
  import opened Reading

  // ----- a cursor over a flat file -----

  datatype Call = SeekTo(offset: int, whence: int) | ReadNext(len: nat)

  datatype Answer = At(pos: int) | BadWhence | Got(bytes: Bytes, err: ReadErr)

  /** Where a call that was given this answer leaves the cursor over `size` bytes. */
  function Moved(size: int, pos: int, call: Call, answer: Answer): int {
    match call
    case SeekTo(offset, 0) => Max(0, offset)
    case SeekTo(offset, 1) => Max(0, pos + offset)
    case SeekTo(offset, 2) => Max(0, size + offset)
    case SeekTo(_, _) => pos
    case ReadNext(_) => if answer.Got? then pos + |answer.bytes| else pos
  }

  function CursorAfter(size: int, start: int, calls: seq<Call>, answers: seq<Answer>): int
    requires |calls| == |answers|
  {
    if calls == [] then start
    else
      var n := |calls| - 1;
      Moved(size, CursorAfter(size, start, calls[..n], answers[..n]), calls[n], answers[n])
  }

  /** What the flat file answers at `pos`. */
  function FlatAnswer(plain: Bytes, pos: nat, call: Call): (answer: Answer) {
    match call
    case SeekTo(offset, whence) =>
      if whence in {0, 1, 2} then At(Moved(|plain|, pos, call, BadWhence)) else BadWhence
    case ReadNext(len) =>
      var end := Min(|plain|, pos + len);
      Got(if pos < end then plain[pos..end] else [], if pos >= |plain| || pos + len > |plain| then AtEof else NoErr)
  }

  function FlatRun(plain: Bytes, start: nat, calls: seq<Call>): (answers: seq<Answer>)
    ensures |answers| == |calls| && CursorAfter(|plain|, start, calls, answers) >= 0
  {
    if calls == [] then []
    else
      var n := |calls| - 1;
      var before := FlatRun(plain, start, calls[..n]);
      var answer := FlatAnswer(plain, CursorAfter(|plain|, start, calls[..n], before), calls[n]);
      assert (before + [answer])[..n] == before;
      before + [answer]
  }

  /** A reader's answer: that of the flat file, except that a read may break off, with what
      the file has there as far as it got. */
  ghost predicate Answers(plain: Bytes, pos: int, call: Call, answer: Answer) {
    pos >= 0 && if call.SeekTo? then answer == FlatAnswer(plain, pos, call)
                else answer.Got? && ReadsRange(plain, pos, call.len, answer.bytes, answer.err)
  }

  lemma WholeAnswer(plain: Bytes, pos: int, call: Call, answer: Answer)
    requires Answers(plain, pos, call, answer) && (answer.Got? ==> !answer.err.Broken?)
    ensures answer == FlatAnswer(plain, pos, call)
  {
  }

  /** One call to the reader. */
  method Ask(r: Reader, call: Call) returns (answer: Answer)
    requires r.Open() && r.CacheGood() && r.pos >= 0
    modifies r.net`st, r.net`past, r.net`trace, r.cache, r`pos, r`asked
    ensures r.net.Since(old(r.net.past)) && r.Open() && r.CacheGood()
    ensures r.pos == Moved(r.mf.size, old(r.pos), call, answer) >= 0
    ensures r.NoCollision() ==> Answers(r.Plain(), old(r.pos), call, answer)
    ensures r.NoCollision() && AllReadable(r.net, old(r.net.st), r.self, r.mf) ==> answer.Got? ==> !answer.err.Broken?
  {
    match call {
      case SeekTo(offset, whence) =>
        var p := r.Seek(offset, whence);
        r.Shape();
        return if p.Some? then At(p.value) else BadWhence;
      case ReadNext(len) =>
        var dst := new bv8[len];
        var n, err := r.Read(dst);
        return Got(dst[..n], err);
    }
  }

  /** The next of a sequence of calls; `sure` if all stripes could be gathered at the start. */
  method AskNext(r: Reader, call: Call, ghost first: seq<State>, ghost sure: bool, ghost start: nat,
                 ghost calls: seq<Call>, answers: seq<Answer>) returns (answers': seq<Answer>)
    requires r.Open() && r.CacheGood() && first != [] && r.net.Since(first) && |answers| == |calls|
    requires r.pos == CursorAfter(r.mf.size, start, calls, answers) >= 0
    requires sure ==> AllReadable(r.net, first[|first| - 1], r.self, r.mf)
    requires r.NoCollision() ==> Agrees(r.Plain(), sure, start, calls, answers)
    modifies r.net`st, r.net`past, r.net`trace, r.cache, r`pos, r`asked
    ensures r.net.Since(first) && r.Open() && r.CacheGood() && |answers'| == |calls| + 1
    ensures r.pos == CursorAfter(r.mf.size, start, calls + [call], answers') >= 0
    ensures r.NoCollision() ==> Agrees(r.Plain(), sure, start, calls + [call], answers')
  {
    ghost var before, pos := r.net.past, r.pos;
    StillAllReadable(r, first);
    var answer := Ask(r, call);
    r.StillOpen(before);
    r.Shape();
    CursorSnoc(r.mf.size, start, calls, answers, call, answer);
    if r.NoCollision() {
      OneMoreAnswer(r.Plain(), sure, start, calls, answers, pos, call, answer);
    }
    answers' := answers + [answer];
  }

  lemma CursorSnoc(size: int, start: int, calls: seq<Call>, answers: seq<Answer>, call: Call, answer: Answer)
    requires |calls| == |answers|
    ensures CursorAfter(size, start, calls + [call], answers + [answer]) ==
            Moved(size, CursorAfter(size, start, calls, answers), call, answer)
  {
    assert (calls + [call])[..|calls|] == calls && (answers + [answer])[..|calls|] == answers;
  }

  /** Any sequence of calls: the cursor is where the calls and answers so far put it and is
      never negative; every answer is that of the flat file there, except that a read may
      break off; and if all stripes could be gathered at the start, the answers are exactly
      those of the flat file. */
  method Replay(r: Reader, calls: seq<Call>) returns (answers: seq<Answer>)
    requires r.Open() && r.CacheGood() && r.pos >= 0
    modifies r.net`st, r.net`past, r.net`trace, r.cache, r`pos, r`asked
    ensures r.net.Since(old(r.net.past)) && r.Open() && r.CacheGood() && |answers| == |calls|
    ensures r.pos == CursorAfter(r.mf.size, old(r.pos), calls, answers) >= 0
    ensures r.NoCollision() ==>
              Agrees(r.Plain(), AllReadable(r.net, old(r.net.st), r.self, r.mf), old(r.pos), calls, answers)
  {
    answers := [];
    ghost var first, sure := r.net.past, AllReadable(r.net, r.net.st, r.self, r.mf);
    for i := 0 to |calls|
      invariant r.net.Since(first) && r.Open() && r.CacheGood() && |answers| == i
      invariant r.pos == CursorAfter(r.mf.size, old(r.pos), calls[..i], answers) >= 0
      invariant r.NoCollision() ==> Agrees(r.Plain(), sure, old(r.pos), calls[..i], answers)
    {
      answers := AskNext(r, calls[i], first, sure, old(r.pos), calls[..i], answers);
      assert calls[..i + 1] == calls[..i] + [calls[i]];
    }
    assert calls[..|calls|] == calls;
  }

  /** Each answer is one the flat file could give at the cursor, and if `sure` they are all
      those it gives. */
  ghost predicate Agrees(plain: Bytes, sure: bool, start: nat, calls: seq<Call>, answers: seq<Answer>)
    requires |calls| == |answers|
  {
    AllAnswer(plain, start, calls, answers) && (sure ==> answers == FlatRun(plain, start, calls))
  }

  ghost predicate AllAnswer(plain: Bytes, start: int, calls: seq<Call>, answers: seq<Answer>)
    requires |calls| == |answers|
  {
    forall i :: 0 <= i < |calls| ==>
      Answers(plain, CursorAfter(|plain|, start, calls[..i], answers[..i]), calls[i], answers[i])
  }

  lemma OneMoreAnswer(plain: Bytes, sure: bool, start: nat, calls: seq<Call>, answers: seq<Answer>, pos: int,
                      call: Call, answer: Answer)
    requires |calls| == |answers| && Agrees(plain, sure, start, calls, answers)
    requires pos == CursorAfter(|plain|, start, calls, answers) && Answers(plain, pos, call, answer)
    requires sure && answer.Got? ==> !answer.err.Broken?
    ensures Agrees(plain, sure, start, calls + [call], answers + [answer])
  {
    var cs, ans := calls + [call], answers + [answer];
    forall i | 0 <= i < |cs|
      ensures Answers(plain, CursorAfter(|plain|, start, cs[..i], ans[..i]), cs[i], ans[i])
    {
      assert cs[..i] == calls[..i] && ans[..i] == answers[..i];
      if i == |calls| {
        assert calls[..i] == calls && answers[..i] == answers;
      }
    }
    if sure {
      WholeAnswer(plain, pos, call, answer);
    }
    assert cs[..|cs| - 1] == calls;
  }

  lemma StillAllReadable(r: Reader, earlier: seq<State>)
    requires r.net.Since(earlier) && earlier != []
    ensures AllReadable(r.net, earlier[|earlier| - 1], r.self, r.mf) ==> AllReadable(r.net, r.net.st, r.self, r.mf)
  {
    forall i | 0 <= i < |r.mf.stripes| {
      r.StillReadable(earlier, i);
    }
  }

  // ----- from the cache -----

  /** The range lies within one stripe, which the others do not evict, and stripes fit into the
      cache. */
  ghost predicate CachedWhole(r: Reader, offset: nat, len: nat) {
    && r.mf.stripeSize <= r.cache.maxBytes
    && (forall i, j :: Overlaps(r.mf, i, offset, len) && Overlaps(r.mf, j, offset, len) ==> i == j)
    && (forall i :: Overlaps(r.mf, i, offset, len) ==> CacheKey(r.mf.fileId, i) in r.cache.lasting)
  }

  /** After a read of such a range its stripe is cached. */
  lemma ReadIsKept(r: Reader, before: seq<int>, offset: nat, len: nat)
    requires CachedWhole(r, offset, len) && r.AskedExactly(before, offset, len)
    requires |before| < |r.asked| ==> r.LastCached()
    ensures r.RangeKept(offset, len)
  {
    var a, m: nat :|
      && r.asked == before + Count(a, m)
      && forall i :: Overlaps(r.mf, i, offset, len) <==> a <= i < a + m;
    forall i | Overlaps(r.mf, i, offset, len)
      ensures r.Kept(i)
    {
      assert Overlaps(r.mf, a, offset, len) && Overlaps(r.mf, a + m - 1, offset, len);
      assert r.asked[|r.asked| - 1] == a + m - 1;
    }
  }

  /** A read after others used the cache. */
  method ReadLater(r: Reader, dst: array<bv8>, offset: nat) returns (n: nat, err: ReadErr)
    requires r.Open() && r.CacheGood()
    modifies r.net`st, r.net`past, r.net`trace, r.cache, r`asked, dst
    ensures r.net.Since(old(r.net.past)) && r.Open() && r.CacheGood() && n <= dst.Length
    ensures r.NoCollision() ==> ReadsRange(r.Plain(), offset, dst.Length, dst[..n], err)
    ensures r.NoCollision() && old(r.RangeKept(offset, dst.Length)) ==> !err.Broken?
  {
    r.OthersRead();
    n, err := r.ReadAt(dst, offset);
  }

  /** What was read once can be read again, though by then nobody may hold a shard any more: the
      stripe comes from the cache. */
  method ReadTwice(r: Reader, dst: array<bv8>, again: array<bv8>, offset: nat)
    returns (n: nat, err: ReadErr, m: nat, err': ReadErr)
    requires r.Open() && r.CacheGood() && dst != again && dst.Length == again.Length
    modifies r.net`st, r.net`past, r.net`trace, r.cache, r`asked, dst, again
    ensures r.net.Since(old(r.net.past)) && n <= dst.Length && m <= again.Length
    ensures r.NoCollision() && !err.Broken? && CachedWhole(r, offset, dst.Length) ==>
              !err'.Broken? && again[..m] == dst[..n]
  {
    ghost var log := r.asked;
    n, err := r.ReadAt(dst, offset);
    ghost var middle := r.net.past;
    if r.NoCollision() && !err.Broken? && CachedWhole(r, offset, dst.Length) {
      ReadIsKept(r, log, offset, dst.Length);
    }
    m, err' := ReadLater(r, again, offset);
    r.StillOpen(middle);
  }
}
