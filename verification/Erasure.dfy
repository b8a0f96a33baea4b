/** internal/ec: splitting a payload into k+m shards and getting it back from any k. */
module Erasure {
  import opened Base
  import opened Primitives

  datatype Params = Params(k: int, m: int)

  function ShardSize(p: Params, fileSize: int): (size: int)
    requires p.k > 0
    ensures fileSize > 0 ==> size >= 1 && (size - 1) * p.k < fileSize <= size * p.k
    ensures fileSize <= 0 ==> size == 0
  {
    if fileSize <= 0 then 0
    else
      CeilDiv(fileSize, p.k);
      (fileSize + p.k - 1) / p.k
  }

  /** (n + d - 1) / d rounds n / d up. */
  lemma CeilDiv(n: int, d: int)
    requires n > 0 && d > 0
    ensures var q := (n + d - 1) / d; q >= 1 && (q - 1) * d < n <= q * d
  {
    var q := (n + d - 1) / d;
    var r := (n + d - 1) % d;
    assert n + d - 1 == q * d + r;
    assert (q - 1) * d == q * d - d;
    assert q <= 0 ==> q * d <= 0;
  }

  function Zeros(n: nat): (z: Bytes)
    ensures |z| == n
  {
    seq(n, _ => 0 as bv8)
  }

  /** `Split` of the library: zero-pad to a multiple of k, cut into k equal rows. */
  function Split(data: Bytes, k: int): (rows: seq<Bytes>)
    requires k >= 1 && |data| >= 1
    ensures |rows| == k
    ensures SameLength(rows, ShardSize(Params(k, 0), |data|))
  {
    var size := ShardSize(Params(k, 0), |data|);
    var padded := data + Zeros(size * k - |data|);
    assert |padded| == size * k;
    Rows(padded, size, k)
  }

  function Rows(padded: Bytes, size: nat, k: nat): (rows: seq<Bytes>)
    requires |padded| == size * k
    ensures |rows| == k && SameLength(rows, size)
  {
    if k == 0 then [] else
      assert size * k == size * (k - 1) + size;
      [padded[..size]] + Rows(padded[size..], size, k - 1)
  }

  lemma {:induction false} RowsFlatten(padded: Bytes, size: nat, k: nat)
    requires |padded| == size * k
    ensures Flatten(Rows(padded, size, k)) == padded
  {
    if k != 0 {
      assert size * k == size * (k - 1) + size;
      RowsFlatten(padded[size..], size, k - 1);
      var rows := Rows(padded, size, k);
      assert rows[1..] == Rows(padded[size..], size, k - 1);
      assert padded == padded[..size] + padded[size..];
    } else {
      assert padded == [];
    }
  }

  function Encode(lib: Library, p: Params, data: Bytes): (r: Result<seq<Bytes>>) {
    if p.k <= 0 || p.m <= 0 then Err("ec: invalid params")
    else if !RsNew(lib, p.k, p.m) then Err("reedsolomon.New")
    else if data == [] then Err("split: short data")
    else
      var rows := Split(data, p.k);
      Ok(rows + lib.rsParity(p.k, p.m, rows))
  }

  /** What `Decode` leaves in the shard slice and returns. */
  function Decoded(lib: Library, p: Params, shards: seq<Option<Bytes>>,
                   fileSize: nat): (r: Result<(seq<Bytes>, Bytes)>) {
    if !RsNew(lib, p.k, p.m) then Err("reedsolomon.New")
    else if |shards| != p.k + p.m then Err("ec: wrong number of shards")
    else match lib.rsReconstruct(p.k, p.m, shards)
      case None => Err("reconstruct")
      case Some(full) =>
        if |full| != p.k + p.m || full[p.k..] != lib.rsParity(p.k, p.m, full[..p.k])
        then Err("verify after reconstruct failed")
        else
          var all := Flatten(full[..p.k]);
          Ok((full, if |all| > fileSize then all[..fileSize] else all))
  }

  /** `Decode`, working in place on the caller's shard slice. */
  method Decode(lib: Library, p: Params, shards: array<Option<Bytes>>, fileSize: nat) returns (r: Result<Bytes>)
    modifies shards
    ensures Decoded(lib, p, old(shards[..]), fileSize).Err? ==> r.Err?
    ensures Decoded(lib, p, old(shards[..]), fileSize).Ok? ==>
              var (full, data) := Decoded(lib, p, old(shards[..]), fileSize).value;
              && r == Ok(data)
              && |full| == shards.Length
              && forall i :: 0 <= i < shards.Length ==> shards[i] == Some(full[i])
  {
    if !RsNew(lib, p.k, p.m) {
      return Err("reedsolomon.New");
    }
    if shards.Length != p.k + p.m {
      return Err("ec: wrong number of shards");
    }
    var rebuilt := lib.rsReconstruct(p.k, p.m, shards[..]);
    if rebuilt.None? {
      return Err("reconstruct");
    }
    var full := rebuilt.value;
    if |full| != p.k + p.m {
      return Err("verify after reconstruct failed");
    }
    forall i | 0 <= i < shards.Length {
      shards[i] := Some(full[i]);
    }
    if full[p.k..] != lib.rsParity(p.k, p.m, full[..p.k]) {
      return Err("verify after reconstruct failed");
    }
    var out: Bytes := [];
    for i := 0 to p.k
      invariant out == Flatten(full[..i])
      invariant forall j :: 0 <= j < shards.Length ==> shards[j] == Some(full[j])
    {
      assert full[..i + 1] == full[..i] + [full[i]];
      FlattenSnoc(full[..i], full[i]);
      out := out + full[i];
    }
    if |out| > fileSize {
      out := out[..fileSize];
    }
    return Ok(out);
  }

  lemma SplitIsPadded(data: Bytes, k: int)
    requires k >= 1 && |data| >= 1
    ensures var size := ShardSize(Params(k, 0), |data|);
            size * k >= |data| && Flatten(Split(data, k)) == data + Zeros(size * k - |data|)
  {
    var size := ShardSize(Params(k, 0), |data|);
    RowsFlatten(data + Zeros(size * k - |data|), size, k);
  }

  /** The code is systematic: the first k shards in order are the payload, padded with zeros,
      and the others their parity. */
  lemma EncodeIsSystematic(lib: Library, p: Params, data: Bytes)
    requires Encode(lib, p, data).Ok?
    ensures var shards := Encode(lib, p, data).value;
            var size := ShardSize(p, |data|);
            && |shards| >= p.k >= 1 && size * p.k >= |data|
            && Flatten(shards[..p.k]) == data + Zeros(size * p.k - |data|)
            && shards[p.k..] == lib.rsParity(p.k, p.m, shards[..p.k])
  {
    var rows := Split(data, p.k);
    SplitIsPadded(data, p.k);
    assert Encode(lib, p, data).value[..p.k] == rows;
  }

  /** What decodes is a word of the code, and the data its first bytes. */
  lemma DecodedIsWord(lib: Library, p: Params, shards: seq<Option<Bytes>>, fileSize: nat)
    requires Decoded(lib, p, shards, fileSize).Ok?
    ensures var (full, data) := Decoded(lib, p, shards, fileSize).value;
            && RsNew(lib, p.k, p.m) && |shards| == |full| == p.k + p.m
            && full == full[..p.k] + lib.rsParity(p.k, p.m, full[..p.k])
            && data <= Flatten(full[..p.k]) && |data| == Min(fileSize, |Flatten(full[..p.k])|)
  {
    var full := Decoded(lib, p, shards, fileSize).value.0;
    assert full == full[..p.k] + full[p.k..];
  }

  /** Encoding refuses exactly bad shapes and the empty payload; otherwise it makes k+m
      rows of the advertised size. */
  lemma EncodeShape(lib: Library, p: Params, data: Bytes)
    requires RsSound(lib)
    ensures Encode(lib, p, data).Ok? <==> p.m >= 1 && RsNew(lib, p.k, p.m) && data != []
    ensures Encode(lib, p, data).Ok? ==>
              var shards := Encode(lib, p, data).value;
              |shards| == p.k + p.m && SameLength(shards, ShardSize(p, |data|))
  {
    if Encode(lib, p, data).Ok? {
      var rows := Split(data, p.k);
      assert |rows[0]| == ShardSize(p, |data|);
      assert Encodable(lib, p.k, p.m, rows);
      var parity := lib.rsParity(p.k, p.m, rows);
      assert SameLength(parity, |rows[0]|);
    }
  }

  /** Erasure round trip: whichever rows survive, as long as k do, decoding rebuilds
      every row and, trimmed to the original length, the original payload. */
  lemma ErasureRoundTrip(lib: Library, p: Params, data: Bytes, survivors: seq<Option<Bytes>>)
    requires RsSound(lib) && Encode(lib, p, data).Ok?
    requires ViewOf(survivors, Encode(lib, p, data).value)
    requires CountSome(survivors) >= p.k
    ensures Decoded(lib, p, survivors, |data|) == Ok((Encode(lib, p, data).value, data))
  {
    var rows := Split(data, p.k);
    EncodeShape(lib, p, data);
    var size := ShardSize(p, |data|);
    assert |rows[0]| == size;
    assert Encodable(lib, p.k, p.m, rows);
    var parity := lib.rsParity(p.k, p.m, rows);
    var full := rows + parity;
    assert lib.rsReconstruct(p.k, p.m, survivors) == Some(full);
    assert full[..p.k] == rows && full[p.k..] == parity;
    var padded := data + Zeros(size * p.k - |data|);
    RowsFlatten(padded, size, p.k);
    assert Flatten(rows) == padded;
    assert padded[..|data|] == data;
    if |padded| == |data| {
      assert padded == data;
    }
  }
}
