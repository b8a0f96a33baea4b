/** The assumptions of `Primitives` hold of a concrete library: single-parity XOR for
    every shape k+1 (the default 2+1 among them), a tagging cipher, and an injective
    hash. No theorem about the system is therefore vacuous. */
module Witness {
  import opened Base
  import opened Primitives
  import opened Erasure

  // ----- single-parity XOR -----

  function Xor(a: Bytes, b: Bytes): (c: Bytes)
    ensures |c| == Min(|a|, |b|)
    ensures forall i :: 0 <= i < |c| ==> c[i] == a[i] ^ b[i]
  {
    seq(Min(|a|, |b|), i requires 0 <= i < |a| && i < |b| => a[i] ^ b[i])
  }

  function XorRows(rows: seq<Bytes>, size: nat): (r: Bytes)
    ensures SameLength(rows, size) ==> |r| == size
  {
    if rows == [] then Zeros(size)
    else
      assert SameLength(rows, size) ==> SameLength(rows[1..], size);
      Xor(rows[0], XorRows(rows[1..], size))
  }

  /** The XOR of a row list does not care where a row stands. */
  lemma {:induction false} XorRowsPull(a: seq<Bytes>, x: Bytes, b: seq<Bytes>, size: nat)
    requires SameLength(a, size) && |x| == size && SameLength(b, size)
    ensures XorRows(a + [x] + b, size) == Xor(x, XorRows(a + b, size))
  {
    if a == [] {
      assert a + [x] + b == [x] + b && a + b == b;
      assert ([x] + b)[1..] == b;
    } else {
      var rest := a[1..] + b;
      assert SameLength(rest, size);
      assert (a + [x] + b)[1..] == a[1..] + [x] + b;
      assert (a + b)[1..] == rest;
      XorRowsPull(a[1..], x, b, size);
    }
  }

  function XorParity(rows: seq<Bytes>): (r: seq<Bytes>) {
    if rows == [] then [] else [XorRows(rows, |rows[0]|)]
  }

  function FirstMissing(view: seq<Option<Bytes>>): (j: nat)
    ensures j <= |view|
    ensures j < |view| ==> view[j].None?
    ensures forall i :: 0 <= i < j ==> view[i].Some?
  {
    if view == [] || view[0].None? then 0 else 1 + FirstMissing(view[1..])
  }

  function Shown(view: seq<Option<Bytes>>): (r: seq<Bytes>)
    ensures |r| == |view|
    ensures forall i :: 0 <= i < |view| && view[i].Some? ==> r[i] == view[i].value
  {
    seq(|view|, i requires 0 <= i < |view| => if view[i].Some? then view[i].value else [])
  }

  /** Fill the one missing row, if one is missing, with the XOR of the others. */
  function XorReconstruct(view: seq<Option<Bytes>>): (r: Option<seq<Bytes>>) {
    var j := FirstMissing(view);
    var rows := Shown(view);
    if j == |view| then Some(rows)
    else
      var others := rows[..j] + rows[j + 1..];
      Some(rows[j := if others == [] then [] else XorRows(others, |others[0]|)])
  }

  /** Every row of a single-parity word is the XOR of the others. */
  lemma XorOthers(data: seq<Bytes>, j: nat)
    requires |data| >= 1 && SameLength(data, |data[0]|)
    requires j <= |data|
    ensures var full := data + XorParity(data);
            var others := full[..j] + full[j + 1..];
            |others| >= 1 && XorRows(others, |others[0]|) == full[j]
  {
    var size := |data[0]|;
    var parity := XorRows(data, size);
    var full := data + [parity];
    var others := full[..j] + full[j + 1..];
    assert |others[0]| == size;
    XorRowsPull(data, parity, [], size);
    assert data + [parity] + [] == full && data + [] == data;
    assert XorRows(full, size) == Xor(parity, parity);
    XorRowsPull(full[..j], full[j], full[j + 1..], size);
    assert full[..j] + [full[j]] + full[j + 1..] == full;
    assert Xor(full[j], XorRows(others, size)) == Xor(parity, parity);
    SameIfXorZero(full[j], XorRows(others, size), parity);
  }

  lemma SameIfXorZero(a: Bytes, b: Bytes, p: Bytes)
    requires |a| == |b| == |p| && Xor(a, b) == Xor(p, p)
    ensures a == b
  {
    forall i | 0 <= i < |a|
      ensures a[i] == b[i]
    {
      assert a[i] ^ b[i] == Xor(a, b)[i] == Xor(p, p)[i] == p[i] ^ p[i];
    }
  }

  /** If at least all but one entries are filled, a second gap is impossible. */
  lemma {:induction false} OneGap(view: seq<Option<Bytes>>, i: nat, j: nat)
    requires i < j < |view| && view[i].None? && view[j].None?
    ensures CountSome(view) <= |view| - 2
  {
    var n := |view| - 1;
    if j < n {
      OneGap(view[..n], i, j);
    } else {
      AtMostWithGap(view[..n], i);
    }
  }

  lemma {:induction false} AtMostWithGap(view: seq<Option<Bytes>>, i: nat)
    requires i < |view| && view[i].None?
    ensures CountSome(view) <= |view| - 1
  {
    if i < |view| - 1 {
      AtMostWithGap(view[..|view| - 1], i);
    }
  }

  lemma XorRecovers(data: seq<Bytes>, view: seq<Option<Bytes>>)
    requires |data| >= 1 && SameLength(data, |data[0]|)
    requires ViewOf(view, data + XorParity(data)) && CountSome(view) >= |data|
    ensures XorReconstruct(view) == Some(data + XorParity(data))
  {
    var full := data + XorParity(data);
    var j := FirstMissing(view);
    var rows := Shown(view);
    if j == |view| {
      assert rows == full;
    } else {
      forall i | 0 <= i < |view| && i != j
        ensures rows[i] == full[i]
      {
        if view[i].None? {
          OneGap(view, j, i);
        }
      }
      assert rows[..j] == full[..j] && rows[j + 1..] == full[j + 1..];
      XorOthers(data, j);
      var others := full[..j] + full[j + 1..];
      assert rows[j := XorRows(others, |others[0]|)] == full;
    }
  }

  // ----- a library that meets every assumption -----

  function Text(x: Bytes): (s: string)
    ensures |s| == |x| + 1
  {
    "#" + seq(|x|, i requires 0 <= i < |x| => x[i] as char)
  }

  function Example(): Library {
    Library(
      Text,
      (key: Bytes, nonce: Bytes, plain: Bytes) => plain + Zeros(TAG_SIZE),
      (key: Bytes, nonce: Bytes, sealed: Bytes) =>
        if |sealed| < TAG_SIZE || sealed[|sealed| - TAG_SIZE..] != Zeros(TAG_SIZE) then None
        else Some(sealed[..|sealed| - TAG_SIZE]),
      (pub: Bytes, entropy: Bytes, plain: Bytes) => plain,
      (pub: Bytes, priv: Bytes, box: Bytes) => Some(box),
      (pub: Bytes, priv: Bytes) => true,
      (k: int, m: int) => m == 1,
      (k: int, m: int, rows: seq<Bytes>) => XorParity(rows),
      (k: int, m: int, view: seq<Option<Bytes>>) => XorReconstruct(view),
      (p: Peer) => p != "")
  }

  /** All assumptions hold together, for every shape k+1 and every set of strings. */
  lemma AssumptionsHold(strings: set<Bytes>, k: int)
    requires k >= 1
    ensures Sound(Example()) && GcmExact(Example()) && NamesSound(Example())
    ensures RsNew(Example(), k, 1) && CollisionFree(Example(), strings)
  {
    var lib := Example();
    forall key: Bytes, nonce: Bytes, plain: Bytes
      ensures lib.gcmOpen(key, nonce, lib.gcmSeal(key, nonce, plain)) == Some(plain)
    {
      assert (plain + Zeros(TAG_SIZE))[..|plain|] == plain && (plain + Zeros(TAG_SIZE))[|plain|..] == Zeros(TAG_SIZE);
    }
    forall key: Bytes, nonce: Bytes, sealed: Bytes | lib.gcmOpen(key, nonce, sealed).Some?
      ensures sealed == lib.gcmSeal(key, nonce, lib.gcmOpen(key, nonce, sealed).value)
    {
      assert sealed == sealed[..|sealed| - TAG_SIZE] + sealed[|sealed| - TAG_SIZE..];
    }
    forall k: int, m: int, data: seq<Bytes> | Encodable(lib, k, m, data)
      ensures |lib.rsParity(k, m, data)| == m && SameLength(lib.rsParity(k, m, data), |data[0]|)
    {
    }
    forall k: int, m: int, data: seq<Bytes>, view: seq<Option<Bytes>> |
      Encodable(lib, k, m, data) && ViewOf(view, data + lib.rsParity(k, m, data)) && CountSome(view) >= k
      ensures lib.rsReconstruct(k, m, view) == Some(data + lib.rsParity(k, m, data))
    {
      XorRecovers(data, view);
    }
    forall x, y | x in strings && y in strings && lib.hash(x) == lib.hash(y)
      ensures x == y
    {
      assert |Text(x)| == |Text(y)|;
      forall i | 0 <= i < |x|
        ensures x[i] == y[i]
      {
        assert Text(x)[i + 1] == x[i] as char && Text(y)[i + 1] == y[i] as char;
      }
    }
  }
}
