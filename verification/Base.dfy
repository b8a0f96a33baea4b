/** Shared vocabulary: bytes, peers, optional and fallible values, and the small
    facts about sequences that every other module leans on. */
module Base {

  type Bytes = seq<bv8>
  type Peer = string
  type ShardId = string
  type FileId = string

  datatype Option<+T> = None | Some(value: T)

  datatype Result<+T> = Ok(value: T) | Err(why: string)

  function Min(a: int, b: int): int { if a <= b then a else b }

  function Max(a: int, b: int): int { if a >= b then a else b }

  predicate NoDup<T(==)>(s: seq<T>) {
    forall i, j :: 0 <= i < j < |s| ==> s[i] != s[j]
  }

  /** How many positions of a partly filled row are filled. */
  function CountSome<T>(v: seq<Option<T>>): (n: nat)
    ensures n <= |v|
  {
    if v == [] then 0
    else CountSome(v[..|v| - 1]) + (if v[|v| - 1].Some? then 1 else 0)
  }

  /** Filling an empty position adds one to the count. */
  lemma {:induction false} CountSomeFill<T>(v: seq<Option<T>>, i: nat, x: T)
    requires i < |v| && v[i].None?
    ensures CountSome(v[i := Some(x)]) == CountSome(v) + 1
  {
    var w := v[i := Some(x)];
    var n := |v| - 1;
    if i == n {
      assert w[..n] == v[..n];
    } else {
      assert w[..n] == v[..n][i := Some(x)];
      CountSomeFill(v[..n], i, x);
    }
  }

  lemma {:induction false} CountSomeNone<T>(v: seq<Option<T>>)
    requires forall i :: 0 <= i < |v| ==> v[i].None?
    ensures CountSome(v) == 0
  {
    if |v| > 0 {
      CountSomeNone(v[..|v| - 1]);
    }
  }

  function Flatten(parts: seq<Bytes>): (r: Bytes) {
    if parts == [] then [] else parts[0] + Flatten(parts[1..])
  }

  lemma {:induction false} FlattenAppend(a: seq<Bytes>, b: seq<Bytes>)
    ensures Flatten(a + b) == Flatten(a) + Flatten(b)
  {
    if a == [] {
      assert a + b == b;
    } else {
      assert (a + b)[1..] == a[1..] + b;
      FlattenAppend(a[1..], b);
    }
  }

  lemma FlattenSnoc(a: seq<Bytes>, x: Bytes)
    ensures Flatten(a + [x]) == Flatten(a) + x
  {
    FlattenAppend(a, [x]);
    assert Flatten([x]) == x + Flatten([]);
  }
}
