/** Counting sort over integer keys: counts, prefix sums and the stable selection of one key. */
module Buckets {

  function Count(keys: seq<int>, b: int): nat {
    if keys == [] then 0
    else Count(keys[..|keys| - 1], b) + (if keys[|keys| - 1] == b then 1 else 0)
  }

  /** How many keys lie in [0, b). */
  function Prefix(keys: seq<int>, b: nat): nat {
    if b == 0 then 0 else Prefix(keys, b - 1) + Count(keys, b - 1)
  }

  /** The elements of `xs` whose key is `b`, in their order. */
  function Sel<T>(keys: seq<int>, xs: seq<T>, b: int): (r: seq<T>)
    requires |keys| == |xs|
    ensures |r| == Count(keys, b)
  {
    if keys == [] then []
    else
      var n := |keys| - 1;
      Sel(keys[..n], xs[..n], b) + (if keys[n] == b then [xs[n]] else [])
  }

  /** The elements of `xs` whose key lies in [0, b), in their order. */
  function Below<T>(keys: seq<int>, xs: seq<T>, b: int): seq<T>
    requires |keys| == |xs|
  {
    if keys == [] then []
    else
      var n := |keys| - 1;
      Below(keys[..n], xs[..n], b) + (if 0 <= keys[n] < b then [xs[n]] else [])
  }

  lemma CountSnoc(keys: seq<int>, k: int, b: int)
    ensures Count(keys + [k], b) == Count(keys, b) + (if k == b then 1 else 0)
  {
    assert (keys + [k])[..|keys|] == keys;
  }

  lemma {:induction false} CountGrows(keys: seq<int>, i: nat, b: int)
    requires i <= |keys|
    ensures Count(keys[..i], b) <= Count(keys, b)
    decreases |keys|
  {
    if i < |keys| {
      assert keys[..|keys| - 1][..i] == keys[..i];
      CountGrows(keys[..|keys| - 1], i, b);
    } else {
      assert keys[..i] == keys;
    }
  }

  /** While key `b` at position `i` is still to be placed, its bucket is not full. */
  lemma RoomLeft(keys: seq<int>, i: nat, b: int)
    requires i < |keys| && keys[i] == b
    ensures Count(keys[..i], b) + 1 == Count(keys[..i + 1], b) <= Count(keys, b)
  {
    assert keys[..i + 1] == keys[..i] + [b];
    CountSnoc(keys[..i], b, b);
    CountGrows(keys, i + 1, b);
  }

  lemma {:induction false} PrefixMonotone(keys: seq<int>, a: nat, b: nat)
    requires a <= b
    ensures Prefix(keys, a) <= Prefix(keys, b)
    ensures a < b ==> Prefix(keys, a) + Count(keys, a) <= Prefix(keys, b)
    decreases b - a
  {
    if a < b {
      PrefixMonotone(keys, a + 1, b);
    }
  }

  lemma {:induction false} BelowGrows<T>(keys: seq<int>, xs: seq<T>, b: nat)
    requires |keys| == |xs|
    ensures multiset(Below(keys, xs, b + 1)) == multiset(Below(keys, xs, b)) + multiset(Sel(keys, xs, b))
  {
    if keys != [] {
      var n := |keys| - 1;
      BelowGrows(keys[..n], xs[..n], b);
    }
  }

  lemma {:induction false} BelowMembers<T(!new)>(keys: seq<int>, xs: seq<T>, b: nat)
    requires |keys| == |xs|
    ensures forall x | x in Below(keys, xs, b) :: exists i :: 0 <= i < |xs| && xs[i] == x && 0 <= keys[i] < b
  {
    if keys != [] {
      var n := |keys| - 1;
      BelowMembers(keys[..n], xs[..n], b);
      forall x | x in Below(keys, xs, b)
        ensures exists i :: 0 <= i < |xs| && xs[i] == x && 0 <= keys[i] < b
      {
        if x in Below(keys[..n], xs[..n], b) {
          var i :| 0 <= i < n && xs[..n][i] == x && 0 <= keys[..n][i] < b;
          assert xs[i] == x;
        } else {
          assert xs[n] == x;
        }
      }
    }
  }

  lemma {:induction false} SelMembers<T(!new)>(keys: seq<int>, xs: seq<T>, b: int)
    requires |keys| == |xs|
    ensures forall x | x in Sel(keys, xs, b) :: exists i :: 0 <= i < |xs| && xs[i] == x && keys[i] == b
  {
    if keys != [] {
      var n := |keys| - 1;
      SelMembers(keys[..n], xs[..n], b);
      forall x | x in Sel(keys, xs, b)
        ensures exists i :: 0 <= i < |xs| && xs[i] == x && keys[i] == b
      {
        if x in Sel(keys[..n], xs[..n], b) {
          var i :| 0 <= i < n && xs[..n][i] == x && keys[..n][i] == b;
          assert xs[i] == x;
        } else {
          assert xs[n] == x;
        }
      }
    }
  }
}
