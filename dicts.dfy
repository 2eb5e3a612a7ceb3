/** Python dictionaries as the pipeline uses them: association lists with
    distinct keys, kept in insertion order. Assigning to a present key keeps
    its position; deleting a key keeps the order of the others. */
module Dicts {
  import opened Common

  type Dict<K, V> = seq<(K, V)>

  predicate DistinctKeys<K(==), V>(m: Dict<K, V>) {
    forall i, j :: 0 <= i < j < |m| ==> m[i].0 != m[j].0
  }

  /** The position of `k` among the keys, or `|m|` when it is absent. */
  function Position<K(==), V>(m: Dict<K, V>, k: K): (p: nat)
    ensures p <= |m|
    ensures p < |m| ==> m[p].0 == k
    ensures forall i :: 0 <= i < p ==> m[i].0 != k
  {
    if m == [] then 0
    else if m[0].0 == k then 0
    else Position(m[1..], k) + 1
  }

  predicate HasKey<K(==), V>(m: Dict<K, V>, k: K) {
    Position(m, k) < |m|
  }

  /** `m.get(k)`. */
  function Lookup<K(==), V>(m: Dict<K, V>, k: K): Option<V> {
    var p := Position(m, k);
    if p < |m| then Some(m[p].1) else None
  }

  /** `m[k] = v`. */
  function Assign<K(==), V>(m: Dict<K, V>, k: K, v: V): Dict<K, V> {
    var p := Position(m, k);
    if p < |m| then m[p := (k, v)] else m + [(k, v)]
  }

  /** `del m[k]`, a no-op when `k` is absent. */
  function Delete<K(==), V>(m: Dict<K, V>, k: K): Dict<K, V> {
    var p := Position(m, k);
    if p < |m| then m[..p] + m[p + 1..] else m
  }

  /** A key that occurs is found, and in a dictionary with distinct keys it
      is found where it occurs. */
  lemma PositionOf<K, V>(m: Dict<K, V>, i: nat)
    requires i < |m|
    ensures HasKey(m, m[i].0)
    ensures DistinctKeys(m) ==> Position(m, m[i].0) == i
  {
  }

  lemma AbsentKey<K, V>(m: Dict<K, V>, k: K)
    ensures !HasKey(m, k) <==> forall i :: 0 <= i < |m| ==> m[i].0 != k
  {
    if !(forall i :: 0 <= i < |m| ==> m[i].0 != k) {
      var i :| 0 <= i < |m| && m[i].0 == k;
      PositionOf(m, i);
    }
  }

  /** After `m[k] = v` the key reads `v`, every other key reads as before,
      the keys keep their order, and a new key goes last. */
  lemma AssignSpec<K, V>(m: Dict<K, V>, k: K, v: V)
    requires DistinctKeys(m)
    ensures Lookup(Assign(m, k, v), k) == Some(v)
    ensures forall e :: e != k ==> Lookup(Assign(m, k, v), e) == Lookup(m, e)
    ensures |Assign(m, k, v)| == if HasKey(m, k) then |m| else |m| + 1
    ensures forall i :: 0 <= i < |m| ==> Assign(m, k, v)[i].0 == m[i].0
    ensures !HasKey(m, k) ==> Assign(m, k, v) == m + [(k, v)]
    ensures DistinctKeys(Assign(m, k, v))
  {
    var r := Assign(m, k, v);
    var p := Position(m, k);
    assert p < |r| && r[p] == (k, v);
    PositionOf(r, p);
    assert DistinctKeys(r) by {
      if p == |m| {
        AbsentKey(m, k);
      }
    }
    forall e | e != k ensures Lookup(r, e) == Lookup(m, e) {
      var q := Position(m, e);
      if q < |m| {
        PositionOf(m, q);
        PositionOf(r, q);
      } else {
        AbsentKey(m, e);
        AbsentKey(r, e);
      }
    }
  }

  /** `AssignSpec` for one key at a time. */
  lemma AssignLookup<K, V>(m: Dict<K, V>, k: K, v: V, e: K)
    requires DistinctKeys(m)
    ensures Lookup(Assign(m, k, v), e) == if e == k then Some(v) else Lookup(m, e)
  {
    AssignSpec(m, k, v);
  }

  /** The position is the first index holding the key. */
  lemma {:induction false} PositionIs<K, V>(m: Dict<K, V>, k: K, p: nat)
    requires p <= |m| && (p < |m| ==> m[p].0 == k)
    requires forall i :: 0 <= i < p ==> m[i].0 != k
    ensures Position(m, k) == p
  {
    if m != [] && m[0].0 != k {
      PositionIs(m[1..], k, p - 1);
    }
  }

  /** Assigning twice to a key leaves only the second value, in the first
      assignment's place. */
  lemma AssignAgain<K, V>(m: Dict<K, V>, k: K, v: V, w: V)
    ensures Assign(Assign(m, k, v), k, w) == Assign(m, k, w)
  {
    var p := Position(m, k);
    var once := Assign(m, k, v);
    PositionIs(once, k, p);
    if p < |m| {
      assert once[p := (k, w)] == m[p := (k, w)];
    } else {
      assert once[p := (k, w)] == m + [(k, w)];
    }
  }

  /** After `del m[k]` the key is gone, every other key reads as before, and
      the remaining entries keep their order. */
  lemma DeleteSpec<K, V>(m: Dict<K, V>, k: K)
    requires DistinctKeys(m)
    ensures !HasKey(Delete(m, k), k)
    ensures forall e :: e != k ==> Lookup(Delete(m, k), e) == Lookup(m, e)
    ensures |Delete(m, k)| == if HasKey(m, k) then |m| - 1 else |m|
    ensures HasKey(m, k) ==> Delete(m, k) == m[..Position(m, k)] + m[Position(m, k) + 1..]
    ensures !HasKey(m, k) ==> Delete(m, k) == m
    ensures DistinctKeys(Delete(m, k))
  {
    var r := Delete(m, k);
    var p := Position(m, k);
    if p < |m| {
      assert forall i :: 0 <= i < |r| ==> r[i] == if i < p then m[i] else m[i + 1];
      assert DistinctKeys(r);
      AbsentKey(r, k);
      forall e | e != k ensures Lookup(r, e) == Lookup(m, e) {
        var q := Position(m, e);
        if q < |m| {
          PositionOf(m, q);
          var q' := if q < p then q else q - 1;
          assert r[q'] == m[q];
          PositionOf(r, q');
        } else {
          AbsentKey(m, e);
          AbsentKey(r, e);
        }
      }
    }
  }

  /** The sum of `val` over the values, in order. */
  function ValuesSum<K, V>(m: Dict<K, V>, val: V -> int): int {
    if m == [] then 0 else ValuesSum(m[..|m| - 1], val) + val(m[|m| - 1].1)
  }

  lemma {:induction false} UpdateSum<K, V>(m: Dict<K, V>, p: nat, x: (K, V), val: V -> int)
    requires p < |m|
    ensures ValuesSum(m[p := x], val) == ValuesSum(m, val) - val(m[p].1) + val(x.1)
  {
    var n := |m|;
    var u := m[p := x];
    if p == n - 1 {
      assert u[..n - 1] == m[..n - 1];
    } else {
      assert u[..n - 1] == m[..n - 1][p := x];
      UpdateSum(m[..n - 1], p, x, val);
    }
  }

  /** Assigning `v` to `k` replaces the old value's share of the sum, if
      any, by `v`'s. */
  lemma AssignSum<K, V>(m: Dict<K, V>, k: K, v: V, val: V -> int)
    ensures ValuesSum(Assign(m, k, v), val) ==
      ValuesSum(m, val) - (match Lookup(m, k) case Some(o) => val(o) case None => 0) + val(v)
  {
    var p := Position(m, k);
    if p < |m| {
      UpdateSum(m, p, (k, v), val);
    } else {
      assert (m + [(k, v)])[..|m|] == m;
    }
  }
}
