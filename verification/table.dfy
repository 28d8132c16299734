/** A JavaScript `Map<string, T>` as the in-memory store uses it: rows in
    insertion order, `set` on an existing key replacing the value in place,
    `delete` reporting whether the key was there, and the
    `Array.from(map.values())` scans with `filter` and `find`. */
module Tables {
  import opened Wrappers
  import Utils

  datatype Row<T> = Row(id: string, value: T)

  /** The rows of a map, in insertion order. */
  type Table<T> = seq<Row<T>>

  /** The keys, in insertion order. */
  function Ids<T>(t: Table<T>): (r: seq<string>)
    ensures |r| == |t|
    ensures forall i :: 0 <= i < |t| ==> r[i] == t[i].id
  {
    seq(|t|, i requires 0 <= i < |t| => t[i].id)
  }

  /** A map never holds a key twice. */
  predicate Valid<T>(t: Table<T>)
  {
    Utils.NoDuplicates(Ids(t))
  }

  /** `map.get(id)`. */
  function Get<T>(t: Table<T>, id: string): (r: Option<T>)
    ensures r.None? <==> id !in Ids(t)
    ensures r.Some? ==> exists i :: 0 <= i < |t| && t[i] == Row(id, r.value)
  {
    if |t| == 0 then None
    else if t[0].id == id then Some(t[0].value)
    else
      assert Ids(t) == [t[0].id] + Ids(t[1..]);
      var r := Get(t[1..], id);
      assert r.Some? ==> exists i :: 0 <= i < |t[1..]| && t[1..][i] == Row(id, r.value);
      r
  }

  /** In a map without repeated keys, the row holding a key is the one
      `get` reads. */
  lemma {:induction false} GetInValid<T>(t: Table<T>, id: string, i: nat)
    requires Valid(t) && i < |t| && t[i].id == id
    ensures Get(t, id) == Some(t[i].value)
    decreases i
  {
    assert Ids(t)[i] == id;
    if i > 0 {
      assert Ids(t)[0] == t[0].id;
      assert Valid(t[1..]) by {
        forall p, q | 0 <= p < q < |t| - 1 ensures Ids(t[1..])[p] != Ids(t[1..])[q] {
          assert Ids(t)[p + 1] != Ids(t)[q + 1];
        }
      }
      GetInValid(t[1..], id, i - 1);
    }
  }

  /** Looking up in a table with one more row in front. */
  lemma GetCons<T>(row: Row<T>, t: Table<T>, k: string)
    ensures Get([row] + t, k) == if row.id == k then Some(row.value) else Get(t, k)
    ensures Ids([row] + t) == [row.id] + Ids(t)
  {
    var s := [row] + t;
    assert s[0] == row;
    assert s[1..] == t;
    IdsCons(row, t);
  }

  lemma IdsCons<T>(row: Row<T>, t: Table<T>)
    ensures Ids([row] + t) == [row.id] + Ids(t)
  {
  }

  /** `map.set(id, v)`: the key gets the new value and every other key
      keeps its value. */
  function Set<T>(t: Table<T>, id: string, v: T): (r: Table<T>)
    ensures Get(r, id) == Some(v)
    ensures forall k :: k != id ==> Get(r, k) == Get(t, k)
  {
    if |t| == 0 then [Row(id, v)]
    else if t[0].id == id then
      var r := [Row(id, v)] + t[1..];
      assert t == [t[0]] + t[1..];
      GetCons(Row(id, v), t[1..], id);
      assert forall k :: k != id ==> Get(r, k) == Get(t, k) by {
        forall k | k != id ensures Get(r, k) == Get(t, k) {
          GetCons(t[0], t[1..], k);
          GetCons(Row(id, v), t[1..], k);
        }
      }
      r
    else
      var rest := Set(t[1..], id, v);
      var r := [t[0]] + rest;
      assert t == [t[0]] + t[1..];
      GetCons(t[0], rest, id);
      assert forall k :: k != id ==> Get(r, k) == Get(t, k) by {
        forall k | k != id ensures Get(r, k) == Get(t, k) {
          GetCons(t[0], t[1..], k);
          GetCons(t[0], rest, k);
        }
      }
      r
  }

  /** Where `set` puts the key: a new key goes to the end, an existing key
      keeps its position. */
  lemma {:induction false} SetKeys<T>(t: Table<T>, id: string, v: T)
    ensures id in Ids(t) ==> Ids(Set(t, id, v)) == Ids(t)
    ensures id !in Ids(t) ==> Ids(Set(t, id, v)) == Ids(t) + [id]
  {
    if |t| > 0 {
      assert t == [t[0]] + t[1..];
      GetCons(t[0], t[1..], id);
      if t[0].id == id {
        GetCons(Row(id, v), t[1..], id);
      } else {
        SetKeys(t[1..], id, v);
        GetCons(t[0], Set(t[1..], id, v), id);
      }
    }
  }

  /** Setting a key the map does not hold appends one row. */
  lemma {:induction false} SetFreshAppends<T>(t: Table<T>, id: string, v: T)
    requires id !in Ids(t)
    ensures Set(t, id, v) == t + [Row(id, v)]
  {
    if |t| > 0 {
      assert t[0].id != id by {
        assert Ids(t)[0] == t[0].id;
      }
      SetFreshAppends(t[1..], id, v);
      assert Set(t, id, v) == [t[0]] + Set(t[1..], id, v);
      Utils.ConsSnoc(t, Row(id, v));
    }
  }

  lemma IdsSnoc<T>(t: Table<T>, row: Row<T>)
    ensures Ids(t + [row]) == Ids(t) + [row.id]
  {
  }

  /** Three fresh keys set into an empty map sit in insertion order. */
  lemma SetThree<T>(a: string, x: T, b: string, y: T, c: string, z: T)
    requires a != b && b != c && a != c
    ensures Set(Set(Set([], a, x), b, y), c, z) == [Row(a, x), Row(b, y), Row(c, z)]
  {
    SetThreeOnto([], a, x, b, y, c, z);
  }

  /** Three fresh keys set into any map go after its rows, in order. */
  lemma SetThreeOnto<T>(t: Table<T>, a: string, x: T, b: string, y: T, c: string, z: T)
    requires a != b && b != c && a != c
    requires a !in Ids(t) && b !in Ids(t) && c !in Ids(t)
    ensures Set(Set(Set(t, a, x), b, y), c, z) == t + [Row(a, x), Row(b, y), Row(c, z)]
  {
    SetTwoOnto(t, a, x, b, y);
    SetFreshAppends(t + [Row(a, x), Row(b, y)], c, z);
    Utils.SnocAfterTwo(t, Row(a, x), Row(b, y), Row(c, z));
  }

  /** Two fresh keys set into any map go after its rows, in order. */
  lemma SetTwoOnto<T>(t: Table<T>, a: string, x: T, b: string, y: T)
    requires a != b && a !in Ids(t) && b !in Ids(t)
    ensures Set(Set(t, a, x), b, y) == t + [Row(a, x), Row(b, y)]
    ensures Ids(t + [Row(a, x), Row(b, y)]) == Ids(t) + [a, b]
  {
    SetFreshAppends(t, a, x);
    IdsSnoc(t, Row(a, x));
    SetFreshAppends(t + [Row(a, x)], b, y);
    IdsSnoc(t + [Row(a, x)], Row(b, y));
    Utils.SnocTwo(t, Row(a, x), Row(b, y));
    Utils.SnocTwo(Ids(t), a, b);
  }

  /** Setting a key keeps the keys distinct. */
  lemma SetValid<T>(t: Table<T>, id: string, v: T)
    requires Valid(t)
    ensures Valid(Set(t, id, v))
  {
    SetKeys(t, id, v);
  }

  /** `map.delete(id)`: the table without that key, and whether it was
      present. */
  function Delete<T>(t: Table<T>, id: string): (r: (Table<T>, bool))
    ensures r.1 <==> id in Ids(t)
    ensures id !in Ids(r.0)
    ensures forall k :: k != id ==> Get(r.0, k) == Get(t, k)
    ensures !r.1 ==> r.0 == t
  {
    if |t| == 0 then ([], false)
    else
      var rest := Delete(t[1..], id);
      assert t == [t[0]] + t[1..];
      GetCons(t[0], t[1..], id);
      if t[0].id == id then
        assert forall k :: k != id ==> Get(rest.0, k) == Get(t, k) by {
          forall k | k != id ensures Get(rest.0, k) == Get(t, k) {
            GetCons(t[0], t[1..], k);
          }
        }
        (rest.0, true)
      else
        var r := [t[0]] + rest.0;
        GetCons(t[0], rest.0, id);
        assert forall k :: k != id ==> Get(r, k) == Get(t, k) by {
          forall k | k != id ensures Get(r, k) == Get(t, k) {
            GetCons(t[0], t[1..], k);
            GetCons(t[0], rest.0, k);
          }
        }
        (r, rest.1)
  }

  /** Deleting removes only that key: the remaining keys are the others,
      in their order, still distinct. */
  lemma {:induction false} DeleteKeys<T>(t: Table<T>, id: string)
    ensures Ids(Delete(t, id).0) == Filter(Ids(t), k => k != id)
  {
    if |t| > 0 {
      DeleteKeys(t[1..], id);
      assert t == [t[0]] + t[1..];
      GetCons(t[0], t[1..], id);
      assert Ids(t)[1..] == Ids(t[1..]);
      if t[0].id != id {
        GetCons(t[0], Delete(t[1..], id).0, id);
      }
    }
  }

  /** Deleting keeps the keys distinct. */
  lemma DeleteValid<T>(t: Table<T>, id: string)
    requires Valid(t)
    ensures Valid(Delete(t, id).0)
  {
    var r := Delete(t, id).0;
    DeleteKeys(t, id);
    FilterKeepsDistinct(Ids(t), k => k != id);
  }

  /** `Array.from(map.values())`. */
  function Values<T>(t: Table<T>): (r: seq<T>)
    ensures |r| == |t|
    ensures forall i :: 0 <= i < |t| ==> r[i] == t[i].value
  {
    seq(|t|, i requires 0 <= i < |t| => t[i].value)
  }

  /** `values.filter(p)`: the elements satisfying `p`, in order. */
  function Filter<T>(s: seq<T>, p: T -> bool): (r: seq<T>)
    ensures |r| <= |s|
    ensures forall i :: 0 <= i < |r| ==> p(r[i])
  {
    if |s| == 0 then []
    else if p(s[0]) then [s[0]] + Filter(s[1..], p)
    else Filter(s[1..], p)
  }

  /** Filtering keeps exactly the satisfying elements, each as often as
      it occurs. */
  lemma {:induction false} FilterCounts<T>(s: seq<T>, p: T -> bool, x: T)
    ensures multiset(Filter(s, p))[x] == if p(x) then multiset(s)[x] else 0
  {
    if |s| > 0 {
      FilterCounts(s[1..], p, x);
      assert s == [s[0]] + s[1..];
    }
  }

  /** A filtered duplicate-free sequence is duplicate-free. */
  lemma {:induction false} FilterKeepsDistinct<T>(s: seq<T>, p: T -> bool)
    requires Utils.NoDuplicates(s)
    ensures Utils.NoDuplicates(Filter(s, p))
  {
    if |s| > 0 {
      assert Utils.NoDuplicates(s[1..]);
      FilterKeepsDistinct(s[1..], p);
      if p(s[0]) {
        FilterMembers(s[1..], p, s[0]);
        assert s[0] !in s[1..];
        var r := Filter(s[1..], p);
        assert Filter(s, p) == [s[0]] + r;
        forall i, j | 0 <= i < j < |[s[0]] + r| ensures ([s[0]] + r)[i] != ([s[0]] + r)[j] {
          if i == 0 {
            assert ([s[0]] + r)[j] == r[j - 1];
          } else {
            assert ([s[0]] + r)[i] == r[i - 1] && ([s[0]] + r)[j] == r[j - 1];
          }
        }
      }
    }
  }

  /** An element is kept exactly when it satisfies `p`. */
  lemma FilterMembers<T>(s: seq<T>, p: T -> bool, x: T)
    ensures x in Filter(s, p) <==> x in s && p(x)
  {
    FilterCounts(s, p, x);
  }

  /** Filtering distributes over concatenation. */
  lemma {:induction false} FilterConcat<T>(a: seq<T>, b: seq<T>, p: T -> bool)
    ensures Filter(a + b, p) == Filter(a, p) + Filter(b, p)
  {
    if |a| > 0 {
      FilterConcat(a[1..], b, p);
      assert (a + b)[1..] == a[1..] + b;
    } else {
      assert a + b == b;
    }
  }

  /** `values.find(p)`: the first element satisfying `p`. */
  function Find<T>(s: seq<T>, p: T -> bool): (r: Option<T>)
    ensures r.None? <==> forall i :: 0 <= i < |s| ==> !p(s[i])
    ensures r.Some? ==> exists i :: 0 <= i < |s| && s[i] == r.value && p(s[i])
                                    && forall j :: 0 <= j < i ==> !p(s[j])
  {
    if |s| == 0 then None
    else if p(s[0]) then Some(s[0])
    else
      var r := Find(s[1..], p);
      assert forall i :: 0 < i < |s| ==> s[i] == s[1..][i - 1];
      assert r.Some? ==> exists i :: 0 <= i < |s[1..]| && s[1..][i] == r.value && p(s[1..][i])
                                     && forall j :: 0 <= j < i ==> !p(s[1..][j]);
      r
  }
}
