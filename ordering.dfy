/**
 * Cursor sorting: `.sort({ field: 1 })` and `.sort({ field: -1 })` over an integer field
 * that may be missing or null.
 */
module Ordering {
  import opened Toys

  datatype SortField = CreatedAt | Price

  /** A sort directive: the key and its direction (`1` is ascending, `-1` descending). */
  datatype SortSpec = SortSpec(field: SortField, ascending: bool)

  /** The directive of the listing route: `{ createdAt: -1 }`, newest first. */
  const NewestFirst := SortSpec(CreatedAt, false)

  function Key(field: SortField, t: Toy): Field<int> {
    match field
    case CreatedAt => t.doc.createdAt
    case Price => t.doc.price
  }

  /**
   * BSON order on a possibly absent number: a missing and a null value sort alike, below
   * every number.
   */
  predicate KeyLe(a: Field<int>, b: Field<int>) {
    !a.Val? || (b.Val? && a.value <= b.value)
  }

  /** `a` may come before `b` in a cursor sorted by `spec`. */
  predicate Precedes(spec: SortSpec, a: Toy, b: Toy) {
    var ka, kb := Key(spec.field, a), Key(spec.field, b);
    if spec.ascending then KeyLe(ka, kb) else KeyLe(kb, ka)
  }

  predicate Sorted(spec: SortSpec, s: seq<Toy>) {
    forall i, j :: 0 <= i < j < |s| ==> Precedes(spec, s[i], s[j])
  }

  /** Putting `y` in front of a sorted sequence keeps it sorted when `y` precedes all of it. */
  lemma SortedCons(spec: SortSpec, y: Toy, s: seq<Toy>)
    requires Sorted(spec, s)
    requires forall z :: z in s ==> Precedes(spec, y, z)
    ensures Sorted(spec, [y] + s)
  {
    var r := [y] + s;
    forall i, j | 0 <= i < j < |r| ensures Precedes(spec, r[i], r[j]) {
      if i == 0 {
        assert r[j] == s[j - 1];
      } else {
        assert r[i] == s[i - 1] && r[j] == s[j - 1];
      }
    }
  }

  /** Inserts `x` into a sorted sequence, before the first element it precedes. */
  function Insert(spec: SortSpec, x: Toy, s: seq<Toy>): (r: seq<Toy>)
    requires Sorted(spec, s)
    ensures Sorted(spec, r)
    ensures multiset(r) == multiset(s) + multiset{x}
    decreases |s|
  {
    if s == [] then [x]
    else if Precedes(spec, x, s[0]) then
      assert forall z :: z in s ==> Precedes(spec, x, z) by {
        forall z | z in s ensures Precedes(spec, x, z) {
          var k :| 0 <= k < |s| && s[k] == z;
          assert k == 0 || Precedes(spec, s[0], s[k]);
        }
      }
      SortedCons(spec, x, s);
      [x] + s
    else
      var rest := Insert(spec, x, s[1..]);
      assert s == [s[0]] + s[1..];
      assert forall z :: z in rest ==> Precedes(spec, s[0], z) by {
        forall z | z in rest ensures Precedes(spec, s[0], z) {
          assert z in multiset(rest);
          if z != x {
            assert z in multiset(s[1..]);
            var k :| 0 <= k < |s[1..]| && s[1..][k] == z;
            assert s[k + 1] == z;
          }
        }
      }
      SortedCons(spec, s[0], rest);
      [s[0]] + rest
  }

  /** Sorts by insertion. Ties keep no particular order, as with the store's sort. */
  function Sort(spec: SortSpec, s: seq<Toy>): (r: seq<Toy>)
    ensures Sorted(spec, r)
    ensures multiset(r) == multiset(s)
    ensures |r| == |s|
  {
    if s == [] then []
    else
      assert s == [s[0]] + s[1..];
      Insert(spec, s[0], Sort(spec, s[1..]))
  }

  /** A cursor sorted by `{ price: 1 }` or `{ price: -1 }`, stated on the prices themselves. */
  lemma PriceOrder(s: seq<Toy>, ascending: bool)
    requires Sorted(SortSpec(Price, ascending), s)
    ensures ascending ==> forall i, j :: 0 <= i < j < |s| ==> KeyLe(s[i].doc.price, s[j].doc.price)
    ensures !ascending ==> forall i, j :: 0 <= i < j < |s| ==> KeyLe(s[j].doc.price, s[i].doc.price)
  {
  }

  /**
   * In a sorted sequence, every element of the first `n` precedes every element left
   * after them: a limit after a sort keeps the first documents of the order.
   */
  lemma PrefixDominates(spec: SortSpec, s: seq<Toy>, n: nat)
    requires Sorted(spec, s)
    requires n <= |s|
    ensures forall t, u :: t in s[..n] && u in multiset(s) - multiset(s[..n]) ==> Precedes(spec, t, u)
  {
    assert s == s[..n] + s[n..];
    assert multiset(s) - multiset(s[..n]) == multiset(s[n..]);
    forall t, u | t in s[..n] && u in multiset(s) - multiset(s[..n])
      ensures Precedes(spec, t, u)
    {
      var i :| 0 <= i < n && s[..n][i] == t;
      assert u in s[n..];
      var j :| 0 <= j < |s| - n && s[n..][j] == u;
      assert s[i] == t && s[n + j] == u;
    }
  }
}
