/**
 * The query documents the routes build, and the cursor steps they apply: `find`,
 * `findOne` and `limit` over the collection's documents in their natural order.
 */
module Queries {
  import opened Toys
  import opened Text

  /** The number of documents the listing route returns at most (`.limit(20)`). */
  const AllToysLimit: nat := 20

  /** A query document, one case per shape the routes send. */
  datatype Filter =
    | MatchAll                              // {}
    | IdIs(id: Id)                          // { _id: new ObjectId(id) }
    | NameContains(key: string)             // { $or: [{ toyName: { $regex: key, $options: "i" } }] }
    | SellerIs(email: string)               // { sellerEmail: email }
    | SubCategoryIs(category: SubCategory)  // { sub_category: { value, label } }

  /** The store's reading of a query document. */
  predicate Matches(f: Filter, t: Toy) {
    match f
    case MatchAll => true
    case IdIs(id) => t.id == id
    case NameContains(key) => t.doc.toyName.Val? && ContainsIgnoringCase(t.doc.toyName.value, key)
    case SellerIs(email) => t.doc.sellerEmail == Val(email)
    case SubCategoryIs(category) => t.doc.subCategory == Val(category)
  }

  /**
   * `find(f)`: every matching document, as often as it is stored, and nothing else; the
   * empty query returns the collection as it is.
   */
  function Find(s: seq<Toy>, f: Filter): (r: seq<Toy>)
    ensures forall t :: multiset(r)[t] == if Matches(f, t) then multiset(s)[t] else 0
    ensures forall t :: t in r <==> t in s && Matches(f, t)
    ensures f == MatchAll ==> r == s
  {
    if s == [] then []
    else
      assert s == [s[0]] + s[1..];
      (if Matches(f, s[0]) then [s[0]] else []) + Find(s[1..], f)
  }

  /** `findOne(f)`: the first matching document in natural order, or null when none matches. */
  function FindOne(s: seq<Toy>, f: Filter): (r: Option<Toy>)
    ensures r.Some? ==> exists k :: 0 <= k < |s| && s[k] == r.value && Matches(f, s[k]) &&
                                   forall j :: 0 <= j < k ==> !Matches(f, s[j])
    ensures r.None? <==> forall t :: t in s ==> !Matches(f, t)
  {
    if s == [] then None
    else if Matches(f, s[0]) then Some(s[0])
    else
      var r := FindOne(s[1..], f);
      assert forall t :: t in s ==> t == s[0] || t in s[1..];
      r
  }

  /** `limit(n)`: the first `n` documents of the cursor, or all of them when there are fewer. */
  function Limit(s: seq<Toy>, n: nat): (r: seq<Toy>)
    ensures |r| <= n && |r| <= |s|
    ensures |s| <= n ==> r == s
    ensures |s| >= n ==> |r| == n
    ensures r == s[..|r|]
  {
    if |s| <= n then s else s[..n]
  }

  /** A document created under an identifier no other document has is the one `findOne` returns for it. */
  lemma {:induction false} FindOneFresh(s: seq<Toy>, t: Toy)
    requires !HasId(s, t.id)
    ensures FindOne(s + [t], IdIs(t.id)) == Some(t)
  {
    if s == [] {
    } else {
      assert (s + [t])[1..] == s[1..] + [t];
      assert s[0].id != t.id;
      FindOneFresh(s[1..], t);
    }
  }
}
