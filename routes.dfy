/**
 * The route handlers: each turns its request parameters into one operation on the
 * `allToys` collection. Parsing a path identifier (`new ObjectId(id)`) is the parameter
 * `parseId`, which may reject its input; the clock is the parameter `now`.
 */
module Routes {
  import opened Toys
  import opened Text
  import opened Ordering
  import opened Queries
  import opened Collection

  /**
   * GET /all-toys: `find({}).sort({ createdAt: -1 }).limit(20)`. At most 20 documents of
   * the collection, newest first (documents without a date last); the documents left out
   * are none newer than any returned, and a collection of 20 or fewer comes back whole.
   */
  method AllToys(c: ToyCollection) returns (toys: seq<Toy>)
    ensures |toys| <= AllToysLimit
    ensures multiset(toys) <= multiset(c.docs)
    ensures forall i, j :: 0 <= i < j < |toys| ==> KeyLe(toys[j].doc.createdAt, toys[i].doc.createdAt)
    ensures |c.docs| <= AllToysLimit ==> multiset(toys) == multiset(c.docs)
    ensures |c.docs| >= AllToysLimit ==> |toys| == AllToysLimit
    ensures forall t, u :: t in toys && u in multiset(c.docs) - multiset(toys) ==>
              KeyLe(u.doc.createdAt, t.doc.createdAt)
  {
    var sorted := Sort(NewestFirst, Find(c.docs, MatchAll));
    toys := Limit(sorted, AllToysLimit);
    TopOfSorted(NewestFirst, c.docs, sorted, toys);
  }

  /**
   * The first documents of a sorted permutation of `s`: drawn from `s`, in order, and with
   * nothing left behind that sorts before one of them.
   */
  lemma TopOfSorted(spec: SortSpec, s: seq<Toy>, sorted: seq<Toy>, top: seq<Toy>)
    requires Sorted(spec, sorted) && multiset(sorted) == multiset(s)
    requires |top| <= |sorted| && top == sorted[..|top|]
    ensures multiset(top) <= multiset(s)
    ensures Sorted(spec, top)
    ensures forall t, u :: t in top && u in multiset(s) - multiset(top) ==> Precedes(spec, t, u)
  {
    PrefixDominates(spec, sorted, |top|);
    assert sorted == top + sorted[|top|..];
    assert multiset(sorted) == multiset(top) + multiset(sorted[|top|..]);
  }

  /**
   * GET /toy/:id: `findOne({ _id })`. An identifier that does not parse fails before the
   * collection is read; otherwise the result is the document with that identifier, or
   * none when there is no such document.
   */
  method ToyById(c: ToyCollection, raw: string, parseId: string -> Option<Id>) returns (r: Result<Option<Toy>>)
    ensures parseId(raw).None? ==> r == Err(InvalidIdentifier)
    ensures parseId(raw).Some? ==> r.Ok?
    ensures r.Ok? && r.value.Some? ==> r.value.value in c.docs && r.value.value.id == parseId(raw).value
    ensures r.Ok? && r.value.None? ==> !HasId(c.docs, parseId(raw).value)
  {
    var id := parseId(raw);
    if id.None? {
      return Err(InvalidIdentifier);
    }
    var found := FindOne(c.docs, IdIs(id.value));
    if found.None? {
      forall i | 0 <= i < |c.docs| ensures c.docs[i].id != id.value {
        assert c.docs[i] in c.docs;
      }
    }
    r := Ok(found);
  }

  /**
   * GET /all-toys/:text: the documents whose name contains the key, ignoring case, each as
   * often as it is stored; the empty key returns every document that has a name.
   */
  method SearchToys(c: ToyCollection, text: string) returns (toys: seq<Toy>)
    ensures forall t :: multiset(toys)[t] ==
              if t.doc.toyName.Val? && ContainsIgnoringCase(t.doc.toyName.value, text)
              then multiset(c.docs)[t] else 0
    ensures forall t :: t in toys <==>
              t in c.docs && t.doc.toyName.Val? && exists i :: MatchesAt(t.doc.toyName.value, text, i)
    ensures text == "" ==> forall t :: t in c.docs && t.doc.toyName.Val? ==> t in toys
  {
    toys := Find(c.docs, NameContains(text));
    forall t: Toy | t.doc.toyName.Val?
      ensures ContainsIgnoringCase(t.doc.toyName.value, text) <==> exists i :: MatchesAt(t.doc.toyName.value, text, i)
      ensures text == "" ==> ContainsIgnoringCase(t.doc.toyName.value, text)
    {
      ContainsIgnoringCaseIff(t.doc.toyName.value, text);
      EmptyKeyMatchesAll(t.doc.toyName.value);
    }
  }

  /**
   * GET /my-toys/:email: the documents whose seller is exactly `email` (no case folding),
   * each as often as it is stored.
   */
  method MyToysByEmail(c: ToyCollection, email: string) returns (toys: seq<Toy>)
    ensures forall t :: multiset(toys)[t] == if t.doc.sellerEmail == Val(email) then multiset(c.docs)[t] else 0
    ensures forall t :: t in toys <==> t in c.docs && t.doc.sellerEmail == Val(email)
  {
    toys := Find(c.docs, SellerIs(email));
  }

  /**
   * GET /my-toys?sellerEmail=..&isAscending=..: an absent or empty email matches every
   * document; a present one selects the same documents as the path form. Prices ascend
   * when `isAscending` is exactly "true" and descend otherwise, absent included; documents
   * without a price sort as lowest.
   */
  method MyToys(c: ToyCollection, sellerEmail: Option<string>, isAscending: Option<string>) returns (toys: seq<Toy>)
    ensures forall t :: multiset(toys)[t] ==
              if !Truthy(sellerEmail) || t.doc.sellerEmail == Val(sellerEmail.value) then multiset(c.docs)[t] else 0
    ensures !Truthy(sellerEmail) ==> multiset(toys) == multiset(c.docs)
    ensures Truthy(sellerEmail) ==> multiset(toys) == multiset(Find(c.docs, SellerIs(sellerEmail.value)))
    ensures isAscending == Some("true") ==>
              forall i, j :: 0 <= i < j < |toys| ==> KeyLe(toys[i].doc.price, toys[j].doc.price)
    ensures isAscending != Some("true") ==>
              forall i, j :: 0 <= i < j < |toys| ==> KeyLe(toys[j].doc.price, toys[i].doc.price)
  {
    var query := MatchAll;
    var sorts := isAscending;
    if Truthy(sellerEmail) {
      query := SellerIs(sellerEmail.value);
    }
    var found := Find(c.docs, query);
    toys := Sort(SortSpec(Price, sorts == Some("true")), found);
    PriceOrder(toys, sorts == Some("true"));
    assert multiset(toys) == multiset(found);
  }

  /**
   * GET /category?value=..&label=..: with both parameters present and non-empty, the
   * documents whose sub-category is exactly `{ value, label }`; with either missing, the
   * whole collection, as if neither had been given.
   */
  method CategoryToys(c: ToyCollection, value: Option<string>, labelText: Option<string>) returns (toys: seq<Toy>)
    ensures forall t :: multiset(toys)[t] ==
              if !(Truthy(value) && Truthy(labelText)) ||
                 t.doc.subCategory == Val(SubCategory(value.value, labelText.value))
              then multiset(c.docs)[t] else 0
    ensures !(Truthy(value) && Truthy(labelText)) ==> toys == c.docs
  {
    var query := MatchAll;
    if Truthy(value) && Truthy(labelText) {
      query := SubCategoryIs(SubCategory(value.value, labelText.value));
    }
    toys := Find(c.docs, query);
  }

  /**
   * POST /add-toy: the body is stored with `createdAt` set to `now`, whatever the client
   * sent, and every other field as sent, under a fresh identifier. Without an identifier
   * in the store's acknowledgement the route fails and nothing is stored.
   */
  method AddToy(c: ToyCollection, body: ToyFields, now: int, accept: bool) returns (r: Result<Id>)
    requires c.Valid()
    modifies c
    ensures c.Valid()
    ensures r.Ok? <==> accept
    ensures r.Ok? ==> !HasId(old(c.docs), r.value) &&
                      c.docs == old(c.docs) + [Toy(r.value, body.(createdAt := Val(now)))]
    ensures r.Err? ==> r.error == InsertRejected && c.docs == old(c.docs)
    ensures r.Ok? ==> r.value == old(c.nextId) && c.nextId == old(c.nextId) + 1
    ensures r.Err? ==> c.nextId == old(c.nextId)
  {
    var stamped := body.(createdAt := Val(now));
    var ack := c.InsertOne(stamped, accept);
    if ack.insertedId.Some? {
      r := Ok(ack.insertedId.value);
    } else {
      r := Err(InsertRejected);
    }
  }

  /**
   * The `$set` document of the update route: price, quantity, description and image read
   * from the body, each written even when the body lacks it; no other body field.
   */
  function SetFromBody(body: ToyFields): (u: SetFields)
    ensures !u.price.Missing? && !u.quantity.Missing? && !u.description.Missing? && !u.image.Missing?
    ensures body.price.Missing? ==> u.price == Null
    ensures !body.price.Missing? ==> u.price == body.price
    ensures body.quantity.Missing? ==> u.quantity == Null
    ensures !body.quantity.Missing? ==> u.quantity == body.quantity
    ensures body.description.Missing? ==> u.description == Null
    ensures !body.description.Missing? ==> u.description == body.description
    ensures body.image.Missing? ==> u.image == Null
    ensures !body.image.Missing? ==> u.image == body.image
  {
    SetFields(Written(body.price), Written(body.quantity), Written(body.description), Written(body.image))
  }

  /**
   * An update always modifies a document that lacks one of the four fields, whatever the
   * body holds: the field is added, null or with a value. Afterwards none of the four is
   * missing.
   */
  lemma UpdateFillsMissingField(d: ToyFields, body: ToyFields)
    requires d.price.Missing? || d.quantity.Missing? || d.description.Missing? || d.image.Missing?
    ensures ApplySet(d, SetFromBody(body)) != d
    ensures var e := ApplySet(d, SetFromBody(body));
            !e.price.Missing? && !e.quantity.Missing? && !e.description.Missing? && !e.image.Missing?
  {
  }

  /**
   * A body holding only a price, applied to a document with quantity 3, description "x"
   * and image "y": the price becomes 5, the other three become null, and the document
   * changes.
   */
  lemma PriceOnlyBody(d: ToyFields)
    requires d.quantity == Val(3) && d.description == Val("x") && d.image == Val("y")
    ensures var e := ApplySet(d, SetFromBody(ToyFields(Missing, Missing, Val(5), Missing, Missing, Missing, Missing, Missing)));
            e.price == Val(5) && e.quantity == Null && e.description == Null && e.image == Null &&
            e.toyName == d.toyName && e.sellerEmail == d.sellerEmail &&
            e.subCategory == d.subCategory && e.createdAt == d.createdAt && e != d
  {
  }

  /** Applying the update's `$set` a second time leaves the document as the first left it. */
  lemma SetTwiceIsSetOnce(d: ToyFields, body: ToyFields)
    ensures var u := SetFromBody(body); ApplySet(ApplySet(d, u), u) == ApplySet(d, u)
  {
  }

  /**
   * PUT /updateToy/:id: price, quantity, description and image of the document with that
   * identifier are set from the body, and those the body lacks are set to null; its other
   * fields and every other document stay as they were. The acknowledgement reports one
   * match when the identifier is present, and one modification exactly when the
   * collection changed. An identifier that does not parse fails and changes nothing.
   */
  method UpdateToy(c: ToyCollection, raw: string, body: ToyFields, parseId: string -> Option<Id>)
    returns (r: Result<UpdateAck>)
    requires c.Valid()
    modifies c
    ensures c.Valid()
    ensures parseId(raw).None? ==> r == Err(InvalidIdentifier) && c.docs == old(c.docs)
    ensures parseId(raw).Some? ==> r.Ok?
    ensures c.nextId == old(c.nextId)
    ensures |c.docs| == |old(c.docs)|
    ensures forall i :: 0 <= i < |c.docs| ==>
              c.docs[i].id == old(c.docs)[i].id &&
              c.docs[i].doc.toyName == old(c.docs)[i].doc.toyName &&
              c.docs[i].doc.sellerEmail == old(c.docs)[i].doc.sellerEmail &&
              c.docs[i].doc.subCategory == old(c.docs)[i].doc.subCategory &&
              c.docs[i].doc.createdAt == old(c.docs)[i].doc.createdAt
    ensures forall i :: 0 <= i < |c.docs| && parseId(raw) == Some(old(c.docs)[i].id) ==>
              c.docs[i].doc.price == Written(body.price) &&
              c.docs[i].doc.quantity == Written(body.quantity) &&
              c.docs[i].doc.description == Written(body.description) &&
              c.docs[i].doc.image == Written(body.image)
    ensures forall i :: 0 <= i < |c.docs| && parseId(raw) != Some(old(c.docs)[i].id) ==>
              c.docs[i] == old(c.docs)[i]
    ensures r.Ok? ==> r.value.matchedCount == (if HasId(old(c.docs), parseId(raw).value) then 1 else 0) &&
                      r.value.modifiedCount == (if c.docs == old(c.docs) then 0 else 1) &&
                      r.value.modifiedCount <= r.value.matchedCount
  {
    var id := parseId(raw);
    if id.None? {
      return Err(InvalidIdentifier);
    }
    var ack := c.UpdateOne(id.value, SetFromBody(body));
    r := Ok(ack);
  }

  /**
   * PUT /updateToy/:id sent twice with the same body: the second request matches the same
   * document and modifies nothing.
   */
  method UpdateTwice(c: ToyCollection, raw: string, body: ToyFields, parseId: string -> Option<Id>)
    returns (first: Result<UpdateAck>, second: Result<UpdateAck>)
    requires c.Valid()
    modifies c
    ensures c.Valid()
    ensures first.Ok? <==> second.Ok?
    ensures second.Ok? ==> second.value.matchedCount == first.value.matchedCount &&
                           second.value.modifiedCount == 0
  {
    first := UpdateToy(c, raw, body, parseId);
    var between := c.docs;
    second := UpdateToy(c, raw, body, parseId);
    if second.Ok? {
      forall i | 0 <= i < |c.docs| ensures c.docs[i] == between[i] {
        if parseId(raw) == Some(between[i].id) {
          assert c.docs[i].doc == between[i].doc;
        }
      }
      assert c.docs == between;
      assert HasId(between, parseId(raw).value) == HasId(old(c.docs), parseId(raw).value) by {
        assert forall i :: 0 <= i < |between| ==> between[i].id == old(c.docs)[i].id;
      }
    }
  }

  /**
   * POST /add-toy, DELETE /deleteToy/:id of whatever identifier, and POST /add-toy again:
   * the second document does not get the identifier of the first, even when the first was
   * deleted in between.
   */
  method AddDeleteAdd(c: ToyCollection, body1: ToyFields, body2: ToyFields, now: int,
                      accept1: bool, accept2: bool, raw: string, parseId: string -> Option<Id>)
    returns (r1: Result<Id>, d: Result<DeleteAck>, r2: Result<Id>)
    requires c.Valid()
    modifies c
    ensures c.Valid()
    ensures r1.Ok? && r2.Ok? ==> r1.value != r2.value && r1.value < r2.value
    ensures r2.Ok? ==> !HasId(old(c.docs), r2.value)
  {
    r1 := AddToy(c, body1, now, accept1);
    d := DeleteToy(c, raw, parseId);
    r2 := AddToy(c, body2, now, accept2);
    if r2.Ok? {
      assert r2.value >= old(c.nextId);
    }
  }

  /**
   * POST /add-toy followed by GET /toy/:id with a path identifier that parses to the new
   * identifier: the get returns the stored body, with `createdAt` set to `now`.
   */
  method AddThenGet(c: ToyCollection, body: ToyFields, now: int, accept: bool,
                    raw: string, parseId: string -> Option<Id>)
    returns (created: Result<Id>, fetched: Result<Option<Toy>>)
    requires c.Valid()
    modifies c
    ensures c.Valid()
    ensures created.Ok? && parseId(raw) == Some(created.value) ==>
              fetched == Ok(Some(Toy(created.value, body.(createdAt := Val(now)))))
  {
    created := AddToy(c, body, now, accept);
    fetched := ToyById(c, raw, parseId);
    if created.Ok? && parseId(raw) == Some(created.value) {
      var t := Toy(created.value, body.(createdAt := Val(now)));
      assert c.docs[|c.docs| - 1] == t;
      assert fetched.value.Some?;
      var u := fetched.value.value;
      assert u == t by {
        var i :| 0 <= i < |c.docs| && c.docs[i] == u;
        assert i == |c.docs| - 1;
      }
    }
  }

  /**
   * DELETE /deleteToy/:id: removes the document with that identifier and reports 1, or
   * reports 0 when there is none; the other documents keep their order. An identifier
   * that does not parse fails and changes nothing.
   */
  method DeleteToy(c: ToyCollection, raw: string, parseId: string -> Option<Id>) returns (r: Result<DeleteAck>)
    requires c.Valid()
    modifies c
    ensures c.Valid()
    ensures parseId(raw).None? ==> r == Err(InvalidIdentifier) && c.docs == old(c.docs)
    ensures parseId(raw).Some? ==> r.Ok?
    ensures c.nextId == old(c.nextId)
    ensures r.Ok? ==> r.value.deletedCount == if HasId(old(c.docs), parseId(raw).value) then 1 else 0
    ensures r.Ok? && r.value.deletedCount == 0 ==> c.docs == old(c.docs)
    ensures r.Ok? && r.value.deletedCount == 1 ==>
              exists k :: 0 <= k < |old(c.docs)| && old(c.docs)[k].id == parseId(raw).value &&
                          c.docs == old(c.docs)[..k] + old(c.docs)[k + 1..]
    ensures r.Ok? ==> forall t :: t in c.docs <==> t in old(c.docs) && t.id != parseId(raw).value
  {
    var id := parseId(raw);
    if id.None? {
      return Err(InvalidIdentifier);
    }
    var ack := c.DeleteOne(id.value);
    r := Ok(ack);
  }
}
