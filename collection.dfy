/**
 * The `allToys` collection as the routes use it: documents in natural (insertion) order,
 * a counter that hands out fresh identifiers, and the three write operations
 * `insertOne`, `updateOne` and `deleteOne` with the acknowledgements they return.
 */
module Collection {
  import opened Toys

  datatype InsertAck = InsertAck(insertedId: Option<Id>)
  datatype UpdateAck = UpdateAck(matchedCount: nat, modifiedCount: nat)
  datatype DeleteAck = DeleteAck(deletedCount: nat)

  /**
   * A `$set` document naming exactly price, quantity, description and image. Every one of
   * them is written, so after the update each field is present, null or with a value.
   */
  datatype SetFields = SetFields(
    price: Field<int>,
    quantity: Field<int>,
    description: Field<string>,
    image: Field<string>)

  /**
   * How the driver serialises a body property read into `$set`: one the body lacks is
   * `undefined` and is sent as null; a null or a value is sent as it is.
   */
  function Written<T>(f: Field<T>): (w: Field<T>)
    ensures !w.Missing?
    ensures f.Missing? ==> w == Null
    ensures !f.Missing? ==> w == f
  {
    if f.Missing? then Null else f
  }

  /** The document after `$set`: the four named fields overwritten, every other field kept. */
  function ApplySet(d: ToyFields, u: SetFields): ToyFields {
    d.(price := u.price, quantity := u.quantity, description := u.description, image := u.image)
  }

  /** Position of the first document with identifier `id`, if any. */
  function IndexOf(s: seq<Toy>, id: Id): (k: Option<nat>)
    ensures k.Some? ==> k.value < |s| && s[k.value].id == id &&
                        forall j :: 0 <= j < k.value ==> s[j].id != id
    ensures k.None? <==> !HasId(s, id)
  {
    if s == [] then None
    else if s[0].id == id then Some(0)
    else
      var k := IndexOf(s[1..], id);
      if k.None? then None else Some(k.value + 1)
  }

  /**
   * Removing the document at `i` from a sequence with unique identifiers leaves exactly the
   * documents with other identifiers, still unique, each one taken from the original.
   */
  lemma RemoveAtKeepsOthers(s: seq<Toy>, i: nat, id: Id)
    requires DistinctIds(s) && i < |s| && s[i].id == id
    ensures var r := s[..i] + s[i + 1..];
            DistinctIds(r) &&
            (forall t :: t in r <==> t in s && t.id != id) &&
            (forall j :: 0 <= j < |r| ==> exists m :: 0 <= m < |s| && r[j] == s[m])
  {
    var r := s[..i] + s[i + 1..];
    assert forall j :: 0 <= j < |r| ==> r[j] == if j < i then s[j] else s[j + 1];
    forall t ensures t in r <==> t in s && t.id != id {
      if t in s && t.id != id {
        var j :| 0 <= j < |s| && s[j] == t;
        assert j != i;
        assert r[if j < i then j else j - 1] == t;
      }
    }
    forall j | 0 <= j < |r| ensures exists m :: 0 <= m < |s| && r[j] == s[m] {
      var m := if j < i then j else j + 1;
      assert r[j] == s[m];
    }
  }

  class ToyCollection {
    var docs: seq<Toy>
    var nextId: Id

    /**
     * Identifiers are unique, and every identifier in the collection is below `nextId`. The
     * write operations never decrease `nextId`, so an identifier is never handed out twice.
     */
    ghost predicate Valid()
      reads this
    {
      DistinctIds(docs) && forall i :: 0 <= i < |docs| ==> docs[i].id < nextId
    }

    constructor ()
      ensures Valid() && docs == []
    {
      docs := [];
      nextId := 0;
    }

    /**
     * `insertOne(doc)`. When the store accepts the write, the document is appended under
     * a fresh identifier, which the acknowledgement reports; otherwise nothing changes
     * and the acknowledgement has no identifier.
     */
    method InsertOne(doc: ToyFields, accept: bool) returns (ack: InsertAck)
      requires Valid()
      modifies this
      ensures Valid()
      ensures nextId >= old(nextId)
      ensures accept ==> ack.insertedId == Some(old(nextId)) && !HasId(old(docs), old(nextId)) &&
                         docs == old(docs) + [Toy(old(nextId), doc)] && nextId == old(nextId) + 1
      ensures !accept ==> ack.insertedId == None && docs == old(docs) && nextId == old(nextId)
    {
      if accept {
        var id := nextId;
        docs := docs + [Toy(id, doc)];
        nextId := nextId + 1;
        ack := InsertAck(Some(id));
      } else {
        ack := InsertAck(None);
      }
    }

    /**
     * `updateOne({ _id: id }, { $set: u })`: the document with that identifier, if any,
     * gets the `$set` applied; the counts are 1 or 0, and `modifiedCount` is 0 when the
     * write leaves the document as it was.
     */
    method UpdateOne(id: Id, u: SetFields) returns (ack: UpdateAck)
      requires Valid()
      modifies this
      ensures Valid() && nextId == old(nextId)
      ensures |docs| == |old(docs)|
      ensures forall i :: 0 <= i < |docs| ==>
                docs[i] == if old(docs)[i].id == id then Toy(id, ApplySet(old(docs)[i].doc, u)) else old(docs)[i]
      ensures ack.matchedCount == if HasId(old(docs), id) then 1 else 0
      ensures ack.modifiedCount == if docs == old(docs) then 0 else 1
    {
      var k := IndexOf(docs, id);
      if k.None? {
        ack := UpdateAck(0, 0);
      } else {
        var before := docs[k.value];
        var after := Toy(id, ApplySet(before.doc, u));
        docs := docs[k.value := after];
        ack := UpdateAck(1, if after == before then 0 else 1);
        assert after != before ==> docs[k.value] != old(docs)[k.value];
      }
    }

    /**
     * `deleteOne({ _id: id })`: removes the document with that identifier, if any, and
     * reports how many were removed; a missing identifier is not an error.
     */
    method DeleteOne(id: Id) returns (ack: DeleteAck)
      requires Valid()
      modifies this
      ensures Valid() && nextId == old(nextId)
      ensures ack.deletedCount == if HasId(old(docs), id) then 1 else 0
      ensures ack.deletedCount == 0 ==> docs == old(docs)
      ensures ack.deletedCount == 1 ==>
                exists k :: 0 <= k < |old(docs)| && old(docs)[k].id == id &&
                            docs == old(docs)[..k] + old(docs)[k + 1..]
      ensures forall t :: t in docs <==> t in old(docs) && t.id != id
    {
      var k := IndexOf(docs, id);
      if k.None? {
        ack := DeleteAck(0);
      } else {
        RemoveAtKeepsOthers(docs, k.value, id);
        docs := docs[..k.value] + docs[k.value + 1..];
        ack := DeleteAck(1);
      }
    }
  }
}
