/** The documents of the `allToys` collection and the request values the routes receive. */
module Toys {

  datatype Option<T> = None | Some(value: T)

  /** The failures a route reports instead of a result. */
  datatype Failure =
    | InvalidIdentifier   // the path parameter does not parse as a document identifier
    | InsertRejected      // the store's insert acknowledgement carries no identifier

  datatype Result<T> = Ok(value: T) | Err(error: Failure)

  /**
   * A document field: absent from the document, present with the value null, or present
   * with a value. Queries and sorts do not tell `Missing` from `Null`; writes do.
   */
  datatype Field<T> = Missing | Null | Val(value: T)

  /** The store's document identifier (`_id`). Its concrete format is not modelled. */
  type Id = nat

  /** The embedded `sub_category` document `{ value, label }` (`label` is a Dafny keyword, hence `labelText`). */
  datatype SubCategory = SubCategory(value: string, labelText: string)

  /**
   * The fields of a toy document, or of a JSON request body. Bodies are stored without
   * validation, so every field may be missing or null.
   */
  datatype ToyFields = ToyFields(
    toyName: Field<string>,
    sellerEmail: Field<string>,
    price: Field<int>,
    quantity: Field<int>,
    description: Field<string>,
    image: Field<string>,
    subCategory: Field<SubCategory>,
    createdAt: Field<int>)

  /** A stored document: the identifier the store assigned, and the document's fields. */
  datatype Toy = Toy(id: Id, doc: ToyFields)

  /** JavaScript truthiness of an optional string parameter: present and not empty. */
  predicate Truthy(p: Option<string>) {
    p.Some? && p.value != ""
  }

  /** Some document of `s` carries the identifier `id`. */
  predicate HasId(s: seq<Toy>, id: Id) {
    exists i :: 0 <= i < |s| && s[i].id == id
  }

  /** No two documents of `s` share an identifier. */
  ghost predicate DistinctIds(s: seq<Toy>) {
    forall i, j :: 0 <= i < |s| && 0 <= j < |s| && s[i].id == s[j].id ==> i == j
  }
}
