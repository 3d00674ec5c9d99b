# Toy listing service: query and mutation layer

This project models the route handlers of a small toy-listing web service, written in Dafny.
Each handler turns request parameters into one operation on the `allToys` document
collection. There are six read routes: list the newest toys, get one by id, search by name,
list a seller's toys by path or by query string, and list by sub-category. There are three
write routes: add, update and delete a toy.

The collection is the class `Collection.ToyCollection`. It holds its documents in natural
(insertion) order as a `seq<Toy>`, together with a counter that hands out fresh
identifiers. Its invariant `Valid()` says that identifiers are unique and that every
identifier in the collection is below the counter. The write operations never decrease the
counter, and an insert takes the counter's value and raises it, so an identifier is never
reused, even after its document is deleted.

How the read routes are built:

- `find` is `Queries.Find` over a tagged query document `Queries.Filter`.
- `findOne` is `Queries.FindOne`.
- `sort` is `Ordering.Sort`, an insertion sort proved sorted and a permutation.
- `limit` is `Queries.Limit`.

The write routes call the collection's `InsertOne`, `UpdateOne` and `DeleteOne`. These
methods say exactly what the new sequence of documents is.

Modules:

- `Toys`: the documents, the request values and the failures.
- `Text`: case-insensitive search. A recursive search over case-folded strings is proved
  equal to a reference definition: a per-character, case-insensitive match at some offset.
- `Ordering`: sort directives, and BSON ordering for missing values.
- `Queries`: query documents and the cursor steps `find`, `findOne` and `limit`.
- `Collection`: the collection class and its write operations.
- `Routes`: one method per route.

Parameters stand in for what the model does not compute itself:

- Parsing a path identifier (`new ObjectId(id)`) is the parameter `parseId: string -> Option<Id>`. It may reject its input, and every contract holds whatever parser is supplied.
- Server time (`new Date()`) is the integer parameter `now`.
- Whether the store acknowledges an insert with an identifier is the boolean parameter `accept`. A refused insert stores nothing.

Behaviour kept exactly as the code has it:

- An absent or empty `sellerEmail` on `/my-toys` matches every document.
- An absent or empty `value` or `label` on `/category` also matches every document.
- Prices are sorted ascending only for the literal `isAscending` value `"true"`. Any other value, or none, sorts them descending.
- An update writes all four of price, quantity, description and image. Any of them missing from the body is written as null, not kept.
- Deleting an identifier that is not there reports a count of 0, and that is not an error.
- A document field is missing, null, or holds a value (`Missing`, `Null`, `Val`). Queries and sorts treat missing and null alike; a missing or null value sorts below every number, as in BSON ordering. Writes tell them apart: writing null into a missing field changes the document.

Two consequences of the code that are easy to miss:

- The name search only finds documents that have a `toyName`, so the empty key returns every *named* document.
- Update reports `modifiedCount` 0 only when the document already held exactly the values written. A document lacking one of the four fields is always modified, because the field is added.

## Model

| member | source | states |
|---|---|---|
| Routes.AllToys | index.js:40-47 | at most 20 documents, all from the collection, `createdAt` non-increasing; every document left out is no newer than any returned; 20 or fewer documents come back whole, and more than 20 give exactly 20 |
| Routes.TopOfSorted | index.js:43-44 | the first documents of a sorted permutation are drawn from the input, stay sorted, and nothing left behind sorts before any of them |
| Routes.ToyById | index.js:50-56 | an unparsable id fails with `InvalidIdentifier`; otherwise the result is a stored document with that id, or none exactly when no document has it |
| Routes.SearchToys | index.js:59-67 | sound and complete: a document is returned (as often as stored) exactly when it has a name that contains the key case-insensitively at some offset; the empty key returns every named document |
| Routes.MyToysByEmail | index.js:70-78 | exactly the documents whose `sellerEmail` equals the parameter, with no case folding |
| Routes.MyToys | index.js:81-99 | absent or empty email gives a permutation of the whole collection; a present email gives a permutation of the path form's result; prices non-decreasing for `"true"`, non-increasing for any other value or none |
| Ordering.PriceOrder | index.js:96 | the definition of `Sorted` unfolded for the price key: `{ price: 1 }` gives non-decreasing prices and `{ price: -1 }` non-increasing prices, missing or null prices lowest |
| Routes.CategoryToys | index.js:102-121 | with both parameters truthy, exactly the documents whose `sub_category` is `{value, label}`; with either missing, the whole collection unchanged, the same as with neither |
| Routes.AddToy | index.js:124-140 | on acknowledgement, exactly one document is appended, under an identifier no document had, holding the body with `createdAt` replaced by `now`; that identifier is the counter's old value, and the counter goes up by one; when the store refuses the insert, `InsertRejected` and nothing changes, counter included |
| Routes.UpdateToy | index.js:143-158 | the document with the id gets price, quantity, description and image from the body, with missing ones written as null; its id, name, seller, sub-category and date and every other document are unchanged; the acknowledgement sent back has `matchedCount` 1 exactly when the id is present and `modifiedCount` 1 exactly when the collection changed; the identifier counter is unchanged; an unparsable id fails and changes nothing |
| Routes.SetFromBody | index.js:148-155 | a definition: the `$set` document of the four body fields read through `Written`; that a field missing from the body is written as null is proved of the route by `Routes.UpdateToy` and `Routes.UpdateFillsMissingField`, and its effect by `Routes.PriceOnlyBody`, `Routes.SetTwiceIsSetOnce` and `Routes.UpdateTwice` |
| Routes.PriceOnlyBody | index.js:148-155 | a body with only `price: 5` on a document with quantity 3, description "x" and image "y" gives price 5, the other three null, every other field kept, and a changed document |
| Routes.SetTwiceIsSetOnce | index.js:148-155 | applying the update's `$set` twice gives the same document as applying it once |
| Routes.UpdateTwice | index.js:143-158 | the same update sent twice: the second matches what the first matched and reports `modifiedCount` 0 |
| Routes.UpdateFillsMissingField | index.js:148-156 | a document lacking one of the four fields is changed by every update, so its `modifiedCount` is 1; after the update none of the four fields is missing |
| Routes.AddThenGet | index.js:50-56 | after a successful create, getting by an id that parses to the new identifier returns the stored body with `createdAt` set to `now` |
| Routes.DeleteToy | index.js:161-166 | count 1 if the id was present and 0 if not, with no error either way; exactly the one document is removed and the others keep their order; the identifier counter is unchanged; an unparsable id fails and changes nothing |
| Routes.AddDeleteAdd | index.js:124-166 | create, delete and create again: the second document gets an identifier different from the first's and held by no document before, even when the first was deleted (the model's counter also makes it greater) |
| Collection.ToyCollection.constructor | index.js:31 | the model's starting state: an empty collection satisfying `Valid()`; the collection the code opens may already hold documents, and every route contract is stated for any collection satisfying `Valid()` |
| Collection.ToyCollection.InsertOne | index.js:130-132 | keeps the invariant; on acceptance appends the document under the counter's value, which no document had, reports it and raises the counter by one; otherwise reports none and leaves both the documents and the identifier counter as they were |
| Collection.Written | index.js:150-153 | a definition of how the driver sends a body property: one the body lacks as null, a null or a value as it is; the route-level consequence is proved by `Routes.UpdateToy` and `Routes.UpdateFillsMissingField` |
| Collection.ApplySet | index.js:148-155 | `$set` overwrites price, quantity, description and image and keeps every other field |
| Collection.ToyCollection.UpdateOne | index.js:147-156 | keeps the invariant; applies the `$set` to the document with the id and to no other; `matchedCount` is 1 exactly when the id is present, `modifiedCount` 1 exactly when the collection changed; the counter is unchanged |
| Collection.ToyCollection.DeleteOne | index.js:163-164 | keeps the invariant; removes the document with the id, keeping the others in order; `deletedCount` is 1 exactly when the id was present; the counter is unchanged |
| Collection.RemoveAtKeepsOthers | index.js:164 | removing the document holding an id from a sequence with unique ids leaves exactly the documents with other ids, still unique |
| Collection.IndexOf | index.js:147 | the position of the first document with the id, or none exactly when no document has it |
| Queries.Matches | index.js:53 | how the store reads each query document: the empty query matches all; `_id`, `sellerEmail` and `sub_category` match by equality with a present value; the name search needs a string `toyName` containing the key, ignoring case (also index.js:63, index.js:74, index.js:107-112) |
| Queries.Find | index.js:42 | `find` returns each document matching the query as many times as it is stored, and nothing else; the empty query returns the collection as it is |
| Queries.FindOne | index.js:52-54 | `findOne` returns the first matching document in natural order, or none exactly when no document matches |
| Queries.Limit | index.js:44 | `limit(n)` is the prefix of length `min(n, size)` |
| Queries.FindOneFresh | index.js:124-140 | a document stored under an id no other document has is what `findOne` by that id returns, so get after create returns the created document |
| Ordering.Insert | index.js:43 | inserting into a sorted sequence gives a sorted sequence holding one more copy of the element |
| Ordering.KeyLe | index.js:43 | a definition: BSON order on a possibly absent number, missing and null alike below every number (also index.js:96) |
| Ordering.Precedes | index.js:43 | a definition of a sort directive: `1` (ascending) compares the two keys by `KeyLe` as they are, `-1` (descending) compares them the other way round (also index.js:96) |
| Ordering.Sort | index.js:96 | the result is sorted by the directive and is a permutation of the input |
| Ordering.SortedCons | index.js:43 | an element that precedes every element of a sorted sequence can be put in front of it |
| Ordering.PrefixDominates | index.js:43-44 | in a sorted sequence, each of the first `n` elements precedes each element after them |
| Text.ContainsIgnoringCase | index.js:63 | the `$regex` test with option `i` on a literal key: the lower-cased key occurs in the lower-cased name |
| Toys.Truthy | index.js:86 | JavaScript truthiness of a query-string parameter: present and not the empty string (also index.js:106) |
| Text.Fold | index.js:63 | case folding keeps the length and lower-cases each character |
| Text.OccursIff | index.js:63 | the recursive substring search holds exactly when the key starts at some position of the text |
| Text.ContainsIgnoringCaseIff | index.js:63 | the folded search holds exactly when the key matches the text case-insensitively at some offset |
| Text.EmptyKeyMatchesAll | index.js:60-63 | the empty key is contained in every name |
| Text.RedCarSearch | index.js:63 | "red" is found in "Red Car" and "blue" is not |

## Left out

- HTTP plumbing is not modelled: the Express setup, CORS, JSON body parsing, the root route and `app.listen`.
- The MongoDB client is not modelled either: its configuration, the connection pool, the `ping` and the start-up function. This is network I/O.
- The index on `toyName` is left out. It changes speed, not results.
- The concrete `ObjectId` format and its parsing rules are left out. Parsing is the abstract parameter `parseId`. Invalid input makes `new ObjectId` throw, and the model turns this into the `InvalidIdentifier` result; what Express then does with the exception is not modelled.
- `$regex` metacharacters are not modelled. The key is read as a literal string, and case folding covers ASCII letters only. Keys holding regex syntax, and non-ASCII letters, are outside the model.
- Documents with equal sort keys come out in no stated order, because the store does not promise a stable sort. The contracts say only "sorted and a permutation".
- Values are limited to integers. BSON ordering across types, floating-point prices and non-numeric prices are left out. Dates are integers.
- Query-string parameters are taken to be strings. Repeated parameters, which Express turns into arrays, are not modelled, and neither is JavaScript's loose `==` on them.
- A request body is a value whose fields are the toy's fields. Client-supplied `_id` and any other extra fields are not modelled. A `sub_category` is the two-field document `{ value, label }`; other shapes and other field orders are left out.
- Routes.AddToy: the failure branch stands for a store that refuses the insert and stores nothing. The code never reaches that case: the driver always reports the document's `_id` (creating one when the body has none) and write errors throw. `insertedId` is falsy only for a client-supplied falsy `_id` such as `0`, and then the document was stored; client `_id`s are not modelled.
- Routes.AddToy: the body is modelled as a value; the in-place `body.createdAt = …` (and the driver adding `_id` to the same object) is not modelled as mutation, because the body is not used again after insertion.
- Routes.AddDeleteAdd: identifiers are a counter in the model, so that a later identifier is greater than an earlier one belongs to the model, not to the store; the store's `ObjectId`s promise only that an identifier is unique and not reused.
- The clock, `console.log`, HTTP status codes and response encoding are left out. Only success or failure of a create and the acknowledgement counts are kept.
- Concurrent requests racing on the collection are not modelled. The store resolves them last-write-wins, and each route here is a single sequential operation.
- Store failures (`StoreUnavailable`, transport errors) are not modelled. The routes do not catch them themselves.
