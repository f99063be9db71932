# Book-catalog GraphQL backend, modelled in Dafny

The backend of this book-catalog demo keeps its books in a module-level
array that lives for the lifetime of the server process. It starts with two
seed records. It answers two queries: `books` returns the array, and
`numberSeven` returns 7. It has one mutation, `addBook`, which builds a record
from its three nullable arguments, pushes it onto the array and answers with
a fixed success envelope.

The model (`backend.dfy`, module `Backend`; `wrappers.dfy` holds `Option`):

- `Review`, `Book`, `AddBookArgs`, `AddBookResponse` are datatypes. A nullable
  field that a record may lack is an `Option`. Absent (`undefined`) and
  `null` arguments are both `None`.
- `SeedBooks` is the initial array.
- `AddBookStep` is one `addBook` call on a list, as a pure function.
- `Replay` runs a sequence of calls. `Built` is an independent reference
  definition: the records a sequence of calls builds, in call order.
- `Store` is a class. Its field `books: seq<Book>` stands for the mutated
  array. Its ghost field `calls` is the history of `addBook` calls.
  `Valid()` ties the two: `books == Replay(SeedBooks(), calls)`.
  `AddBook` is the imperative resolver and is proved against `AddBookStep`.
  `Books` and `NumberSeven` are the query resolvers, as functions.

The backend has no `id` field on books and no resolvers for `book(id)`,
`updateBook` or `deleteBook`, although the web client sends them. The
model follows the backend code. It has no identifiers, no uniqueness
invariant, and no update, delete or find-by-id operations.

## Model

| member | source | states |
|---|---|---|
| Backend.SeedBooks | backend/index.ts:5-21 | the initial store holds exactly two books in order: "The Awakening" by "Kate Chopin" with the single review `rv-001` "this is a good book", then "City of Glass" by "Paul Auster" with no reviews; neither seed record has `isPublished` |
| Backend.AddBookStep | backend/index.ts:72-81 | one `addBook` call makes the list one longer; every earlier record stays unchanged and in place; the new last record is the one returned in the envelope; its title, author and isPublished are exactly the arguments, absent ones included; its reviews are empty; the envelope always has code 201, success true and message "book created successfully" |
| Backend.ReplayAppend | backend/index.ts:74 | running one more `addBook` call after a history of calls equals applying that single call to the list the history left, so the history-based view and the step-by-step push agree |
| Backend.ReplayIsPrefixThenBuilt | backend/index.ts:72-74 | after any sequence of `addBook` calls the list is the starting list, unchanged and in order, followed by the records built from the calls in call order |
| Backend.ReplayCompose | backend/index.ts:74 | two batches of `addBook` calls in a row leave the same list as one batch made of both |
| Backend.BuiltMatchesCalls | backend/index.ts:73 | the records built by a sequence of calls match the calls one to one: each carries that call's title, author and isPublished and no reviews |
| Backend.ReachableReviews | backend/index.ts:5-21 | in every reachable state the first two records are the seed, the length is two plus the number of calls, and every record after the seed has no reviews |
| Backend.Store.constructor | backend/index.ts:5-21 | a new store holds exactly the seed records and has seen no calls |
| Backend.Store.Books | backend/index.ts:68 | the `books` query returns the current list: the seed records, then one record per `addBook` call in call order, each of those without reviews; as a function it cannot change the store |
| Backend.Store.NumberSeven | backend/index.ts:47 | the `numberSeven` query always returns 7 and reads no state |
| Backend.Store.AddBook | backend/index.ts:72-81 | the `addBook` resolver appends the record built from its arguments, with empty reviews, at the end of the list, changes nothing else, keeps the store invariant, and returns the success envelope whose `book` is the appended record; its new state and answer are exactly `AddBookStep` of the old list |

## Left out

- Server construction and listening on port 3000 (backend/index.ts:87-100): network I/O in a library outside this model.
- Parsing of the schema text (backend/index.ts:23-62): it serves only as documentation of the datatypes and their nullability. The unused `Author` type is not modelled.
- Backend.AddBookResponse: `code` is the number 201 that the resolver returns. The GraphQL layer's coercion of it to the declared `String!` is not modelled.
- Backend.Store.AddBook: the returned `book` and the stored record are one shared JavaScript object. The model uses values, so it captures their equality at the time of the call but not the aliasing. No resolver mutates a stored record, so nothing observable depends on the aliasing.
- Concurrency between simultaneous requests: each resolver is one synchronous step, and interleaving is the server library's concern.
- The web client (all files under frontend/): React views, routing, the client cache and the client-side blank-title check. Its `book(id)`, `updateBook` and `deleteBook` operations have no backend resolver, so there is no behaviour to model.
- Field selection in queries: a query returns whole records here. Choosing which fields appear in the answer is done by the GraphQL library.
