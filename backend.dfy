/**
 * The book-catalog GraphQL backend: an in-memory list of books, the
 * `books` and `numberSeven` queries and the `addBook` mutation.
 */
module Backend {
  import opened Wrappers

  /** A review attached to a book. Reviews exist only in the seed data. */
  datatype Review = Review(id: string, body: string)

  /**
   * A stored book record. Every field the schema declares nullable that a
   * record may lack is an Option: the seed records have no `isPublished`,
   * and `addBook` stores whatever arguments it was given, absent or not.
   */
  datatype Book = Book(
    title: Option<string>,
    author: Option<string>,
    isPublished: Option<bool>,
    reviews: seq<Review>)

  /** The arguments of one `addBook` call, each nullable. */
  datatype AddBookArgs = AddBookArgs(
    title: Option<string>,
    author: Option<string>,
    isPublished: Option<bool>)

  /** The envelope `addBook` answers with. */
  datatype AddBookResponse = AddBookResponse(
    code: int,
    success: bool,
    message: string,
    book: Book)

  /** What one `addBook` call leaves behind: the new list and its answer. */
  datatype StepResult = StepResult(books: seq<Book>, response: AddBookResponse)

  const CreatedCode: int := 201
  const CreatedMessage: string := "book created successfully"

  /** The two records the server starts with. */
  function SeedBooks(): (r: seq<Book>)
    ensures |r| == 2
    ensures r[0].title == Some("The Awakening") && r[0].author == Some("Kate Chopin")
    ensures r[0].reviews == [Review("rv-001", "this is a good book")]
    ensures r[1].title == Some("City of Glass") && r[1].author == Some("Paul Auster")
    ensures r[1].reviews == []
    ensures forall i :: 0 <= i < |r| ==> r[i].isPublished == None
  {
    [ Book(Some("The Awakening"), Some("Kate Chopin"), None,
           [Review("rv-001", "this is a good book")]),
      Book(Some("City of Glass"), Some("Paul Auster"), None, []) ]
  }

  /** The record `addBook` builds from its arguments. */
  function NewBook(args: AddBookArgs): Book
  {
    Book(args.title, args.author, args.isPublished, [])
  }

  /**
   * One `addBook` call on the list `books`: the record built from the
   * arguments goes at the end, and the answer is a success envelope that
   * carries that same record. No argument is checked, so there is no
   * failure case.
   */
  function AddBookStep(books: seq<Book>, args: AddBookArgs): (r: StepResult)
    ensures |r.books| == |books| + 1
    ensures r.books[..|books|] == books
    ensures r.books[|books|] == r.response.book
    ensures r.response.book.title == args.title
    ensures r.response.book.author == args.author
    ensures r.response.book.isPublished == args.isPublished
    ensures r.response.book.reviews == []
    ensures r.response.code == 201 && r.response.success
    ensures r.response.message == "book created successfully"
  {
    var book := NewBook(args);
    StepResult(books + [book], AddBookResponse(CreatedCode, true, CreatedMessage, book))
  }

  /** The list after the `addBook` calls `calls`, made in order, starting from `books`. */
  function Replay(books: seq<Book>, calls: seq<AddBookArgs>): seq<Book>
    decreases |calls|
  {
    if calls == [] then books
    else Replay(AddBookStep(books, calls[0]).books, calls[1..])
  }

  /** The records a sequence of `addBook` calls builds, in call order. */
  function Built(calls: seq<AddBookArgs>): seq<Book>
    decreases |calls|
  {
    if calls == [] then [] else [NewBook(calls[0])] + Built(calls[1..])
  }

  /** One more call appends one more record to whatever the earlier calls left. */
  lemma {:induction false} ReplayAppend(books: seq<Book>, calls: seq<AddBookArgs>, args: AddBookArgs)
    ensures Replay(books, calls + [args]) == AddBookStep(Replay(books, calls), args).books
    decreases |calls|
  {
    if calls == [] {
      assert calls + [args] == [args];
      assert [args][1..] == [];
    } else {
      assert (calls + [args])[0] == calls[0];
      assert (calls + [args])[1..] == calls[1..] + [args];
      ReplayAppend(AddBookStep(books, calls[0]).books, calls[1..], args);
    }
  }

  /**
   * Calls only ever append: after any sequence of calls the list is the
   * original list, untouched and in order, followed by the records built
   * from the calls in the order the calls were made.
   */
  lemma {:induction false} ReplayIsPrefixThenBuilt(books: seq<Book>, calls: seq<AddBookArgs>)
    ensures Replay(books, calls) == books + Built(calls)
    decreases |calls|
  {
    if calls != [] {
      ReplayIsPrefixThenBuilt(books + [NewBook(calls[0])], calls[1..]);
      assert books + [NewBook(calls[0])] + Built(calls[1..]) == books + Built(calls);
    }
  }

  /** Two batches of calls in a row act like one batch made of both. */
  lemma {:induction false} ReplayCompose(books: seq<Book>, first: seq<AddBookArgs>, second: seq<AddBookArgs>)
    ensures Replay(books, first + second) == Replay(Replay(books, first), second)
    decreases |first|
  {
    if first == [] {
      assert first + second == second;
    } else {
      assert (first + second)[0] == first[0];
      assert (first + second)[1..] == first[1..] + second;
      ReplayCompose(AddBookStep(books, first[0]).books, first[1..], second);
    }
  }

  /** The records built by `addBook` calls match the calls one to one and carry no reviews. */
  lemma {:induction false} BuiltMatchesCalls(calls: seq<AddBookArgs>)
    ensures |Built(calls)| == |calls|
    ensures forall i :: 0 <= i < |calls| ==>
      Built(calls)[i] == Book(calls[i].title, calls[i].author, calls[i].isPublished, [])
    decreases |calls|
  {
    if calls != [] {
      BuiltMatchesCalls(calls[1..]);
      forall i | 0 <= i < |calls|
        ensures Built(calls)[i] == Book(calls[i].title, calls[i].author, calls[i].isPublished, [])
      {
        if i > 0 {
          assert Built(calls)[i] == Built(calls[1..])[i - 1];
        }
      }
    }
  }

  /**
   * In every state the server can reach, the first two records are the
   * seed, and the only review anywhere is the first seed book's `rv-001`:
   * every record after the seed was built by `addBook`, without reviews.
   */
  lemma ReachableReviews(calls: seq<AddBookArgs>)
    ensures |Replay(SeedBooks(), calls)| == 2 + |calls|
    ensures Replay(SeedBooks(), calls)[..2] == SeedBooks()
    ensures forall i :: 2 <= i < |Replay(SeedBooks(), calls)| ==>
      Replay(SeedBooks(), calls)[i].reviews == []
  {
    ReplayIsPrefixThenBuilt(SeedBooks(), calls);
    BuiltMatchesCalls(calls);
    var r := Replay(SeedBooks(), calls);
    forall i | 2 <= i < |r| ensures r[i].reviews == [] {
      assert r[i] == Built(calls)[i - 2];
    }
  }

  /**
   * The module-level `books` array together with the resolvers that read
   * and change it. `calls` is the history of `addBook` calls so far.
   */
  class Store {
    var books: seq<Book>
    ghost var calls: seq<AddBookArgs>

    /** The list is always what the seed and the calls so far produce. */
    ghost predicate Valid()
      reads this
    {
      books == Replay(SeedBooks(), calls)
    }

    /** The server starts with the seed records and no calls. */
    constructor ()
      ensures Valid()
      ensures calls == []
      ensures books == SeedBooks()
    {
      books := SeedBooks();
      calls := [];
    }

    /**
     * `Query.books`: the list as it stands, the seed records first and
     * then one record per `addBook` call, in call order.
     */
    function Books(): (r: seq<Book>)
      reads this
      requires Valid()
      ensures r == SeedBooks() + Built(calls)
      ensures |r| == 2 + |calls|
      ensures forall i :: 2 <= i < |r| ==> r[i].reviews == []
    {
      ReplayIsPrefixThenBuilt(SeedBooks(), calls);
      ReachableReviews(calls);
      BuiltMatchesCalls(calls);
      books
    }

    /** `Query.numberSeven`: a constant that depends on no state. */
    function NumberSeven(): (r: int)
      ensures r == 7
    {
      7
    }

    /**
     * `Mutation.addBook`: builds the record from the arguments, pushes it
     * at the end of the list and answers with the success envelope.
     */
    method AddBook(title: Option<string>, author: Option<string>, isPublished: Option<bool>)
      returns (response: AddBookResponse)
      requires Valid()
      modifies this
      ensures Valid()
      ensures calls == old(calls) + [AddBookArgs(title, author, isPublished)]
      ensures StepResult(books, response) == AddBookStep(old(books), AddBookArgs(title, author, isPublished))
      ensures books == old(books) + [response.book]
      ensures response.book == Book(title, author, isPublished, [])
      ensures response.code == 201 && response.success && response.message == "book created successfully"
    {
      var book := Book(title, author, isPublished, []);
      books := books + [book];
      ReplayAppend(SeedBooks(), calls, AddBookArgs(title, author, isPublished));
      calls := calls + [AddBookArgs(title, author, isPublished)];
      response := AddBookResponse(CreatedCode, true, CreatedMessage, book);
    }
  }
}
