/** The example application's updater: an update input for a book, the three
    callbacks it registers (copy the title, copy the author, bump the edition),
    the chained registration that builds it, and what applying it does. */
module BookExample {
  import opened PartialUpdater

  /** A 32-bit signed integer, the width of the book's `Edition` and `Id`. */
  newtype int32 = x: int | -0x8000_0000 <= x < 0x8000_0000

  /** `x++` on a 32-bit integer in an unchecked context: wraps around at the top. */
  function WrappingIncrement(x: int32): (r: int32)
    ensures r as int == (x as int + 1 + 0x8000_0000) % 0x1_0000_0000 - 0x8000_0000
  {
    if x == 0x7fff_ffff then -0x8000_0000 else x + 1
  }

  datatype Book = Book(id: int32, title: string, author: string, edition: int32)

  /** The update input: every field may be sent as null (`None`). */
  datatype UpdateBookInput = UpdateBookInput(
    differentlyNamedTitle: Option<string>,
    author: Option<string>,
    increment: Option<bool>)

  const TitleName := "DifferentlyNamedTitle"
  const AuthorName := "Author"
  const IncrementName := "Increment"

  /** The accessor `input => input.<name>` for a property of the input. */
  function Accessor(name: string): Expr
  {
    MemberAccess(Some(Parameter), PropertyMember(PropertyInfo(name)))
  }

  /** Copies the title; a null title throws before the book is touched. */
  function CopyTitle(source: UpdateBookInput, destination: Book): (r: Step<Book>)
    ensures r.Threw? <==> source.differentlyNamedTitle.None?
    ensures r.Returned? ==> r.dest.title == source.differentlyNamedTitle.value
    ensures r.Threw? ==> r.dest == destination
    ensures r.dest.(title := destination.title) == destination
  {
    match source.differentlyNamedTitle
    case Some(title) => Returned(destination.(title := title))
    case None => Threw(Exception("title may not be null"), destination)
  }

  /** Copies the author; a null author throws before the book is touched. */
  function CopyAuthor(source: UpdateBookInput, destination: Book): (r: Step<Book>)
    ensures r.Threw? <==> source.author.None?
    ensures r.Returned? ==> r.dest.author == source.author.value
    ensures r.Threw? ==> r.dest == destination
    ensures r.dest.(author := destination.author) == destination
  {
    match source.author
    case Some(author) => Returned(destination.(author := author))
    case None => Threw(Exception("author may not be null"), destination)
  }

  /** Bumps the edition when the increment flag is sent as true; null counts as
      false. */
  function IncrementEdition(source: UpdateBookInput, destination: Book): (r: Step<Book>)
    ensures r.Returned?
    ensures r.dest.edition != destination.edition <==> source.increment == Some(true)
    ensures source.increment == Some(true) ==> r.dest.edition == WrappingIncrement(destination.edition)
    ensures r.dest.(edition := destination.edition) == destination
  {
    if source.increment == Some(true) then Returned(destination.(edition := WrappingIncrement(destination.edition)))
    else Returned(destination)
  }

  /** The registry the example builds. */
  function BookCallbacks(): (r: map<string, Callback<UpdateBookInput, Book>>)
    ensures r.Keys == {TitleName, AuthorName, IncrementName}
  {
    map[TitleName := CopyTitle, AuthorName := CopyAuthor, IncrementName := IncrementEdition]
  }

  /** The book the example mutation loads. */
  function AnimalFarm(): Book
  {
    Book(17, "Animal Farm", "George Orwell", 4)
  }

  /** Builds the example updater by registering the three callbacks in a chain,
      each call on the updater the previous one returned. */
  method BuildBookUpdater() returns (updater: Updater<UpdateBookInput, Book>)
    ensures fresh(updater)
    ensures updater.callbacks == BookCallbacks()
  {
    updater := new Updater();
    var byTitle := updater.RegisterProperty(Accessor(TitleName), CopyTitle);
    var byAuthor := byTitle.value.RegisterProperty(Accessor(AuthorName), CopyAuthor);
    var byIncrement := byAuthor.value.RegisterProperty(Accessor(IncrementName), IncrementEdition);
    assert byIncrement == Success(updater);
  }

  /** Sending only the title copies it; the edition is left alone whatever the
      increment flag says, because its callback does not run. */
  lemma TitleOnlyUpdate(input: UpdateBookInput, book: Book)
    requires input.differentlyNamedTitle.Some?
    ensures Dispatch(BookCallbacks(), input, book, [TitleName]) ==
            Run(Completed(book.(title := input.differentlyNamedTitle.value)), [TitleName])
  {
  }

  /** A title sent as null throws, and the increment sent after it never runs. */
  lemma NullTitleAbortsBeforeIncrement(input: UpdateBookInput, book: Book)
    requires input.differentlyNamedTitle.None?
    ensures Dispatch(BookCallbacks(), input, book, [TitleName, IncrementName]) ==
            Run(Aborted(Exception("title may not be null"), book), [TitleName])
  {
  }

  /** An author sent as null throws after the title was copied: the copied
      title stays on the book, and the increment never runs. */
  lemma NullAuthorKeepsCopiedTitle(input: UpdateBookInput, book: Book)
    requires input.differentlyNamedTitle.Some? && input.author.None?
    ensures Dispatch(BookCallbacks(), input, book, [TitleName, AuthorName, IncrementName]) ==
            Run(Aborted(Exception("author may not be null"), book.(title := input.differentlyNamedTitle.value)),
                [TitleName, AuthorName])
  {
  }

  /** Whatever else is sent, an update that does not send the title leaves the
      title as it was. */
  lemma UnsentTitleUnchanged(input: UpdateBookInput, book: Book, properties: seq<string>)
    requires TitleName !in properties
    ensures Dispatch(BookCallbacks(), input, book, properties).outcome.dest.title == book.title
  {
    DispatchPreserves(BookCallbacks(), input, book, properties, (b: Book) => b.title == book.title);
  }

  /** Whatever else is sent, an update that does not send the author leaves the
      author as it was. */
  lemma UnsentAuthorUnchanged(input: UpdateBookInput, book: Book, properties: seq<string>)
    requires AuthorName !in properties
    ensures Dispatch(BookCallbacks(), input, book, properties).outcome.dest.author == book.author
  {
    DispatchPreserves(BookCallbacks(), input, book, properties, (b: Book) => b.author == book.author);
  }

  /** The edition changes only when the increment flag is both sent and true. */
  lemma EditionChangesOnlyWhenIncrementSentTrue(input: UpdateBookInput, book: Book, properties: seq<string>)
    requires IncrementName !in properties || input.increment != Some(true)
    ensures Dispatch(BookCallbacks(), input, book, properties).outcome.dest.edition == book.edition
  {
    DispatchPreserves(BookCallbacks(), input, book, properties, (b: Book) => b.edition == book.edition);
  }

  /** Whatever is sent, no callback changes the book's identifier. */
  lemma IdentifierNeverChanges(input: UpdateBookInput, book: Book, properties: seq<string>)
    ensures Dispatch(BookCallbacks(), input, book, properties).outcome.dest.id == book.id
  {
    DispatchPreserves(BookCallbacks(), input, book, properties, (b: Book) => b.id == book.id);
  }

  /** Sending the increment flag as true once bumps the fourth edition of the
      example book to the fifth and touches nothing else. */
  lemma IncrementAnimalFarm(input: UpdateBookInput)
    requires input.increment == Some(true)
    ensures Dispatch(BookCallbacks(), input, AnimalFarm(), Names([PropertyInfo(IncrementName)])) ==
            Run(Completed(Book(17, "Animal Farm", "George Orwell", 5)), [IncrementName])
  {
  }

  /** Registering a second callback under the title replaces the copying one:
      applying the updater then runs only the second, which here keeps the book
      as it is, so whatever title is sent (null included) nothing is copied and
      nothing throws. */
  method ReRegistrationScenario(input: UpdateBookInput) returns (outcome: Outcome<Book>, ghost trace: seq<string>)
    ensures outcome == Completed(AnimalFarm())
    ensures trace == [TitleName]
  {
    var updater := BuildBookUpdater();
    var keepBook := (source: UpdateBookInput, destination: Book) => Returned(destination);
    var same := updater.Register(TitleName, keepBook);
    outcome, trace := same.Apply(input, AnimalFarm(), [TitleName]);
  }
}
