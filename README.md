# PartialUpdater in Dafny

A model of the update dispatcher `PartialUpdater<TSource, TDestination>`: a
registry from property name to map callback, and the application of a partial
update, which runs the callbacks of exactly those properties that a client
sent (sent as null included), in the order they were sent.

- `partial_updater.dfy`, module `PartialUpdater`: the core.
  - The class `Updater` holds the registry as a `map` field (`callbacks`).
  - `Register` stores a callback under a name (last write wins) and returns the
    updater itself for chaining. `RegisterProperty` is the typed form: it
    resolves an accessor expression with `ResolveAccessor` and then registers
    under the property's name.
  - `Apply` is the `foreach` loop over the present names. It skips names
    without a callback, threads the destination through the callbacks, and
    stops at the first one that throws. Its ghost `trace` records the names
    whose callbacks ran. `ApplyProperties` is the overload that takes property
    descriptions and projects them to their names.
  - `Dispatch` is the specification of an application, a function over the
    registry, the source, the destination and the names. `Apply` is proved
    equal to it, and the lemmas around it state what an application does.
- `book_example.dfy`, module `BookExample`: the example application's book
  updater. It has three callbacks (copy the title and throw on null, copy the
  author and throw on null, bump the edition when a flag is true). It builds
  the updater through the same chained registration and gives scenario lemmas
  about applying it.

Modelling choices:

- A C# callback mutates a destination object in place, and it may throw. Here
  a callback is a function `(S, D) -> Step<D>`. It either returns the updated
  destination, or throws with an `Exception` and the destination as it had left
  it by then. An application ends `Completed(dest)` or `Aborted(error, dest)`.
  In both cases `dest` holds the effects of every callback that ran, so nothing
  is rolled back.
- The expression tree of `Register<TMember>` becomes the datatype `Expr`. Its
  cases are the lambda's parameter, a conversion, a member access on an
  instance (`None` for a static member) whose member is a property or a field,
  and `Other` for any other node.
- The shape check is modelled as the code writes it. A member access is
  accepted when its instance node is the parameter or a conversion, and the
  conversion's operand is never looked at. So `((T) source.Inner).Title`
  registers under "Title", as `ResolveAccessorAcceptsCastNestedPath` shows.
  This is wider than what the method's own documentation asks for: a property
  of the source (`PartialUpdater.Core/PartialUpdater.cs:21`), and, in the
  exception's message, a top-level member (`:35`). `DenotesSourceProperty`
  states that intent. A member that is a field passes the shape
  test, and then the cast to a property rejects it (`InvalidCast`). It does not
  raise the argument exception (`InvalidExpression`) that the documentation
  announces for an expression that is not a property (`:25`).
- The present names are a list. A name present twice has its callback run
  twice (`EachPresentCallbackRunsOncePerOccurrence`).
- Registration does not check the name. The empty name is an ordinary key.
- `Edition++` in the example is modelled as 32-bit wrap-around
  (`WrappingIncrement`), the behaviour of C# `int` in an unchecked context.

## Model

| member | source | states |
|---|---|---|
| `PartialUpdater.Updater.constructor` | PartialUpdater.Core/PartialUpdater.cs:11 | a new updater has an empty registry |
| `PartialUpdater.Updater.Register` | PartialUpdater.Core/PartialUpdater.cs:47-52 | the registry afterwards is the old one with `memberName` bound to `callback`: an earlier callback under that name is replaced, the keys become the old keys plus `memberName`, every other pair is unchanged, and the updater itself is returned for chaining |
| `PartialUpdater.ResolveAccessor` | PartialUpdater.Core/PartialUpdater.cs:29-36 | succeeds exactly when the body is a member access whose instance is the parameter or a conversion (of anything) and whose member is a property, and then yields that property; fails with the cast error exactly when such an access names a field; fails with the invalid-expression error for every other shape |
| `PartialUpdater.ResolveAccessorAcceptsSourceProperties` | PartialUpdater.Core/PartialUpdater.cs:21-33 | every accessor that is a property of the parameter, directly or through one conversion of the parameter, resolves to that property |
| `PartialUpdater.ResolveAccessorRejectsNestedPaths` | PartialUpdater.Core/PartialUpdater.cs:29-35 | a two-member path such as `source.Title.Length` is refused with the invalid-expression error |
| `PartialUpdater.ResolveAccessorAcceptsCastNestedPath` | PartialUpdater.Core/PartialUpdater.cs:31 | a nested path whose inner part is wrapped in a conversion is accepted and resolves to the outer member, although it is not a property of the source |
| `PartialUpdater.Updater.RegisterProperty` | PartialUpdater.Core/PartialUpdater.cs:26-39 | when the accessor resolves, the registry changes exactly as `Register` under the property's name would, and the updater is returned; otherwise the error is returned and the registry is unchanged |
| `PartialUpdater.Dispatch` | PartialUpdater.Core/PartialUpdater.cs:73-78 | the reference for an application: no names runs nothing and leaves the destination as it is; no more callbacks run than names are present; an aborted application ran at least one callback, and the last one ran is registered |
| `PartialUpdater.Filter` | PartialUpdater.Core/PartialUpdater.cs:73-75 | the reference for which names get a callback run: each registered name keeps as many occurrences as it has among the present names, an unregistered one has none, and the result is a subsequence of the names, so their order is kept |
| `PartialUpdater.Names` | PartialUpdater.Core/PartialUpdater.cs:62 | the projection of property descriptions to their names keeps length and order |
| `PartialUpdater.Updater.Apply` | PartialUpdater.Core/PartialUpdater.cs:71-79 | the outcome and the trace of the loop are those of `Dispatch` on the registry; the trace is a prefix of the present registered names and equals them when no callback throws; the registry is not modified |
| `PartialUpdater.Updater.ApplyProperties` | PartialUpdater.Core/PartialUpdater.cs:60-63 | behaves exactly as `Apply` on the names of the given properties |
| `PartialUpdater.InvokedIsPrefixOfFiltered` | PartialUpdater.Core/PartialUpdater.cs:73-78 | the callbacks that ran are always a prefix of the present names that have a callback, in their order |
| `PartialUpdater.InvokedArePresentAndRegistered` | PartialUpdater.Core/PartialUpdater.cs:73-77 | no callback runs for a name that is absent or has no registration |
| `PartialUpdater.CompletedInvokesFiltered` | PartialUpdater.Core/PartialUpdater.cs:73-78 | when no callback throws, the callbacks that ran are exactly those of the present registered names, in order, once per occurrence |
| `PartialUpdater.EachPresentCallbackRunsOncePerOccurrence` | PartialUpdater.Core/PartialUpdater.cs:73-78 | when no callback throws, each registered name's callback ran as often as the name is present, and every other count is zero |
| `PartialUpdater.AbortedAtFailingCallback` | PartialUpdater.Core/PartialUpdater.cs:71-79 | an aborted application stopped at some present registered name: the names before it all completed, that name's callback threw on the destination they left, the outcome carries that exception and destination, and it was the last callback to run |
| `PartialUpdater.DispatchAppend` | PartialUpdater.Core/PartialUpdater.cs:73-78 | applying `first + second` is applying `first` and then, unless it threw, `second` on the resulting destination; after a throw nothing of `second` runs |
| `PartialUpdater.UnregisteredNamesSkipped` | PartialUpdater.Core/PartialUpdater.cs:75 | dropping the present names that have no callback changes neither the outcome nor the trace |
| `PartialUpdater.OnlyPresentNamesMatter` | PartialUpdater.Core/PartialUpdater.cs:73-77 | two registries that agree on every present name give the same application |
| `PartialUpdater.DispatchPreserves` | PartialUpdater.Core/PartialUpdater.cs:73-78 | a property of the destination that every present callback keeps, whether it returns or throws, holds after the application |
| `BookExample.WrappingIncrement` | PartialUpdater.Example/Program.cs:33 | `Edition++` is addition of one modulo 2^32 in two's complement |
| `BookExample.CopyTitle` | PartialUpdater.Example/Program.cs:23-26 | throws exactly when the title is sent as null, and then leaves the book untouched; otherwise it sets the title to the one sent; it changes no other field |
| `BookExample.CopyAuthor` | PartialUpdater.Example/Program.cs:27-30 | throws exactly when the author is sent as null, and then leaves the book untouched; otherwise it sets the author to the one sent; it changes no other field |
| `BookExample.IncrementEdition` | PartialUpdater.Example/Program.cs:31-34 | never throws; the edition changes exactly when the flag is sent as true (a null flag counts as false), and then becomes `WrappingIncrement(edition)`, one more with 32-bit wrap-around; no other field changes |
| `BookExample.BookCallbacks` | PartialUpdater.Example/Program.cs:22-34 | the example registry has callbacks for exactly the title, the author and the increment flag |
| `BookExample.BuildBookUpdater` | PartialUpdater.Example/Program.cs:20-34 | the chained typed registrations all succeed on the one updater and build the registry of the three callbacks |
| `BookExample.TitleOnlyUpdate` | PartialUpdater.Example/Program.cs:23-26 | sending only the title copies it and leaves the edition alone, whatever the increment flag says |
| `BookExample.NullTitleAbortsBeforeIncrement` | PartialUpdater.Example/Program.cs:23-34 | a title sent as null throws, and the increment sent after it never runs |
| `BookExample.NullAuthorKeepsCopiedTitle` | PartialUpdater.Example/Program.cs:23-30 | an author sent as null throws after the title was copied; the copied title stays and nothing later runs |
| `BookExample.UnsentTitleUnchanged` | PartialUpdater.Example/Program.cs:23-34 | an update that does not send the title never changes it |
| `BookExample.UnsentAuthorUnchanged` | PartialUpdater.Example/Program.cs:23-34 | an update that does not send the author never changes it |
| `BookExample.EditionChangesOnlyWhenIncrementSentTrue` | PartialUpdater.Example/Program.cs:31-34 | the edition changes only when the flag is sent and true |
| `BookExample.IdentifierNeverChanges` | PartialUpdater.Example/Program.cs:22-34 | whatever names are sent, and whatever their values, the book's identifier is never changed |
| `BookExample.ReRegistrationScenario` | PartialUpdater.Core/PartialUpdater.cs:47-52 | after a second registration under the title replaces the copying callback with one that keeps the book, applying the title runs only the second callback: whatever title is sent, null included, the result is the unchanged book and nothing throws |
| `BookExample.IncrementAnimalFarm` | PartialUpdater.Example/GraphQL/MutationType.cs:24-35 | sending the flag as true moves the example book from its fourth to its fifth edition and changes nothing else |

## Left out

- Mutation in place: the destination is a value threaded through the callbacks, because a Dafny function value cannot change the heap. Aliasing between the source and the destination, and callbacks that change anything other than the destination, are not modelled.
- Presence discovery (`PartialUpdater.HotChocolate/ResolverContextExtensions.cs`, `PartialUpdater.HotChocolate/InputFieldExtensions.cs`): it reflects into a library's internal field metadata and reads the request literal. The present names are a plain input here.
- Web host setup, dependency-injection wiring and the GraphQL schema types (`PartialUpdater.Example/Program.cs:6-17`, `:38-44`, `QueryType.cs`, `UpdateBookInputType.cs`, the rest of `MutationType.cs`): configuration of foreign libraries with no logic of their own.
- `PartialUpdater.Example/Model` is not part of this model. The shapes of `Book` and `UpdateBookInput` are taken from their uses in `Program.cs` and `MutationType.cs`, and `Edition` is assumed to be a 32-bit `int`.
- The text of the argument exception, which embeds the printed expression, is not modelled. Only its kind is kept (`InvalidExpression`).
- Null references, whose C# behaviour is not modelled because Dafny strings, function values and datatype values are never null:
  - A null name makes the dictionary throw in `Register` (`PartialUpdater.Core/PartialUpdater.cs:49`).
  - A null callback is stored without complaint. It throws a null-reference exception only when `Apply` reaches its name and calls it (`:77`).
  - A null accessor expression throws at `.Body` (`:29`), before the pattern match.
  - A null name among the present names makes `ContainsKey` throw in `Apply` (`:75`).
  - A null property description among the present properties throws a null-reference exception in the projection to names (`:62`), when it is enumerated.
- Lazy enumeration of the `IEnumerable` arguments: the present names are a finite `seq`, enumerated once.
- Concurrency, asynchronous callbacks and cancellation: the code has none of them.
