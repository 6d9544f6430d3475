# Message dispatch of the dry-monads benchmark, modelled in Dafny

`bench.rb` defines a small in-memory `User` directory and two services that
send one message to a list of users:

- `User.all` builds a pool of 1000 users on its first call and caches it.
  Ids run from 1 to 1000, and each name and email is built from the id.
  `User.find_by_ids` keeps the users of the pool whose id is listed.
- `RegularService` stores the ids and the message when it is created. Its
  `call` fails with `:cant_send_empty_message` on an empty message.
  Otherwise it looks the users up once, caching them in `@users`. It then
  returns `Success` of one `{id, status}` record per user. The status is
  `'delivered'` when the `send_message` stub says so, which it always does.
- `FunctionalService` computes the same records as a chain of `bind` calls.
  Its empty-message check builds a `Failure` and then drops it (line 71), so
  this variant never fails. This is recorded under "## Findings".

The Dafny modules follow that structure:

- `Results` (results.dfy): the result, record, status and error values, with
  `bind`.
- `UserModel` (user_model.dfy): the user record, the pool, `find_by_ids` as a
  pure filter, and its laws.
- `Directory` (directory.dfy): the class-level `@all` cache as a class
  `UserDirectory`. `All` and `FindByIds` fill the cache on first use.
- `Regular` (regular.dfy): the specification functions `Dispatch` and
  `Report`, and the class `RegularService` with its memoised `users`. Each
  method is proved to return what those functions give.
- `Functional` (functional.dfy): the functional service as pure functions,
  with `bind` as ordinary function application.
- `Comparison` (comparison.dfy): how the two services relate, and the
  script's own input `PARAMS`.

The two services are meant to be interchangeable. The code makes them
differ on the empty message, and the model follows the code.
`find_by_ids` takes an array of ids and looks each one up with `include?`,
so the model takes a sequence of ids, not a set.

## Model

| member | source | states |
|---|---|---|
| UserModel.Decimal | bench.rb:19 | an id prints as a non-empty string of decimal digits, with no leading zero for a positive id |
| UserModel.DecimalRoundTrip | bench.rb:19 | reading the printed digits of an id back gives the id |
| UserModel.DecimalInjective | bench.rb:19 | two ids that print the same are the same id |
| UserModel.Pool | bench.rb:17-21 | the pool holds 1000 users; the one at position i has id i+1, the i-th drawn age, and the name and email built from its id |
| UserModel.PoolIds | bench.rb:18 | an id occurs in the pool exactly when it lies in 1..1000 |
| UserModel.PoolAscending | bench.rb:18 | the pool lists its users in strictly ascending id order |
| UserModel.PoolNamesDistinct | bench.rb:19 | two different users of the pool never share a name |
| UserModel.FindByIds | bench.rb:23-25 | the result is no longer than the pool, and every user in it comes from the pool with an id that was asked for |
| UserModel.FindByIdsMembership | bench.rb:24 | a user is found if and only if it is in the pool and its id was asked for |
| UserModel.FindByIdsAppend | bench.rb:24 | filtering a concatenation gives the filtered parts in the same order: results follow the pool's order, not the ids' order |
| UserModel.FindByIdsSubsequence | bench.rb:24 | the found users are a subsequence of the pool |
| UserModel.FindByIdsSameIds | bench.rb:24 | two id lists with the same members find the same users: repeating or reordering ids changes nothing |
| UserModel.FindByIdsNoIds | bench.rb:23-24 | the default empty id list finds no users |
| UserModel.FindByIdsUnknownId | bench.rb:24 | appending an id that no user has does not change the result |
| UserModel.FindByIdsAscending | bench.rb:24 | filtering a pool in ascending id order gives users in ascending id order |
| UserModel.FindByIdsCount | bench.rb:23-25 | over a pool with ascending ids, one user is found per distinct requested id that some user has |
| UserModel.PoolFindCount | bench.rb:17-25 | over the pool, one user is found per distinct requested id in 1..1000 |
| Directory.UserDirectory.constructor | bench.rb:17-18 | before the first call of `User.all` the cache is empty and the pool has never been built |
| Directory.UserDirectory.All | bench.rb:17-21 | `User.all` returns the pool, fills the cache, answers later calls from it without changing any state, and builds the pool only once |
| Directory.UserDirectory.FindByIds | bench.rb:23-25 | `User.find_by_ids` returns the filtered pool and leaves the cache filled; with the cache already filled it changes no state |
| Directory.WarmThenAsk | bench.rb:28 | warming the cache and asking again returns the same users, with the pool built once |
| Regular.SendMessage | bench.rb:58-60 | the delivery stub reports success for every address and text |
| Regular.FormattedMessage | bench.rb:62-64 | the outbound text is "Message: " followed by the message verbatim |
| Regular.FormattedMessageInjective | bench.rb:62-64 | different messages give different texts |
| Regular.Report | bench.rb:49-60 | one record per user, in the same order, each with that user's id and the status delivered |
| Regular.Dispatch | bench.rb:38-40 | `call` fails with `CantSendEmptyMessage` if and only if the message is empty; otherwise it succeeds with one delivered record per found user, in order, with the user's id |
| Regular.NeverError | bench.rb:53-60 | no record of a successful call has the status error |
| Regular.DispatchRecipients | bench.rb:38-56 | for a non-empty message, a delivered record for id k is present if and only if k was asked for and lies in 1..1000 |
| Regular.DispatchCount | bench.rb:40-56 | for a non-empty message, the number of records is the number of distinct requested ids in 1..1000 |
| Regular.DispatchAscending | bench.rb:45-56 | records come in ascending id order, whatever the order of the requested ids |
| Regular.UnknownIdReportsNothing | bench.rb:38-56 | asking for the unknown id 999999 succeeds with no records |
| Regular.RegularService.constructor | bench.rb:33-36 | the service stores the ids and the message and starts with no cached users |
| Regular.RegularService.Users | bench.rb:45-47 | `users` returns the found users and caches them; once they are cached, or once the pool is cached, it leaves the directory untouched; a first lookup leaves the pool cached and built once |
| Regular.RegularService.SendMessages | bench.rb:49-56 | `send_messages` returns the report for the found users and leaves them cached; once they are cached, or once the pool is cached, it leaves the directory untouched; a first lookup leaves the pool cached and built once |
| Regular.RegularService.Call | bench.rb:38-41 | `call` returns the outcome `Dispatch` specifies; on an empty message nothing is looked up and no state changes; otherwise the found users end up cached, and a call on a service that already cached them keeps that cache and leaves the directory untouched; a call with the pool already cached leaves the directory untouched, and a first non-empty call leaves the pool cached and built once |
| Regular.CallTwice | bench.rb:38-47 | calling the same service twice gives the same outcome, and after a non-empty message the users are cached |
| Regular.CallCached | bench.rb:38-47 | a call on a service whose users are cached returns the specified outcome, keeps the cached users and leaves the directory untouched |
| Functional.FormatMessage | bench.rb:99-101 | `format_message` succeeds with "Message: " followed by the message verbatim |
| Functional.SendMessage | bench.rb:93-97 | `send_message` succeeds with delivered for every message and address |
| Functional.SendMessages | bench.rb:83-91 | `send_messages` succeeds with one delivered record per user, in order, with the user's id |
| Functional.Users | bench.rb:79-81 | `users` always succeeds, with users of the pool whose ids were asked for, no more of them than the pool holds |
| Functional.Call | bench.rb:70-75 | `call` always succeeds, even on an empty message, with one delivered record per found user, in order |
| Functional.CallChecked | bench.rb:70-75 | with the early return restored, `call` fails if and only if the message is empty |
| Comparison.SameFormatting | bench.rb:99-101 | both services format the outbound text identically |
| Comparison.AgreeOnNonEmptyMessage | bench.rb:70-75 | for a non-empty message both services return the same outcome |
| Comparison.DifferOnEmptyMessage | bench.rb:71 | for an empty message the regular service fails and the functional one succeeds with delivered records |
| Comparison.CheckedAgrees | bench.rb:70-75 | the corrected functional service agrees with the regular one on every input |
| Comparison.ParamsCount | bench.rb:104-109 | the ids of `PARAMS` find seven users |
| Comparison.ParamsMembership | bench.rb:104-109 | an id is found for `PARAMS` exactly when it is one of 1, 5, 6, 10, 32, 66, 99 |
| Comparison.ParamsFound | bench.rb:104-109 | `PARAMS` finds the users with ids 1, 5, 6, 10, 32, 66, 99, in that order |
| Comparison.ParamsReport | bench.rb:104-109 | on `PARAMS` both services return the seven records 1, 5, 6, 10, 32, 66, 99, all delivered |

## Left out

- The benchmark harness (iterations per second, warm-up, reports), the
  allocation counting and all printed output. They only measure and print.
- The random age: the ages are a sequence handed to the `UserDirectory`
  constructor, one per id. The range 2..40 is not imposed because no logic
  depends on it.
- The internals of the monads library: `Success`/`Failure` is a plain
  datatype, `bind` applies a function, `success?` is the `Success?` test,
  and `curry` is a lambda.
- Symbols and strings as values: the status strings and the `:delivered`
  symbol are the `Status` constructors, and the error symbol is `ErrorKind`.
- Ruby's dynamic typing: ids are integers and the message is a string. A
  `nil` message, which would raise an exception, is not modelled.
- Aliasing of the caller's id array: the service keeps a value copy, so a
  caller mutating that array after construction is not captured.
- Functional.Users: its own contract says only that the lookup succeeds
  and returns users of the pool whose ids were asked for. That it returns
  exactly the found users, in order, is stated by `Functional.Call` and
  `Comparison.AgreeOnNonEmptyMessage`.

## Findings

| source | as written | input that shows it | evidently intended | confidence | as-written member | corrected member |
|---|---|---|---|---|---|---|
| bench.rb:71 | the `Failure(:cant_send_empty_message)` value is computed and discarded, so the `bind` chain runs on | any ids with the message "" give `Success` with one delivered record per found user, where `RegularService` gives `Failure` | return the `Failure`, as `RegularService#call` does at line 39 | high; not executed | Functional.Call, with Comparison.DifferOnEmptyMessage | Functional.CallChecked, with Comparison.CheckedAgrees |
