# lydiapp in Dafny

lydiapp is an iOS app that lists random users fetched from randomuser.me, keeps them in
Core Data, lets the user search the list and shows one user's details. This project
models the data path of the app:

- `UserService.fetchUsers` builds the request URL and sorts what comes back into a page
  of users or a `RandomUserServiceError`. `fetchAndSaveUsers` reconciles that page with
  the stored records by identity and saves the context once.
- `CoreDataManager` (its initializer, `saveContext` and `createUser`) and the view
  context it hands out. The app ships two identical copies, under `Service/` and
  `Manager/`. Both are modelled once, by `Store.CoreDataManager`. The table cites the `Service/` copy; the `Manager/` copy has the same code at the same lines (`init` at 31-38, `saveContext` at 44-53, `createUser` at 60-74).
- The `UserEntity` helpers: `update(with:)`, `init(from:context:)`, `fetch(byUUID:in:)`,
  `makeSample` and `samples(in:)`.
- `UserViewModel.loadUsers`.
- The search, section count and selection of `UserListViewController`, and its
  `subscript(safe:)`.
- The field list and table layout of `UserDetailViewController`.
- `User.description` and `completeDescription`.
- The `id` and `errorDescription` of the error enums.

Modules follow the app's files:

- `Users`: the decoded JSON model and its two renderings.
- `Errors`: the error enums.
- `Uuids`: the text form of a UUID.
- `Entities`: the `UserEntity` record and its mappings.
- `Store`: `CoreDataManager` and its context.
- `Service`: `UserService`.
- `ViewModel`: `UserViewModel`.
- `ListView` and `DetailView`: the two screens.
- `Text` and `Wrappers`: shared helpers.

A managed object is modelled by its position in the context's record list (its
handle). The view model and the list screen keep handles where the app keeps
`UserEntity` references. A change made through the context is therefore seen through
every handle, as it is in the app.

The Foundation behaviour the code relies on is passed in as parameters:

- the ISO-8601 date parser;
- the clock;
- which Core Data lookups throw;
- what the network answers for a URL;
- what `context.save()` reports.

## Model

| member | source | states |
|---|---|---|
| Store.Commit | lydiapp/Service/CoreDataManager.swift:44-53 | saving does nothing without pending changes. Otherwise the records are written, or the store's error is wrapped as `saveContext` and the pending changes are kept. The result is always a settled context |
| Store.CommitIdempotent | lydiapp/Service/CoreDataManager.swift:44-53 | saving right after a successful save changes nothing and cannot fail |
| Store.CommitFailureRetries | lydiapp/Service/CoreDataManager.swift:46-51 | a failed save leaves the context as it was, so the next save retries the same changes |
| Store.CoreDataManager.constructor | lydiapp/Service/CoreDataManager.swift:31-38 | a store that loads starts with its records, no pending changes and no `lastLoadingError`. A load failure is recorded as `failedToLoadPersistentStores` with the load's error |
| Store.CoreDataManager.SaveContext | lydiapp/Service/CoreDataManager.swift:44-53 | the new state and the outcome are exactly `Commit` of the old state |
| Store.CoreDataManager.CreateUser | lydiapp/Service/CoreDataManager.swift:60-74 | a record with all ten attributes set from the arguments is appended, and then the context is committed. On success the new record's handle is returned. A failed save is rethrown, and the inserted record stays in the context |
| Store.CoreDataManager.MakeSample | lydiapp/Samples/UserEntity.Examples.swift:7-20 | appends one record with every attribute set from the arguments; nothing is saved |
| Store.CoreDataManager.MakeSampleEntry | lydiapp/Samples/UserEntity.Examples.swift:25-154 | appends exactly the `i`-th sample record; nothing is saved |
| Store.CoreDataManager.Samples | lydiapp/Samples/UserEntity.Examples.swift:22-156 | appends the ten sample records in table order and returns their ten consecutive handles |
| Store.CoreDataManager.UpdateEntity | lydiapp/Samples/UserEntity.Examples.swift:161-173 | only the record at the handle changes, and it becomes `Updated` of its old value |
| Store.CoreDataManager.InsertFromUser | lydiapp/Service/CoreDataManager.swift:83-101 | appends exactly `FromUser` of the user and returns its handle |
| Entities.FullRecord | lydiapp/Samples/UserEntity.Examples.swift:8-18 | the record `makeSample` and `createUser` build has no nil attribute |
| Entities.Updated | lydiapp/Samples/UserEntity.Examples.swift:161-173 | the updated record reflects the user. Its id and registration date are kept, and so is the old birth date when the date text does not parse |
| Entities.FromUser | lydiapp/Service/CoreDataManager.swift:83-101 | a new record reflects the user, and its id is the parsed identity text. The birth date falls back to now when the text does not parse, and the registration date stays unset |
| Entities.UpdateFixpoint | lydiapp/Samples/UserEntity.Examples.swift:161-173 | updating a record that already reflects the user changes nothing |
| Entities.UpdateIdempotent | lydiapp/Samples/UserEntity.Examples.swift:161-173 | updating twice with the same user is the same as updating once |
| Entities.CreateIsUpdateOfBlank | lydiapp/Service/CoreDataManager.swift:83-101 | creating from a user is updating a blank record that carries the parsed id and the birth date "now" |
| Entities.UpdateReadsOnlyKept | lydiapp/Samples/UserEntity.Examples.swift:161-173 | `update(with:)` reads only the record's id and registration date, and its birth date only when the date text does not parse |
| Entities.IdMatches | lydiapp/Samples/UserEntity.Examples.swift:178 | no contract of its own (a predicate); `FirstMatch` and `FetchByUuid` state the lookup built on it |
| Entities.FirstMatch | lydiapp/Samples/UserEntity.Examples.swift:177-181 | the first record whose id equals the parsed identity, or none when no record has it |
| Entities.FetchByUuid | lydiapp/Samples/UserEntity.Examples.swift:176-186 | a lookup that throws answers nil, and so does text that is not a UUID. Otherwise a record with that identity is found whenever one exists |
| Entities.SampleIdsParse | lydiapp/Samples/UserEntity.Examples.swift:26 | every sample id text is a well-formed UUID, so the `UUID(uuidString:)!` unwraps never trap |
| Entities.SampleEntity | lydiapp/Samples/UserEntity.Examples.swift:25-37 | each sample record has every attribute set, its id parsed from the table, and the table's age |
| Entities.SampleEntities | lydiapp/Samples/UserEntity.Examples.swift:22-156 | ten records, the `i`-th built from the `i`-th entry |
| Entities.SampleUuidsDistinct | lydiapp/Samples/UserEntity.Examples.swift:22-156 | the ten sample ids parse to ten different UUIDs |
| Entities.SampleEntitiesDistinct | lydiapp/Samples/UserEntity.Examples.swift:22-156 | the ten sample records are complete, have positive ages and have pairwise different ids |
| Uuids.ParseUuid | lydiapp/Samples/UserEntity.Examples.swift:26 | `UUID(uuidString:)` succeeds exactly on the 8-4-4-4-12 hex form |
| Service.RequestUrl | lydiapp/Service/UserService.swift:17 | no contract of its own; `RequestUrlParses` and `RequestUrlInjective` state its properties |
| Service.RequestUrlParses | lydiapp/Service/UserService.swift:17-18 | the request URL always parses, whatever `results` and `page` are, so `badURL` is never thrown |
| Service.RequestUrlInjective | lydiapp/Service/UserService.swift:17 | two requests have the same URL exactly when they ask for the same `results` and `page` |
| Service.FetchUsers | lydiapp/Service/UserService.swift:16-38 | the fetch never fails with `badURL` |
| Service.StatusCode | lydiapp/Service/UserService.swift:22-24 | no contract of its own; `FetchUsersClassifies` states the status carried by `badHTTPStatus` |
| Service.FetchUsersClassifies | lydiapp/Service/UserService.swift:19-37 | users are returned exactly for an HTTP 200 whose body decodes. Any other response gives `badHTTPStatus`, with its status or -1 when the response is not HTTP. A 200 that does not decode gives `decoding`, and a transport error gives `unknown`, each with its cause |
| Service.ReconcileStep | lydiapp/Service/UserService.swift:53-60 | the record with the user's identity is updated in place, or else one new record is appended. The user's record reflects the user and carries its identity; every other record is unchanged, and every stored record keeps its id and registration date |
| Service.Reconcile | lydiapp/Service/UserService.swift:51-61 | there is one handle per user, each on a record carrying that user's identity, and the stored ids are preserved. What else the loop leaves is stated by the lemmas below: untouched records, new records, reflected users |
| Service.ReconcileReturnsNewRecords | lydiapp/Service/UserService.swift:51-61 | every record the loop creates is among the returned handles |
| Service.ReconcileKeepsUntouched | lydiapp/Service/UserService.swift:51-61 | every stored record that no user of the page was saved in is left exactly as it was |
| Service.ReconcilePrefixLast | lydiapp/Service/UserService.swift:53-60 | the loop over the first `k` users is the loop over the first `k - 1` followed by one more iteration |
| Service.ReconcileLaterKeepsKeys | lydiapp/Service/UserService.swift:53-60 | later users of the page never change the id or registration date of a record an earlier iteration left, and never remove one |
| Service.ReconcileKeepsKeysBetween | lydiapp/Service/UserService.swift:53-60 | the iterations for users `k` to `m` keep the id and registration date of every record left after user `k`, and remove none |
| Service.ReconcileKeepsKeysOneMore | lydiapp/Service/UserService.swift:53-60 | one more iteration keeps the id and registration date of every record, and removes none |
| Service.ReconcileReflects | lydiapp/Service/UserService.swift:53-60 | each user's record reflects that user, unless a later user of the page landed on the same record (the last one wins) |
| Service.ReconcileKeepsIdsUnique | lydiapp/Service/UserService.swift:53-60 | when no lookup throws and the stored ids are already unique, they stay unique: the loop never creates a second record for an identity |
| Service.ReconcileStoredPageAddsNothing | lydiapp/Service/UserService.swift:53-60 | when every identity of the page is already stored and no lookup throws, no record is added and every handle names a stored record |
| Service.SecondPassStep | lydiapp/Service/UserService.swift:53-60 | a second pass over the page, against what the first pass over the whole page left, finds the same record for the next user as the first pass did, and leaves it as the first pass did up to a birth date |
| Service.SecondPassPrefix | lydiapp/Service/UserService.swift:51-61 | after any number of users, the second pass has the same handles as the first, leaves untouched records as the first pass left them, and holds the touched ones as the first pass held them then, up to a birth date |
| Service.ReconcileIdempotent | lydiapp/Service/UserService.swift:48-63 | when no lookup throws and every identity of the page is a UUID text, reconciling the same page a second time changes no record and returns the same handles. Nothing is required of the stored records: ids shared by several records, and users repeating an identity, are covered |
| Service.FetchAndSave | lydiapp/Service/UserService.swift:48-63 | the resulting store is settled and never shrinks, and every returned handle names a record |
| Service.FetchAndSaveOutcome | lydiapp/Service/UserService.swift:48-63 | a fetch error leaves the store untouched. On success there is one handle per user, in order, on records with their identities, and everything is saved. `saveContext` is thrown exactly when the fetch succeeded, the store reports an error and there is something to save; the records then stay unsaved |
| Service.SaveUser | lydiapp/Service/UserService.swift:53-60 | one loop iteration does exactly `ReconcileStep` to the context |
| Service.FetchAndSaveUsers | lydiapp/Service/UserService.swift:48-63 | the new store and the result are exactly `FetchAndSave` of the old store |
| ViewModel.UserViewModel.constructor | lydiapp/Service/UserViewModel.swift:7 | `users` starts empty |
| ViewModel.UserViewModel.LoadUsers | lydiapp/Service/UserViewModel.swift:13-21 | on success `users` becomes the handles the service returned; on failure the error is rethrown and `users` is unchanged. The store changes as `FetchAndSave` says, and its `lastLoadingError` stays as it was |
| ListView.MatchesIffOccurs | lydiapp/Views/UserListViewController.swift:228-233 | a record matches exactly when the lowered text occurs in its lowered first name, last name, email or phone |
| ListView.Filter | lydiapp/Views/UserListViewController.swift:228-233 | the result lists only shown users that match |
| ListView.FilterKeepsEveryMatch | lydiapp/Views/UserListViewController.swift:228-233 | a handle is in the result exactly when it is shown and its record matches |
| ListView.FilterCounts | lydiapp/Views/UserListViewController.swift:228-233 | the filter neither drops nor repeats: a matching record is listed as many times as the shown list lists it, any other record not at all |
| ListView.FilterIsSubsequence | lydiapp/Views/UserListViewController.swift:228 | the result keeps the order of the shown list |
| ListView.SearchResults | lydiapp/Views/UserListViewController.swift:222-235 | a nil or empty search text gives no results |
| ListView.SearchResultsFilter | lydiapp/Views/UserListViewController.swift:222-235 | for a non-empty text, a handle is in the results exactly when it is shown and matches the lowered text; each matching handle is listed as often as it is shown, and the results keep the shown order |
| ListView.SearchIgnoresCase | lydiapp/Views/UserListViewController.swift:223 | searching for the lowered text gives the same results as the text itself |
| ListView.IsSearchActive | lydiapp/Views/UserListViewController.swift:15 | no contract of its own (a predicate); `SearchGuardsAgree` relates it to the branch `updateSearchResults` takes |
| ListView.SearchGuardsAgree | lydiapp/Views/UserListViewController.swift:15 | while the controller is active, the search shows exactly when `updateSearchResults` took its filtering branch; otherwise the results are empty |
| ListView.NumberOfSections | lydiapp/Views/UserListViewController.swift:139-141 | no contract of its own; `SelectionIsLoadedUser` states what every counted section shows when the search results were last computed from the current users |
| ListView.SelectedUser | lydiapp/Views/UserListViewController.swift:161-165 | no contract of its own beyond requiring a counted section; `SelectionIsLoadedUser` states that, when the search results were last computed from the current users, the selection is a loaded user, and a matching one while searching |
| ListView.SelectionIsLoadedUser | lydiapp/Views/UserListViewController.swift:139-165 | when the search results were last computed from the current users (only `updateSearchResults` recomputes them), every section that can be selected, counted as `numberOfSections` counts them, shows a user from the list on screen: a loaded user, and while searching one that matches the text |
| ListView.SafeSubscript | lydiapp/Views/UserListViewController.swift:197-200 | there is an element exactly when the index is in bounds, and it is the element at that index |
| ListView.UserListViewController.constructor | lydiapp/Views/UserListViewController.swift:14-20 | the controller keeps the view model it is given and starts with no search results |
| ListView.UserListViewController.UpdateSearchResults | lydiapp/Views/UserListViewController.swift:222-235 | `filteredUsers` becomes `SearchResults` of the view model's users for the text |
| DetailView.Fields | lydiapp/Views/UserDetailViewController.swift:10-25 | eight rows, under the eight fixed labels in order |
| DetailView.NumberOfSections | lydiapp/Views/UserDetailViewController.swift:61 | no contract of its own (the constant 1); `TableShowsEveryField` states the table's shape |
| DetailView.NumberOfRows | lydiapp/Views/UserDetailViewController.swift:62-64 | no contract of its own; `TableShowsEveryField` states that there are eight rows |
| DetailView.Cell | lydiapp/Views/UserDetailViewController.swift:65-72 | no contract of its own beyond requiring an existing row; `TableShowsEveryField` states that row `i` shows the `i`-th label and its value |
| DetailView.MissingValuesShowPlaceholder | lydiapp/Views/UserDetailViewController.swift:16-23 | a nil attribute is shown as "-" and a present one as it is |
| DetailView.AgeRowReadsBack | lydiapp/Views/UserDetailViewController.swift:22 | a positive age is shown as digits that read back as the age; any other age is shown as "-" |
| DetailView.DetailShowsReflectedUser | lydiapp/Views/UserDetailViewController.swift:10-25 | a record saved from a fetched user shows that user's title, names, email, phone and gender, its age when the age is positive (and "-" otherwise), and its birth date when the date text parses |
| DetailView.TableShowsEveryField | lydiapp/Views/UserDetailViewController.swift:61-72 | one section of eight rows; row `i` shows the `i`-th label and its value |
| Users.CompleteDescription | lydiapp/Models/User.swift:32-46 | the text is the lines, appended in order, joined with newlines |
| Users.CompleteDescriptionLayout | lydiapp/Models/User.swift:32-46 | when no field holds a newline, the text splits back into exactly its lines: an empty first line, the seven labelled lines, and the photo line when there is a large photo |
| Users.CompleteDescriptionStartsWithNewline | lydiapp/Models/User.swift:34 | the text always starts with a newline |
| Users.Description | lydiapp/Models/User.swift:28-30 | no contract of its own; `DescriptionMentionsEveryField` states what the text contains |
| Users.DescriptionMentionsEveryField | lydiapp/Models/User.swift:28-30 | the one-line description contains the title, both names, the gender, the age in decimal, the email and the phone |
| Errors.RandomUserServiceErrorDescription | lydiapp/Models/Errors/RandomUserServiceError.swift:14-25 | every case has a message |
| Errors.RandomUserServiceErrorDescriptionInjective | lydiapp/Models/Errors/RandomUserServiceError.swift:14-25 | two errors have the same message exactly when they are the same error (wrapped errors are known by their description) |
| Errors.StatusMessageCarriesCode | lydiapp/Models/Errors/RandomUserServiceError.swift:18-19 | the status code reads back from the `badHTTPStatus` message |
| Errors.ColonSpacing | lydiapp/Models/Errors/RandomUserServiceError.swift:19-23 | the decoding and unknown messages put a no-break space (U+00A0) before their colon, the status message an ordinary space, character for character as the app's texts |
| Errors.UserServiceErrorDescription | lydiapp/Models/Errors/UserServiceError.swift:28-39 | every case has a message |
| Errors.UserServiceErrorDescriptionMatchesTwin | lydiapp/Models/Errors/UserServiceError.swift:28-39 | each case has the message of the matching `RandomUserServiceError` case, and different errors have different messages |
| Errors.Id | lydiapp/Models/Errors/UserServiceError.swift:15-26 | no contract of its own; `IdInjective` states that different errors have different ids |
| Errors.IdInjective | lydiapp/Models/Errors/UserServiceError.swift:15-26 | two errors have the same `id` exactly when they are the same error, as `Identifiable` requires |
| Text.DecimalRoundTrip | lydiapp/Views/UserDetailViewController.swift:22 | `String(n)` of a natural number is its decimal digits, which read back as `n` |
| Text.IntToStringInjective | lydiapp/Models/Errors/UserServiceError.swift:20 | different integers have different decimal texts |
| Text.LowerIdempotent | lydiapp/Views/UserListViewController.swift:223 | lowering twice is lowering once |
| Text.ContainsIff | lydiapp/Views/UserListViewController.swift:229-232 | `contains` holds exactly when the text occurs at some position |
| Text.SplitJoin | lydiapp/Models/User.swift:45 | a non-empty list of lines without the separator comes back unchanged from a join followed by a split (an empty list does not: it splits back as one empty line) |

## Left out

- The network and JSON decoding are not modelled. The transport is a function from the URL to a transport error, or to a response with its decoded body or decode error.
- `URL(string:)` is approximated as "non-empty and made only of RFC 3986 characters".
- The doc comment of `badHTTPStatus` speaks of codes outside 200...299, but `fetchUsers` accepts 200 alone. The model follows the code.
- `ISO8601DateFormatter`, `Date.now` and the medium date style of the detail screen are parameters.
- One `now` is used per fetch, whereas the app reads the clock once per record.
- A foreign Swift `Error` is known only by its `localizedDescription`.
- Core Data is modelled as a list of records in context order. `hasChanges` is set by any attribute assignment, even of an equal value, so reconciling a non-empty page always leaves changes to save.
- The `NSPredicate` `id == %@` lookup is modelled as comparing the stored UUID with the parsed identity text. Which record answers first is the context order, and whether a fetch throws is a parameter.
- Service.ReconcileKeepsIdsUnique, Service.ReconcileStoredPageAddsNothing and Service.ReconcileIdempotent hold of that lookup model. They rest on `NSPredicate(format: "id == %@", uuid)` matching the UUID attribute against the String argument by value. If Core Data compared a UUID with a String as never equal, every lookup would miss, each pass would append a record per user, and none of the three would hold.
- An entity object is a handle into the context. Objects of other contexts and deletion do not exist in the model.
- A store that fails to load is modelled as empty. Core Data would leave the container without stores, and later saves would fail; that is what the save result parameter then reports.
- Store.CoreDataManager.CreateUser: the `UUID()` default for `id` is not modelled. The caller passes the id.
- Store.CoreDataManager.Samples: the ten `makeSample` calls are written as a loop over the table of their arguments. The table holds the same values, in the same order. The `dateFormatter.date(from:)!` force-unwraps are a precondition (`SampleDatesParse`), not a crash: every caller must show that the ten date texts parse.
- Store.CoreDataManager.UpdateEntity, Store.CoreDataManager.InsertFromUser, Entities.Updated and Entities.FromUser: the trap of `Int16(age)` on an out-of-range age is a precondition. Every caller must show that the age fits.
- Service.FetchAndSaveUsers: the same trap is a precondition on the fetched page (`FetchedAgesFit`), not a crash.
- Text.Lower models `lowercased()` for ASCII and Latin-1 letters only. Other scripts, and case mappings that change length, are not modelled.
- Text.Contains compares code points one by one. Swift compares `Character`s under canonical equivalence, so a precomposed and a decomposed accent match in the app but not in the model. `Contains` also finds the empty text everywhere, where Foundation answers false; the search never asks about an empty text (the guard at lydiapp/Views/UserListViewController.swift:223).
- `UserViewModel` members absent from the view model's source (`sortOption`, `loadMoreUsers`, `reloadUsers`) are not modelled.
- The UIKit layout, cells, `scrollViewDidScroll`, `AsyncImageView`, `UserTableViewCell` and the picker are not modelled, and neither is the playground.
- `numberOfRowsInSection` of the list (always 1) is not modelled.
- Concurrency (`async`, the main actor) is not modelled. Each operation runs to completion.
