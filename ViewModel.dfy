/**
 * `UserViewModel`: the list of users the screens show, replaced by each successful load.
 */
module ViewModel {
  import opened Wrappers
  import opened Errors
  import opened Entities
  import opened Store
  import opened Service

  class UserViewModel {
    /** The handles of the users shown, in the order the last load returned them. */
    var users: seq<nat>
    /** The context `CoreDataManager.shared` hands out, where the handles point. */
    const store: CoreDataManager

    /** Every shown handle names a record of the context. */
    predicate Valid()
      reads this, store
    {
      store.Valid() && forall i :: 0 <= i < |users| ==> users[i] < |store.entities|
    }

    /** `users` starts empty. */
    constructor (store: CoreDataManager)
      requires store.Valid()
      ensures Valid()
      ensures users == [] && this.store == store
    {
      users := [];
      this.store := store;
    }

    /**
     * `loadUsers(results:page:)`: on success `users` becomes exactly the handles the
     * service returned; on failure the error is rethrown and `users` stays as it was.
     * The store changes as `FetchAndSave` says in both cases.
     */
    method LoadUsers(transport: string -> TransportOutcome, p: Platform, saveResult: Option<WrappedError>,
                     results: int := 10, page: int := 1)
      returns (r: Outcome<ServiceFailure>)
      requires Valid() && FetchedAgesFit(results, page, transport)
      modifies this, store
      ensures Valid() && store.lastLoadingError == old(store.lastLoadingError)
      ensures var expected := FetchAndSave(old(store.State()), transport, p, saveResult, results, page);
        && store.State() == expected.0
        && (expected.1.Success? ==> r.Pass? && users == expected.1.value)
        && (expected.1.Failure? ==> r == Fail(expected.1.error) && users == old(users))
    {
      var fetched := FetchAndSaveUsers(store, transport, p, saveResult, results, page);
      if fetched.Failure? {
        return Fail(fetched.error);
      }
      users := fetched.value;
      return Pass;
    }
  }
}
