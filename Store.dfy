/**
 * `CoreDataManager` together with the view context it hands out: the records the
 * context holds, the ones last written to the persistent store, the context's
 * `hasChanges` flag, and the `lastLoadingError` the initializer may record.
 *
 * A managed object is known by its position in `entities` (its handle); callers keep
 * handles where the app keeps `UserEntity` references, so a change made through the
 * context is seen through every handle to the same record.
 */
module Store {
  import opened Wrappers
  import opened Errors
  import opened Uuids
  import opened Users
  import opened Entities

  /** What the context holds: its records, the last saved copy of them, and whether they differ. */
  datatype StoreState = StoreState(entities: seq<UserEntity>, persisted: seq<UserEntity>, hasChanges: bool)

  /** A context without pending changes holds exactly what was last saved. */
  predicate Settled(s: StoreState) {
    !s.hasChanges ==> s.persisted == s.entities
  }

  /**
   * `saveContext()`: nothing happens without pending changes; otherwise the records are
   * written, or the failure `saveResult` reports is wrapped as `CoreDataError.saveContext`
   * and the context keeps its changes.
   */
  function Commit(s: StoreState, saveResult: Option<WrappedError>): (r: (StoreState, Outcome<CoreDataError>))
    requires Settled(s)
    ensures Settled(r.0)
    ensures r.0.entities == s.entities
    ensures r.1.Pass? <==> !s.hasChanges || saveResult.None?
    ensures r.1.Pass? ==> !r.0.hasChanges && r.0.persisted == s.entities
    ensures r.1.Fail? ==> r.1.error == SaveContext(saveResult.value) && r.0 == s
  {
    if !s.hasChanges then (s, Pass)
    else if saveResult.Some? then (s, Fail(SaveContext(saveResult.value)))
    else (s.(persisted := s.entities, hasChanges := false), Pass)
  }

  /** Saving right after a successful save does nothing and cannot fail, whatever the store would say. */
  lemma CommitIdempotent(s: StoreState, first: Option<WrappedError>, second: Option<WrappedError>)
    requires Settled(s)
    requires Commit(s, first).1.Pass?
    ensures Commit(Commit(s, first).0, second) == (Commit(s, first).0, Pass)
  {
  }

  /** A save that fails leaves the context as it was, so saving again retries the same changes. */
  lemma CommitFailureRetries(s: StoreState, e: WrappedError, retry: Option<WrappedError>)
    requires Settled(s) && s.hasChanges
    ensures Commit(s, Some(e)) == (s, Fail(SaveContext(e)))
    ensures Commit(Commit(s, Some(e)).0, retry) == Commit(s, retry)
  {
  }

  class CoreDataManager {
    /** The records of the view context, by handle. */
    var entities: seq<UserEntity>
    /** The records as last written to the persistent store. */
    var persisted: seq<UserEntity>
    /** The view context's `hasChanges`. */
    var hasChanges: bool
    var lastLoadingError: Option<CoreDataError>

    function State(): StoreState
      reads this
    {
      StoreState(entities, persisted, hasChanges)
    }

    predicate Valid()
      reads this
    {
      Settled(State())
    }

    /**
     * `init()`: `loadResult` is what `loadPersistentStores` reports. The error is recorded
     * only when the load reports one; a store that failed to load holds no records.
     */
    constructor (loadResult: Result<seq<UserEntity>, WrappedError>)
      ensures Valid() && !hasChanges
      ensures loadResult.Success? ==> entities == loadResult.value && lastLoadingError.None?
      ensures loadResult.Failure? ==>
        entities == [] && lastLoadingError == Some(FailedToLoadPersistentStores(loadResult.error))
    {
      entities := if loadResult.Success? then loadResult.value else [];
      persisted := if loadResult.Success? then loadResult.value else [];
      hasChanges := false;
      lastLoadingError := None;
      if loadResult.Failure? {
        lastLoadingError := Some(FailedToLoadPersistentStores(loadResult.error));
      }
    }

    /** `saveContext()`, proved against `Commit`. */
    method SaveContext(saveResult: Option<WrappedError>) returns (r: Outcome<CoreDataError>)
      requires Valid()
      modifies this
      ensures Valid()
      ensures (State(), r) == Commit(old(State()), saveResult)
      ensures lastLoadingError == old(lastLoadingError)
    {
      if hasChanges {
        if saveResult.Some? {
          r := Fail(CoreDataError.SaveContext(saveResult.value));
        } else {
          persisted := entities;
          hasChanges := false;
          r := Pass;
        }
      } else {
        r := Pass;
      }
    }

    /**
     * `createUser(...)`: a new record with every attribute set from the arguments is
     * inserted, then the context is saved. A failed save is rethrown and no record is
     * returned, but the inserted record stays in the context.
     */
    method CreateUser(id: Uuid, firstName: string, lastName: string, email: string, phone: string,
                      title: string, gender: string, age: Int16, birthDate: Date, registredDate: Date,
                      saveResult: Option<WrappedError>)
      returns (r: Result<nat, CoreDataError>)
      requires Valid()
      modifies this
      ensures Valid()
      ensures var record := FullRecord(id, firstName, lastName, email, phone, title, gender, age, birthDate, registredDate);
        var inserted := StoreState(old(entities) + [record], old(persisted), true);
        (State(), if r.Success? then Pass else Fail(r.error)) == Commit(inserted, saveResult)
      ensures r.Success? ==> r.value == |old(entities)|
      ensures lastLoadingError == old(lastLoadingError)
    {
      var user := Blank;
      user := user.(id := Some(id));
      user := user.(firstName := Some(firstName));
      user := user.(lastName := Some(lastName));
      user := user.(email := Some(email));
      user := user.(phone := Some(phone));
      user := user.(title := Some(title));
      user := user.(gender := Some(gender));
      user := user.(age := age);
      user := user.(birthDate := Some(birthDate));
      user := user.(registredDate := Some(registredDate));
      entities := entities + [user];
      hasChanges := true;
      var handle := |entities| - 1;
      var saved := SaveContext(saveResult);
      if saved.Fail? {
        return Failure(saved.error);
      }
      return Success(handle);
    }

    /**
     * `UserEntity.makeSample(...)`: inserts a record with every attribute set from the
     * arguments; nothing is saved.
     */
    method MakeSample(id: Uuid, firstName: string, lastName: string, email: string, phone: string,
                      title: string, gender: string, age: Int16, birthDate: Date, registredDate: Date)
      returns (h: nat)
      requires Valid()
      modifies this
      ensures Valid()
      ensures entities == old(entities) + [FullRecord(id, firstName, lastName, email, phone, title, gender, age, birthDate, registredDate)]
      ensures h == |old(entities)| && hasChanges && persisted == old(persisted)
      ensures lastLoadingError == old(lastLoadingError)
    {
      var user := Blank;
      user := user.(id := Some(id));
      user := user.(firstName := Some(firstName));
      user := user.(lastName := Some(lastName));
      user := user.(email := Some(email));
      user := user.(phone := Some(phone));
      user := user.(title := Some(title));
      user := user.(gender := Some(gender));
      user := user.(age := age);
      user := user.(birthDate := Some(birthDate));
      user := user.(registredDate := Some(registredDate));
      entities := entities + [user];
      hasChanges := true;
      h := |entities| - 1;
    }

    /** One `makeSample` call of `samples(in:)`, with the arguments of its `i`-th entry. */
    method MakeSampleEntry(i: nat, parseDate: string -> Option<Date>) returns (h: nat)
      requires Valid() && i < 10 && SampleDatesParse(parseDate)
      modifies this
      ensures Valid()
      ensures entities == old(entities) + [SampleEntities(parseDate)[i]]
      ensures h == |old(entities)| && hasChanges && persisted == old(persisted)
      ensures lastLoadingError == old(lastLoadingError)
    {
      SampleCount();
      SampleIdsParse();
      var row := SampleRows[i];
      h := MakeSample(ParseUuid(SampleIds[i]).value, row.firstName, row.lastName, row.email, row.phone,
                      row.title, row.gender, row.age,
                      parseDate(row.birthDate).value, parseDate(row.registredDate).value);
    }

    /**
     * `UserEntity.samples(in:)`: the ten sample records, inserted in order, one
     * `makeSample` call per entry of the table. The dates are force-unwrapped, hence the
     * requirement that they all parse.
     */
    method Samples(parseDate: string -> Option<Date>) returns (hs: seq<nat>)
      requires Valid() && SampleDatesParse(parseDate)
      modifies this
      ensures Valid()
      ensures entities == old(entities) + SampleEntities(parseDate)
      ensures |hs| == 10 && forall k :: 0 <= k < 10 ==> hs[k] == |old(entities)| + k
      ensures hasChanges && persisted == old(persisted)
      ensures lastLoadingError == old(lastLoadingError)
    {
      hs := [];
      for i := 0 to 10
        invariant Valid() && persisted == old(persisted)
        invariant entities == old(entities) + SampleEntities(parseDate)[..i]
        invariant |hs| == i && forall k :: 0 <= k < i ==> hs[k] == |old(entities)| + k
        invariant i > 0 ==> hasChanges
        invariant lastLoadingError == old(lastLoadingError)
      {
        var h := MakeSampleEntry(i, parseDate);
        assert SampleEntities(parseDate)[..i + 1] == SampleEntities(parseDate)[..i] + [SampleEntities(parseDate)[i]];
        hs := hs + [h];
      }
      assert SampleEntities(parseDate)[..10] == SampleEntities(parseDate);
    }

    /**
     * `update(with:)` on the record at handle `h`: the attributes are assigned one at a
     * time, the birth date only when the user's date text parses.
     */
    method UpdateEntity(h: nat, u: User, parseDate: string -> Option<Date>)
      requires Valid() && h < |entities| && InInt16(u.dob.age)
      modifies this
      ensures Valid()
      ensures entities == old(entities)[h := Updated(old(entities)[h], u, parseDate)]
      ensures hasChanges && persisted == old(persisted)
      ensures lastLoadingError == old(lastLoadingError)
    {
      var e := entities[h];
      e := e.(firstName := Some(u.name.first));
      e := e.(lastName := Some(u.name.last));
      e := e.(email := Some(u.email));
      e := e.(phone := Some(u.phone));
      e := e.(title := Some(u.name.title));
      e := e.(gender := Some(u.gender));
      e := e.(age := u.dob.age as Int16);
      var parsedDate := parseDate(u.dob.date);
      if parsedDate.Some? {
        e := e.(birthDate := parsedDate);
      }
      entities := entities[h := e];
      hasChanges := true;
    }

    /**
     * `UserEntity(from:context:)`: a new record is inserted and its attributes assigned one
     * at a time; a date that does not parse is replaced by the current time.
     */
    method InsertFromUser(u: User, p: Platform) returns (h: nat)
      requires Valid() && InInt16(u.dob.age)
      modifies this
      ensures Valid()
      ensures entities == old(entities) + [FromUser(u, p)]
      ensures h == |old(entities)| && hasChanges && persisted == old(persisted)
      ensures lastLoadingError == old(lastLoadingError)
    {
      var e := Blank;
      e := e.(id := ParseUuid(u.login.uuid));
      e := e.(firstName := Some(u.name.first));
      e := e.(lastName := Some(u.name.last));
      e := e.(email := Some(u.email));
      e := e.(phone := Some(u.phone));
      e := e.(title := Some(u.name.title));
      e := e.(gender := Some(u.gender));
      e := e.(age := u.dob.age as Int16);
      var parsedDate := p.parseDate(u.dob.date);
      if parsedDate.Some? {
        e := e.(birthDate := parsedDate);
      } else {
        e := e.(birthDate := Some(p.now));
      }
      entities := entities + [e];
      hasChanges := true;
      h := |entities| - 1;
    }
  }
}
