/**
 * The persisted `UserEntity` record and the two ways a fetched `User` is mapped onto
 * it: `update(with:)` for a record that already exists and `init(from:context:)` for
 * a new one; the identity lookup `fetch(byUUID:in:)`; and the sample records.
 */
module Entities {
  import opened Wrappers
  import opened Uuids
  import opened Users

  /** Core Data's `Integer 16` attribute type. */
  newtype Int16 = x: int | -0x8000 <= x < 0x8000

  /** `Int16(x)` traps outside this range. */
  predicate InInt16(x: int) {
    -0x8000 <= x < 0x8000
  }

  /** A point in time, as `Date` holds it. */
  datatype Date = Date(sinceEpoch: int)

  /**
   * One `UserEntity` object. Every attribute is optional in the Core Data model
   * except `age`, a scalar that defaults to 0.
   */
  datatype UserEntity = UserEntity(
    id: Option<Uuid>,
    firstName: Option<string>,
    lastName: Option<string>,
    email: Option<string>,
    phone: Option<string>,
    title: Option<string>,
    gender: Option<string>,
    age: Int16,
    birthDate: Option<Date>,
    registredDate: Option<Date>)

  /** A record just made by `UserEntity(context:)`: nothing set yet. */
  const Blank := UserEntity(None, None, None, None, None, None, None, 0, None, None)

  /** No attribute of the record is nil. */
  predicate AllSet(e: UserEntity) {
    && e.id.Some? && e.firstName.Some? && e.lastName.Some? && e.email.Some? && e.phone.Some?
    && e.title.Some? && e.gender.Some? && e.birthDate.Some? && e.registredDate.Some?
  }

  /**
   * The record `makeSample` and `createUser` build: every one of the ten attributes set
   * to the argument of the same name.
   */
  function FullRecord(id: Uuid, firstName: string, lastName: string, email: string, phone: string,
                      title: string, gender: string, age: Int16, birthDate: Date, registredDate: Date): (r: UserEntity)
    ensures AllSet(r)
  {
    UserEntity(Some(id), Some(firstName), Some(lastName), Some(email), Some(phone),
               Some(title), Some(gender), age, Some(birthDate), Some(registredDate))
  }

  /**
   * The Foundation and Core Data behaviour the model takes as given:
   * `ISO8601DateFormatter().date(from:)`, the clock read by `Date.now`, and which
   * identity lookups make `context.fetch` throw.
   */
  datatype Platform = Platform(
    parseDate: string -> Option<Date>,
    now: Date,
    lookupFails: string -> bool)

  /**
   * The record holds what the fetched user says: the six text attributes, the age, and
   * the birth date whenever the user's date text parses.
   */
  predicate Reflects(e: UserEntity, u: User, parseDate: string -> Option<Date>) {
    && e.firstName == Some(u.name.first)
    && e.lastName == Some(u.name.last)
    && e.email == Some(u.email)
    && e.phone == Some(u.phone)
    && e.title == Some(u.name.title)
    && e.gender == Some(u.gender)
    && e.age as int == u.dob.age
    && (parseDate(u.dob.date).Some? ==> e.birthDate == parseDate(u.dob.date))
  }

  /**
   * `update(with:)`: the record comes to reflect the user; its id and registration
   * date are untouched, and an unparsable date keeps the old birth date.
   */
  function Updated(e: UserEntity, u: User, parseDate: string -> Option<Date>): (r: UserEntity)
    requires InInt16(u.dob.age)
    ensures Reflects(r, u, parseDate)
    ensures r.id == e.id && r.registredDate == e.registredDate
    ensures parseDate(u.dob.date).None? ==> r.birthDate == e.birthDate
  {
    e.(firstName := Some(u.name.first),
       lastName := Some(u.name.last),
       email := Some(u.email),
       phone := Some(u.phone),
       title := Some(u.name.title),
       gender := Some(u.gender),
       age := u.dob.age as Int16,
       birthDate := if parseDate(u.dob.date).Some? then parseDate(u.dob.date) else e.birthDate)
  }

  /**
   * `init(from:context:)`: a new record reflecting the user, whose id is the parsed
   * identity (absent when the text is not a UUID), whose birth date falls back to now,
   * and whose registration date stays unset.
   */
  function FromUser(u: User, p: Platform): (r: UserEntity)
    requires InInt16(u.dob.age)
    ensures Reflects(r, u, p.parseDate)
    ensures r.id == ParseUuid(u.login.uuid)
    ensures r.birthDate.Some?
    ensures p.parseDate(u.dob.date).None? ==> r.birthDate == Some(p.now)
    ensures r.registredDate.None?
  {
    Blank.(id := ParseUuid(u.login.uuid),
           firstName := Some(u.name.first),
           lastName := Some(u.name.last),
           email := Some(u.email),
           phone := Some(u.phone),
           title := Some(u.name.title),
           gender := Some(u.gender),
           age := u.dob.age as Int16,
           birthDate := if p.parseDate(u.dob.date).Some? then p.parseDate(u.dob.date) else Some(p.now))
  }

  /** Updating a record that already reflects the user changes nothing. */
  lemma UpdateFixpoint(e: UserEntity, u: User, parseDate: string -> Option<Date>)
    requires InInt16(u.dob.age)
    requires Reflects(e, u, parseDate)
    ensures Updated(e, u, parseDate) == e
  {
  }

  /**
   * `update(with:)` reads only the id and the registration date of the record it updates,
   * and its birth date only when the user's date text does not parse.
   */
  lemma UpdateReadsOnlyKept(x: UserEntity, y: UserEntity, u: User, parseDate: string -> Option<Date>)
    requires InInt16(u.dob.age)
    requires x.id == y.id && x.registredDate == y.registredDate
    ensures Updated(y, u, parseDate) ==
      if parseDate(u.dob.date).Some? then Updated(x, u, parseDate)
      else Updated(x, u, parseDate).(birthDate := y.birthDate)
  {
  }

  /** Updating twice with the same user is the same as updating once. */
  lemma UpdateIdempotent(e: UserEntity, u: User, parseDate: string -> Option<Date>)
    requires InInt16(u.dob.age)
    ensures Updated(Updated(e, u, parseDate), u, parseDate) == Updated(e, u, parseDate)
  {
    UpdateFixpoint(Updated(e, u, parseDate), u, parseDate);
  }

  /**
   * The two mappings differ only in their starting point: creating is updating a blank
   * record that already carries the parsed id and the fallback birth date "now".
   */
  lemma CreateIsUpdateOfBlank(u: User, p: Platform)
    requires InInt16(u.dob.age)
    ensures FromUser(u, p) == Updated(Blank.(id := ParseUuid(u.login.uuid), birthDate := Some(p.now)), u, p.parseDate)
  {
  }

  /** The record answers the predicate `id == %@` for this identity text. */
  predicate IdMatches(e: UserEntity, uuid: string) {
    e.id.Some? && e.id == ParseUuid(uuid)
  }

  /** Position of the first record answering the predicate, if any. */
  function FirstMatch(es: seq<UserEntity>, uuid: string): (r: Option<nat>)
    ensures r.Some? ==> r.value < |es| && IdMatches(es[r.value], uuid)
    ensures r.Some? ==> forall j :: 0 <= j < r.value ==> !IdMatches(es[j], uuid)
    ensures r.None? ==> forall j :: 0 <= j < |es| ==> !IdMatches(es[j], uuid)
    decreases |es|
  {
    if es == [] then None
    else
      var before := FirstMatch(es[..|es| - 1], uuid);
      if before.Some? then before
      else if IdMatches(es[|es| - 1], uuid) then Some(|es| - 1)
      else None
  }

  /**
   * `fetch(byUUID:in:)`, with `fetchLimit = 1`: the first record whose id is the
   * parsed identity; a lookup that throws is answered with nil, never rethrown.
   */
  function FetchByUuid(es: seq<UserEntity>, uuid: string, p: Platform): (r: Option<nat>)
    ensures p.lookupFails(uuid) ==> r.None?
    ensures !IsUuidString(uuid) ==> r.None?
    ensures r.Some? ==> r.value < |es| && IdMatches(es[r.value], uuid)
    ensures !p.lookupFails(uuid) && r.None? ==> forall j :: 0 <= j < |es| ==> !IdMatches(es[j], uuid)
    ensures !p.lookupFails(uuid) && (exists j :: 0 <= j < |es| && IdMatches(es[j], uuid)) ==> r.Some?
  {
    if p.lookupFails(uuid) then None else FirstMatch(es, uuid)
  }

  /** The id texts of the ten samples, in order. */
  const SampleIds: seq<string> := [
    "00000000-0000-0000-0000-000000000001",
    "00000000-0000-0000-0000-000000000002",
    "00000000-0000-0000-0000-000000000003",
    "00000000-0000-0000-0000-000000000004",
    "00000000-0000-0000-0000-000000000005",
    "00000000-0000-0000-0000-000000000006",
    "00000000-0000-0000-0000-000000000007",
    "00000000-0000-0000-0000-000000000008",
    "00000000-0000-0000-0000-000000000009",
    "00000000-0000-0000-0000-000000000010"
  ]

  /** The other arguments of one `makeSample` call in `samples(in:)`, dates as their ISO-8601 text. */
  datatype SampleRow = SampleRow(
    firstName: string, lastName: string, email: string, phone: string,
    title: string, gender: string, age: Int16, birthDate: string, registredDate: string)

  const SampleRows: seq<SampleRow> := [
    SampleRow("Alice", "Durand", "alice.durand@example.com",
              "+33123456789", "Mme", "F", 29, "1996-05-23T00:00:00Z", "2021-09-15T12:00:00Z"),
    SampleRow("Jean", "Martin", "jean.martin@example.com",
              "+33612345678", "M.", "M", 34, "1991-02-10T00:00:00Z", "2020-07-01T09:30:00Z"),
    SampleRow("Fatou", "Sow", "fatou.sow@example.com",
              "+221782345678", "Mme", "F", 41, "1984-11-12T00:00:00Z", "2018-03-22T15:45:00Z"),
    SampleRow("Hiroshi", "Yamamoto", "hiroshi.yamamoto@example.jp",
              "+819012345678", "M.", "M", 53, "1972-04-16T00:00:00Z", "2017-11-05T08:20:00Z"),
    SampleRow("Sophie", "Schmidt", "sophie.schmidt@example.de",
              "+4915123456789", "Mme", "F", 26, "1999-08-30T00:00:00Z", "2022-01-10T16:00:00Z"),
    SampleRow("Luca", "Rossi", "luca.rossi@example.it",
              "+393331234567", "M.", "M", 22, "2003-07-19T00:00:00Z", "2023-04-11T18:15:00Z"),
    SampleRow("Mia", "Nilsen", "mia.nilsen@example.no",
              "+4798765432", "Ms.", "F", 31, "1994-03-11T00:00:00Z", "2019-06-28T13:05:00Z"),
    SampleRow("Carlos", "García", "carlos.garcia@example.es",
              "+34654321098", "Sr.", "M", 38, "1987-12-02T00:00:00Z", "2021-10-20T11:40:00Z"),
    SampleRow("Layla", "Ali", "layla.ali@example.ae",
              "+971501234567", "Ms.", "F", 44, "1981-09-15T00:00:00Z", "2020-02-17T14:25:00Z"),
    SampleRow("Noah", "Smith", "noah.smith@example.com",
              "+14085551234", "Mr.", "M", 27, "1998-10-05T00:00:00Z", "2024-01-12T10:10:00Z")
  ]

  /** Every sample date text parses, as the force-unwraps in `samples(in:)` demand. */
  predicate SampleDatesParse(parseDate: string -> Option<Date>) {
    forall i :: 0 <= i < |SampleRows| ==>
      parseDate(SampleRows[i].birthDate).Some? && parseDate(SampleRows[i].registredDate).Some?
  }

  /** Every sample id text is a well-formed UUID, so the force-unwraps of `UUID(uuidString:)` never trap. */
  lemma SampleIdsParse()
    ensures |SampleIds| == |SampleRows|
    ensures forall i :: 0 <= i < |SampleIds| ==> IsUuidString(SampleIds[i])
  {
    forall i | 0 <= i < |SampleIds|
      ensures IsUuidString(SampleIds[i])
    {
      var s := SampleIds[i];
      assert s == "00000000-0000-0000-0000-0000000000" + s[34..];
      assert s[34..] == [s[34], s[35]] && '0' <= s[34] <= '1' && '0' <= s[35] <= '9';
    }
  }

  /** The record `makeSample` builds for the `i`-th entry of `samples(in:)`: its parsed id and dates. */
  function SampleEntity(i: nat, parseDate: string -> Option<Date>): (r: UserEntity)
    requires i < |SampleRows| && SampleDatesParse(parseDate)
    ensures AllSet(r)
    ensures r.id == ParseUuid(SampleIds[i])
    ensures r.age == SampleRows[i].age
  {
    SampleIdsParse();
    var row := SampleRows[i];
    FullRecord(ParseUuid(SampleIds[i]).value, row.firstName, row.lastName, row.email, row.phone,
               row.title, row.gender, row.age,
               parseDate(row.birthDate).value, parseDate(row.registredDate).value)
  }

  /** The ten records `samples(in:)` returns, in order. */
  function SampleEntities(parseDate: string -> Option<Date>): (r: seq<UserEntity>)
    requires SampleDatesParse(parseDate)
    ensures |r| == 10
    ensures forall i :: 0 <= i < 10 ==> r[i] == SampleEntity(i, parseDate)
  {
    seq(10, i requires 0 <= i < 10 => SampleEntity(i, parseDate))
  }

  lemma SampleIdLastDigit(i: nat)
    requires i < |SampleIds|
    ensures |SampleIds[i]| == 36 && IsHexDigit(SampleIds[i][35])
    ensures HexDigitValue(SampleIds[i][35]) == (if i < 9 then i + 1 else 0)
  {
    var s := SampleIds[i];
    if i == 0 { assert s[35] == '1'; }
    else if i == 1 { assert s[35] == '2'; }
    else if i == 2 { assert s[35] == '3'; }
    else if i == 3 { assert s[35] == '4'; }
    else if i == 4 { assert s[35] == '5'; }
    else if i == 5 { assert s[35] == '6'; }
    else if i == 6 { assert s[35] == '7'; }
    else if i == 7 { assert s[35] == '8'; }
    else if i == 8 { assert s[35] == '9'; }
    else { assert s[35] == '0'; }
  }

  lemma SampleCount()
    ensures |SampleRows| == 10 && |SampleIds| == 10
  {
  }

  /** The ten sample id texts parse to ten different UUIDs: they differ in their last hex digit. */
  lemma SampleUuidLastDigit(i: nat)
    requires i < |SampleIds|
    ensures IsUuidString(SampleIds[i])
    ensures ParseUuid(SampleIds[i]).value.value % 16 == (if i < 9 then i + 1 else 0)
  {
    SampleIdsParse();
    ParsedLastDigit(SampleIds[i]);
    SampleIdLastDigit(i);
  }

  lemma SampleUuidsDiffer(i: nat, j: nat)
    requires i < j < |SampleIds|
    ensures IsUuidString(SampleIds[i]) && IsUuidString(SampleIds[j]) && ParseUuid(SampleIds[i]) != ParseUuid(SampleIds[j])
  {
    SampleCount();
    SampleUuidLastDigit(i);
    SampleUuidLastDigit(j);
  }

  lemma SampleUuidsDistinct()
    ensures |SampleIds| == 10
    ensures forall i, j :: 0 <= i < j < 10 ==> ParseUuid(SampleIds[i]) != ParseUuid(SampleIds[j])
  {
    SampleCount();
    forall i, j | 0 <= i < j < 10 {
      SampleUuidsDiffer(i, j);
    }
  }

  /** The ten sample records carry ten different ids, all present, and positive ages. */
  lemma SampleEntitiesDistinct(parseDate: string -> Option<Date>)
    requires SampleDatesParse(parseDate)
    ensures var r := SampleEntities(parseDate);
      && |r| == 10
      && (forall i :: 0 <= i < |r| ==> AllSet(r[i]) && r[i].age > 0)
      && (forall i, j :: 0 <= i < j < |r| ==> r[i].id != r[j].id)
  {
    SampleIdsParse();
    SampleUuidsDistinct();
    assert forall i :: 0 <= i < |SampleRows| ==> SampleRows[i].age > 0;
  }
}
