/**
 * `UserDetailViewController`: the eight label/value rows shown for one record, with
 * "-" for every missing value, and the table's section and row counts.
 */
module DetailView {
  import opened Wrappers
  import opened Text
  import opened Users
  import opened Entities

  /** `UserDetailField`: a row's label (`key`, since `label` is a Dafny keyword) and its value. */
  datatype DetailField = DetailField(key: string, value: string)

  const Placeholder := "-"

  const Labels: seq<string> :=
    ["Civilité", "Prénom", "Nom", "Email", "Téléphone", "Genre", "Âge", "Date de naissance"]

  /** `value ?? "-"`. */
  function OrPlaceholder(value: Option<string>): string {
    if value.Some? then value.value else Placeholder
  }

  /** The age cell: its decimal text when positive, "-" otherwise. */
  function AgeText(age: Int16): string {
    if age > 0 then NatToString(age as int) else Placeholder
  }

  /**
   * `fields`: the record's attributes in a fixed order under fixed labels. `formatDate` is
   * the medium-style `DateFormatter`.
   */
  function Fields(e: UserEntity, formatDate: Date -> string): (r: seq<DetailField>)
    ensures |r| == |Labels| == 8
    ensures forall i :: 0 <= i < |r| ==> r[i].key == Labels[i]
  {
    [ DetailField("Civilité", OrPlaceholder(e.title)),
      DetailField("Prénom", OrPlaceholder(e.firstName)),
      DetailField("Nom", OrPlaceholder(e.lastName)),
      DetailField("Email", OrPlaceholder(e.email)),
      DetailField("Téléphone", OrPlaceholder(e.phone)),
      DetailField("Genre", OrPlaceholder(e.gender)),
      DetailField("Âge", AgeText(e.age)),
      DetailField("Date de naissance", if e.birthDate.Some? then formatDate(e.birthDate.value) else Placeholder) ]
  }

  /** A missing attribute is shown as "-", a present one as it is. */
  lemma MissingValuesShowPlaceholder(e: UserEntity, formatDate: Date -> string)
    ensures var f := Fields(e, formatDate);
      && f[0].value == (if e.title.Some? then e.title.value else Placeholder)
      && f[1].value == (if e.firstName.Some? then e.firstName.value else Placeholder)
      && f[2].value == (if e.lastName.Some? then e.lastName.value else Placeholder)
      && f[3].value == (if e.email.Some? then e.email.value else Placeholder)
      && f[4].value == (if e.phone.Some? then e.phone.value else Placeholder)
      && f[5].value == (if e.gender.Some? then e.gender.value else Placeholder)
      && (e.birthDate.None? ==> f[7].value == Placeholder)
      && (e.birthDate.Some? ==> f[7].value == formatDate(e.birthDate.value))
  {
  }

  /**
   * The age row reads back: for a positive age it holds decimal digits whose value is the
   * age, otherwise the placeholder.
   */
  lemma AgeRowReadsBack(e: UserEntity, formatDate: Date -> string)
    ensures var v := Fields(e, formatDate)[6].value;
      && (e.age > 0 ==> IsDigits(v) && DecimalValue(v) == e.age as int)
      && (e.age <= 0 ==> v == Placeholder)
  {
    if e.age > 0 {
      DecimalRoundTrip(e.age as int);
    }
  }

  /**
   * A record saved from a fetched user shows that user on the detail screen: title,
   * names, email, phone and gender as sent, a positive age that reads back, and "-" for
   * any other age.
   */
  lemma DetailShowsReflectedUser(e: UserEntity, u: User, parseDate: string -> Option<Date>, formatDate: Date -> string)
    requires Reflects(e, u, parseDate)
    ensures var f := Fields(e, formatDate);
      && f[0].value == u.name.title && f[1].value == u.name.first && f[2].value == u.name.last
      && f[3].value == u.email && f[4].value == u.phone && f[5].value == u.gender
      && (u.dob.age > 0 ==> DecimalValue(f[6].value) == u.dob.age)
      && (u.dob.age <= 0 ==> f[6].value == "-")
      && (parseDate(u.dob.date).Some? ==> f[7].value == formatDate(parseDate(u.dob.date).value))
  {
    AgeRowReadsBack(e, formatDate);
  }

  /** `numberOfSections(in:)`. */
  function NumberOfSections(): nat {
    1
  }

  /** `numberOfRowsInSection`: one row per field. */
  function NumberOfRows(fields: seq<DetailField>): nat {
    |fields|
  }

  /** `cellForRowAt`: the label and the value of the row's field. */
  function Cell(fields: seq<DetailField>, row: nat): (string, string)
    requires row < |fields|
  {
    (fields[row].key, fields[row].value)
  }

  /** The table has one section of eight rows, row `i` showing the `i`-th label and its value. */
  lemma TableShowsEveryField(e: UserEntity, formatDate: Date -> string)
    ensures NumberOfSections() == 1
    ensures NumberOfRows(Fields(e, formatDate)) == 8
    ensures forall row :: 0 <= row < 8 ==>
      Cell(Fields(e, formatDate), row) == (Labels[row], Fields(e, formatDate)[row].value)
  {
  }
}
