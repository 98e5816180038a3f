/**
 * The wire model of one randomuser.me result (`User` and its nested records) and
 * its two text renderings, `description` and `completeDescription`.
 */
module Users {
  import opened Wrappers
  import opened Text

  datatype Name = Name(title: string, first: string, last: string)

  datatype Login = Login(uuid: string)

  /** Date of birth: the ISO-8601 text as sent, and the age in years. */
  datatype Dob = Dob(date: string, age: int)

  /** Photo URLs; each may be missing from the payload. */
  datatype Picture = Picture(large: Option<string>, medium: Option<string>, thumbnail: Option<string>)

  /** One decoded user. Only `picture` (and the URLs inside it) is optional. */
  datatype User = User(
    name: Name,
    email: string,
    phone: string,
    login: Login,
    dob: Dob,
    gender: string,
    picture: Option<Picture>)

  /** The response envelope: `{ "results": [...] }`. */
  datatype RandomUserResponse = RandomUserResponse(results: seq<User>)

  /** The pieces `description` interpolates, in order. */
  function DescriptionParts(u: User): seq<string> {
    [u.name.title, " ", u.name.first, " ", u.name.last, ", ", u.gender, ", ",
     IntToString(u.dob.age), " ans, email: ", u.email, ", tél: ", u.phone]
  }

  /** `description`: one line, "title first last, gender, age ans, email: e, tél: p". */
  function Description(u: User): string {
    Concat(DescriptionParts(u))
  }

  /** The photo URL `completeDescription` shows, when there is one. */
  function Photo(u: User): Option<string> {
    if u.picture.Some? then u.picture.value.large else None
  }

  /** The lines `completeDescription` joins, in order: an empty first line, seven labelled lines, and the photo line when there is a photo. */
  function CompleteDescriptionLines(u: User): seq<string> {
    [ "",
      "Nom complet : " + u.name.title + " " + u.name.first + " " + u.name.last,
      "Sexe : " + u.gender,
      "Âge : " + IntToString(u.dob.age) + " ans",
      "Date de naissance : " + u.dob.date,
      "Email : " + u.email,
      "Téléphone : " + u.phone,
      "Identifiant : " + u.login.uuid ]
    + (if Photo(u).Some? then ["Photo : " + Photo(u).value] else [])
  }

  /** `completeDescription`: appends the lines one at a time, then joins them with newlines. */
  method CompleteDescription(u: User) returns (s: string)
    ensures s == Join(CompleteDescriptionLines(u), '\n')
  {
    var lines: seq<string> := [];
    lines := lines + [""];
    lines := lines + ["Nom complet : " + u.name.title + " " + u.name.first + " " + u.name.last];
    lines := lines + ["Sexe : " + u.gender];
    lines := lines + ["Âge : " + IntToString(u.dob.age) + " ans"];
    lines := lines + ["Date de naissance : " + u.dob.date];
    lines := lines + ["Email : " + u.email];
    lines := lines + ["Téléphone : " + u.phone];
    lines := lines + ["Identifiant : " + u.login.uuid];
    if u.picture.Some? && u.picture.value.large.Some? {
      var photo := u.picture.value.large.value;
      lines := lines + ["Photo : " + photo];
    }
    assert lines == CompleteDescriptionLines(u);
    s := Join(lines, '\n');
  }

  /** The description names every field of the user, and its age in decimal. */
  lemma DescriptionMentionsEveryField(u: User)
    ensures Contains(Description(u), u.name.title)
    ensures Contains(Description(u), u.name.first)
    ensures Contains(Description(u), u.name.last)
    ensures Contains(Description(u), u.gender)
    ensures Contains(Description(u), IntToString(u.dob.age))
    ensures Contains(Description(u), u.email)
    ensures Contains(Description(u), u.phone)
  {
    var parts := DescriptionParts(u);
    ContainsPart(parts, 0);
    ContainsPart(parts, 2);
    ContainsPart(parts, 4);
    ContainsPart(parts, 6);
    ContainsPart(parts, 8);
    ContainsPart(parts, 10);
    ContainsPart(parts, 12);
  }

  /** No newline in any field the complete description prints. */
  predicate SingleLineFields(u: User) {
    && '\n' !in u.name.title && '\n' !in u.name.first && '\n' !in u.name.last
    && '\n' !in u.gender && '\n' !in u.dob.date && '\n' !in u.email
    && '\n' !in u.phone && '\n' !in u.login.uuid
    && (Photo(u).Some? ==> '\n' !in Photo(u).value)
  }

  /**
   * The complete description splits back into exactly its lines: 9 when the user has a
   * large photo, 8 otherwise, the first one empty, the fixed labels in order.
   */
  lemma {:induction false} CompleteDescriptionLayout(u: User)
    requires SingleLineFields(u)
    ensures var lines := Split(Join(CompleteDescriptionLines(u), '\n'), '\n');
      && lines == CompleteDescriptionLines(u)
      && |lines| == (if Photo(u).Some? then 9 else 8)
      && lines[0] == ""
      && "Nom complet : " <= lines[1] && "Sexe : " <= lines[2] && "Âge : " <= lines[3]
      && "Date de naissance : " <= lines[4] && "Email : " <= lines[5]
      && "Téléphone : " <= lines[6] && "Identifiant : " <= lines[7]
      && (Photo(u).Some? ==> lines[8] == "Photo : " + Photo(u).value)
  {
    var lines := CompleteDescriptionLines(u);
    forall i | 0 <= i < |lines|
      ensures '\n' !in lines[i]
    {
      NoNewlineInLine(u, i);
    }
    SplitJoin(lines, '\n');
  }

  lemma NoNewlineInLine(u: User, i: nat)
    requires SingleLineFields(u)
    requires i < |CompleteDescriptionLines(u)|
    ensures '\n' !in CompleteDescriptionLines(u)[i]
  {
    var lines := CompleteDescriptionLines(u);
    if i == 3 {
      IntToStringChars(u.dob.age);
      assert '\n' !in IntToString(u.dob.age);
      assert lines[3] == "Âge : " + IntToString(u.dob.age) + " ans";
    } else if i == 1 {
      assert lines[1] == "Nom complet : " + u.name.title + " " + u.name.first + " " + u.name.last;
    } else if i == 8 {
      assert lines[8] == "Photo : " + Photo(u).value;
    }
  }

  /** The complete description always opens with the empty first line. */
  lemma CompleteDescriptionStartsWithNewline(u: User)
    ensures var s := Join(CompleteDescriptionLines(u), '\n'); |s| >= 1 && s[0] == '\n'
  {
    var lines := CompleteDescriptionLines(u);
    assert Join(lines, '\n') == "" + ['\n'] + Join(lines[1..], '\n');
  }
}
