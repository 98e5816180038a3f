/**
 * The app's error enums: `CoreDataError`, `RandomUserServiceError` (what the fetch
 * throws) and `UserServiceError` (an identifiable twin of it), with their `id` and
 * `errorDescription` renderings.
 */
module Errors {
  import opened Wrappers
  import opened Text

  /** A foreign Swift `Error`, known only by its `localizedDescription`. */
  datatype WrappedError = WrappedError(localizedDescription: string)

  datatype CoreDataError =
    | FailedToLoadPersistentStores(cause: WrappedError)
    | SaveContext(cause: WrappedError)

  datatype RandomUserServiceError =
    | BadUrl
    | BadHttpStatus(code: int)
    | Decoding(cause: WrappedError)
    | Unknown(cause: WrappedError)

  datatype UserServiceError =
    | BadUrl
    | BadHttpStatus(code: int)
    | Decoding(cause: WrappedError)
    | Unknown(cause: WrappedError)

  const BadUrlMessage := "L'URL fournie est invalide."
  const BadHttpStatusPrefix := "Le serveur a retourné un code HTTP inattendu : "
  const DecodingPrefix := "Erreur lors du décodage des données\U{A0}: "
  const UnknownPrefix := "Erreur inconnue\U{A0}: "

  /** `RandomUserServiceError.errorDescription`: present for every case. */
  function RandomUserServiceErrorDescription(e: RandomUserServiceError): (r: Option<string>)
    ensures r.Some?
  {
    match e
    case BadUrl => Some(BadUrlMessage)
    case BadHttpStatus(code) => Some(BadHttpStatusPrefix + IntToString(code) + ".")
    case Decoding(cause) => Some(DecodingPrefix + cause.localizedDescription)
    case Unknown(cause) => Some(UnknownPrefix + cause.localizedDescription)
  }

  /** `UserServiceError.errorDescription`: present for every case. */
  function UserServiceErrorDescription(e: UserServiceError): (r: Option<string>)
    ensures r.Some?
  {
    match e
    case BadUrl => Some(BadUrlMessage)
    case BadHttpStatus(code) => Some(BadHttpStatusPrefix + IntToString(code) + ".")
    case Decoding(cause) => Some(DecodingPrefix + cause.localizedDescription)
    case Unknown(cause) => Some(UnknownPrefix + cause.localizedDescription)
  }

  /** `UserServiceError.id`. */
  function Id(e: UserServiceError): string {
    match e
    case BadUrl => "badURL"
    case BadHttpStatus(code) => "badHTTPStatus_" + IntToString(code)
    case Decoding(cause) => "decoding_" + cause.localizedDescription
    case Unknown(cause) => "unknown_" + cause.localizedDescription
  }

  lemma PrefixedEqual(p: string, a: string, b: string)
    requires p + a == p + b
    ensures a == b
  {
    assert a == (p + a)[|p|..];
    assert b == (p + b)[|p|..];
  }

  /** The fourth character of an id names its case: 'U', 'H', 'o' or 'n'. */
  function IdMark(e: UserServiceError): char {
    match e
    case BadUrl => 'U'
    case BadHttpStatus(_) => 'H'
    case Decoding(_) => 'o'
    case Unknown(_) => 'n'
  }

  lemma IdShape(e: UserServiceError)
    ensures |Id(e)| > 3 && Id(e)[3] == IdMark(e)
  {
  }

  /**
   * `id` identifies the error: two errors with the same id are the same case with the
   * same status code or the same wrapped description. Ids of different cases never
   * collide, because their prefixes differ.
   */
  lemma IdInjective(a: UserServiceError, b: UserServiceError)
    ensures Id(a) == Id(b) <==> a == b
  {
    IdShape(a);
    IdShape(b);
    if Id(a) == Id(b) {
      if a.BadHttpStatus? && b.BadHttpStatus? {
        PrefixedEqual("badHTTPStatus_", IntToString(a.code), IntToString(b.code));
        IntToStringInjective(a.code, b.code);
      } else if a.Decoding? && b.Decoding? {
        PrefixedEqual("decoding_", a.cause.localizedDescription, b.cause.localizedDescription);
      } else if a.Unknown? && b.Unknown? {
        PrefixedEqual("unknown_", a.cause.localizedDescription, b.cause.localizedDescription);
      }
    }
  }

  /** The `badHTTPStatus` message carries the status code: it reads back from the message. */
  lemma StatusMessageCarriesCode(code: int)
    ensures var m := RandomUserServiceErrorDescription(RandomUserServiceError.BadHttpStatus(code)).value;
      && BadHttpStatusPrefix <= m
      && m[|m| - 1] == '.'
      && m[|BadHttpStatusPrefix|..|m| - 1] == IntToString(code)
  {
  }

  /**
   * The colon of the decoding and unknown messages follows a no-break space (U+00A0);
   * that of the status message follows an ordinary space.
   */
  lemma ColonSpacing()
    ensures DecodingPrefix[35] == '\U{A0}' && DecodingPrefix[36] == ':'
    ensures UnknownPrefix[15] == '\U{A0}' && UnknownPrefix[16] == ':'
    ensures var n := |BadHttpStatusPrefix|; BadHttpStatusPrefix[n - 3] == ' ' && BadHttpStatusPrefix[n - 2] == ':'
  {
  }

  /** The eighth character of a description names its case. */
  function DescriptionMark(e: RandomUserServiceError): char {
    match e
    case BadUrl => 'o'
    case BadHttpStatus(_) => 'e'
    case Decoding(_) => 'l'
    case Unknown(_) => 'i'
  }

  /** The character at position 7 of a message comes from its prefix. */
  lemma MarkFromPrefix(prefix: string, rest: string)
    requires |prefix| > 7
    ensures |prefix + rest| > 7 && (prefix + rest)[7] == prefix[7]
  {
  }

  lemma DescriptionShape(e: RandomUserServiceError)
    ensures var m := RandomUserServiceErrorDescription(e).value;
      |m| > 7 && m[7] == DescriptionMark(e)
  {
    match e
    case BadUrl =>
    case BadHttpStatus(code) =>
      MarkFromPrefix(BadHttpStatusPrefix, IntToString(code) + ".");
      assert BadHttpStatusPrefix + IntToString(code) + "." == BadHttpStatusPrefix + (IntToString(code) + ".");
    case Decoding(cause) =>
      MarkFromPrefix(DecodingPrefix, cause.localizedDescription);
    case Unknown(cause) =>
      MarkFromPrefix(UnknownPrefix, cause.localizedDescription);
  }

  /**
   * The message tells every error apart: no two distinct errors share a description
   * (wrapped errors being known by their description).
   */
  lemma RandomUserServiceErrorDescriptionInjective(a: RandomUserServiceError, b: RandomUserServiceError)
    ensures RandomUserServiceErrorDescription(a) == RandomUserServiceErrorDescription(b) <==> a == b
  {
    var ma, mb := RandomUserServiceErrorDescription(a).value, RandomUserServiceErrorDescription(b).value;
    DescriptionShape(a);
    DescriptionShape(b);
    if ma == mb {
      if a.BadHttpStatus? && b.BadHttpStatus? {
        var ta, tb := IntToString(a.code) + ".", IntToString(b.code) + ".";
        assert ma == BadHttpStatusPrefix + ta;
        assert mb == BadHttpStatusPrefix + tb;
        PrefixedEqual(BadHttpStatusPrefix, ta, tb);
        assert IntToString(a.code) == ta[..|ta| - 1];
        assert IntToString(b.code) == tb[..|tb| - 1];
        IntToStringInjective(a.code, b.code);
      } else if a.Decoding? && b.Decoding? {
        PrefixedEqual(DecodingPrefix, a.cause.localizedDescription, b.cause.localizedDescription);
      } else if a.Unknown? && b.Unknown? {
        PrefixedEqual(UnknownPrefix, a.cause.localizedDescription, b.cause.localizedDescription);
      }
    }
  }

  /** The case of `RandomUserServiceError` a `UserServiceError` mirrors, with the same payload. */
  function Twin(e: UserServiceError): RandomUserServiceError {
    match e
    case BadUrl => RandomUserServiceError.BadUrl
    case BadHttpStatus(code) => RandomUserServiceError.BadHttpStatus(code)
    case Decoding(cause) => RandomUserServiceError.Decoding(cause)
    case Unknown(cause) => RandomUserServiceError.Unknown(cause)
  }

  /**
   * Both enums word their messages alike, and `UserServiceError` messages tell its cases
   * apart just as well.
   */
  lemma UserServiceErrorDescriptionMatchesTwin(a: UserServiceError, b: UserServiceError)
    ensures UserServiceErrorDescription(a) == RandomUserServiceErrorDescription(Twin(a))
    ensures UserServiceErrorDescription(a) == UserServiceErrorDescription(b) <==> a == b
  {
    RandomUserServiceErrorDescriptionInjective(Twin(a), Twin(b));
  }
}
