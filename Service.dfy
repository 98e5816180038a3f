/**
 * `UserService`: `fetchUsers` builds the request URL and classifies what the transport
 * answered into a page of users or a `RandomUserServiceError`; `fetchAndSaveUsers`
 * reconciles the page with the stored records by identity, one user at a time, and
 * saves the context once at the end.
 */
module Service {
  import opened Wrappers
  import opened Text
  import opened Uuids
  import opened Users
  import opened Errors
  import opened Entities
  import opened Store

  /** The response part of `URLSession.data(from:)`: an `HTTPURLResponse` or some other kind. */
  datatype HttpResponse = NonHttp | Http(statusCode: int)

  /** What `JSONDecoder().decode(RandomUserResponse.self, from:)` makes of the body. */
  datatype DecodeOutcome = Decoded(response: RandomUserResponse) | Undecodable(error: WrappedError)

  /** What the transport answers for a URL: an error, or a response with its body. */
  datatype TransportOutcome =
    | Failed(error: WrappedError)
    | Received(response: HttpResponse, body: DecodeOutcome)

  /** The two kinds of error `fetchAndSaveUsers` throws. */
  datatype ServiceFailure = Fetching(fetchError: RandomUserServiceError) | Saving(saveError: CoreDataError)

  const Endpoint := "https://randomuser.me/api/?results="
  const PageParameter := "&page="

  /** The characters section 2 of RFC 3986 allows in a URI, the percent sign included. */
  predicate IsUrlChar(c: char) {
    || 'a' <= c <= 'z' || 'A' <= c <= 'Z' || '0' <= c <= '9'
    || c in "-._~:/?#[]@!$&'()*+,;=%"
  }

  /** A text made of URI characters only. */
  predicate IsUrlText(s: string) {
    forall i :: 0 <= i < |s| ==> IsUrlChar(s[i])
  }

  /** `URL(string:)` succeeds: a non-empty text made of URI characters. */
  predicate UrlParses(s: string) {
    |s| > 0 && IsUrlText(s)
  }

  /** The request URL for a page of `results` users. */
  function RequestUrl(results: int, page: int): string {
    Endpoint + IntToString(results) + PageParameter + IntToString(page)
  }

  lemma UrlTextConcat(a: string, b: string)
    requires IsUrlText(a) && IsUrlText(b)
    ensures IsUrlText(a + b)
  {
    forall k | 0 <= k < |a + b|
      ensures IsUrlChar((a + b)[k])
    {
      if k >= |a| {
        assert (a + b)[k] == b[k - |a|];
      }
    }
  }

  lemma FixedPartsAreUrlText()
    ensures IsUrlText(Endpoint) && IsUrlText(PageParameter)
  {
  }

  /** A rendered integer is URI text and holds no `&`. */
  lemma IntToStringIsUrlText(i: int)
    ensures IsUrlText(IntToString(i)) && '&' !in IntToString(i)
  {
    IntToStringChars(i);
  }

  /** The request URL always parses, whatever the two numbers: `badURL` is never thrown. */
  lemma RequestUrlParses(results: int, page: int)
    ensures UrlParses(RequestUrl(results, page))
  {
    var a, b := IntToString(results), IntToString(page);
    IntToStringIsUrlText(results);
    IntToStringIsUrlText(page);
    FixedPartsAreUrlText();
    UrlTextConcat(Endpoint, a);
    UrlTextConcat(Endpoint + a, PageParameter);
    UrlTextConcat(Endpoint + a + PageParameter, b);
  }

  /** Two texts free of `m`, each followed by `m` and more, compare piece by piece. */
  lemma SplitAtMarker(x: string, t: string, y: string, u: string, m: char)
    requires m !in x && m !in y
    requires |t| > 0 && t[0] == m && |u| > 0 && u[0] == m
    requires x + t == y + u
    ensures x == y && t == u
  {
    var s := x + t;
    assert forall k :: 0 <= k < |x| ==> s[k] == x[k] && s[k] != m;
    assert forall k :: 0 <= k < |y| ==> s[k] == y[k] && s[k] != m;
    assert s[|x|] == m && s[|y|] == m;
    assert |x| == |y|;
    assert x == s[..|x|] && y == s[..|y|];
    assert t == s[|x|..] && u == s[|y|..];
  }

  /**
   * Two texts built as `e + a + m + b`, where `m` opens with a character neither `a` nor
   * `a'` holds, agree piece by piece.
   */
  lemma ReadBackAroundMarker(e: string, a: string, m: string, b: string, a': string, b': string)
    requires |m| > 0 && m[0] !in a && m[0] !in a'
    requires e + a + m + b == e + a' + m + b'
    ensures a == a' && b == b'
  {
    assert e + a + m + b == e + (a + (m + b));
    assert e + a' + m + b' == e + (a' + (m + b'));
    PrefixedEqual(e, a + (m + b), a' + (m + b'));
    SplitAtMarker(a, m + b, a', m + b', m[0]);
    PrefixedEqual(m, b, b');
  }

  /** Different requests have different URLs: the two numbers read back from the text. */
  lemma RequestUrlInjective(results: int, page: int, results': int, page': int)
    ensures RequestUrl(results, page) == RequestUrl(results', page') <==> results == results' && page == page'
  {
    if RequestUrl(results, page) == RequestUrl(results', page') {
      IntToStringIsUrlText(results);
      IntToStringIsUrlText(results');
      assert PageParameter[0] == '&';
      ReadBackAroundMarker(Endpoint, IntToString(results), PageParameter, IntToString(page),
                           IntToString(results'), IntToString(page'));
      IntToStringInjective(results, results');
      IntToStringInjective(page, page');
    }
  }

  /** The status `badHTTPStatus` reports: the HTTP status, or -1 for a response that is not HTTP. */
  function StatusCode(response: HttpResponse): int {
    if response.Http? then response.statusCode else -1
  }

  /**
   * `fetchUsers(results:page:)`: the transport is asked for the request URL. A transport
   * error becomes `unknown`; any response but an HTTP 200 becomes `badHTTPStatus`; a body
   * that does not decode becomes `decoding`; otherwise the decoded users are returned.
   */
  function FetchUsers(results: int, page: int, transport: string -> TransportOutcome): (r: Result<seq<User>, RandomUserServiceError>)
    ensures r != Failure(RandomUserServiceError.BadUrl)
  {
    RequestUrlParses(results, page);
    var url := RequestUrl(results, page);
    if !UrlParses(url) then Failure(RandomUserServiceError.BadUrl)
    else match transport(url)
      case Failed(e) => Failure(RandomUserServiceError.Unknown(e))
      case Received(response, body) =>
        if response != Http(200) then Failure(RandomUserServiceError.BadHttpStatus(StatusCode(response)))
        else match body
          case Decoded(decoded) => Success(decoded.results)
          case Undecodable(e) => Failure(RandomUserServiceError.Decoding(e))
  }

  /**
   * How every transport answer is classified: users exactly for an HTTP 200 whose body
   * decodes, `badHTTPStatus` with the status (or -1) for every other response,
   * `decoding` for a 200 that does not decode, `unknown` for a transport error.
   */
  lemma FetchUsersClassifies(results: int, page: int, transport: string -> TransportOutcome)
    ensures var out, r := transport(RequestUrl(results, page)), FetchUsers(results, page, transport);
      && (r.Success? <==> out.Received? && out.response == Http(200) && out.body.Decoded?)
      && (r.Success? ==> r.value == out.body.response.results)
      && (r.Failure? && r.error.BadHttpStatus? <==> out.Received? && out.response != Http(200))
      && (r.Failure? && r.error.BadHttpStatus? ==> r.error.code == StatusCode(out.response))
      && (r.Failure? && r.error.Decoding? <==> out.Received? && out.response == Http(200) && out.body.Undecodable?)
      && (r.Failure? && r.error.Decoding? ==> r.error.cause == out.body.error)
      && (r.Failure? && r.error.Unknown? <==> out.Failed?)
      && (r.Failure? && r.error.Unknown? ==> r.error.cause == out.error)
  {
    RequestUrlParses(results, page);
  }

  /** Every fetched age fits `Int16`, as the narrowing `Int16(...)` demands. */
  predicate AgesFit(users: seq<User>) {
    forall i :: 0 <= i < |users| ==> InInt16(users[i].dob.age)
  }

  lemma AgesFitPrefix(page: seq<User>, k: nat)
    requires AgesFit(page) && k <= |page|
    ensures AgesFit(page[..k])
  {
    assert forall i :: 0 <= i < k ==> page[..k][i] == page[i];
  }

  /**
   * One iteration of the loop of `fetchAndSaveUsers`: the record found for the user's
   * identity is updated in place, or a new record is made from the user. The result is
   * the new records and the handle of the user's record.
   */
  function ReconcileStep(es: seq<UserEntity>, u: User, p: Platform): (r: (seq<UserEntity>, nat))
    requires InInt16(u.dob.age)
    ensures r.1 < |r.0| && |r.0| >= |es|
    ensures r.0[r.1].id == ParseUuid(u.login.uuid)
    ensures Reflects(r.0[r.1], u, p.parseDate)
    ensures forall j :: 0 <= j < |es| && j != r.1 ==> r.0[j] == es[j]
    ensures forall j :: 0 <= j < |es| ==> r.0[j].id == es[j].id && r.0[j].registredDate == es[j].registredDate
    ensures |r.0| == |es| <==> FetchByUuid(es, u.login.uuid, p).Some?
    ensures |r.0| == |es| ==> r.1 == FetchByUuid(es, u.login.uuid, p).value && r.0[r.1] == Updated(es[r.1], u, p.parseDate)
    ensures |r.0| != |es| ==> |r.0| == |es| + 1 && r.1 == |es| && r.0[r.1] == FromUser(u, p)
  {
    var found := FetchByUuid(es, u.login.uuid, p);
    if found.Some? then (es[found.value := Updated(es[found.value], u, p.parseDate)], found.value)
    else (es + [FromUser(u, p)], |es|)
  }

  /**
   * The loop of `fetchAndSaveUsers` over a page, in order: the records after the loop and
   * one handle per user, the handle of the record the user was saved in.
   */
  function Reconcile(es: seq<UserEntity>, page: seq<User>, p: Platform): (r: (seq<UserEntity>, seq<nat>))
    requires AgesFit(page)
    ensures |r.1| == |page| && |r.0| >= |es|
    ensures forall i :: 0 <= i < |page| ==> r.1[i] < |r.0| && r.0[r.1[i]].id == ParseUuid(page[i].login.uuid)
    ensures forall j :: 0 <= j < |es| ==> r.0[j].id == es[j].id
    decreases |page|
  {
    if page == [] then (es, [])
    else
      var before := Reconcile(es, page[..|page| - 1], p);
      var step := ReconcileStep(before.0, page[|page| - 1], p);
      (step.0, before.1 + [step.1])
  }

  lemma ReconcileLast(es: seq<UserEntity>, page: seq<User>, p: Platform)
    requires AgesFit(page) && |page| > 0
    ensures var before := Reconcile(es, page[..|page| - 1], p);
      var step := ReconcileStep(before.0, page[|page| - 1], p);
      Reconcile(es, page, p) == (step.0, before.1 + [step.1])
  {
  }

  /** `ReconcileLast` for the prefix of the page that ends with its `k`-th user. */
  lemma ReconcilePrefixLast(es: seq<UserEntity>, page: seq<User>, p: Platform, k: nat)
    requires AgesFit(page) && 0 < k <= |page|
    ensures AgesFit(page[..k]) && AgesFit(page[..k - 1])
    ensures var before := Reconcile(es, page[..k - 1], p);
      var step := ReconcileStep(before.0, page[k - 1], p);
      Reconcile(es, page[..k], p) == (step.0, before.1 + [step.1])
  {
    AgesFitPrefix(page, k);
    AgesFitPrefix(page, k - 1);
    var prefix := page[..k];
    assert prefix[..k - 1] == page[..k - 1] && prefix[k - 1] == page[k - 1];
    ReconcileLast(es, prefix, p);
  }

  /**
   * Every record the loop creates is handed back to the caller: the store grows only by
   * records made for users of the page.
   */
  lemma {:induction false} ReconcileReturnsNewRecords(es: seq<UserEntity>, page: seq<User>, p: Platform)
    requires AgesFit(page)
    ensures forall j :: |es| <= j < |Reconcile(es, page, p).0| ==> j in Reconcile(es, page, p).1
    decreases |page|
  {
    if page != [] {
      var n := |page| - 1;
      var before := Reconcile(es, page[..n], p);
      ReconcileReturnsNewRecords(es, page[..n], p);
      var r := Reconcile(es, page, p);
      assert r.1 == before.1 + [r.1[n]];
      forall j | |es| <= j < |r.0|
        ensures j in r.1
      {
        if j < |before.0| {
          assert j in before.1;
        } else {
          assert j == r.1[n];
        }
      }
    }
  }

  /**
   * The loop touches only the records it hands back: every stored record that no user of
   * the page was saved in is left exactly as it was.
   */
  lemma {:induction false} ReconcileKeepsUntouched(es: seq<UserEntity>, page: seq<User>, p: Platform)
    requires AgesFit(page)
    ensures forall j :: 0 <= j < |es| && j !in Reconcile(es, page, p).1 ==> Reconcile(es, page, p).0[j] == es[j]
    decreases |page|
  {
    if page != [] {
      var n := |page| - 1;
      AgesFitPrefix(page, n);
      ReconcileKeepsUntouched(es, page[..n], p);
      ReconcileLast(es, page, p);
      var before := Reconcile(es, page[..n], p);
      var r := Reconcile(es, page, p);
      assert r.1 == before.1 + [r.1[n]];
      forall j | 0 <= j < |es| && j !in r.1
        ensures r.0[j] == es[j]
      {
        assert j !in before.1 && j != r.1[n];
      }
    }
  }

  /** No user after the `i`-th was saved in the same record. */
  predicate LastOnHandle(hs: seq<nat>, i: nat) {
    forall j :: i < j < |hs| ==> hs[j] != hs[i]
  }

  /**
   * Each user's record reflects that user, unless a later user of the page was saved in
   * the same record (a repeated identity: the last one wins).
   */
  lemma {:induction false} ReconcileReflects(es: seq<UserEntity>, page: seq<User>, p: Platform)
    requires AgesFit(page)
    ensures forall i :: 0 <= i < |page| && LastOnHandle(Reconcile(es, page, p).1, i) ==>
      Reflects(Reconcile(es, page, p).0[Reconcile(es, page, p).1[i]], page[i], p.parseDate)
    decreases |page|
  {
    if page != [] {
      var n := |page| - 1;
      AgesFitPrefix(page, n);
      var before := Reconcile(es, page[..n], p);
      var step := ReconcileStep(before.0, page[n], p);
      ReconcileLast(es, page, p);
      ReconcileReflects(es, page[..n], p);
      var r := Reconcile(es, page, p);
      assert r.1 == before.1 + [step.1] && r.0 == step.0;
      forall i | 0 <= i < |page| && LastOnHandle(r.1, i)
        ensures Reflects(r.0[r.1[i]], page[i], p.parseDate)
      {
        if i < n {
          assert r.1[n] != r.1[i];
          assert LastOnHandle(before.1, i);
          assert page[..n][i] == page[i];
          assert r.0[r.1[i]] == before.0[before.1[i]];
        }
      }
    }
  }

  /** No two records that have an id share it. */
  predicate UniqueIds(es: seq<UserEntity>) {
    forall i, j :: 0 <= i < |es| && 0 <= j < |es| && i != j && es[i].id.Some? ==> es[i].id != es[j].id
  }

  /** No identity lookup for the page throws. */
  predicate LookupsSucceed(page: seq<User>, p: Platform) {
    forall i :: 0 <= i < |page| ==> !p.lookupFails(page[i].login.uuid)
  }

  /** One step never creates a second record for an identity already stored. */
  lemma StepKeepsIdsUnique(es: seq<UserEntity>, u: User, p: Platform)
    requires InInt16(u.dob.age) && UniqueIds(es) && !p.lookupFails(u.login.uuid)
    ensures UniqueIds(ReconcileStep(es, u, p).0)
  {
    var r := ReconcileStep(es, u, p);
    if |r.0| != |es| {
      assert forall j :: 0 <= j < |es| ==> !IdMatches(es[j], u.login.uuid);
      assert forall j :: 0 <= j < |es| && es[j].id.Some? ==> es[j].id != r.0[|es|].id;
    }
  }

  /**
   * When no lookup throws, reconciling never duplicates an identity: a store whose ids are
   * unique keeps them unique.
   */
  lemma {:induction false} ReconcileKeepsIdsUnique(es: seq<UserEntity>, page: seq<User>, p: Platform)
    requires AgesFit(page) && UniqueIds(es) && LookupsSucceed(page, p)
    ensures UniqueIds(Reconcile(es, page, p).0)
    decreases |page|
  {
    if page != [] {
      var n := |page| - 1;
      assert LookupsSucceed(page[..n], p) && AgesFit(page[..n]);
      ReconcileKeepsIdsUnique(es, page[..n], p);
      var before := Reconcile(es, page[..n], p);
      StepKeepsIdsUnique(before.0, page[n], p);
    }
  }

  /** Some record of `es` has the identity `uuid`. */
  predicate Stored(es: seq<UserEntity>, uuid: string) {
    exists j :: 0 <= j < |es| && IdMatches(es[j], uuid)
  }

  /**
   * A page whose every identity is already stored adds no record, when no lookup throws:
   * each user lands on a stored record.
   */
  lemma {:induction false} ReconcileStoredPageAddsNothing(es: seq<UserEntity>, page: seq<User>, p: Platform)
    requires AgesFit(page) && LookupsSucceed(page, p)
    requires forall i :: 0 <= i < |page| ==> Stored(es, page[i].login.uuid)
    ensures |Reconcile(es, page, p).0| == |es|
    ensures forall i :: 0 <= i < |page| ==> Reconcile(es, page, p).1[i] < |es|
    decreases |page|
  {
    if page != [] {
      var n := |page| - 1;
      var prefix := page[..n];
      assert forall i :: 0 <= i < |prefix| ==> prefix[i] == page[i];
      ReconcileStoredPageAddsNothing(es, prefix, p);
      ReconcileLast(es, page, p);
      var before := Reconcile(es, prefix, p);
      var u := page[n];
      var j :| 0 <= j < |es| && IdMatches(es[j], u.login.uuid);
      assert before.0[j].id == es[j].id;
      assert IdMatches(before.0[j], u.login.uuid);
      assert FetchByUuid(before.0, u.login.uuid, p).Some?;
    }
  }

  /** Every identity of the page is a well-formed UUID text. */
  predicate UuidIdentities(page: seq<User>) {
    forall i :: 0 <= i < |page| ==> IsUuidString(page[i].login.uuid)
  }

  /**
   * `y` continues `x`: it holds at least as many records, and each record of `x` keeps
   * its id and registration date in `y`.
   */
  predicate KeepsKeys(x: seq<UserEntity>, y: seq<UserEntity>) {
    && |x| <= |y|
    && forall j :: 0 <= j < |x| ==> y[j].id == x[j].id && y[j].registredDate == x[j].registredDate
  }

  lemma KeepsKeysTransitive(x: seq<UserEntity>, y: seq<UserEntity>, z: seq<UserEntity>)
    requires KeepsKeys(x, y) && KeepsKeys(y, z)
    ensures KeepsKeys(x, z)
  {
  }

  /** Users `k` to `m` of the page never change the id or registration date of an earlier record. */
  lemma {:induction false} ReconcileKeepsKeysBetween(es: seq<UserEntity>, page: seq<User>, p: Platform, k: nat, m: nat)
    requires AgesFit(page) && k <= m <= |page|
    ensures AgesFit(page[..k]) && AgesFit(page[..m])
    ensures KeepsKeys(Reconcile(es, page[..k], p).0, Reconcile(es, page[..m], p).0)
    decreases m
  {
    AgesFitPrefix(page, k);
    AgesFitPrefix(page, m);
    if k < m {
      ReconcileKeepsKeysBetween(es, page, p, k, m - 1);
      ReconcileKeepsKeysOneMore(es, page, p, m);
      var x, y, z := Reconcile(es, page[..k], p).0, Reconcile(es, page[..m - 1], p).0, Reconcile(es, page[..m], p).0;
      assert KeepsKeys(x, y) && KeepsKeys(y, z);
      KeepsKeysTransitive(x, y, z);
    }
  }

  /** The `m`-th user of the page never changes the id or registration date of an earlier record. */
  lemma ReconcileKeepsKeysOneMore(es: seq<UserEntity>, page: seq<User>, p: Platform, m: nat)
    requires AgesFit(page) && 0 < m <= |page|
    ensures AgesFit(page[..m - 1]) && AgesFit(page[..m])
    ensures KeepsKeys(Reconcile(es, page[..m - 1], p).0, Reconcile(es, page[..m], p).0)
  {
    ReconcilePrefixLast(es, page, p, m);
  }

  /** Later users of the page never change the id or registration date of an earlier record. */
  lemma ReconcileLaterKeepsKeys(es: seq<UserEntity>, page: seq<User>, p: Platform, k: nat)
    requires AgesFit(page) && k <= |page|
    ensures AgesFit(page[..k])
    ensures KeepsKeys(Reconcile(es, page[..k], p).0, Reconcile(es, page, p).0)
  {
    ReconcileKeepsKeysBetween(es, page, p, k, |page|);
    assert page[..|page|] == page;
  }

  /**
   * A second pass over a prefix of the page (records `b`, handles `bh`) against what the
   * first pass over the whole page left (`r`) keeps step with the first pass over the same
   * prefix (records `a`, handles `ah`): the same handles, the records the prefix did not
   * touch still as in `r`, and each record it touched as in `a`, up to a birth date taken
   * from `r`.
   */
  predicate SecondPassAgrees(a: seq<UserEntity>, ah: seq<nat>, b: seq<UserEntity>, bh: seq<nat>, r: seq<UserEntity>) {
    && bh == ah && |b| == |r|
    && (forall j :: 0 <= j < |r| && j !in ah ==> b[j] == r[j])
    && (forall j :: j in ah ==> j < |a| && j < |b| && (b[j] == a[j] || b[j] == a[j].(birthDate := r[j].birthDate)))
  }

  /** One more user of the page keeps the second pass in step with the first. */
  lemma SecondPassStep(a: seq<UserEntity>, ah: seq<nat>, b: seq<UserEntity>, bh: seq<nat>, r: seq<UserEntity>,
                       u: User, p: Platform, s: (seq<UserEntity>, nat), t: (seq<UserEntity>, nat))
    requires InInt16(u.dob.age) && !p.lookupFails(u.login.uuid) && IsUuidString(u.login.uuid)
    requires SecondPassAgrees(a, ah, b, bh, r)
    requires s == ReconcileStep(a, u, p) && t == ReconcileStep(b, u, p)
    requires KeepsKeys(s.0, r)
    ensures SecondPassAgrees(s.0, ah + [s.1], t.0, bh + [t.1], r)
  {
    var uuid := u.login.uuid;
    var h := s.1;
    assert forall j :: 0 <= j < |a| ==> b[j].id == a[j].id && b[j].registredDate == a[j].registredDate by {
      forall j | 0 <= j < |a|
        ensures b[j].id == a[j].id && b[j].registredDate == a[j].registredDate
      {
        if j !in ah {
          assert b[j] == r[j];
        }
      }
    }
    if |s.0| == |a| {
      assert FirstMatch(b, uuid) == Some(h) by {
        assert FirstMatch(a, uuid) == Some(h);
        assert IdMatches(b[h], uuid);
      }
      UpdateReadsOnlyKept(a[h], b[h], u, p.parseDate);
    } else {
      assert h !in ah;
      assert b[h] == r[h];
      assert FirstMatch(b, uuid) == Some(h) by {
        assert forall j :: 0 <= j < h ==> !IdMatches(a[j], uuid);
        assert IdMatches(b[h], uuid);
      }
      CreateIsUpdateOfBlank(u, p);
      UpdateReadsOnlyKept(Blank.(id := ParseUuid(uuid), birthDate := Some(p.now)), b[h], u, p.parseDate);
    }
    assert t.1 == h && |t.0| == |b|;
  }

  /**
   * Induction over the page: the second pass over the first `k` users keeps step with the
   * first pass over them.
   */
  lemma {:induction false} SecondPassPrefix(es: seq<UserEntity>, page: seq<User>, p: Platform, k: nat)
    requires AgesFit(page) && LookupsSucceed(page, p) && UuidIdentities(page) && k <= |page|
    ensures var r := Reconcile(es, page, p).0;
      var a := Reconcile(es, page[..k], p);
      var b := Reconcile(r, page[..k], p);
      SecondPassAgrees(a.0, a.1, b.0, b.1, r)
    decreases k
  {
    var r := Reconcile(es, page, p).0;
    if k == 0 {
      assert page[..0] == [];
    } else {
      var n := k - 1;
      AgesFitPrefix(page, k);
      SecondPassPrefix(es, page, p, n);
      var a := Reconcile(es, page[..n], p);
      var b := Reconcile(r, page[..n], p);
      var s := ReconcileStep(a.0, page[n], p);
      var t := ReconcileStep(b.0, page[n], p);
      ReconcilePrefixLast(es, page, p, k);
      ReconcilePrefixLast(r, page, p, k);
      ReconcileLaterKeepsKeys(es, page, p, k);
      SecondPassStep(a.0, a.1, b.0, b.1, r, page[n], p, s, t);
    }
  }

  /**
   * Fetching the same page twice is harmless: when no lookup throws and every identity of
   * the page is a UUID text, the second pass finds every record the first one saved, in
   * the same order, changes none and creates none. Nothing is assumed of the records
   * already stored: ids shared by several records, or users repeating an identity, still
   * land on the same first match.
   */
  lemma ReconcileIdempotent(es: seq<UserEntity>, page: seq<User>, p: Platform)
    requires AgesFit(page) && LookupsSucceed(page, p) && UuidIdentities(page)
    ensures var r := Reconcile(es, page, p);
      Reconcile(r.0, page, p) == r
  {
    var r := Reconcile(es, page, p);
    SecondPassPrefix(es, page, p, |page|);
    assert page[..|page|] == page;
    var b := Reconcile(r.0, page, p);
    assert b.0 == r.0 by {
      forall j | 0 <= j < |r.0|
        ensures b.0[j] == r.0[j]
      {
        if j in r.1 {
          // `SecondPassAgrees` at the whole page, where the first pass is `r` itself: a
          // touched record is `r.0[j]`, or `r.0[j]` with its own birth date put back.
          assert b.0[j] == r.0[j];
        }
      }
    }
  }

  /** Every age of a successfully fetched page fits `Int16`. */
  predicate FetchedAgesFit(results: int, page: int, transport: string -> TransportOutcome) {
    FetchUsers(results, page, transport).Success? ==> AgesFit(FetchUsers(results, page, transport).value)
  }

  /**
   * What `fetchAndSaveUsers` does to the store and what it returns: a fetch error is
   * thrown before the store is touched; otherwise the page is reconciled, the context is
   * saved once, and a save error is thrown in place of the handles.
   */
  function FetchAndSave(s: StoreState, transport: string -> TransportOutcome, p: Platform,
                        saveResult: Option<WrappedError>, results: int, page: int)
    : (r: (StoreState, Result<seq<nat>, ServiceFailure>))
    requires Settled(s) && FetchedAgesFit(results, page, transport)
    ensures Settled(r.0)
    ensures |r.0.entities| >= |s.entities|
    ensures r.1.Success? ==> forall i :: 0 <= i < |r.1.value| ==> r.1.value[i] < |r.0.entities|
  {
    var fetched := FetchUsers(results, page, transport);
    if fetched.Failure? then (s, Failure(Fetching(fetched.error)))
    else
      var reconciled := Reconcile(s.entities, fetched.value, p);
      var changed := s.(entities := reconciled.0, hasChanges := s.hasChanges || |fetched.value| > 0);
      var committed := Commit(changed, saveResult);
      if committed.1.Fail? then (committed.0, Failure(Saving(committed.1.error)))
      else (committed.0, Success(reconciled.1))
  }

  /**
   * The three ways `fetchAndSaveUsers` ends. A fetch error leaves the store as it was.
   * On success there is one handle per fetched user, in order, each on a record carrying
   * that user's parsed identity, and everything is saved. A failed save is thrown as
   * `CoreDataError.saveContext`; the reconciled records stay in the context unsaved.
   */
  lemma FetchAndSaveOutcome(s: StoreState, transport: string -> TransportOutcome, p: Platform,
                            saveResult: Option<WrappedError>, results: int, page: int)
    requires Settled(s) && FetchedAgesFit(results, page, transport)
    ensures var fetched := FetchUsers(results, page, transport);
      var r := FetchAndSave(s, transport, p, saveResult, results, page);
      && (fetched.Failure? ==> r == (s, Failure(Fetching(fetched.error))))
      && (fetched.Success? ==> r.0.entities == Reconcile(s.entities, fetched.value, p).0)
      && (r.1.Success? ==>
            && fetched.Success?
            && |r.1.value| == |fetched.value|
            && (forall i :: 0 <= i < |fetched.value| ==>
                  r.0.entities[r.1.value[i]].id == ParseUuid(fetched.value[i].login.uuid))
            && !r.0.hasChanges && r.0.persisted == r.0.entities)
      && (r.1.Failure? && r.1.error.Saving? <==>
            fetched.Success? && saveResult.Some? && (s.hasChanges || |fetched.value| > 0))
      && (r.1.Failure? && r.1.error.Saving? ==>
            r.1.error.saveError == SaveContext(saveResult.value)
            && r.0.persisted == s.persisted && r.0.hasChanges)
  {
    var fetched := FetchUsers(results, page, transport);
    if fetched.Success? && fetched.value == [] {
      assert Reconcile(s.entities, fetched.value, p).0 == s.entities;
    }
  }

  /**
   * The body of the loop of `fetchAndSaveUsers` for one user, proved against
   * `ReconcileStep`: the record found for the identity is updated, or a new one inserted.
   */
  method SaveUser(store: CoreDataManager, user: User, p: Platform) returns (h: nat)
    requires store.Valid() && InInt16(user.dob.age)
    modifies store
    ensures store.Valid()
    ensures (store.entities, h) == ReconcileStep(old(store.entities), user, p)
    ensures store.hasChanges && store.persisted == old(store.persisted)
    ensures store.lastLoadingError == old(store.lastLoadingError)
  {
    var existing := FetchByUuid(store.entities, user.login.uuid, p);
    if existing.Some? {
      store.UpdateEntity(existing.value, user, p.parseDate);
      h := existing.value;
    } else {
      h := store.InsertFromUser(user, p);
    }
  }

  /**
   * `fetchAndSaveUsers(results:page:)`, proved against `FetchAndSave`: each fetched user is
   * looked up by identity and its record updated in place, or a new record is inserted;
   * the handles are collected in order and the context is saved once.
   */
  method FetchAndSaveUsers(store: CoreDataManager, transport: string -> TransportOutcome, p: Platform,
                           saveResult: Option<WrappedError>, results: int := 10, page: int := 1)
    returns (r: Result<seq<nat>, ServiceFailure>)
    requires store.Valid() && FetchedAgesFit(results, page, transport)
    modifies store
    ensures store.Valid()
    ensures (store.State(), r) == FetchAndSave(old(store.State()), transport, p, saveResult, results, page)
    ensures store.lastLoadingError == old(store.lastLoadingError)
  {
    var fetched := FetchUsers(results, page, transport);
    if fetched.Failure? {
      return Failure(Fetching(fetched.error));
    }
    var users := fetched.value;
    var savedEntities: seq<nat> := [];
    ghost var es0 := store.entities;
    for i := 0 to |users|
      invariant store.Valid() && AgesFit(users[..i])
      invariant store.entities == Reconcile(es0, users[..i], p).0
      invariant savedEntities == Reconcile(es0, users[..i], p).1
      invariant store.hasChanges == (old(store.hasChanges) || i > 0)
      invariant store.persisted == old(store.persisted)
      invariant store.lastLoadingError == old(store.lastLoadingError)
    {
      AgesFitPrefix(users, i + 1);
      assert users[..i + 1][..i] == users[..i] && users[..i + 1][i] == users[i];
      ReconcileLast(es0, users[..i + 1], p);
      var entity := SaveUser(store, users[i], p);
      savedEntities := savedEntities + [entity];
    }
    assert users[..|users|] == users;
    ghost var changed := old(store.State()).(entities := store.entities, hasChanges := store.hasChanges);
    assert changed == store.State();
    var saved := store.SaveContext(saveResult);
    if saved.Fail? {
      return Failure(Saving(saved.error));
    }
    return Success(savedEntities);
  }
}
