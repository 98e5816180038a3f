/**
 * `UserListViewController`: the search over the loaded users, the guard that says
 * whether a search is showing, the section count and selection that follow from it,
 * and the bounds-checked `subscript(safe:)`.
 */
module ListView {
  import opened Wrappers
  import opened Text
  import opened Entities
  import opened ViewModel

  /** Every handle names a record. */
  predicate InRange(users: seq<nat>, es: seq<UserEntity>) {
    forall i :: 0 <= i < |users| ==> users[i] < |es|
  }

  /** `field?.lowercased().contains(q) ?? false`: a missing field never matches. */
  predicate FieldContains(field: Option<string>, q: string) {
    field.Some? && Contains(Lower(field.value), q)
  }

  /** The search predicate over the four searchable attributes, `q` already lowered. */
  predicate Matches(e: UserEntity, q: string) {
    FieldContains(e.firstName, q) || FieldContains(e.lastName, q)
    || FieldContains(e.email, q) || FieldContains(e.phone, q)
  }

  /** A record matches exactly when `q` occurs at some position of one of its four lowered attributes. */
  lemma MatchesIffOccurs(e: UserEntity, q: string)
    ensures Matches(e, q) <==>
      || (e.firstName.Some? && exists k :: OccursAt(Lower(e.firstName.value), q, k))
      || (e.lastName.Some? && exists k :: OccursAt(Lower(e.lastName.value), q, k))
      || (e.email.Some? && exists k :: OccursAt(Lower(e.email.value), q, k))
      || (e.phone.Some? && exists k :: OccursAt(Lower(e.phone.value), q, k))
  {
    if e.firstName.Some? { ContainsIff(Lower(e.firstName.value), q); }
    if e.lastName.Some? { ContainsIff(Lower(e.lastName.value), q); }
    if e.email.Some? { ContainsIff(Lower(e.email.value), q); }
    if e.phone.Some? { ContainsIff(Lower(e.phone.value), q); }
  }

  /** `users.filter { ... }`: the matching handles, in their order. */
  function Filter(es: seq<UserEntity>, users: seq<nat>, q: string): (r: seq<nat>)
    requires InRange(users, es)
    ensures |r| <= |users|
    ensures forall i :: 0 <= i < |r| ==> r[i] in users && r[i] < |es| && Matches(es[r[i]], q)
    decreases |users|
  {
    if users == [] then []
    else
      var rest := Filter(es, users[..|users| - 1], q);
      var last := users[|users| - 1];
      if Matches(es[last], q) then rest + [last] else rest
  }

  /** `a` is `b` with some elements left out, the rest in their order. */
  predicate IsSubsequence(a: seq<nat>, b: seq<nat>)
    decreases |b|
  {
    if a == [] then true
    else if b == [] then false
    else
      || (a[|a| - 1] == b[|b| - 1] && IsSubsequence(a[..|a| - 1], b[..|b| - 1]))
      || IsSubsequence(a, b[..|b| - 1])
  }

  /** Every matching handle is kept: membership in the result is exactly "shown and matching". */
  lemma {:induction false} FilterKeepsEveryMatch(es: seq<UserEntity>, users: seq<nat>, q: string)
    requires InRange(users, es)
    ensures forall h :: h in Filter(es, users, q) <==> h in users && Matches(es[h], q)
    decreases |users|
  {
    if users != [] {
      var init := users[..|users| - 1];
      FilterKeepsEveryMatch(es, init, q);
      assert users == init + [users[|users| - 1]];
    }
  }

  /**
   * The filter neither drops nor repeats: a matching record is listed as many times as the
   * shown users list it, any other record not at all.
   */
  lemma {:induction false} FilterCounts(es: seq<UserEntity>, users: seq<nat>, q: string)
    requires InRange(users, es)
    ensures forall h :: 0 <= h < |es| ==>
      multiset(Filter(es, users, q))[h] == if Matches(es[h], q) then multiset(users)[h] else 0
    decreases |users|
  {
    if users != [] {
      var init := users[..|users| - 1];
      FilterCounts(es, init, q);
      assert users == init + [users[|users| - 1]];
    }
  }

  /** The result keeps the order of the shown users. */
  lemma {:induction false} FilterIsSubsequence(es: seq<UserEntity>, users: seq<nat>, q: string)
    requires InRange(users, es)
    ensures IsSubsequence(Filter(es, users, q), users)
    decreases |users|
  {
    if users != [] {
      var init := users[..|users| - 1];
      var r := Filter(es, users, q);
      FilterIsSubsequence(es, init, q);
      if Matches(es[users[|users| - 1]], q) {
        assert r[..|r| - 1] == Filter(es, init, q);
      }
    }
  }

  /**
   * `updateSearchResults(for:)`: no text, or an empty one, gives no results; otherwise the
   * shown users whose attributes contain the lowered text.
   */
  function SearchResults(es: seq<UserEntity>, users: seq<nat>, text: Option<string>): (r: seq<nat>)
    requires InRange(users, es)
    ensures text.None? || text.value == [] ==> r == []
  {
    if text.None? then []
    else
      var q := Lower(text.value);
      if q == [] then [] else Filter(es, users, q)
  }

  /**
   * For a non-empty text the results are the shown users that match it, in their order
   * and as often as they are shown; a text of spaces is not empty and filters like any other.
   */
  lemma SearchResultsFilter(es: seq<UserEntity>, users: seq<nat>, text: string)
    requires InRange(users, es) && text != []
    ensures forall h :: h in SearchResults(es, users, Some(text)) <==> h in users && Matches(es[h], Lower(text))
    ensures forall h :: 0 <= h < |es| ==>
      multiset(SearchResults(es, users, Some(text)))[h] == if Matches(es[h], Lower(text)) then multiset(users)[h] else 0
    ensures IsSubsequence(SearchResults(es, users, Some(text)), users)
  {
    FilterKeepsEveryMatch(es, users, Lower(text));
    FilterCounts(es, users, Lower(text));
    FilterIsSubsequence(es, users, Lower(text));
  }

  /** The search ignores case: typing the text in capitals changes nothing. */
  lemma SearchIgnoresCase(es: seq<UserEntity>, users: seq<nat>, text: string)
    requires InRange(users, es)
    ensures SearchResults(es, users, Some(Lower(text))) == SearchResults(es, users, Some(text))
  {
    LowerIdempotent(text);
  }

  /** `isSearchActive`: the search controller is active and its text is neither nil nor empty. */
  predicate IsSearchActive(isActive: bool, text: Option<string>) {
    isActive && text.Some? && text.value != []
  }

  /**
   * While the controller is active, the list shows search results exactly when
   * `updateSearchResults` took its filtering branch; otherwise that branch emptied them.
   */
  lemma SearchGuardsAgree(es: seq<UserEntity>, users: seq<nat>, text: Option<string>)
    requires InRange(users, es)
    ensures IsSearchActive(true, text) <==> text.Some? && Lower(text.value) != []
    ensures !IsSearchActive(true, text) ==> SearchResults(es, users, text) == []
  {
  }

  /** `numberOfSections(in:)`: one section per listed user, from the results while a search is showing. */
  function NumberOfSections(isActive: bool, text: Option<string>, filtered: seq<nat>, users: seq<nat>): nat {
    if IsSearchActive(isActive, text) then |filtered| else |users|
  }

  /** `didSelectRowAt`: the user of the selected section, from the list on screen. */
  function SelectedUser(isActive: bool, text: Option<string>, filtered: seq<nat>, users: seq<nat>, section: nat): nat
    requires section < NumberOfSections(isActive, text, filtered, users)
  {
    (if IsSearchActive(isActive, text) then filtered else users)[section]
  }

  /**
   * With results computed from the current users, every selectable section shows one of
   * the loaded users, and while a search is showing it matches the text.
   */
  lemma SelectionIsLoadedUser(es: seq<UserEntity>, users: seq<nat>, isActive: bool, text: Option<string>, section: nat)
    requires InRange(users, es)
    requires section < NumberOfSections(isActive, text, SearchResults(es, users, text), users)
    ensures var h := SelectedUser(isActive, text, SearchResults(es, users, text), users, section);
      && h in users
      && (IsSearchActive(isActive, text) ==> Matches(es[h], Lower(text.value)))
  {
  }

  /** `subscript(safe:)`: the element when the index is in bounds, nil otherwise. */
  function SafeSubscript<T>(s: seq<T>, i: int): (r: Option<T>)
    ensures r.Some? <==> 0 <= i < |s|
    ensures r.Some? ==> r.value == s[i]
  {
    if 0 <= i < |s| then Some(s[i]) else None
  }

  class UserListViewController {
    const viewModel: UserViewModel
    /** The handles the search shows. */
    var filteredUsers: seq<nat>

    constructor (viewModel: UserViewModel)
      ensures this.viewModel == viewModel && filteredUsers == []
    {
      this.viewModel := viewModel;
      filteredUsers := [];
    }

    /** `updateSearchResults(for:)`, with the search bar's text. */
    method UpdateSearchResults(text: Option<string>)
      requires viewModel.Valid()
      modifies this
      ensures filteredUsers == SearchResults(viewModel.store.entities, viewModel.users, text)
    {
      if text.None? {
        filteredUsers := [];
        return;
      }
      var lowered := Lower(text.value);
      if lowered == [] {
        filteredUsers := [];
        return;
      }
      filteredUsers := Filter(viewModel.store.entities, viewModel.users, lowered);
    }
  }
}
