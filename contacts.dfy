/**
 * The contacts page's list (`filterAndSortContacts`): keep the contacts
 * sent on the selected day and matching the search text, then order them
 * by send time.
 */
module Contacts {
  import opened Wrappers
  import opened Text
  import opened Seqs
  import opened Types
  import opened Ordering

  /**
   * The search test for a lower-cased query: it occurs in the lower-cased
   * e-mail address, in the lower-cased name when there is a non-empty
   * one, or in the lower-cased template name.
   */
  predicate MatchesQuery(c: Contact, query: string) {
    || Contains(Lower(c.emailAddress), query)
    || (c.name.Some? && c.name.value != "" && Contains(Lower(c.name.value), query))
    || Contains(Lower(c.templateName), query)
  }

  /** Whether a contact survives both filters. */
  predicate Kept(c: Contact, selectedDate: Option<DayWindow>, searchQuery: string) {
    && (selectedDate.Some? ==> selectedDate.value.Holds(c.sentAt))
    && (searchQuery != "" ==> MatchesQuery(c, Lower(searchQuery)))
  }

  /** The sort key: the send time, negated for descending order. */
  function SentAtKey(sortOrder: SortOrder): Contact -> int {
    (c: Contact) => if sortOrder == Asc then c.sentAt else -c.sentAt
  }

  /**
   * The two filters of `filterAndSortContacts`, each applied only when
   * its input is set: what is left is every kept contact, each as often
   * as in the input.
   */
  method FilterContacts(contacts: seq<Contact>, selectedDate: Option<DayWindow>, searchQuery: string)
    returns (filtered: seq<Contact>)
    ensures forall c :: multiset(filtered)[c] == if Kept(c, selectedDate, searchQuery) then multiset(contacts)[c] else 0
  {
    filtered := contacts;
    if selectedDate.Some? {
      var day := selectedDate.value;
      filtered := Filter(filtered, (c: Contact) => day.Holds(c.sentAt));
    }
    if searchQuery != "" {
      var query := Lower(searchQuery);
      filtered := Filter(filtered, (c: Contact) => MatchesQuery(c, query));
    }
  }

  /** Ordered by the sort key means ordered by send time, rising or falling as `sortOrder` says. */
  lemma SortedBySentAt(xs: seq<Contact>, sortOrder: SortOrder)
    requires SortedBy(xs, SentAtKey(sortOrder))
    ensures sortOrder == Asc ==> forall i, j :: 0 <= i < j < |xs| ==> xs[i].sentAt <= xs[j].sentAt
    ensures sortOrder == Desc ==> forall i, j :: 0 <= i < j < |xs| ==> xs[i].sentAt >= xs[j].sentAt
  {
    forall i, j | 0 <= i < j < |xs|
      ensures sortOrder == Asc ==> xs[i].sentAt <= xs[j].sentAt
      ensures sortOrder == Desc ==> xs[i].sentAt >= xs[j].sentAt
    {
      assert SentAtKey(sortOrder)(xs[i]) <= SentAtKey(sortOrder)(xs[j]);
    }
  }

  /**
   * `filterAndSortContacts`: a fresh list holding exactly the contacts
   * that pass the date and search filters, each as often as in the input,
   * ordered by send time as `sortOrder` says.
   */
  method FilterAndSortContacts(contacts: seq<Contact>, sortOrder: SortOrder, selectedDate: Option<DayWindow>,
                               searchQuery: string)
    returns (result: seq<Contact>)
    ensures forall c :: multiset(result)[c] == if Kept(c, selectedDate, searchQuery) then multiset(contacts)[c] else 0
    ensures sortOrder == Asc ==> forall i, j :: 0 <= i < j < |result| ==> result[i].sentAt <= result[j].sentAt
    ensures sortOrder == Desc ==> forall i, j :: 0 <= i < j < |result| ==> result[i].sentAt >= result[j].sentAt
    ensures selectedDate.None? && searchQuery == "" ==> multiset(result) == multiset(contacts)
  {
    var filteredContacts := FilterContacts(contacts, selectedDate, searchQuery);
    result := SortByKey(filteredContacts, SentAtKey(sortOrder));
    SortedBySentAt(result, sortOrder);
  }

  /** The search is case-insensitive: an upper-cased query keeps the same contacts. */
  lemma SearchIgnoresCase(c: Contact, selectedDate: Option<DayWindow>, searchQuery: string)
    ensures Kept(c, selectedDate, Upper(searchQuery)) <==> Kept(c, selectedDate, searchQuery)
  {
    LowerUpper(searchQuery);
  }
}
