/** The `searchResults` computation of the global search box: from the raw query and the
    store's deals and contacts to at most five deals and at most five contacts. */
module Matcher {
  import opened Wrappers
  import opened Text
  import opened Entities

  /** Queries shorter than this (in UTF-16 code units, as `query.length` counts) produce
      no results at all. */
  const MinQueryLength: nat := 2
  /** Each result list is cut to this many entries (`slice(0, 5)`). */
  const ResultLimit: nat := 5

  datatype SearchResults = SearchResults(deals: seq<Deal>, contacts: seq<Contact>)

  // ---------------------------------------------------------------------------
  // Contacts

  /** JavaScript truthiness of an optional string field: present and not "". */
  predicate Truthy(o: Option<string>) {
    o.Some? && o.value != ""
  }

  /** The template string `${firstName} ${lastName}`. */
  function FullName(c: Contact): string {
    c.firstName + " " + c.lastName
  }

  /** The contact filter for the lower-cased query `lq`. The phone is compared as it is
      stored, against the already lower-cased query. */
  predicate ContactMatches(c: Contact, lq: string) {
    || Includes(Lower(FullName(c)), lq)
    || (Truthy(c.email) && Includes(Lower(c.email.value), lq))
    || (Truthy(c.phone) && Includes(c.phone.value, lq))
  }

  /** `contacts.filter(...)`: the matching contacts, in store order. */
  function MatchingContacts(contacts: seq<Contact>, lq: string): (r: seq<Contact>)
    ensures |r| <= |contacts|
    ensures forall c :: c in r <==> c in contacts && ContactMatches(c, lq)
  {
    if contacts == [] then []
    else
      var rest := MatchingContacts(contacts[1..], lq);
      assert forall c :: c in contacts <==> c == contacts[0] || c in contacts[1..];
      if ContactMatches(contacts[0], lq) then [contacts[0]] + rest else rest
  }

  /** Filtering distributes over concatenation: each contact is judged on its own and
      the matches keep their relative store order. */
  lemma {:induction false} MatchingContactsAppend(a: seq<Contact>, b: seq<Contact>, lq: string)
    ensures MatchingContacts(a + b, lq) == MatchingContacts(a, lq) + MatchingContacts(b, lq)
  {
    if a == [] {
      assert a + b == b;
    } else {
      assert (a + b)[1..] == a[1..] + b;
      MatchingContactsAppend(a[1..], b, lq);
    }
  }

  // ---------------------------------------------------------------------------
  // Deals

  predicate TitleMatches(d: Deal, lq: string) {
    Includes(Lower(d.title), lq)
  }

  /** `deal.contactIds.some(id => ids.has(id))`. */
  predicate LinksAny(d: Deal, ids: set<Id>) {
    exists k :: 0 <= k < |d.contactIds| && d.contactIds[k] in ids
  }

  /** The deal filter, given the ids of the matching contacts. */
  predicate DealMatches(d: Deal, lq: string, ids: set<Id>) {
    TitleMatches(d, lq) || LinksAny(d, ids)
  }

  /** The cross-reference join stated directly: some id attached to the deal is the id of
      a contact in the whole collection that matches the query. */
  predicate LinkedToMatchingContact(d: Deal, contacts: seq<Contact>, lq: string) {
    exists k, c :: 0 <= k < |d.contactIds| && c in contacts && c.id == d.contactIds[k] && ContactMatches(c, lq)
  }

  /** `deals.filter(...)`: the matching deals, in store order. */
  function MatchingDeals(deals: seq<Deal>, lq: string, ids: set<Id>): (r: seq<Deal>)
    ensures |r| <= |deals|
    ensures forall d :: d in r <==> d in deals && DealMatches(d, lq, ids)
    ensures DistinctIds(deals) ==> DistinctIds(r)
  {
    if deals == [] then []
    else
      var rest := MatchingDeals(deals[1..], lq, ids);
      assert forall d :: d in deals <==> d == deals[0] || d in deals[1..];
      if DealMatches(deals[0], lq, ids) then
        assert DistinctIds(deals) ==> forall j :: 0 <= j < |rest| ==> rest[j].id != deals[0].id by {
          if DistinctIds(deals) {
            forall j | 0 <= j < |rest| ensures rest[j].id != deals[0].id {
              assert rest[j] in deals[1..];
              var k :| 0 <= k < |deals[1..]| && deals[1..][k] == rest[j];
              assert deals[k + 1] == rest[j];
            }
          }
        }
        [deals[0]] + rest
      else rest
  }

  /** The deal filter, too, distributes over concatenation. */
  lemma {:induction false} MatchingDealsAppend(a: seq<Deal>, b: seq<Deal>, lq: string, ids: set<Id>)
    ensures MatchingDeals(a + b, lq, ids) == MatchingDeals(a, lq, ids) + MatchingDeals(b, lq, ids)
  {
    if a == [] {
      assert a + b == b;
    } else {
      assert (a + b)[1..] == a[1..] + b;
      MatchingDealsAppend(a[1..], b, lq, ids);
    }
  }

  /** Join correctness: a deal passes the filter exactly when its title contains the query
      or one of its contact ids belongs to a matching contact of the WHOLE collection;
      the five-contact cap plays no part, and ids naming no contact never help. */
  lemma JoinCorrect(deals: seq<Deal>, contacts: seq<Contact>, lq: string, d: Deal)
    ensures d in MatchingDeals(deals, lq, ContactIds(MatchingContacts(contacts, lq)))
        <==> d in deals && (TitleMatches(d, lq) || LinkedToMatchingContact(d, contacts, lq))
  {
    var ids := ContactIds(MatchingContacts(contacts, lq));
    if LinksAny(d, ids) {
      var k :| 0 <= k < |d.contactIds| && d.contactIds[k] in ids;
      var c :| c in MatchingContacts(contacts, lq) && c.id == d.contactIds[k];
      assert LinkedToMatchingContact(d, contacts, lq);
    }
    if LinkedToMatchingContact(d, contacts, lq) {
      var k, c :| 0 <= k < |d.contactIds| && c in contacts && c.id == d.contactIds[k] && ContactMatches(c, lq);
      assert d.contactIds[k] in ids;
    }
  }

  // ---------------------------------------------------------------------------
  // De-duplication: `Array.from(new Map(deals.map(d => [d.id, d])).values())`

  /** The position of the first entry with the given id, or -1 (`Map` key lookup). */
  function IndexOfId(entries: seq<Deal>, id: Id): (i: int)
    ensures -1 <= i < |entries|
    ensures 0 <= i ==> entries[i].id == id && forall j :: 0 <= j < i ==> entries[j].id != id
    ensures i < 0 ==> forall j :: 0 <= j < |entries| ==> entries[j].id != id
  {
    if entries == [] then -1
    else if entries[0].id == id then 0
    else
      var k := IndexOfId(entries[1..], id);
      if k < 0 then -1 else k + 1
  }

  /** `map.set(d.id, d)` on the entry sequence of a JavaScript `Map`: an existing key keeps
      its position and takes the new value; a new key is appended. */
  function MapSet(entries: seq<Deal>, d: Deal): (r: seq<Deal>)
    ensures d in r
    ensures DealIds(r) == DealIds(entries) + {d.id}
    ensures forall x :: x in r ==> x == d || x in entries
    ensures forall x :: x in entries && x.id != d.id ==> x in r
    ensures DistinctIds(entries) ==> DistinctIds(r) && forall x :: x in r && x.id == d.id ==> x == d
  {
    var i := IndexOfId(entries, d.id);
    if i < 0 then entries + [d]
    else
      var r := entries[i := d];
      assert r[i] == d;
      assert forall x :: x in r ==> x == d || x in entries by {
        forall x | x in r ensures x == d || x in entries {
          var j :| 0 <= j < |r| && r[j] == x;
          if j != i { assert entries[j] == x; }
        }
      }
      assert DealIds(r) == DealIds(entries) + {d.id} by {
        forall id | id in DealIds(entries) ensures id in DealIds(r) {
          var y :| y in entries && y.id == id;
          var j :| 0 <= j < |entries| && entries[j] == y;
          if j == i { assert r[i] == d; } else { assert r[j] == y; }
        }
      }
      assert forall x :: x in entries && x.id != d.id ==> x in r by {
        forall x | x in entries && x.id != d.id ensures x in r {
          var j :| 0 <= j < |entries| && entries[j] == x;
          assert r[j] == x;
        }
      }
      r
  }

  /** The values of the `Map` built from `s`, in key-insertion order. */
  function UniqueById(s: seq<Deal>): (r: seq<Deal>)
    ensures |r| <= |s|
    ensures DistinctIds(r)
    ensures DealIds(r) == DealIds(s)
    ensures forall x :: x in r ==> x in s
  {
    if s == [] then []
    else
      var p := s[..|s| - 1];
      assert s == p + [s[|s| - 1]];
      var r := MapSet(UniqueById(p), s[|s| - 1]);
      assert |r| <= |UniqueById(p)| + 1;
      r
  }

  /** When the ids are already distinct, de-duplication changes nothing. */
  lemma {:induction false} UniqueByIdOfDistinct(s: seq<Deal>)
    requires DistinctIds(s)
    ensures UniqueById(s) == s
  {
    if s != [] {
      var p := s[..|s| - 1];
      assert s == p + [s[|s| - 1]];
      assert DistinctIds(p);
      UniqueByIdOfDistinct(p);
      assert s[|s| - 1].id !in DealIds(p);
      assert IndexOfId(p, s[|s| - 1].id) < 0;
    }
  }

  /** A deal that no later deal shares an id with survives de-duplication, and it is the
      only survivor with its id: `Map.set` overwrites, so the last value for an id wins. */
  lemma {:induction false} UniqueByIdLastWins(s: seq<Deal>, j: nat)
    requires j < |s|
    requires forall k :: j < k < |s| ==> s[k].id != s[j].id
    ensures s[j] in UniqueById(s)
    ensures forall x :: x in UniqueById(s) && x.id == s[j].id ==> x == s[j]
  {
    var p := s[..|s| - 1];
    var d := s[|s| - 1];
    assert s == p + [d];
    if j < |s| - 1 {
      assert p[j] == s[j];
      UniqueByIdLastWins(p, j);
      assert s[j].id != d.id;
    }
    var r := UniqueById(s);
    forall x | x in r && x.id == s[j].id ensures x == s[j] {
      var a :| 0 <= a < |r| && r[a] == x;
      var b :| 0 <= b < |r| && r[b] == s[j];
      assert a == b;
    }
  }

  /** `IndexOfId` on a sequence extended at the end. */
  lemma {:induction false} IndexOfIdAppend(p: seq<Deal>, d: Deal, id: Id)
    ensures id in DealIds(p) ==> IndexOfId(p + [d], id) == IndexOfId(p, id)
    ensures id !in DealIds(p) && id == d.id ==> IndexOfId(p + [d], id) == |p|
  {
    if p != [] {
      assert (p + [d])[1..] == p[1..] + [d];
      assert id in DealIds(p) && p[0].id != id ==> id in DealIds(p[1..]);
      assert id in DealIds(p[1..]) ==> id in DealIds(p);
      IndexOfIdAppend(p[1..], d, id);
    }
  }

  /** The entries of `r` appear in the order in which their ids first occur in `s`. */
  predicate InFirstOccurrenceOrder(r: seq<Deal>, s: seq<Deal>) {
    forall j1, j2 :: 0 <= j1 < j2 < |r| ==> 0 <= IndexOfId(s, r[j1].id) < IndexOfId(s, r[j2].id)
  }

  /** One `Map.set` step keeps the entries in first-occurrence order. */
  lemma MapSetKeepsOrder(u: seq<Deal>, p: seq<Deal>, d: Deal)
    requires DealIds(u) == DealIds(p)
    requires InFirstOccurrenceOrder(u, p)
    ensures InFirstOccurrenceOrder(MapSet(u, d), p + [d])
  {
    var s := p + [d];
    var r := MapSet(u, d);
    forall j | 0 <= j < |u|
      ensures 0 <= IndexOfId(s, u[j].id) == IndexOfId(p, u[j].id) < |p|
    {
      assert u[j].id in DealIds(u);
      var y :| y in p && y.id == u[j].id;
      var k :| 0 <= k < |p| && p[k] == y;
      IndexOfIdAppend(p, d, u[j].id);
    }
    var i := IndexOfId(u, d.id);
    if i < 0 {
      assert d.id !in DealIds(u);
      IndexOfIdAppend(p, d, d.id);
      assert r == u + [d];
      forall j1, j2 | 0 <= j1 < j2 < |r|
        ensures 0 <= IndexOfId(s, r[j1].id) < IndexOfId(s, r[j2].id)
      {
        if j2 == |u| {
          assert r[j1] == u[j1] && r[j2] == d;
        } else {
          assert r[j1] == u[j1] && r[j2] == u[j2];
        }
      }
    } else {
      assert r == u[i := d];
      forall j1, j2 | 0 <= j1 < j2 < |r|
        ensures 0 <= IndexOfId(s, r[j1].id) < IndexOfId(s, r[j2].id)
      {
        assert r[j1].id == u[j1].id && r[j2].id == u[j2].id;
      }
    }
  }

  /** The surviving entries appear in the order in which their ids first occur in `s`:
      de-duplication keeps the position of the first deal carrying each id. */
  lemma {:induction false} UniqueByIdFirstOccurrenceOrder(s: seq<Deal>)
    ensures InFirstOccurrenceOrder(UniqueById(s), s)
  {
    if s != [] {
      var p := s[..|s| - 1];
      var d := s[|s| - 1];
      assert s == p + [d];
      UniqueByIdFirstOccurrenceOrder(p);
      MapSetKeepsOrder(UniqueById(p), p, d);
    }
  }

  // ---------------------------------------------------------------------------
  // Capping and the whole computation

  /** `s.slice(0, n)`. */
  function Take<T>(s: seq<T>, n: nat): (r: seq<T>)
    ensures |r| <= n
    ensures r <= s
    ensures |r| == n || r == s
  {
    if |s| <= n then s else s[..n]
  }

  /** The memoised `searchResults` value for the current query and store contents. */
  function Search(query: string, deals: seq<Deal>, contacts: seq<Contact>): (r: SearchResults)
    ensures Utf16Length(query) < MinQueryLength ==> r.deals == [] && r.contacts == []
    ensures |r.deals| <= ResultLimit && |r.contacts| <= ResultLimit
    ensures forall c :: c in r.contacts ==> c in contacts && ContactMatches(c, Lower(query))
    ensures forall d :: d in r.deals ==>
      d in deals && (TitleMatches(d, Lower(query)) || LinkedToMatchingContact(d, contacts, Lower(query)))
    ensures DistinctIds(r.deals)
  {
    if Utf16Length(query) < MinQueryLength then SearchResults([], [])
    else
      var lq := Lower(query);
      var matchingContacts := MatchingContacts(contacts, lq);
      var matchingContactIds := ContactIds(matchingContacts);
      var matchingDeals := MatchingDeals(deals, lq, matchingContactIds);
      var uniqueDeals := UniqueById(matchingDeals);
      var r := SearchResults(Take(uniqueDeals, ResultLimit), Take(matchingContacts, ResultLimit));
      assert forall d :: d in r.deals ==>
        d in deals && (TitleMatches(d, lq) || LinkedToMatchingContact(d, contacts, lq)) by {
        forall d | d in r.deals
          ensures d in deals && (TitleMatches(d, lq) || LinkedToMatchingContact(d, contacts, lq))
        {
          assert d in uniqueDeals;
          JoinCorrect(deals, contacts, lq, d);
        }
      }
      r
  }

  // ---------------------------------------------------------------------------
  // Properties of the whole computation

  /** The contact results are the first `min(5, n)` of the `n` matching contacts, in store
      order: nothing is ranked. */
  lemma SearchContactsAreFirstMatches(query: string, deals: seq<Deal>, contacts: seq<Contact>)
    requires Utf16Length(query) >= MinQueryLength
    ensures var all := MatchingContacts(contacts, Lower(query));
      Search(query, deals, contacts).contacts <= all &&
      |Search(query, deals, contacts).contacts| == if |all| < ResultLimit then |all| else ResultLimit
  {
  }

  /** The deal results are the first `min(5, n)` of the `n` de-duplicated matching deals. */
  lemma SearchDealsAreFirstMatches(query: string, deals: seq<Deal>, contacts: seq<Contact>)
    requires Utf16Length(query) >= MinQueryLength
    ensures var lq := Lower(query);
      var all := UniqueById(MatchingDeals(deals, lq, ContactIds(MatchingContacts(contacts, lq))));
      Search(query, deals, contacts).deals <= all &&
      |Search(query, deals, contacts).deals| == if |all| < ResultLimit then |all| else ResultLimit
  {
  }

  /** With distinct deal ids in the store, de-duplication is the identity: the deal results
      are exactly the first `min(5, n)` deals that pass the filter, in store order. */
  lemma SearchDealsOfDistinctStore(query: string, deals: seq<Deal>, contacts: seq<Contact>)
    requires Utf16Length(query) >= MinQueryLength
    requires DistinctIds(deals)
    ensures var lq := Lower(query);
      var all := MatchingDeals(deals, lq, ContactIds(MatchingContacts(contacts, lq)));
      Search(query, deals, contacts).deals <= all &&
      |Search(query, deals, contacts).deals| == if |all| < ResultLimit then |all| else ResultLimit
  {
    var lq := Lower(query);
    UniqueByIdOfDistinct(MatchingDeals(deals, lq, ContactIds(MatchingContacts(contacts, lq))));
  }

  /** A deal attached to a matching contact is among the de-duplicated deal matches even when
      that contact falls beyond the five-contact cap (with distinct ids, it is that very deal). */
  lemma JoinIgnoresContactCap(query: string, deals: seq<Deal>, contacts: seq<Contact>, c: Contact, d: Deal)
    requires Utf16Length(query) >= MinQueryLength
    requires c in contacts && ContactMatches(c, Lower(query))
    requires d in deals && c.id in d.contactIds
    ensures var lq := Lower(query);
      var all := UniqueById(MatchingDeals(deals, lq, ContactIds(MatchingContacts(contacts, lq))));
      d.id in DealIds(all) && (DistinctIds(deals) ==> d in all)
  {
    var lq := Lower(query);
    var matching := MatchingDeals(deals, lq, ContactIds(MatchingContacts(contacts, lq)));
    var k :| 0 <= k < |d.contactIds| && d.contactIds[k] == c.id;
    assert LinkedToMatchingContact(d, contacts, lq);
    JoinCorrect(deals, contacts, lq, d);
    assert d.id in DealIds(matching);
    if DistinctIds(deals) {
      UniqueByIdOfDistinct(matching);
    }
  }

  /** Only the lower-cased query matters: two queries with the same lower-casing give the
      same results. */
  lemma SearchCaseInsensitive(q1: string, q2: string, deals: seq<Deal>, contacts: seq<Contact>)
    requires Lower(q1) == Lower(q2)
    ensures Search(q1, deals, contacts) == Search(q2, deals, contacts)
  {
    LowerUtf16Length(q1);
    LowerUtf16Length(q2);
  }

  /** Searching for the lower-cased query is searching for the query itself. */
  lemma SearchLowerCased(query: string, deals: seq<Deal>, contacts: seq<Contact>)
    ensures Search(Lower(query), deals, contacts) == Search(query, deals, contacts)
  {
    LowerIdempotent(query);
    SearchCaseInsensitive(Lower(query), query, deals, contacts);
  }

  /** A deal is found through its linked contact, another through its own title, and both
      come back in store order. */
  lemma ScenarioJoinAndTitle()
    ensures var c1 := Contact("c1", "Alice", "Nguyen", Some("alice@x.com"), None);
      var d1 := Deal("d1", "Renewal", ["c1"]);
      var d2 := Deal("d2", "Alice Follow-up", []);
      Search("alice", [d1, d2], [c1]) == SearchResults([d1, d2], [c1])
  {
    var c1 := Contact("c1", "Alice", "Nguyen", Some("alice@x.com"), None);
    var d1 := Deal("d1", "Renewal", ["c1"]);
    var d2 := Deal("d2", "Alice Follow-up", []);
    var lq := Lower("alice");
    assert lq == "alice";
    assert Lower(FullName(c1))[0..5] == "alice";
    assert OccursAt(lq, Lower(FullName(c1)), 0);
    assert ContactMatches(c1, lq);
    assert [c1][1..] == [];
    assert MatchingContacts([c1], lq) == [c1];
    var ids := ContactIds([c1]);
    assert "c1" in ids;
    assert d1.contactIds[0] in ids;
    assert DealMatches(d1, lq, ids);
    assert Lower(d2.title)[0..5] == "alice";
    assert OccursAt(lq, Lower(d2.title), 0);
    assert DealMatches(d2, lq, ids);
    assert [d1, d2][1..] == [d2];
    assert [d2][1..] == [];
    assert MatchingDeals([d1, d2], lq, ids) == [d1, d2];
    UniqueByIdOfDistinct([d1, d2]);
  }

  /** The upper-case spelling of the query gives the same results. */
  lemma ScenarioUpperCaseQuery()
    ensures var c1 := Contact("c1", "Alice", "Nguyen", Some("alice@x.com"), None);
      var d1 := Deal("d1", "Renewal", ["c1"]);
      var d2 := Deal("d2", "Alice Follow-up", []);
      Search("ALICE", [d1, d2], [c1]) == SearchResults([d1, d2], [c1])
  {
    assert Lower("ALICE") == Lower("alice");
    SearchCaseInsensitive("ALICE", "alice", [Deal("d1", "Renewal", ["c1"]), Deal("d2", "Alice Follow-up", [])],
      [Contact("c1", "Alice", "Nguyen", Some("alice@x.com"), None)]);
    ScenarioJoinAndTitle();
  }

  /** Two deals with one id collapse to one entry at the first position holding the last
      value, as `new Map(...).values()` does. */
  lemma ScenarioDuplicateIds()
    ensures var a1 := Deal("a", "First", []);
      var b := Deal("b", "Other", []);
      var a2 := Deal("a", "Second", []);
      UniqueById([a1, b, a2]) == [a2, b]
  {
    var a1 := Deal("a", "First", []);
    var b := Deal("b", "Other", []);
    var a2 := Deal("a", "Second", []);
    assert [a1, b, a2][..2] == [a1, b];
    assert [a1, b][..1] == [a1];
    assert [a1][..0] == [];
    assert UniqueById([a1]) == [a1];
    assert [a1][1..] == [];
    assert UniqueById([a1, b]) == [a1, b];
    assert IndexOfId([a1, b], "a") == 0;
  }

  /** A punctuated phone number is matched as stored, by a punctuated query. */
  lemma ScenarioPunctuatedPhone()
    ensures var c := Contact("c2", "Bo", "Li", None, Some("+1 (555) 010-9999"));
      Search("010-99", [], [c]) == SearchResults([], [c])
  {
    var c := Contact("c2", "Bo", "Li", None, Some("+1 (555) 010-9999"));
    var lq := Lower("010-99");
    assert lq == "010-99";
    assert c.phone.value[9..15] == "010-99";
    assert OccursAt(lq, c.phone.value, 9);
    assert ContactMatches(c, lq);
    assert [c][1..] == [];
    assert MatchingContacts([c], lq) == [c];
  }

  /** One character above U+FFFF has JavaScript length 2, so it passes the length gate and
      finds a contact whose first name is that character. */
  lemma ScenarioAstralQuery()
    ensures var c := Contact("c", "\U{1F600}", "x", None, None);
      Utf16Length("\U{1F600}") == 2 &&
      Search("\U{1F600}", [], [c]) == SearchResults([], [c])
  {
    var c := Contact("c", "\U{1F600}", "x", None, None);
    var lq := Lower("\U{1F600}");
    assert lq == "\U{1F600}";
    assert Lower(FullName(c))[0..1] == lq;
    assert OccursAt(lq, Lower(FullName(c)), 0);
    assert ContactMatches(c, lq);
    assert [c][1..] == [];
    assert MatchingContacts([c], lq) == [c];
  }
}
