/** Optional values, standing for TypeScript's optional (`?:`) fields. */
module Wrappers {
  datatype Option<+T> = None | Some(value: T)
}

/** The records of the CRM store that the search reads. */
module Entities {
  import opened Wrappers

  type Id = string

  /** A person; `email` and `phone` may be absent. */
  datatype Contact = Contact(
    id: Id,
    firstName: string,
    lastName: string,
    email: Option<string>,
    phone: Option<string>)

  /** A deal and the ids of the contacts attached to it; an id need not name an existing contact. */
  datatype Deal = Deal(id: Id, title: string, contactIds: seq<Id>)

  /** The ids of a sequence of contacts, as `new Set(contacts.map(c => c.id))` builds them. */
  function ContactIds(cs: seq<Contact>): (ids: set<Id>)
    ensures forall c :: c in cs ==> c.id in ids
    ensures forall id :: id in ids ==> exists c :: c in cs && c.id == id
  {
    set c | c in cs :: c.id
  }

  /** The ids of a sequence of deals, as a set. */
  function DealIds(ds: seq<Deal>): set<Id> {
    set d | d in ds :: d.id
  }

  /** No two positions of `ds` hold deals with the same id. */
  predicate DistinctIds(ds: seq<Deal>) {
    forall i, j :: 0 <= i < j < |ds| ==> ds[i].id != ds[j].id
  }
}
