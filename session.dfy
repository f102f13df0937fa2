/** The state of the global search box around the matcher: the query text, whether the
    input has focus, the two "create" modals, and the effects its handlers hand to the
    router and to the store. */
module SearchSession {
  import opened Text
  import opened Entities
  import opened Matcher

  /** Effects on collaborators outside the component, recorded instead of performed. */
  datatype Effect =
    | Navigate(path: string)          // `navigate(path)` of the router
    | ShowContactDetail(contactId: Id) // `showContactDetail(id)` of the CRM store

  /** What the dropdown shows: nothing, the result lists, or the "no results" box with
      its two create buttons. */
  datatype Panel = Hidden | Results(deals: seq<Deal>, contacts: seq<Contact>) | NoResults(query: string)

  /** The props the add-deal modal is rendered with. */
  datatype DealModalProps = DealModalProps(isOpen: bool, initialTitle: string)

  /** The route of a deal's detail page. */
  function DealPath(dealId: Id): string {
    "/deals/" + dealId
  }

  /** `showResults`: the dropdown is rendered at all. The length is JavaScript's, so a
      focused query of two characters always shows it, and one character above U+FFFF
      does too. */
  predicate ShowResults(isFocused: bool, query: string): (b: bool)
    ensures b ==> isFocused && query != []
    ensures isFocused && |query| >= MinQueryLength ==> b
    ensures Utf16Length(query) < MinQueryLength ==> !b
  {
    isFocused && Utf16Length(query) >= MinQueryLength
  }

  /** `hasResults`: at least one deal or contact came back. */
  predicate HasResults(results: SearchResults): (b: bool)
    ensures b <==> results != SearchResults([], [])
  {
    |results.deals| > 0 || |results.contacts| > 0
  }

  /** The branch the component renders for the given state and results. */
  function PanelFor(isFocused: bool, query: string, results: SearchResults): (p: Panel)
    ensures p.Hidden? <==> !isFocused || Utf16Length(query) < MinQueryLength
    ensures p.NoResults? <==> isFocused && Utf16Length(query) >= MinQueryLength && results.deals == [] && results.contacts == []
    ensures p.NoResults? ==> p.query == query
    ensures p.Results? ==> p.deals == results.deals && p.contacts == results.contacts
  {
    if !ShowResults(isFocused, query) then Hidden
    else if HasResults(results) then Results(results.deals, results.contacts)
    else NoResults(query)
  }

  /** The "no results" box is shown only when nothing in the store matches: no contact
      matches the lower-cased query and no deal title contains it. */
  lemma NoResultsMeansNothingMatches(isFocused: bool, query: string, deals: seq<Deal>, contacts: seq<Contact>)
    requires PanelFor(isFocused, query, Search(query, deals, contacts)).NoResults?
    ensures forall c :: c in contacts ==> !ContactMatches(c, Lower(query))
    ensures forall d :: d in deals ==> !TitleMatches(d, Lower(query))
  {
    var lq := Lower(query);
    var matchingContacts := MatchingContacts(contacts, lq);
    var matchingDeals := MatchingDeals(deals, lq, ContactIds(matchingContacts));
    assert Take(matchingContacts, ResultLimit) == [];
    assert matchingContacts == [];
    assert Take(UniqueById(matchingDeals), ResultLimit) == [];
    assert DealIds(matchingDeals) == {};
  }

  /** A short query never opens the dropdown, whatever the focus and the store. */
  lemma ShortQueryHidesPanel(isFocused: bool, query: string, deals: seq<Deal>, contacts: seq<Contact>)
    requires Utf16Length(query) < MinQueryLength
    ensures PanelFor(isFocused, query, Search(query, deals, contacts)) == Hidden
  {
  }

  /** The component's `useState` fields and the effects its handlers have issued. */
  class GlobalSearch {
    var query: string
    var isFocused: bool
    var isAddDealModalOpen: bool
    var isAddContactModalOpen: bool
    var effects: seq<Effect>

    /** The initial state of every `useState` hook. */
    constructor ()
      ensures query == "" && !isFocused && !isAddDealModalOpen && !isAddContactModalOpen
      ensures effects == []
    {
      query := "";
      isFocused := false;
      isAddDealModalOpen := false;
      isAddContactModalOpen := false;
      effects := [];
    }

    /** The dropdown as rendered for the current state and store contents. */
    function View(deals: seq<Deal>, contacts: seq<Contact>): Panel
      reads this
    {
      PanelFor(isFocused, query, Search(query, deals, contacts))
    }

    /** The props of the add-deal modal: the current query is offered as the title. */
    function DealModal(): (p: DealModalProps)
      reads this
      ensures p.isOpen <==> isAddDealModalOpen
      ensures p.initialTitle == query
    {
      DealModalProps(isAddDealModalOpen, query)
    }

    /** `onChange` of the input: the query becomes the typed text. */
    method Type(value: string)
      modifies this
      ensures query == value
      ensures isFocused == old(isFocused) && effects == old(effects)
      ensures isAddDealModalOpen == old(isAddDealModalOpen) && isAddContactModalOpen == old(isAddContactModalOpen)
    {
      query := value;
    }

    /** `onFocus` of the input. */
    method Focus()
      modifies this
      ensures isFocused
      ensures query == old(query) && effects == old(effects)
      ensures isAddDealModalOpen == old(isAddDealModalOpen) && isAddContactModalOpen == old(isAddContactModalOpen)
    {
      isFocused := true;
    }

    /** `handleClickOutside` for a document mousedown: `mounted` says the component's
        element exists, `targetInside` says the click landed inside it. Only a click
        outside a mounted component drops the focus. */
    method MouseDown(mounted: bool, targetInside: bool)
      modifies this
      ensures isFocused == (old(isFocused) && !(mounted && !targetInside))
      ensures query == old(query) && effects == old(effects)
      ensures isAddDealModalOpen == old(isAddDealModalOpen) && isAddContactModalOpen == old(isAddContactModalOpen)
    {
      if mounted && !targetInside {
        isFocused := false;
      }
    }

    /** `handleDealClick`: go to the deal's page, clear the query, drop the focus. */
    method DealClick(dealId: Id)
      modifies this
      ensures effects == old(effects) + [Navigate(DealPath(dealId))]
      ensures query == "" && !isFocused
      ensures isAddDealModalOpen == old(isAddDealModalOpen) && isAddContactModalOpen == old(isAddContactModalOpen)
      ensures forall ds, cs :: View(ds, cs) == Hidden
    {
      effects := effects + [Navigate(DealPath(dealId))];
      query := "";
      isFocused := false;
    }

    /** `handleContactClick`: open the contact's detail view, clear the query, drop the focus. */
    method ContactClick(contactId: Id)
      modifies this
      ensures effects == old(effects) + [ShowContactDetail(contactId)]
      ensures query == "" && !isFocused
      ensures isAddDealModalOpen == old(isAddDealModalOpen) && isAddContactModalOpen == old(isAddContactModalOpen)
      ensures forall ds, cs :: View(ds, cs) == Hidden
    {
      effects := effects + [ShowContactDetail(contactId)];
      query := "";
      isFocused := false;
    }

    /** `handleCreateDealClick`: open the add-deal modal seeded with the query, which is kept. */
    method CreateDealClick()
      modifies this
      ensures isAddDealModalOpen && !isFocused
      ensures query == old(query) && effects == old(effects)
      ensures isAddContactModalOpen == old(isAddContactModalOpen)
      ensures DealModal() == DealModalProps(true, old(query))
      ensures forall ds, cs :: View(ds, cs) == Hidden
    {
      isAddDealModalOpen := true;
      isFocused := false;
    }

    /** `handleCreateContactClick`: open the empty add-contact modal; the query is kept. */
    method CreateContactClick()
      modifies this
      ensures isAddContactModalOpen && !isFocused
      ensures query == old(query) && effects == old(effects)
      ensures isAddDealModalOpen == old(isAddDealModalOpen)
      ensures forall ds, cs :: View(ds, cs) == Hidden
    {
      isAddContactModalOpen := true;
      isFocused := false;
    }

    /** `onClose` of the add-deal modal. */
    method CloseDealModal()
      modifies this
      ensures !isAddDealModalOpen
      ensures query == old(query) && isFocused == old(isFocused) && effects == old(effects)
      ensures isAddContactModalOpen == old(isAddContactModalOpen)
    {
      isAddDealModalOpen := false;
    }

    /** `onClose` of the add-contact modal. */
    method CloseContactModal()
      modifies this
      ensures !isAddContactModalOpen
      ensures query == old(query) && isFocused == old(isFocused) && effects == old(effects)
      ensures isAddDealModalOpen == old(isAddDealModalOpen)
    {
      isAddContactModalOpen := false;
    }
  }
}
