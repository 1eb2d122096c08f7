/** The contact-page controller.  It holds the contact list, the modal and
    target state of the create, update and delete flows and a single toast
    slot, and derives the displayed list by filtering on the settled search
    term and the favorites and then sorting.  Each repository call is given
    by how it settles, so every handler is one sequential transition. */
module ContactPage {
  import opened ContactTypes
  import opened Strings
  import opened EditDistance
  import opened SortContacts
  import opened ContactFavorites
  import opened Debounce

  const SearchDelay: nat := 300

  datatype Variant = Success | Error
  datatype Toast = Toast(message: string, variant: Variant)
  datatype SortOption = SortOption(value: string, caption: string)

  const DeleteSucceededMessage: string := "The contact has been successfully deleted"
  const DeleteFailedMessage: string := "Failed to delete the contact"
  const CreateSucceededMessage: string := "The contact has been successfully created"
  const CreateFailedMessage: string := "Failed to create the contact"
  const UpdateSucceededMessage: string := "The contact has been successfully updated"
  const UpdateFailedMessage: string := "Failed to update the contact"

  function FavoriteToggledMessage(id: int, wasFavorite: bool): string {
    if wasFavorite then "Removed contact " + IntToString(id) + " from favorites"
    else "Added contact " + IntToString(id) + " to favorites"
  }

  /** The search condition: an empty term, the lower-cased "first last"
      containing the term, or either lower-cased name one edit from it. */
  predicate MatchesSearch(c: Contact, searchTerm: string) {
    var firstName := Lower(c.firstName);
    var lastName := Lower(c.lastName);
    var fullName := firstName + " " + lastName;
    var term := Lower(searchTerm);
    term == "" || Includes(fullName, term) || WithinOneEdit(firstName, term) || WithinOneEdit(lastName, term)
  }

  predicate MatchesFavorite(c: Contact, showFavoritesOnly: bool, favorites: seq<int>) {
    !showFavoritesOnly || c.id in favorites
  }

  predicate Keep(c: Contact, searchTerm: string, showFavoritesOnly: bool, favorites: seq<int>) {
    MatchesSearch(c, searchTerm) && MatchesFavorite(c, showFavoritesOnly, favorites)
  }

  /** `a` is `b` with some elements left out, order kept. */
  predicate IsSubsequence(a: seq<Contact>, b: seq<Contact>)
    decreases |b|
  {
    a == [] || (b != [] && if a[0] == b[0] then IsSubsequence(a[1..], b[1..]) else IsSubsequence(a, b[1..]))
  }

  /** The page's filter: every contact that meets both conditions, each
      copy kept, in the original order. */
  function FilterContacts(contacts: seq<Contact>, searchTerm: string, showFavoritesOnly: bool, favorites: seq<int>): (r: seq<Contact>)
    ensures forall c :: c in r <==> c in contacts && Keep(c, searchTerm, showFavoritesOnly, favorites)
    ensures forall c :: multiset(r)[c] == if Keep(c, searchTerm, showFavoritesOnly, favorites) then multiset(contacts)[c] else 0
    ensures IsSubsequence(r, contacts)
  {
    if contacts == [] then []
    else
      var rest := FilterContacts(contacts[1..], searchTerm, showFavoritesOnly, favorites);
      assert contacts == [contacts[0]] + contacts[1..];
      if Keep(contacts[0], searchTerm, showFavoritesOnly, favorites) then [contacts[0]] + rest
      else rest
  }

  function SelectedValue(selectedSort: Option<SortOption>): Option<string> {
    match selectedSort
    case None => None
    case Some(o) => Some(o.value)
  }

  /** The displayed list: the filtered list, sorted by the value of the
      selected sort option, or by no option when none is selected. */
  function DisplayedContacts(contacts: seq<Contact>, searchTerm: string, showFavoritesOnly: bool,
                             favorites: seq<int>, selectedSort: Option<SortOption>): seq<Contact> {
    SortContacts.SortContacts(FilterContacts(contacts, searchTerm, showFavoritesOnly, favorites), SelectedValue(selectedSort))
  }

  /** A contact is displayed exactly when it is in the list and meets both
      filter conditions; with no recognised sort the filtered order is kept,
      with one the list is sorted by it. */
  lemma DisplayedContactsSpec(contacts: seq<Contact>, searchTerm: string, showFavoritesOnly: bool,
                              favorites: seq<int>, selectedSort: Option<SortOption>)
    ensures forall c :: c in DisplayedContacts(contacts, searchTerm, showFavoritesOnly, favorites, selectedSort) <==>
      c in contacts && Keep(c, searchTerm, showFavoritesOnly, favorites)
    ensures multiset(DisplayedContacts(contacts, searchTerm, showFavoritesOnly, favorites, selectedSort)) ==
      multiset(FilterContacts(contacts, searchTerm, showFavoritesOnly, favorites))
    ensures ParseSortOption(SelectedValue(selectedSort)) == None ==>
      DisplayedContacts(contacts, searchTerm, showFavoritesOnly, favorites, selectedSort) ==
      FilterContacts(contacts, searchTerm, showFavoritesOnly, favorites)
    ensures ParseSortOption(SelectedValue(selectedSort)).Some? ==>
      Sorted(ParseSortOption(SelectedValue(selectedSort)).value,
             DisplayedContacts(contacts, searchTerm, showFavoritesOnly, favorites, selectedSort))
  {
    var filtered := FilterContacts(contacts, searchTerm, showFavoritesOnly, favorites);
    var shown := DisplayedContacts(contacts, searchTerm, showFavoritesOnly, favorites, selectedSort);
    assert multiset(shown) == multiset(filtered);
    forall c ensures c in shown <==> c in filtered {
      assert c in shown <==> c in multiset(shown);
      assert c in filtered <==> c in multiset(filtered);
    }
  }

  /** With no sort option selected, the displayed list is the filtered list. */
  lemma UnsortedDisplay(contacts: seq<Contact>, searchTerm: string, showFavoritesOnly: bool, favorites: seq<int>)
    ensures DisplayedContacts(contacts, searchTerm, showFavoritesOnly, favorites, None) ==
      FilterContacts(contacts, searchTerm, showFavoritesOnly, favorites)
  {
  }

  /** The delete update: every contact whose id differs from `id`, each copy
      kept, in the original order. */
  function WithoutId(contacts: seq<Contact>, id: int): (r: seq<Contact>)
    ensures forall c :: c in r <==> c in contacts && c.id != id
    ensures forall c :: multiset(r)[c] == if c.id != id then multiset(contacts)[c] else 0
    ensures IsSubsequence(r, contacts)
  {
    if contacts == [] then []
    else
      assert contacts == [contacts[0]] + contacts[1..];
      if contacts[0].id == id then WithoutId(contacts[1..], id)
      else [contacts[0]] + WithoutId(contacts[1..], id)
  }

  /** The update's replacement: each contact carrying the returned record's
      id is replaced by that record; every other contact stays. */
  function ReplaceById(contacts: seq<Contact>, updated: Contact): (r: seq<Contact>)
    ensures |r| == |contacts|
    ensures forall k :: 0 <= k < |r| ==> r[k].id == contacts[k].id
    ensures forall k :: 0 <= k < |r| ==> r[k] == if contacts[k].id == updated.id then updated else contacts[k]
  {
    if contacts == [] then []
    else [if contacts[0].id == updated.id then updated else contacts[0]] + ReplaceById(contacts[1..], updated)
  }

  /** Everything the page exposes, in one value. */
  datatype PageState = PageState(
    contacts: seq<Contact>,
    favorites: seq<int>,
    showFavoritesOnly: bool,
    confirmDeleteModalOpen: bool,
    createModalOpen: bool,
    updateModalOpen: bool,
    contactToDelete: Option<Contact>,
    contactToUpdate: Option<Contact>,
    selectedSort: Option<SortOption>,
    searchTerm: string,
    toast: Option<Toast>)

  class ContactPageController {
    var contacts: seq<Contact>
    var showFavoritesOnly: bool
    const store: Favorites
    var confirmDeleteModalOpen: bool
    var createModalOpen: bool
    var updateModalOpen: bool
    var contactToDelete: Option<Contact>
    var contactToUpdate: Option<Contact>
    var selectedSort: Option<SortOption>
    var searchTerm: string
    const search: Debouncer<string>
    var toast: Option<Toast>

    ghost predicate Valid()
      reads this, store, search
    {
      && store.Persisted()
      && search.Valid() && search.delay == SearchDelay && search.latest == searchTerm
    }

    function State(): PageState
      reads this, store
    {
      PageState(contacts, store.favorites, showFavoritesOnly, confirmDeleteModalOpen, createModalOpen,
                updateModalOpen, contactToDelete, contactToUpdate, selectedSort, searchTerm, toast)
    }

    /** What the hook returns as `contacts`. */
    function Displayed(): seq<Contact>
      reads this, store, search
    {
      DisplayedContacts(contacts, search.settled, showFavoritesOnly, store.favorites, selectedSort)
    }

    /** Mount with the given initial contacts and storage at time `start`. */
    constructor (initialContacts: seq<Contact>, stored: map<string, seq<int>>, start: int)
      ensures Valid() && fresh(store) && fresh(search)
      ensures State() == PageState(initialContacts, store.favorites, false, false, false, false,
                                   None, None, None, "", None)
      ensures FavoriteContactsKey in stored ==> store.favorites == stored[FavoriteContactsKey]
      ensures FavoriteContactsKey !in stored ==> store.favorites == []
      ensures store.storage == stored[FavoriteContactsKey := store.favorites]
      ensures search.settled == "" && search.now == start
    {
      contacts := initialContacts;
      showFavoritesOnly := false;
      store := new Favorites(stored);
      confirmDeleteModalOpen := false;
      createModalOpen := false;
      updateModalOpen := false;
      contactToDelete := None;
      contactToUpdate := None;
      selectedSort := None;
      searchTerm := "";
      search := new Debouncer("", SearchDelay, start);
      toast := None;
    }

    method HideToast()
      requires Valid()
      modifies this
      ensures Valid() && unchanged(store) && unchanged(search)
      ensures State() == old(State()).(toast := None)
    {
      toast := None;
    }

    /** Delete the contact targeted by the delete modal; `deletion` is how
        the repository's delete call settled. */
    method HandleDeleteContact(deletion: Outcome<()>)
      requires Valid()
      modifies this, store
      ensures Valid() && unchanged(search)
      ensures old(contactToDelete) == None ==> State() == old(State()) && unchanged(store)
      ensures old(contactToDelete).Some? && deletion.Resolved? ==>
        var id := old(contactToDelete).value.id;
        State() == old(State()).(
          contacts := WithoutId(old(contacts), id),
          favorites := if id in old(store.favorites) then Toggled(old(store.favorites), id) else old(store.favorites),
          toast := Some(Toast(DeleteSucceededMessage, Success)),
          confirmDeleteModalOpen := false,
          contactToDelete := None)
        && store.storage == old(store.storage)[FavoriteContactsKey := store.favorites]
      ensures old(contactToDelete).Some? && deletion.Rejected? ==>
        State() == old(State()).(
          toast := Some(Toast(DeleteFailedMessage, Error)),
          confirmDeleteModalOpen := false,
          contactToDelete := None)
        && unchanged(store)
    {
      if contactToDelete == None {
        return;
      }
      var id := contactToDelete.value.id;
      if deletion.Resolved? {
        contacts := WithoutId(contacts, id);
        if id in store.favorites {
          store.Toggle(id);
        } else {
          assert store.storage == store.storage[FavoriteContactsKey := store.favorites];
        }
        toast := Some(Toast(DeleteSucceededMessage, Success));
      } else {
        toast := Some(Toast(DeleteFailedMessage, Error));
      }
      confirmDeleteModalOpen := false;
      contactToDelete := None;
    }

    /** Create a contact; `creation` is how the repository's create call
        settled, carrying the created record with its new id. */
    method HandleCreateContact(newContact: ContactInfo, creation: Outcome<Contact>)
      requires Valid()
      modifies this
      ensures Valid() && unchanged(store) && unchanged(search)
      ensures creation.Resolved? ==>
        State() == old(State()).(
          contacts := old(contacts) + [creation.value],
          toast := Some(Toast(CreateSucceededMessage, Success)),
          createModalOpen := false)
      ensures creation.Rejected? ==>
        State() == old(State()).(
          toast := Some(Toast(CreateFailedMessage, Error)),
          createModalOpen := false)
    {
      if creation.Resolved? {
        contacts := contacts + [creation.value];
        toast := Some(Toast(CreateSucceededMessage, Success));
      } else {
        toast := Some(Toast(CreateFailedMessage, Error));
      }
      createModalOpen := false;
    }

    /** Update a contact; `update` is how the repository's update call
        settled, carrying the record the server returned. */
    method HandleUpdateContact(updatedContact: Contact, update: Outcome<Contact>)
      requires Valid()
      modifies this
      ensures Valid() && unchanged(store) && unchanged(search)
      ensures update.Resolved? ==>
        State() == old(State()).(
          contacts := ReplaceById(old(contacts), update.value),
          toast := Some(Toast(UpdateSucceededMessage, Success)),
          updateModalOpen := false,
          contactToUpdate := None)
      ensures update.Rejected? ==>
        State() == old(State()).(
          toast := Some(Toast(UpdateFailedMessage, Error)),
          updateModalOpen := false,
          contactToUpdate := None)
    {
      if update.Resolved? {
        contacts := ReplaceById(contacts, update.value);
        toast := Some(Toast(UpdateSucceededMessage, Success));
      } else {
        toast := Some(Toast(UpdateFailedMessage, Error));
      }
      updateModalOpen := false;
      contactToUpdate := None;
    }

    method OpenConfirmDeleteModal(contact: Contact)
      requires Valid()
      modifies this
      ensures Valid() && unchanged(store) && unchanged(search)
      ensures State() == old(State()).(contactToDelete := Some(contact), confirmDeleteModalOpen := true)
    {
      contactToDelete := Some(contact);
      confirmDeleteModalOpen := true;
    }

    method CloseConfirmDeleteModal()
      requires Valid()
      modifies this
      ensures Valid() && unchanged(store) && unchanged(search)
      ensures State() == old(State()).(contactToDelete := None, confirmDeleteModalOpen := false)
    {
      contactToDelete := None;
      confirmDeleteModalOpen := false;
    }

    method OpenUpdateModal(contact: Contact)
      requires Valid()
      modifies this
      ensures Valid() && unchanged(store) && unchanged(search)
      ensures State() == old(State()).(contactToUpdate := Some(contact), updateModalOpen := true)
    {
      contactToUpdate := Some(contact);
      updateModalOpen := true;
    }

    method CloseUpdateModal()
      requires Valid()
      modifies this
      ensures Valid() && unchanged(store) && unchanged(search)
      ensures State() == old(State()).(updateModalOpen := false, contactToUpdate := None)
    {
      updateModalOpen := false;
      contactToUpdate := None;
    }

    method SetCreateModalOpen(value: bool)
      requires Valid()
      modifies this
      ensures Valid() && unchanged(store) && unchanged(search)
      ensures State() == old(State()).(createModalOpen := value)
    {
      createModalOpen := value;
    }

    method SetSelectedSort(option: Option<SortOption>)
      requires Valid()
      modifies this
      ensures Valid() && unchanged(store) && unchanged(search)
      ensures State() == old(State()).(selectedSort := option)
    {
      selectedSort := option;
    }

    method SetShowFavoritesOnly(value: bool)
      requires Valid()
      modifies this
      ensures Valid() && unchanged(store) && unchanged(search)
      ensures State() == old(State()).(showFavoritesOnly := value)
    {
      showFavoritesOnly := value;
    }

    /** Typing: the raw term changes now and is handed to the debouncer,
        which restarts its wait. */
    method SetSearchTerm(term: string)
      requires Valid()
      modifies this, search
      ensures Valid() && unchanged(store)
      ensures State() == old(State()).(searchTerm := term)
      ensures search.settled == old(search.settled) && search.now == old(search.now)
      ensures search.pending == Some(Timer(term, search.now + SearchDelay)) && search.lastCall == search.now
    {
      searchTerm := term;
      search.Call(term);
    }

    /** Let time pass; the search term settles once it has been left alone
        for the debounce delay. */
    method Tick(dt: nat)
      requires Valid()
      modifies search
      ensures Valid() && unchanged(store)
      ensures State() == old(State())
      ensures search.now == old(search.now) + dt && search.lastCall == old(search.lastCall)
      ensures search.now >= search.lastCall + SearchDelay ==> search.settled == searchTerm
      ensures search.now < search.lastCall + SearchDelay ==> search.settled == old(search.settled)
    {
      search.Advance(dt);
    }

    /** Toggle a favorite and announce it, judging "added" or "removed" by
        membership before the toggle. */
    method HandleToggleFavorite(id: int)
      requires Valid()
      modifies this, store
      ensures Valid() && unchanged(search)
      ensures State() == old(State()).(
        favorites := Toggled(old(store.favorites), id),
        toast := Some(Toast(FavoriteToggledMessage(id, id in old(store.favorites)), Success)))
      ensures store.storage == old(store.storage)[FavoriteContactsKey := store.favorites]
    {
      var isFavorite := id in store.favorites;
      store.Toggle(id);
      toast := Some(Toast(FavoriteToggledMessage(id, isFavorite), Success));
    }
  }

  /** The favorites step of a successful delete, toggling only a current
      favorite, is the same as filtering the id out: the id is gone and the
      other favorites keep their order. */
  lemma DeleteUnfavorites(favorites: seq<int>, id: int)
    ensures (if id in favorites then Toggled(favorites, id) else favorites) == Remove(favorites, id)
    ensures id !in (if id in favorites then Toggled(favorites, id) else favorites)
  {
    if id !in favorites {
      RemoveAbsent(favorites, id);
    }
  }

  /** A successful update puts the returned record wherever its id was and
      leaves every other entry alone. */
  lemma UpdateReplacesMatchingIds(contacts: seq<Contact>, updated: Contact)
    requires exists k :: 0 <= k < |contacts| && contacts[k].id == updated.id
    ensures updated in ReplaceById(contacts, updated)
    ensures forall c :: c in ReplaceById(contacts, updated) && c.id != updated.id ==> c in contacts
  {
    var k :| 0 <= k < |contacts| && contacts[k].id == updated.id;
    assert ReplaceById(contacts, updated)[k] == updated;
  }

  /** The two announcements of a toggle never coincide, and differ from id
      to id. */
  lemma FavoriteMessagesDistinct(id: int, other: int, wasFavorite: bool, otherWasFavorite: bool)
    requires (id, wasFavorite) != (other, otherWasFavorite)
    ensures FavoriteToggledMessage(id, wasFavorite) != FavoriteToggledMessage(other, otherWasFavorite)
  {
    var m1 := FavoriteToggledMessage(id, wasFavorite);
    var m2 := FavoriteToggledMessage(other, otherWasFavorite);
    if wasFavorite != otherWasFavorite {
      assert m1[0] != m2[0];
    } else if m1 == m2 {
      var p := if wasFavorite then "Removed contact " else "Added contact ";
      var q := if wasFavorite then " from favorites" else " to favorites";
      assert m1 == p + IntToString(id) + q && m2 == p + IntToString(other) + q;
      var i1 := IntToString(id);
      var i2 := IntToString(other);
      assert m1[|p|..|m1| - |q|] == i1;
      assert m2[|p|..|m2| - |q|] == i2;
      IntToStringInjective(id, other);
    }
  }

  function John(): Contact { Contact(1, "John", "Doe", "Engineer", "Works in tech") }
  function Jane(): Contact { Contact(2, "Jane", "Smith", "Designer", "Creates designs") }

  lemma JaneNotInJohnDoe()
    ensures !Includes("john doe", "jane")
  {
    var s := "john doe";
    var t := "jane";
    forall k: nat ensures !OccursAt(s, t, k) {
      if k + |t| <= |s| {
        var w := s[k..k + |t|];
        assert w[0] == s[k] && w[1] == s[k + 1];
        if k == 0 {
          assert s[1] == 'o';
        } else {
          assert s[k] != 'j';
        }
      }
    }
    IncludesAt(s, t);
  }

  lemma JohnNotOneEditFromJane()
    ensures !WithinOneEdit("john", "jane")
  {
    CommonHead("john", "jane");
    assert "john"[1..] == "ohn" && "jane"[1..] == "ane";
    HeadMismatch("ohn", "ane");
    assert "ohn"[1..] == "hn" && "ane"[1..] == "ne";
  }

  lemma DoeNotOneEditFromJane()
    ensures !WithinOneEdit("doe", "jane")
  {
    HeadMismatch("doe", "jane");
    assert "jane"[1..] == "ane";
  }

  lemma JohnDoesNotMatchJane()
    ensures !MatchesSearch(John(), "Jane")
  {
    assert Lower("John") == "john" && Lower("Doe") == "doe" && Lower("Jane") == "jane";
    assert "john" + " " + "doe" == "john doe";
    JaneNotInJohnDoe();
    JohnNotOneEditFromJane();
    DoeNotOneEditFromJane();
  }

  lemma JaneMatchesJane()
    ensures MatchesSearch(Jane(), "Jane")
  {
    assert Lower("Jane") == "jane";
    WithinOneEditReflexive("jane");
  }

  lemma FilterPair(a: Contact, b: Contact, searchTerm: string, showFavoritesOnly: bool, favorites: seq<int>)
    ensures FilterContacts([a, b], searchTerm, showFavoritesOnly, favorites) ==
      (if Keep(a, searchTerm, showFavoritesOnly, favorites) then [a] else []) +
      (if Keep(b, searchTerm, showFavoritesOnly, favorites) then [b] else [])
  {
    FilterOne(b, searchTerm, showFavoritesOnly, favorites);
    assert [a, b][1..] == [b];
  }

  lemma FilterOne(b: Contact, searchTerm: string, showFavoritesOnly: bool, favorites: seq<int>)
    ensures FilterContacts([b], searchTerm, showFavoritesOnly, favorites) ==
      if Keep(b, searchTerm, showFavoritesOnly, favorites) then [b] else []
  {
    assert [b][1..] == [];
  }

  /** Searching "Jane" among John Doe and Jane Smith keeps Jane alone. */
  lemma SearchKeepsOnlyJane(favorites: seq<int>)
    ensures FilterContacts([John(), Jane()], "Jane", false, favorites) == [Jane()]
  {
    JohnDoesNotMatchJane();
    JaneMatchesJane();
    FilterPair(John(), Jane(), "Jane", false, favorites);
  }

  /** An empty search keeps John Doe and Jane Smith both. */
  lemma EmptySearchKeepsBoth(favorites: seq<int>)
    ensures FilterContacts([John(), Jane()], "", false, favorites) == [John(), Jane()]
  {
    assert Lower("") == "";
    FilterPair(John(), Jane(), "", false, favorites);
  }

  /** With favorites [1] and favorites-only on, only John Doe is listed. */
  lemma FavoritesOnlyKeepsJohn()
    ensures FilterContacts([John(), Jane()], "", true, [1]) == [John()]
  {
    assert Lower("") == "";
    FilterPair(John(), Jane(), "", true, [1]);
  }

  /** Typing "Jane" changes nothing until 300 units have passed; then the
      list narrows to Jane. */
  method SearchScenario() returns (typed: seq<Contact>, settled: seq<Contact>)
    ensures typed == [John(), Jane()] && settled == [Jane()]
  {
    var page := new ContactPageController([John(), Jane()], map[], 0);
    page.SetSearchTerm("Jane");
    var favorites := page.store.favorites;
    assert page.contacts == [John(), Jane()] && page.selectedSort == None && !page.showFavoritesOnly;
    assert page.search.settled == "";
    EmptySearchKeepsBoth(favorites);
    UnsortedDisplay([John(), Jane()], "", false, favorites);
    typed := page.Displayed();
    page.Tick(300);
    assert page.search.settled == "Jane";
    SearchKeepsOnlyJane(favorites);
    UnsortedDisplay([John(), Jane()], "Jane", false, favorites);
    settled := page.Displayed();
  }

  function Alice(): Contact { Contact(3, "Alice", "Brown", "Writer", "Writes books") }

  /** A resolved create appends the returned record and announces it. */
  method CreateScenario() returns (contacts: seq<Contact>, toast: Option<Toast>, modalOpen: bool)
    ensures contacts == [John(), Jane(), Alice()]
    ensures toast == Some(Toast(CreateSucceededMessage, Success)) && !modalOpen
  {
    var page := new ContactPageController([John(), Jane()], map[], 0);
    page.SetCreateModalOpen(true);
    page.HandleCreateContact(InfoOf(Alice()), Resolved(Alice()));
    contacts := page.contacts;
    toast := page.toast;
    modalOpen := page.createModalOpen;
  }

  /** A resolved update replaces the record with the returned id. */
  method UpdateScenario() returns (contacts: seq<Contact>, toast: Option<Toast>, modalOpen: bool)
    ensures contacts == [Contact(1, "John", "Doe", "Manager", "Leads teams"), Jane()]
    ensures toast == Some(Toast(UpdateSucceededMessage, Success)) && !modalOpen
  {
    var page := new ContactPageController([John(), Jane()], map[], 0);
    var manager := Contact(1, "John", "Doe", "Manager", "Leads teams");
    page.OpenUpdateModal(John());
    page.HandleUpdateContact(manager, Resolved(manager));
    contacts := page.contacts;
    assert contacts == [manager, Jane()] by {
      var r := ReplaceById([John(), Jane()], manager);
      assert |r| == 2 && r[0] == manager && r[1] == Jane();
    }
    toast := page.toast;
    modalOpen := page.updateModalOpen;
  }

  /** Deleting the favorited John removes him from the list and from the
      favorites, announces it and closes the modal. */
  method DeleteScenario() returns (contacts: seq<Contact>, favorites: seq<int>, toast: Option<Toast>, modalOpen: bool)
    ensures contacts == [Jane()] && favorites == []
    ensures toast == Some(Toast(DeleteSucceededMessage, Success)) && !modalOpen
  {
    var page := new ContactPageController([John(), Jane()], map[FavoriteContactsKey := [1]], 0);
    assert page.store.favorites == [1];
    page.OpenConfirmDeleteModal(John());
    page.HandleDeleteContact(Resolved(()));
    contacts := page.contacts;
    assert contacts == [Jane()] by {
      assert [John(), Jane()][1..] == [Jane()];
      assert WithoutId([Jane()], 1) == [Jane()] + WithoutId([], 1);
    }
    favorites := page.store.favorites;
    assert favorites == Remove([1], 1);
    toast := page.toast;
    modalOpen := page.confirmDeleteModalOpen;
  }

  lemma FiveMessages()
    ensures FavoriteToggledMessage(5, false) == "Added contact 5 to favorites"
    ensures FavoriteToggledMessage(5, true) == "Removed contact 5 from favorites"
  {
    assert IntToString(5) == "5";
  }

  /** Toggling id 5 twice announces the add and then the removal. */
  method ToggleFavoriteScenario() returns (first: Option<Toast>, second: Option<Toast>)
    ensures first == Some(Toast("Added contact 5 to favorites", Success))
    ensures second == Some(Toast("Removed contact 5 from favorites", Success))
  {
    var page := new ContactPageController([], map[], 0);
    FiveMessages();
    page.HandleToggleFavorite(5);
    assert page.store.favorites == [5];
    first := page.toast;
    page.HandleToggleFavorite(5);
    second := page.toast;
  }
}
