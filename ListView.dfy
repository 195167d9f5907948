/** The `ItemList` component's state and its event handlers. Each request
    to the inventory service is reduced to its outcome, passed in by the
    caller: whether the call succeeded and, for a fetch, the records it
    returned. */
module ListView {
  import opened Wrappers
  import opened Items
  import opened Search
  import opened Sorting
  import opened Paging

  /** What a GET of the whole collection came back with. */
  datatype Fetched = Loaded(records: seq<Item>) | FetchFailed

  class ItemList {
    var items: seq<Item>
    var loading: bool
    var editingItem: Option<Item>
    var searchQuery: string
    var currentPage: int
    var sortField: Field
    var sortOrder: Order

    /** The pagination buttons never take the current page below 1. */
    ghost predicate Valid()
      reads this
    {
      currentPage >= 1
    }

    /** The initial `useState` values. Mounting then calls `FetchItems`. */
    constructor ()
      ensures Valid()
      ensures items == [] && loading && editingItem == None && searchQuery == ""
      ensures currentPage == 1 && sortField == Name && sortOrder == Asc
    {
      items := [];
      loading := true;
      editingItem := None;
      searchQuery := "";
      currentPage := 1;
      sortField := Name;
      sortOrder := Asc;
    }

    /** `filteredItems` for the current state. */
    function FilteredItems(): (r: seq<Item>)
      reads this
      ensures forall x :: x in r <==> x in items && Matches(x, searchQuery)
    {
      Filter(items, searchQuery)
    }

    /** `currentItems`: the rows of the table. At most a page of them, each
        a stored record that matches the search. */
    function CurrentItems(): (rows: seq<Item>)
      reads this
      ensures |rows| <= PageSize
      ensures forall x :: x in rows ==> x in items && Matches(x, searchQuery)
    {
      var sorted := SortBy(FilteredItems(), sortField, sortOrder);
      var rows := Page(sorted, currentPage);
      assert forall x :: x in rows ==> x in multiset(sorted);
      rows
    }

    /** `fetchItems`: loading is set, then the response either replaces the
        whole snapshot or, on failure, leaves it; loading ends false. */
    method FetchItems(response: Fetched)
      modifies this
      ensures items == (if response.Loaded? then response.records else old(items))
      ensures !loading
      ensures editingItem == old(editingItem) && searchQuery == old(searchQuery)
      ensures currentPage == old(currentPage)
      ensures sortField == old(sortField) && sortOrder == old(sortOrder)
    {
      loading := true;
      match response
      case Loaded(records) =>
        items := records;
        loading := false;
      case FetchFailed =>
        loading := false;
    }

    /** `handleDelete`: a successful DELETE refetches; a failed one changes
        nothing. */
    method HandleDelete(id: int, deleted: bool, refetched: Fetched)
      modifies this
      ensures deleted ==> items == (if refetched.Loaded? then refetched.records else old(items))
      ensures deleted ==> !loading
      ensures !deleted ==> items == old(items) && loading == old(loading)
      ensures editingItem == old(editingItem) && searchQuery == old(searchQuery)
      ensures currentPage == old(currentPage)
      ensures sortField == old(sortField) && sortOrder == old(sortOrder)
    {
      if deleted {
        FetchItems(refetched);
      }
    }

    /** `startEditing`: the draft becomes the chosen record. */
    method StartEditing(item: Item)
      modifies this
      ensures editingItem == Some(item)
      ensures items == old(items) && loading == old(loading)
      ensures searchQuery == old(searchQuery) && currentPage == old(currentPage)
      ensures sortField == old(sortField) && sortOrder == old(sortOrder)
    {
      editingItem := Some(item);
    }

    /** The Cancel button: the draft is dropped. */
    method CancelEditing()
      modifies this
      ensures editingItem == None
      ensures items == old(items) && loading == old(loading)
      ensures searchQuery == old(searchQuery) && currentPage == old(currentPage)
      ensures sortField == old(sortField) && sortOrder == old(sortOrder)
    {
      editingItem := None;
    }

    /** An `onChange` of one input of the edit form, which is only shown
        while a draft exists: that one field of the draft changes. */
    method EditDraft(e: Edit)
      requires editingItem.Some?
      modifies this
      ensures editingItem == Some(ApplyEdit(old(editingItem).value, e))
      ensures items == old(items) && loading == old(loading)
      ensures searchQuery == old(searchQuery) && currentPage == old(currentPage)
      ensures sortField == old(sortField) && sortOrder == old(sortOrder)
    {
      editingItem := Some(ApplyEdit(editingItem.value, e));
    }

    /** `handleUpdate`, the edit form's submit: a successful PUT clears the
        draft and refetches; a failed one leaves the draft and the
        snapshot as they were. */
    method HandleUpdate(saved: bool, refetched: Fetched)
      requires editingItem.Some?
      modifies this
      ensures saved ==> editingItem == None && !loading
      ensures saved ==> items == (if refetched.Loaded? then refetched.records else old(items))
      ensures !saved ==> editingItem == old(editingItem) && items == old(items) && loading == old(loading)
      ensures searchQuery == old(searchQuery) && currentPage == old(currentPage)
      ensures sortField == old(sortField) && sortOrder == old(sortOrder)
    {
      if saved {
        editingItem := None;
        FetchItems(refetched);
      }
    }

    /** The search box's `onChange`: only the query changes; the current
        page is neither reset nor clamped. */
    method SetSearchQuery(query: string)
      modifies this
      ensures searchQuery == query
      ensures currentPage == old(currentPage)
      ensures items == old(items) && loading == old(loading) && editingItem == old(editingItem)
      ensures sortField == old(sortField) && sortOrder == old(sortOrder)
    {
      searchQuery := query;
    }

    /** `handleSort`: a header click selects its field, descending only
        when that field was already selected in ascending order. */
    method HandleSort(field: Field)
      modifies this
      ensures (sortField, sortOrder) == NextSort(old(sortField), old(sortOrder), field)
      ensures items == old(items) && loading == old(loading) && editingItem == old(editingItem)
      ensures searchQuery == old(searchQuery) && currentPage == old(currentPage)
    {
      var newOrder := if sortField == field && sortOrder == Asc then Desc else Asc;
      sortField := field;
      sortOrder := newOrder;
    }

    /** `handlePageChange`: the current page becomes the given number. */
    method HandlePageChange(pageNumber: int)
      modifies this
      ensures currentPage == pageNumber
      ensures items == old(items) && loading == old(loading) && editingItem == old(editingItem)
      ensures searchQuery == old(searchQuery)
      ensures sortField == old(sortField) && sortOrder == old(sortOrder)
    {
      currentPage := pageNumber;
    }

    /** A click on one of the numbered page buttons. */
    method ClickPageNumber(pageNumber: int)
      requires 1 <= pageNumber <= PageCount(|FilteredItems()|)
      modifies this
      ensures Valid() && currentPage == pageNumber
      ensures items == old(items) && loading == old(loading) && editingItem == old(editingItem)
      ensures searchQuery == old(searchQuery)
      ensures sortField == old(sortField) && sortOrder == old(sortOrder)
    {
      HandlePageChange(pageNumber);
    }

    /** A click on Prev, which does nothing while it is disabled. */
    method ClickPrev()
      requires Valid()
      modifies this
      ensures Valid()
      ensures currentPage == if PrevDisabled(old(currentPage)) then old(currentPage) else old(currentPage) - 1
      ensures items == old(items) && loading == old(loading) && editingItem == old(editingItem)
      ensures searchQuery == old(searchQuery)
      ensures sortField == old(sortField) && sortOrder == old(sortOrder)
    {
      if !PrevDisabled(currentPage) {
        HandlePageChange(currentPage - 1);
      }
    }

    /** A click on Next, which does nothing while it is disabled, that is
        while the current page equals the number of page buttons. */
    method ClickNext()
      requires Valid()
      modifies this
      ensures Valid()
      ensures currentPage == if NextDisabled(old(currentPage), |old(FilteredItems())|)
                             then old(currentPage) else old(currentPage) + 1
      ensures items == old(items) && loading == old(loading) && editingItem == old(editingItem)
      ensures searchQuery == old(searchQuery)
      ensures sortField == old(sortField) && sortOrder == old(sortOrder)
    {
      var pageNumbers := BuildPageNumbers(|FilteredItems()|);
      if currentPage != |pageNumbers| {
        HandlePageChange(currentPage + 1);
      }
    }
  }

  /** The (field, order) pair a header click on `clicked` leads to. */
  function NextSort(field: Field, order: Order, clicked: Field): (Field, Order) {
    (clicked, if field == clicked && order == Asc then Desc else Asc)
  }

  /** A click always selects the clicked field; the order becomes
      descending exactly when that field was selected in ascending order. */
  lemma NextSortSpec(field: Field, order: Order, clicked: Field)
    ensures NextSort(field, order, clicked).0 == clicked
    ensures NextSort(field, order, clicked).1 == Desc <==> field == clicked && order == Asc
  {
  }

  /** Clicking the selected header twice from ascending comes back to
      ascending; a new header, clicked twice, ends descending. */
  lemma NextSortTwice(field: Field, order: Order, clicked: Field)
    ensures field == clicked && order == Asc ==>
      NextSort(NextSort(field, order, clicked).0, NextSort(field, order, clicked).1, clicked) == (field, Asc)
    ensures field != clicked ==>
      NextSort(NextSort(field, order, clicked).0, NextSort(field, order, clicked).1, clicked) == (clicked, Desc)
  {
  }

  /** The search box does not move the current page, so after a search
      that leaves fewer pages than the current page number the table is
      empty. */
  lemma StalePageShowsNothing(items: seq<Item>, query: string, f: Field, o: Order, p: int)
    requires p > PageCount(|Filter(items, query)|)
    ensures Page(SortBy(Filter(items, query), f, o), p) == []
  {
    var sorted := SortBy(Filter(items, query), f, o);
    assert |sorted| == |multiset(sorted)| == |Filter(items, query)|;
    PageBeyondData(sorted, p);
  }
}
