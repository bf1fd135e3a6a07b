/**
  The state machine of the PaginatedList component.

  The component holds the fetched items, a loading flag, an optional error
  message, the page size and a 1-indexed current page. The page size and the
  current page change only through the three pagination handlers; the items,
  the flag and the message change only when the one fetch issued at mount
  starts and finishes. Everything shown on screen (the page count, the
  visible items, whether each button is disabled) is derived from the state.
 */
module PaginatedList {
  import opened Pagination

  datatype Option<T> = None | Some(value: T)

  const ServerFailureMessage: string := "Server side failure when fetching posts."
  const FetchFailureMessage: string := "Failed to fetch posts."
  const DefaultItemsPerPage: int := 10
  /** The page sizes the selector offers when none are configured. */
  const DefaultItemsPerPageOptions: seq<int> := [5, 10, 20]

  /** The component's state; the item type is left abstract. */
  datatype State<T> = State(
    posts: seq<T>,
    isLoading: bool,
    error: Option<string>,
    itemsPerPage: int,
    currentPage: int)

  /** How the fetch ended: a successful response whose body parsed to
      `items`, a response whose status was not OK, or an exception thrown by
      the request or by parsing the body. */
  datatype FetchOutcome<T> = Ok(items: seq<T>) | NotOk | Threw

  /** What a user can do: press Next, press Prev, or pick a page size. */
  datatype Action = Next | Previous | Resize(size: int)

  /** The state right after mount, before the fetch starts. */
  function Initial<T>(): (s: State<T>)
    ensures s.posts == [] && !s.isLoading && s.error == None
    ensures s.itemsPerPage == DefaultItemsPerPage && s.currentPage == 1
    ensures Valid(s)
  {
    State([], false, None, DefaultItemsPerPage, 1)
  }

  // ---------------------------------------------------------------------------
  // Derived values

  /** `totalPages`. */
  function TotalPagesOf<T>(s: State<T>): (r: nat)
    requires s.itemsPerPage > 0
    ensures |s.posts| <= r * s.itemsPerPage
    ensures r == 0 || (r - 1) * s.itemsPerPage < |s.posts|
    ensures r == 0 <==> s.posts == []
  {
    TotalPages(|s.posts|, s.itemsPerPage)
  }

  /** The items on the current page. */
  function CurrentPosts<T>(s: State<T>): (r: seq<T>)
    // in a valid state, the window of the list that the current page covers
    ensures Valid(s) ==>
              var start := (s.currentPage - 1) * s.itemsPerPage;
              && 0 <= start
              && (start >= |s.posts| ==> r == [])
              && (start < |s.posts| ==> r == s.posts[start .. Min(start + s.itemsPerPage, |s.posts|)])
  {
    PageSlice(s.posts, s.itemsPerPage, s.currentPage)
  }

  /** `disabled` of the Prev button. */
  predicate PrevDisabled<T>(s: State<T>)
    // on any page from 1 on, disabled exactly when Prev would do nothing
    ensures s.currentPage >= 1 ==> (PrevDisabled(s) <==> PreviousPage(s) == s)
  {
    s.currentPage == 1
  }

  /** `disabled` of the Next button. */
  predicate NextDisabled<T>(s: State<T>)
    requires s.itemsPerPage > 0
    // a disabled Next would do nothing; with no items Next is not disabled
    ensures NextDisabled(s) ==> NextPage(s) == s
    ensures s.posts == [] && s.currentPage == 1 ==> !NextDisabled(s)
  {
    s.currentPage == TotalPagesOf(s)
  }

  /** The state invariant: a positive page size, and a current page between 1
      and the last page (page 1 when there are no pages at all). */
  predicate Valid<T>(s: State<T>)
    // the page is at least 1, and at most the page count when there are pages
    ensures Valid(s) ==>
              && s.itemsPerPage > 0 && s.currentPage >= 1
              && (TotalPagesOf(s) == 0 || s.currentPage <= TotalPagesOf(s))
    // with no items the only valid page is page 1
    ensures Valid(s) && s.posts == [] ==> s.currentPage == 1
  {
    && s.itemsPerPage > 0
    && 1 <= s.currentPage <= Max(1, TotalPagesOf(s))
  }

  // ---------------------------------------------------------------------------
  // Pagination handlers

  /** `handleNextPage`: move one page on, unless already on the last page (or
      there are no pages). */
  function NextPage<T>(s: State<T>): (r: State<T>)
    requires s.itemsPerPage > 0
    ensures r.currentPage == s.currentPage + 1 <==> s.currentPage < TotalPagesOf(s)
    ensures r.currentPage == s.currentPage || r.currentPage == s.currentPage + 1
    ensures r == s.(currentPage := r.currentPage)
  {
    if s.currentPage < TotalPagesOf(s) then s.(currentPage := s.currentPage + 1) else s
  }

  /** `handlePreviousPage`: move one page back, unless on page 1. */
  function PreviousPage<T>(s: State<T>): (r: State<T>)
    ensures r.currentPage == s.currentPage - 1 <==> s.currentPage > 1
    ensures r.currentPage == s.currentPage || r.currentPage == s.currentPage - 1
    ensures r == s.(currentPage := r.currentPage)
  {
    if s.currentPage > 1 then s.(currentPage := s.currentPage - 1) else s
  }

  /** `handleItemsPerPage`: adopt the selected page size and go back to the
      first page, whatever page was shown. */
  function ChangeItemsPerPage<T>(s: State<T>, q: int): (r: State<T>)
    ensures r.itemsPerPage == q && r.currentPage == 1
    ensures r.posts == s.posts && r.isLoading == s.isLoading && r.error == s.error
  {
    s.(itemsPerPage := q, currentPage := 1)
  }

  /** Every page size the selector offers is positive. */
  predicate PositiveOptions(options: seq<int>)
  {
    forall i :: 0 <= i < |options| ==> options[i] > 0
  }

  /** Every page size the user picks is one the selector offers. */
  predicate Allowed(acts: seq<Action>, options: seq<int>)
  {
    forall i :: 0 <= i < |acts| && acts[i].Resize? ==> acts[i].size in options
  }

  /** The default options and the initial page size are positive. */
  lemma DefaultsPositive()
    ensures PositiveOptions(DefaultItemsPerPageOptions) && DefaultItemsPerPage > 0
  {
  }

  function Apply<T>(s: State<T>, a: Action): (r: State<T>)
    requires s.itemsPerPage > 0
    requires a.Resize? ==> a.size > 0
    ensures r.itemsPerPage > 0
    ensures r.posts == s.posts && r.isLoading == s.isLoading && r.error == s.error
    ensures Valid(s) ==> Valid(r)
  {
    match a
    case Next => NextPage(s)
    case Previous => PreviousPage(s)
    case Resize(q) => ChangeItemsPerPage(s, q)
  }

  /** A sequence of user actions, applied in order. User actions never touch
      the items, the loading flag or the error, and keep the invariant. */
  function Run<T>(s: State<T>, acts: seq<Action>, options: seq<int>): (r: State<T>)
    requires s.itemsPerPage > 0
    requires PositiveOptions(options) && Allowed(acts, options)
    ensures r.itemsPerPage > 0
    ensures r.posts == s.posts && r.isLoading == s.isLoading && r.error == s.error
    ensures Valid(s) ==> Valid(r)
    decreases |acts|
  {
    if acts == [] then s
    else
      assert acts[0].Resize? ==> acts[0].size in options;
      Run(Apply(s, acts[0]), acts[1..], options)
  }

  // ---------------------------------------------------------------------------
  // The fetch

  /** `setIsLoading(true)` at the start of `fetchPosts`. */
  function BeginFetch<T>(s: State<T>): (r: State<T>)
    ensures r.isLoading
    ensures r == s.(isLoading := r.isLoading)
  {
    s.(isLoading := true)
  }

  /** Starting the fetch keeps the invariant and breaks it nowhere, and the
      `finally` clause undoes it: settling a started fetch is the same as
      settling it from the state before the start. */
  lemma BeginFetchUndone<T>(s: State<T>, o: FetchOutcome<T>)
    ensures Valid(BeginFetch(s)) <==> Valid(s)
    ensures FinishFetch(BeginFetch(s), o) == FinishFetch(s, o)
  {
  }

  /** The rest of `fetchPosts`, once the request has settled. */
  function FinishFetch<T>(s: State<T>, o: FetchOutcome<T>): (r: State<T>)
    // the `finally` clause clears the loading flag on every path
    ensures !r.isLoading
    // the fetch never touches the pagination state
    ensures r.currentPage == s.currentPage && r.itemsPerPage == s.itemsPerPage
    // an error is shown exactly when the fetch failed, and tells how
    ensures r.error == None <==> o.Ok?
    ensures o.NotOk? ==> r.error == Some(ServerFailureMessage)
    ensures o.Threw? ==> r.error == Some(FetchFailureMessage)
    // the items are replaced on success and kept otherwise
    ensures r.posts == if o.Ok? then o.items else s.posts
  {
    match o
    case Ok(items) => s.(posts := items, error := None, isLoading := false)
    case NotOk => s.(error := Some(ServerFailureMessage), isLoading := false)
    case Threw => s.(error := Some(FetchFailureMessage), isLoading := false)
  }

  /** A failed fetch keeps the invariant; a successful one keeps it exactly
      when the current page is still a page of the new items. */
  lemma FinishFetchValid<T>(s: State<T>, o: FetchOutcome<T>)
    requires Valid(s)
    ensures Valid(FinishFetch(s, o))
            <==> (o.Ok? ==> s.currentPage <= Max(1, TotalPages(|o.items|, s.itemsPerPage)))
  {
  }

  /** The component's life: mount, start the one fetch, let the user act while
      it is in flight, let it settle, let the user act again. The invariant
      holds at the end (and, since `Run` keeps it, at every step). */
  function Lifecycle<T>(options: seq<int>, before: seq<Action>, o: FetchOutcome<T>, after: seq<Action>)
    : (r: State<T>)
    requires PositiveOptions(options)
    requires Allowed(before, options) && Allowed(after, options)
    ensures Valid(r)
    ensures !r.isLoading
    ensures r.posts == if o.Ok? then o.items else []
    ensures r.error == None <==> o.Ok?
  {
    var loading := Run(BeginFetch(Initial<T>()), before, options);
    FinishFetchValid(loading, o);
    Run(FinishFetch(loading, o), after, options)
  }

  /** The component as it is mounted with its default page-size options: the
      invariant holds at the end of any run of its life. */
  lemma DefaultLifecycle<T>(before: seq<Action>, o: FetchOutcome<T>, after: seq<Action>)
    requires Allowed(before, DefaultItemsPerPageOptions) && Allowed(after, DefaultItemsPerPageOptions)
    ensures PositiveOptions(DefaultItemsPerPageOptions)
    ensures var r := Lifecycle(DefaultItemsPerPageOptions, before, o, after);
            Valid(r) && !r.isLoading && (r.error == None <==> o.Ok?)
  {
    DefaultsPositive();
  }

  /** Starting the fetch commutes with every user action, so an action taken
      before the loading flag is set leads to the same state as one taken
      just after it. */
  lemma BeginFetchCommutes<T>(s: State<T>, a: Action)
    requires s.itemsPerPage > 0
    requires a.Resize? ==> a.size > 0
    ensures Apply(BeginFetch(s), a) == BeginFetch(Apply(s, a))
  {
  }

  // ---------------------------------------------------------------------------
  // Properties of the handlers

  /** In a valid state Next does nothing exactly when it is disabled or there
      are no pages; with no pages it is enabled, since the current page (1)
      differs from the page count (0), yet pressing it does nothing. */
  lemma NextDisabledNoOp<T>(s: State<T>)
    requires Valid(s)
    ensures NextPage(s) == s <==> NextDisabled(s) || TotalPagesOf(s) == 0
    ensures TotalPagesOf(s) == 0 ==> !NextDisabled(s) && NextPage(s) == s
  {
  }

  /** Next undoes Prev. */
  lemma PreviousThenNext<T>(s: State<T>)
    requires Valid(s) && s.currentPage > 1
    ensures NextPage(PreviousPage(s)) == s
  {
  }

  /** Prev undoes Next. */
  lemma NextThenPrevious<T>(s: State<T>)
    requires Valid(s) && s.currentPage < TotalPagesOf(s)
    ensures PreviousPage(NextPage(s)) == s
  {
  }

  /** Picking a page size forgets the page that was shown, and picking the same
      size twice is the same as picking it once. */
  lemma ResizeForgetsPage<T>(s: State<T>, q: int, page: int)
    ensures ChangeItemsPerPage(s.(currentPage := page), q) == ChangeItemsPerPage(s, q)
    ensures ChangeItemsPerPage(ChangeItemsPerPage(s, q), q) == ChangeItemsPerPage(s, q)
  {
  }

  /** Pressing Next k times. */
  function NextTimes<T>(s: State<T>, k: nat): (r: State<T>)
    requires s.itemsPerPage > 0
    ensures r.itemsPerPage == s.itemsPerPage && r.posts == s.posts
    decreases k
  {
    if k == 0 then s else NextTimes(NextPage(s), k - 1)
  }

  /** Pressing Previous k times. */
  function PreviousTimes<T>(s: State<T>, k: nat): (r: State<T>)
    ensures r.itemsPerPage == s.itemsPerPage && r.posts == s.posts
    decreases k
  {
    if k == 0 then s else PreviousTimes(PreviousPage(s), k - 1)
  }

  /** Pressing Next k times moves k pages on, stopping at the last page. */
  lemma {:induction false} NextTimesPage<T>(s: State<T>, k: nat)
    requires Valid(s)
    ensures NextTimes(s, k).currentPage == Min(s.currentPage + k, Max(1, TotalPagesOf(s)))
    decreases k
  {
    if k > 0 {
      NextTimesPage(NextPage(s), k - 1);
    }
  }

  /** Pressing Prev k times moves k pages back, stopping at page 1. */
  lemma {:induction false} PreviousTimesPage<T>(s: State<T>, k: nat)
    requires s.currentPage >= 1
    ensures PreviousTimes(s, k).currentPage == Max(s.currentPage - k, 1)
    decreases k
  {
    if k > 0 {
      PreviousTimesPage(PreviousPage(s), k - 1);
    }
  }

  /** From page 1 every page can be reached with Next. */
  lemma EveryPageReachable<T>(s: State<T>, page: int)
    requires Valid(s) && s.currentPage == 1
    requires 1 <= page <= TotalPagesOf(s)
    ensures NextTimes(s, page - 1).currentPage == page
  {
    NextTimesPage(s, page - 1);
  }

  /** A valid state shows a full page before the last, the remainder on the
      last page, and never an empty page while there are items. */
  lemma CurrentPostsSize<T>(s: State<T>)
    requires Valid(s)
    ensures s.currentPage < TotalPagesOf(s) ==> |CurrentPosts(s)| == s.itemsPerPage
    ensures s.currentPage == TotalPagesOf(s) ==>
              |CurrentPosts(s)| == |s.posts| - (TotalPagesOf(s) - 1) * s.itemsPerPage
    ensures s.posts != [] ==> 1 <= |CurrentPosts(s)| <= s.itemsPerPage
    ensures s.posts == [] ==> CurrentPosts(s) == []
  {
    var t := TotalPagesOf(s);
    if s.currentPage < t {
      FullPage(s.posts, s.itemsPerPage, s.currentPage);
    } else if s.posts != [] {
      LastPage(s.posts, s.itemsPerPage);
    } else {
      PageWindow(s.posts, s.itemsPerPage, s.currentPage);
    }
  }
}
