# PaginatedList: a Dafny model of client-side pagination

This project models the `PaginatedList` React component in
`src/components/PaginatedList.tsx`. The component fetches a list of posts once,
when it is mounted. It then shows them a page at a time. The user can go to
the next page, go to the previous page, or pick a page size from a list of
options (by default 5, 10 and 20).

The model is functional. The component's state is an immutable record
`PaginatedList.State<T>`. The post type `T` is left abstract. The record holds:

- `posts`: the fetched items;
- `isLoading`: the loading flag;
- `error`: an optional error message;
- `itemsPerPage`: the page size;
- `currentPage`: the current page, numbered from 1.

Each handler is a pure function from one state to the next. The values the
component derives on every render are pure functions of the state:

- the page count `Math.ceil(posts.length / itemsPerPage)`;
- the start index `(currentPage - 1) * itemsPerPage`;
- the visible slice `posts.slice(start, start + itemsPerPage)`;
- whether the Prev and Next buttons are disabled.

Modules:

- `Pagination` (`pagination.dfy`) holds the arithmetic. The page count is the
  exact integer ceiling `(n + p - 1) / p`. `Slice` follows JavaScript's
  `Array.prototype.slice`, including its clamping and its negative indices.
  The lemmas cover the window each page shows, full pages, the last page's
  remainder, and how the pages put together give back the list.
- `PaginatedList` (`paginated_list.dfy`) holds the state and the three
  pagination handlers. It models the fetch as two steps: `BeginFetch`
  (`setIsLoading(true)`) and `FinishFetch`, which takes an abstract outcome
  `Ok(items) | NotOk | Threw`. It also holds the state invariant `Valid` and
  the component's whole lifecycle (`Lifecycle`).
- `Scenarios` (`scenarios.dfy`) holds worked examples. Each is stated for
  every item list of the given length.

The invariant is `itemsPerPage > 0 && 1 <= currentPage <= max(1, totalPages)`.
It is a little stronger than "page at least 1, and at most the page count
when there are pages". The weaker form follows from it (the contract of `Valid`).
The stronger form is what makes a successful fetch keep the invariant. While
the fetch is in flight there are no posts, so the page must be 1. Page 1 is a
valid page of any item list.

With no items, Next is not disabled, because line 99 compares `currentPage`
(1) with `totalPages` (0). Pressing it does nothing, because line 56 checks
`currentPage < totalPages`. `NextDisabled`, `NextDisabledNoOp`,
`Scenarios.ServerFailure` and `Scenarios.NoItems` state this.

## Model

| member | source | states |
|---|---|---|
| Pagination.TotalPages | src/components/PaginatedList.tsx:51 | The page count is the ceiling of n / p: every item fits on the pages (n <= r * p) and the last page is not empty ((r - 1) * p < n). It is 0 exactly when there are no items. |
| Pagination.TotalPagesUnique | src/components/PaginatedList.tsx:51 | Any count that covers every item and leaves no page empty equals the page count, so the ceiling is characterised uniquely. |
| Pagination.Slice | src/components/PaginatedList.tsx:53 | `slice(start, end)` never returns more items than the list has. With 0 <= start <= end it returns max(0, min(end, n) - start) items, and item k of the result is item start + k of the list. |
| Pagination.StartIndex | src/components/PaginatedList.tsx:52 | With a positive page size, a page's start index is non-negative exactly when the page is numbered from 1 on. |
| Pagination.PageSlice | src/components/PaginatedList.tsx:53 | A page never holds more than p items. A page numbered from 1 holds max(0, min(p, n - start)) items, and its item k is item start + k of the list. |
| Pagination.PageWindow | src/components/PaginatedList.tsx:52-53 | For a page numbered from 1, the start index is non-negative. The visible slice is `posts[start .. min(start + p, n)]`, or empty when start >= n. |
| Pagination.FullPage | src/components/PaginatedList.tsx:51-53 | Every page before the last one shows exactly p items. |
| Pagination.LastPage | src/components/PaginatedList.tsx:51-53 | With at least one item, the last page shows n - (totalPages - 1) * p items, which is between 1 and p. |
| Pagination.PastLastPage | src/components/PaginatedList.tsx:51-53 | A page after the last one shows nothing. |
| Pagination.PagesPrefix | src/components/PaginatedList.tsx:52-53 | Pages 1 to k, concatenated in order, are the first min(k * p, n) items of the list. |
| Pagination.PagesCoverList | src/components/PaginatedList.tsx:51-53 | Pages 1 to totalPages, concatenated in order, are exactly the list: no item is lost, repeated or reordered. |
| Pagination.PageSizesAddUp | src/components/PaginatedList.tsx:51-53 | The sizes of pages 1 to totalPages add up to n. |
| Pagination.ItemPlacement | src/components/PaginatedList.tsx:51-53 | Item i is on page i / p + 1, which is between 1 and totalPages, at position i % p of that page's slice. |
| Pagination.ItemOnPage | src/components/PaginatedList.tsx:51-53 | Position `offset` (below p) of page m (m >= 1), when (m - 1) * p + offset is within the list, is item (m - 1) * p + offset, and page m is at most totalPages. |
| PaginatedList.TotalPagesOf | src/components/PaginatedList.tsx:51 | `totalPages` covers every post (n <= totalPages * p), leaves no page empty ((totalPages - 1) * p < n), and is 0 exactly when there are no posts. |
| PaginatedList.CurrentPosts | src/components/PaginatedList.tsx:52-53 | In a valid state, with start = (currentPage - 1) * p >= 0, `currentPosts` is `posts[start .. min(start + p, n)]`, or empty when start >= n. |
| PaginatedList.PrevDisabled | src/components/PaginatedList.tsx:86-89 | On any page from 1 on, Prev is disabled exactly when pressing it would do nothing. |
| PaginatedList.NextDisabled | src/components/PaginatedList.tsx:97-100 | A disabled Next does nothing when pressed. With no posts on page 1, Next is not disabled. |
| PaginatedList.Valid | src/components/PaginatedList.tsx:51-65 | A valid state has a positive page size and a page at least 1 and, when there are pages, at most the page count. With no posts, its only page is 1. |
| PaginatedList.DefaultsPositive | src/components/PaginatedList.tsx:17-22 | The default page-size options (5, 10, 20) and the initial page size (10) are all positive. |
| PaginatedList.Initial | src/components/PaginatedList.tsx:19-23 | The state at mount has no posts, is not loading, has no error, has page size 10 and is on page 1, and satisfies the invariant. |
| PaginatedList.NextPage | src/components/PaginatedList.tsx:55-59 | Next moves on exactly one page when the current page is before the page count, and otherwise stays put (also with 0 pages). Nothing but the current page changes. |
| PaginatedList.PreviousPage | src/components/PaginatedList.tsx:61-65 | Prev moves back exactly one page when the current page is above 1, and otherwise stays put. Nothing but the current page changes. |
| PaginatedList.ChangeItemsPerPage | src/components/PaginatedList.tsx:67-70 | Picking a page size sets it and goes to page 1. The posts, the loading flag and the error are unchanged. |
| PaginatedList.ResizeForgetsPage | src/components/PaginatedList.tsx:67-70 | The state after picking a page size does not depend on the page shown before. Picking the same size twice equals picking it once. |
| PaginatedList.Apply | src/components/PaginatedList.tsx:55-70 | Each user action keeps the page size positive, leaves the posts, the loading flag and the error alone, and keeps the invariant. |
| PaginatedList.Run | src/components/PaginatedList.tsx:55-70 | Any sequence of user actions, with sizes picked from positive options, keeps the page size positive, leaves the posts, the loading flag and the error alone, and keeps the invariant. |
| PaginatedList.BeginFetch | src/components/PaginatedList.tsx:25-27 | Starting the fetch sets the loading flag, and every other field is unchanged. |
| PaginatedList.BeginFetchUndone | src/components/PaginatedList.tsx:25-44 | Starting the fetch neither makes nor breaks the invariant. Settling a started fetch, whatever the outcome, gives the same state as settling it from the state before the start, because the `finally` clause clears the flag that line 27 set. |
| PaginatedList.FinishFetch | src/components/PaginatedList.tsx:25-45 | After the fetch settles, the loading flag is off whatever the outcome. The page and the page size are untouched. An error is present exactly when the fetch failed: the server-failure message for a not-OK response, the fetch-failure message for an exception. The posts are replaced on success and kept otherwise. |
| PaginatedList.FinishFetchValid | src/components/PaginatedList.tsx:25-45 | From a valid state, a failed fetch keeps the invariant. A successful one keeps it exactly when the current page is at most max(1, page count of the new items). |
| PaginatedList.Lifecycle | src/components/PaginatedList.tsx:19-70 | Mount, start the fetch, apply any user actions while it is in flight, settle it with any outcome, apply any further actions: the final state satisfies the invariant and is not loading. It holds the fetched items on success and none otherwise, and has an error exactly when the fetch failed. |
| PaginatedList.DefaultLifecycle | src/components/PaginatedList.tsx:17-70 | With the default options (5, 10, 20) as the only page sizes a user can pick, every run of the component's life ends in a state that satisfies the invariant, is not loading, and has an error exactly when the fetch failed. |
| PaginatedList.BeginFetchCommutes | src/components/PaginatedList.tsx:25-27 | Setting the loading flag commutes with Next, Previous and any positive page-size pick: an action taken before the fetch starts gives the same state as the same action taken just after. |
| PaginatedList.NextDisabledNoOp | src/components/PaginatedList.tsx:55-100 | In a valid state, Next changes nothing exactly when it is disabled or there are no pages. With no pages it is enabled yet changes nothing. |
| PaginatedList.NextThenPrevious | src/components/PaginatedList.tsx:55-65 | From a valid state before the last page, Next followed by Prev gives back the same state. |
| PaginatedList.PreviousThenNext | src/components/PaginatedList.tsx:55-65 | From a valid state above page 1, Prev followed by Next gives back the same state. |
| PaginatedList.NextTimesPage | src/components/PaginatedList.tsx:55-59 | From a valid state, pressing Next k times lands on page min(page + k, max(1, totalPages)). |
| PaginatedList.PreviousTimesPage | src/components/PaginatedList.tsx:61-65 | From any page of at least 1, pressing Prev k times lands on page max(page - k, 1). |
| PaginatedList.EveryPageReachable | src/components/PaginatedList.tsx:55-59 | From page 1, page m (1 <= m <= totalPages) is reached by pressing Next m - 1 times. |
| PaginatedList.CurrentPostsSize | src/components/PaginatedList.tsx:51-53 | In a valid state, a page before the last shows p items. The last page shows the remainder n - (totalPages - 1) * p. While there are items the visible slice holds 1 to p of them; with no items it is empty. |
| Scenarios.TwentyThreeItems | src/components/PaginatedList.tsx:51-53 | 23 fetched items at 10 per page make 3 pages. Page 1 shows items 1-10. After two presses of Next, page 3 shows items 21-23 and Next is disabled. |
| Scenarios.ServerFailure | src/components/PaginatedList.tsx:31-34 | A not-OK response leaves the server-failure message, no items, page 1 of 0, and loading off. Prev is disabled and Next is enabled, but neither changes anything. |
| Scenarios.FetchFailure | src/components/PaginatedList.tsx:40-43 | An exception leaves the fetch-failure message, no items, and loading off. |
| Scenarios.NoItems | src/components/PaginatedList.tsx:36-39 | An OK response with no items leaves no error, page 1 of 0, an empty visible slice, Prev disabled and Next enabled. |
| Scenarios.ResizeOnSecondPage | src/components/PaginatedList.tsx:67-70 | On page 2 of more than 10 items at 10 per page, picking 5 per page goes to page 1, which shows the first 5 items. |

## Left out

- The network request (`fetch` of the fixed endpoint) and `response.json()` are external calls. They appear only as the outcome passed to `FinishFetch`: `Ok(items)`, `NotOk` or `Threw`.
- React's scheduling is left out: `useState` batching, the `useEffect` that runs the fetch once on mount, and the suspension at each `await`. `Lifecycle` models the order mount, begin the fetch, user actions, settle the fetch, more user actions. An action taken before the fetch begins commutes with beginning it (`BeginFetchCommutes`), so any order of events reduces to this one.
- The rendering is left out: the JSX, the element ids, the `key` props, the loading and error paragraphs, the "page of total" text and the `<select>` markup. Only the two `disabled` flags and the visible slice are modelled, because they are logic.
- `Number(event.target.value)` is left out. `ChangeItemsPerPage` takes the chosen size as an integer. The selector offers the numbers the caller passes in the `itemsPerPageOptions` prop (line 13), and nothing checks that they are positive. Only the default `[5, 10, 20]` (line 17) is known to be positive, and it is what `src/App.tsx` uses, since it passes no prop. The invariant is proved for options that are all positive (`PositiveOptions`).
- The fields of a post (`userId`, `id`, `title`, `body`) are left out. Items have an abstract type.
- `Math.ceil` over a floating-point quotient is modelled as the exact integer ceiling. For a list length n below 2^53 and a positive integer page size p, the rounded quotient n / p is a whole number only when p divides n. So `Math.ceil` returns the exact ceiling, even though a quotient such as 23 / 10 is not exact in binary floating point. A page size of 0 gives `Infinity` pages, or `NaN` with no items, and a negative one gives a page count of 0 or less. Neither is modelled: every derived value that needs the page count requires a positive page size.
- `src/App.tsx` only mounts the component and has no logic of its own.
