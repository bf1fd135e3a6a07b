/**
  Worked scenarios of the PaginatedList component, each stated for every
  item list of the given length.
 */
module Scenarios {
  import opened Pagination
  import opened PaginatedList

  /** 23 items, 10 per page: three pages; page 1 shows items 1-10, page 3
      shows items 21-23, and Next is disabled on page 3. */
  lemma TwentyThreeItems<T>(posts: seq<T>)
    requires |posts| == 23
    ensures var s := FinishFetch(BeginFetch(Initial<T>()), Ok(posts));
            && TotalPagesOf(s) == 3
            && CurrentPosts(s) == posts[..10]
            && CurrentPosts(NextTimes(s, 2)) == posts[20..]
            && NextDisabled(NextTimes(s, 2))
  {
    var s := FinishFetch(BeginFetch(Initial<T>()), Ok(posts));
    PageWindow(posts, 10, 1);
    NextTimesPage(s, 2);
    PageWindow(posts, 10, 3);
  }

  /** A response that is not OK: the server-failure message, no items, the
      indicator reads "1 of 0", Prev is disabled, and Next is enabled (its
      `disabled` test compares 1 with 0) though pressing it does nothing. */
  lemma ServerFailure<T>()
    ensures var s := FinishFetch(BeginFetch(Initial<T>()), NotOk);
            && s.error == Some(ServerFailureMessage)
            && s.posts == [] && !s.isLoading
            && s.currentPage == 1 && TotalPagesOf(s) == 0
            && PrevDisabled(s) && !NextDisabled(s)
            && NextPage(s) == s && PreviousPage(s) == s
  {
  }

  /** A request that throws: the fetch-failure message. */
  lemma FetchFailure<T>()
    ensures var s := FinishFetch(BeginFetch(Initial<T>()), Threw);
            s.error == Some(FetchFailureMessage) && s.posts == [] && !s.isLoading
  {
  }

  /** An OK response with no items: no error, no pages, "1 of 0", and the
      same button states as after a server failure. */
  lemma NoItems<T>()
    ensures var s := FinishFetch(BeginFetch(Initial<T>()), Ok([]));
            && s.error == None
            && TotalPagesOf(s) == 0 && s.currentPage == 1
            && CurrentPosts(s) == []
            && PrevDisabled(s) && !NextDisabled(s)
  {
  }

  /** Picking 5 per page while on page 2 of a 10-per-page view goes back to
      page 1, which then shows the first 5 items. */
  lemma ResizeOnSecondPage<T>(posts: seq<T>)
    requires |posts| > 10
    ensures var s := NextPage(FinishFetch(BeginFetch(Initial<T>()), Ok(posts)));
            && s.currentPage == 2
            && ChangeItemsPerPage(s, 5).currentPage == 1
            && CurrentPosts(ChangeItemsPerPage(s, 5)) == posts[..5]
  {
    PageWindow(posts, 5, 1);
  }
}
