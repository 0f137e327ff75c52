/** Listing analysis jobs page by page, newest first. */
module JobPages {
  import opened Division
  import opened Finite
  import opened Jobs
  import opened Sorting
  import opened Text
  import opened Wrappers

  /** An empty label, status or ID does not restrict the list. */
  datatype Filter = Filter(owner: string, vodLabel: string, status: Option<Status>, includeAll: bool, limit: int,
                           before: Option<int>, beforeId: string, cancellation: Option<bool>, activeOnly: bool)

  const DEFAULT_LIMIT := 25
  const MAX_LIMIT := 100

  function PageLimit(f: Filter): (limit: nat)
    ensures 1 <= limit <= MAX_LIMIT
  {
    if f.limit <= 0 || f.limit > MAX_LIMIT then DEFAULT_LIMIT else f.limit
  }

  /** A limit counts from 1 to 100; any other asks for 25 jobs. */
  lemma PageLimitMeans(f: Filter)
    ensures PageLimit(f) == if 1 <= f.limit <= 100 then f.limit else 25
  {
  }

  // ----- The filter of the store and the filter of the database

  /** The tests of the in-memory store, one by one. */
  predicate Passes(job: Job, f: Filter) {
    && (f.includeAll || job.owner == f.owner)
    && (f.vodLabel == "" || job.vodLabel == f.vodLabel)
    && (f.status.None? || job.status == f.status.value)
    && (f.cancellation.None? || job.cancellationRequested == f.cancellation.value)
    && (!f.activeOnly || job.status == Queued || job.status == Running)
    && (f.before.None? ||
        if f.beforeId != "" && job.createdAt == f.before.value then Less(job.id, f.beforeId)
        else job.createdAt < f.before.value)
  }

  /** The condition of the database query; it trims the strings it is given. */
  predicate Selected(job: Job, f: Filter) {
    var beforeId := Trim(f.beforeId);
    && (f.includeAll || job.owner == Trim(f.owner))
    && (Trim(f.vodLabel) == "" || job.vodLabel == Trim(f.vodLabel))
    && (f.before.None?
        || (beforeId == "" && job.createdAt < f.before.value)
        || (beforeId != "" && (job.createdAt < f.before.value || (job.createdAt == f.before.value && Less(job.id, beforeId)))))
    && (f.status.None? || job.status == f.status.value)
    && (f.cancellation.None? || job.cancellationRequested == f.cancellation.value)
    && (!f.activeOnly || job.status in {Queued, Running})
  }

  function Trimmed(f: Filter): Filter {
    f.(owner := Trim(f.owner), vodLabel := Trim(f.vodLabel), beforeId := Trim(f.beforeId))
  }

  /** The database selects what the store would for the trimmed filter, so the two agree on
      every filter that is already trimmed. */
  lemma FiltersAgree(job: Job, f: Filter)
    ensures Selected(job, f) == Passes(job, Trimmed(f))
    ensures Trimmed(f) == f ==> Selected(job, f) == Passes(job, f)
  {
    hide Less;
  }

  // ----- Order

  predicate Newer(a: Job, b: Job) {
    if a.createdAt == b.createdAt then Less(b.id, a.id) else a.createdAt > b.createdAt
  }

  lemma NewerIsWeakOrder()
    ensures WeakOrder(Newer)
  {
    hide Less;
    forall x, y | Newer(x, y) ensures !Newer(y, x) {
      LessIsTotal(x.id, y.id);
      LessIsTotal(y.id, x.id);
    }
    forall x, y, z | !Newer(y, x) && !Newer(z, y) ensures !Newer(z, x) {
      NotNewerChains(x, y, z);
    }
  }

  lemma NotNewerChains(x: Job, y: Job, z: Job)
    requires !Newer(y, x) && !Newer(z, y)
    ensures !Newer(z, x)
  {
    hide Less;
    if x.createdAt == y.createdAt && y.createdAt == z.createdAt {
      NotLessChains(z.id, y.id, x.id);
    }
  }

  ghost predicate Descending(list: seq<Job>) {
    forall i, j :: 0 <= i < j < |list| ==> Newer(list[i], list[j])
  }

  /** The job is stored under its ID and passes the filter. */
  ghost predicate Listable(jobs: map<string, Job>, f: Filter, job: Job) {
    job.id in jobs && jobs[job.id] == job && Passes(job, f)
  }

  /** All jobs that pass the filter, newest first. */
  ghost predicate Listing(all: seq<Job>, jobs: map<string, Job>, f: Filter) {
    Descending(all) && forall job :: job in all <==> Listable(jobs, f, job)
  }

  function FirstOf(all: seq<Job>, limit: nat): seq<Job> {
    if |all| > limit then all[..limit] else all
  }

  /** The first jobs of the listing, as many as the limit allows. */
  ghost predicate IsPage(page: seq<Job>, jobs: map<string, Job>, f: Filter) {
    exists all :: Listing(all, jobs, f) && page == FirstOf(all, PageLimit(f))
  }

  method ListAnalysisJobs(jobs: map<string, Job>, f: Filter) returns (page: seq<Job>)
    requires forall id :: id in jobs ==> jobs[id].id == id
    ensures IsPage(page, jobs, f)
  {
    var found: seq<Job> := [];
    var remaining := jobs.Keys;
    while remaining != {}
      invariant remaining <= jobs.Keys
      invariant forall job :: job in found <==> Listable(jobs, f, job) && job.id !in remaining
      invariant forall i, j :: 0 <= i < j < |found| ==> found[i].id != found[j].id
      decreases remaining
    {
      hide Passes;
      var id :| id in remaining;
      remaining := remaining - {id};
      if Passes(jobs[id], f) {
        assert forall i :: 0 <= i < |found| ==> found[i] in found;
        found := found + [jobs[id]];
      }
    }
    hide *;
    NewerIsWeakOrder();
    var sorted := SortBy(found, Newer);
    SortedIsListing(sorted, found, jobs, f);
    page := if |sorted| > PageLimit(f) then sorted[..PageLimit(f)] else sorted;
    FirstIsPage(page, sorted, jobs, f);
  }

  lemma FirstIsPage(page: seq<Job>, all: seq<Job>, jobs: map<string, Job>, f: Filter)
    requires Listing(all, jobs, f) && page == (if |all| > PageLimit(f) then all[..PageLimit(f)] else all)
    ensures IsPage(page, jobs, f)
  {
    hide Listing;
    assert page == FirstOf(all, PageLimit(f));
  }

  lemma SortedIsListing(sorted: seq<Job>, found: seq<Job>, jobs: map<string, Job>, f: Filter)
    requires multiset(sorted) == multiset(found) && Sorted(sorted, Newer)
    requires forall job :: job in found <==> Listable(jobs, f, job) && job.id !in {}
    requires forall i, j :: 0 <= i < j < |found| ==> found[i].id != found[j].id
    ensures Listing(sorted, jobs, f)
  {
    SortedMembers(sorted, found);
    DistinctPermutation(found, sorted);
    hide Passes;
    hide Less;
    forall i, j | 0 <= i < j < |sorted| ensures Newer(sorted[i], sorted[j]) {
      assert sorted[i] in found && sorted[j] in found;
      assert !Newer(sorted[j], sorted[i]);
      assert sorted[i].id != sorted[j].id;
      LessIsTotal(sorted[i].id, sorted[j].id);
    }
  }

  // ----- Following the cursor

  datatype Cursor = Cursor(createdAt: int, id: string)

  function WithCursor(f: Filter, cursor: Option<Cursor>): Filter {
    match cursor
    case None => f.(before := None, beforeId := "")
    case Some(c) => f.(before := Some(c.createdAt), beforeId := c.id)
  }

  /** One page of the listing and, if it is full, the cursor to the next. */
  method HandlePage(jobs: map<string, Job>, f: Filter, cursor: Option<Cursor>)
    returns (page: seq<Job>, next: Option<Cursor>)
    requires forall id :: id in jobs ==> jobs[id].id == id
    requires 1 <= f.limit <= MAX_LIMIT
    ensures IsPage(page, jobs, WithCursor(f, cursor)) && |page| <= f.limit
    ensures next == if |page| == f.limit then Some(Cursor(page[|page| - 1].createdAt, page[|page| - 1].id)) else None
  {
    page := ListAnalysisJobs(jobs, WithCursor(f, cursor));
    next := None;
    if |page| == f.limit {
      var last := page[|page| - 1];
      next := Some(Cursor(last.createdAt, last.id));
    }
  }

  /** The store may have gained jobs newer than all it had, and nothing else has changed. */
  ghost predicate GrewNewer(before: map<string, Job>, after: map<string, Job>) {
    && (forall id :: id in before ==> id in after && after[id] == before[id])
    && (forall id, known :: id in after && id !in before && known in before ==> Newer(after[id], before[known]))
  }

  ghost predicate WellKeyed(jobs: map<string, Job>) {
    forall id :: id in jobs ==> jobs[id].id == id && id != ""
  }

  function CursorAt(all: seq<Job>, n: nat): Option<Cursor>
    requires n <= |all|
  {
    if n == 0 then None else Some(Cursor(all[n - 1].createdAt, all[n - 1].id))
  }

  /** Behind the cursor lies exactly the rest of the first listing, although newer jobs came. */
  lemma RestOfListing(all: seq<Job>, first: map<string, Job>, now: map<string, Job>, f: Filter, n: nat)
    requires WellKeyed(first) && WellKeyed(now) && GrewNewer(first, now) && (n == 0 ==> now == first)
    requires Listing(all, first, WithCursor(f, None)) && n <= |all|
    ensures Listing(all[n..], now, WithCursor(f, CursorAt(all, n)))
  {
    var g := WithCursor(f, CursorAt(all, n));
    if n == 0 {
      assert all[0..] == all;
    } else {
      forall job ensures job in all[n..] <==> Listable(now, g, job) {
        InRest(all, first, now, f, n, job);
      }
    }
  }

  lemma PassesBehind(job: Job, f: Filter, last: Job)
    requires last.id != ""
    ensures Passes(job, WithCursor(f, Some(Cursor(last.createdAt, last.id)))) <==>
            Passes(job, WithCursor(f, None)) && Newer(last, job)
  {
    hide Less;
  }

  lemma InRest(all: seq<Job>, first: map<string, Job>, now: map<string, Job>, f: Filter, n: nat, job: Job)
    requires WellKeyed(first) && WellKeyed(now) && GrewNewer(first, now)
    requires Listing(all, first, WithCursor(f, None)) && 0 < n <= |all|
    ensures job in all[n..] <==> Listable(now, WithCursor(f, CursorAt(all, n)), job)
  {
    var last := all[n - 1];
    assert last in all && Listable(first, WithCursor(f, None), last);
    PassesBehind(job, f, last);
    NewerIsWeakOrder();
    hide Passes;
    hide Newer;
    if job in all[n..] {
      var k :| n <= k < |all| && all[k] == job;
      assert job in all && Newer(all[n - 1], all[k]);
    }
    if Listable(now, WithCursor(f, CursorAt(all, n)), job) {
      assert job.id in first;
      assert job in all;
      var k :| 0 <= k < |all| && all[k] == job;
      OlderComesLater(all, n - 1, k);
      assert all[n..][k - n] == job;
    }
  }

  lemma OlderComesLater(all: seq<Job>, n: nat, k: nat)
    requires Descending(all) && WeakOrder(Newer) && n < |all| && k < |all| && Newer(all[n], all[k])
    ensures k > n
  {
    hide Newer;
  }

  lemma {:induction false} ListingIsUnique(a: seq<Job>, b: seq<Job>, jobs: map<string, Job>, f: Filter)
    requires Listing(a, jobs, f) && Listing(b, jobs, f)
    ensures a == b
  {
    SameDescending(a, b);
  }

  lemma {:induction false} SameDescending(a: seq<Job>, b: seq<Job>)
    requires Descending(a) && Descending(b) && forall job :: job in a <==> job in b
    ensures a == b
  {
    if a == [] {
      NoMembers(b);
    } else {
      assert a[0] in b && b != [] && b[0] in a;
      NewerIsWeakOrder();
      hide Newer;
      HeadsAgree(a, b);
      TailsAgree(a, b);
      SameDescending(a[1..], b[1..]);
      assert a == [a[0]] + a[1..] && b == [b[0]] + b[1..];
    }
  }

  lemma HeadsAgree(a: seq<Job>, b: seq<Job>)
    requires a != [] && b != [] && Descending(a) && Descending(b) && a[0] in b && b[0] in a && WeakOrder(Newer)
    ensures a[0] == b[0]
  {
    hide Newer;
    var i :| 0 <= i < |b| && b[i] == a[0];
    var j :| 0 <= j < |a| && a[j] == b[0];
    HeadIsNewest(b, i);
    HeadIsNewest(a, j);
  }

  lemma HeadIsNewest(a: seq<Job>, i: nat)
    requires Descending(a) && i < |a|
    ensures a[i] == a[0] || Newer(a[0], a[i])
  {
    hide Newer;
  }

  lemma TailsAgree(a: seq<Job>, b: seq<Job>)
    requires a != [] && b != [] && Descending(a) && Descending(b) && a[0] == b[0] && WeakOrder(Newer)
    requires forall job :: job in a <==> job in b
    ensures Descending(a[1..]) && Descending(b[1..]) && forall job :: job in a[1..] <==> job in b[1..]
  {
    hide Newer;
    forall job ensures job in a[1..] <==> job in a && job != a[0] {
      TailMember(a, job);
    }
    forall job ensures job in b[1..] <==> job in b && job != b[0] {
      TailMember(b, job);
    }
  }

  lemma TailMember(a: seq<Job>, job: Job)
    requires a != [] && Descending(a) && WeakOrder(Newer)
    ensures job in a[1..] <==> job in a && job != a[0]
  {
    hide Newer;
    if job in a[1..] {
      var k :| 0 <= k < |a| - 1 && a[1..][k] == job;
      assert Newer(a[0], a[k + 1]);
    }
  }

  lemma WholeListing(page: seq<Job>, jobs: map<string, Job>, f: Filter, cursor: Option<Cursor>) returns (all: seq<Job>)
    requires IsPage(page, jobs, WithCursor(f, cursor)) && 1 <= f.limit <= MAX_LIMIT
    ensures Listing(all, jobs, WithCursor(f, cursor)) && page == FirstOf(all, f.limit)
  {
    all :| Listing(all, jobs, WithCursor(f, cursor)) && page == FirstOf(all, PageLimit(WithCursor(f, cursor)));
    hide Listing;
  }

  /** A page continues what was collected; a page that is not full completes it. */
  lemma PageContinues(listing: seq<Job>, n: nat, limit: nat, page: seq<Job>)
    requires n <= |listing| && limit > 0 && page == FirstOf(listing[n..], limit)
    ensures n + |page| <= |listing| && listing[..n] + page == listing[..n + |page|]
    ensures |page| <= limit
    ensures |page| == limit ==> CursorAt(listing, n + |page|) == Some(Cursor(page[|page| - 1].createdAt, page[|page| - 1].id))
    ensures |page| < limit ==> listing[..n + |page|] == listing
  {
  }

  lemma PageCount(n: nat, pages: nat, limit: nat, size: nat)
    requires limit > 0 && n == pages * limit && size <= limit
    ensures size == limit ==> n + size == (pages + 1) * limit
    ensures size < limit ==> pages + 1 == (n + size) / limit + 1
  {
    if size < limit {
      assert (n + size) / limit == pages by {
        QuotientIs(n + size, limit, pages, size);
      }
    }
  }

  /** Following the cursor until there is none ends, and yields exactly the jobs that passed the
      filter at the first page, newest first, each once, for every page size and any ties, even
      when newer jobs are created between pages. */
  method FollowCursor(stores: nat -> map<string, Job>, f: Filter) returns (collected: seq<Job>, pages: nat)
    requires 1 <= f.limit <= MAX_LIMIT
    requires forall k: nat :: WellKeyed(stores(k)) && GrewNewer(stores(0), stores(k))
    ensures Listing(collected, stores(0), WithCursor(f, None))
    ensures pages == |collected| / f.limit + 1
  {
    hide Listing;
    hide GrewNewer;
    hide WithCursor;
    hide FirstOf;
    hide IsPage;
    var page, next := HandlePage(stores(0), f, None);
    ghost var listing := WholeListing(page, stores(0), f, None);
    collected, pages := page, 1;
    assert listing[0..] == listing && listing[..0] == [];
    PageContinues(listing, 0, f.limit, page);
    PageCount(0, 0, f.limit, |page|);
    while next.Some?
      invariant Listing(listing, stores(0), WithCursor(f, None))
      invariant |collected| <= |listing| && collected == listing[..|collected|]
      invariant next.Some? ==> |collected| == pages * f.limit && next == CursorAt(listing, |collected|) && |collected| > 0
      invariant next.None? ==> collected == listing && pages == |collected| / f.limit + 1
      decreases |listing| - |collected|, if next.Some? then 1 else 0
    {
      var n := |collected|;
      RestOfListing(listing, stores(0), stores(pages), f, n);
      page, next := HandlePage(stores(pages), f, next);
      ghost var rest := WholeListing(page, stores(pages), f, CursorAt(listing, n));
      ListingIsUnique(rest, listing[n..], stores(pages), WithCursor(f, CursorAt(listing, n)));
      PageContinues(listing, n, f.limit, page);
      PageCount(n, pages, f.limit, |page|);
      collected := collected + page;
      pages := pages + 1;
    }
  }
}
