/**
 * The two reads against the contest platform: the contest listing that
 * doubles as the credential check, and the paginated leaderboard fetch.
 * The remote API is a pure function from the request's query parameters
 * to the decoded response; credentials and the contest slug are fixed
 * inside that function.
 */
module Client {
  import opened Wrappers
  import opened Api

  /** The single request made to the contest listing endpoint. */
  const ContestsRequest: PageRequest := PageRequest(0, PageLimit)

  /**
   * The contest listing check: no list when the HTTP status is not 200 or
   * the body's `status` flag is false or absent, otherwise the body's
   * `models`, the empty list when absent.
   */
  function GetContests(response: Envelope<Contest>): (r: Option<seq<Contest>>)
    ensures r.None? <==> response.code != HttpOk || !response.status.GetOr(false)
    ensures r.Some? ==> (response.models.Some? ==> r.value == response.models.value)
    ensures r.Some? ==> (response.models.None? ==> r.value == [])
  {
    if response.code != HttpOk || !response.StatusFlag() then None
    else Some(response.Models())
  }

  /**
   * Lists the contests visible with the credentials baked into `api`: one
   * request, at offset 0 with limit 100, whose check decides the result.
   */
  function ListContests(api: PageRequest -> Envelope<Contest>): (r: Option<seq<Contest>>)
    ensures var response := api(PageRequest(0, 100));
      && (r.Some? <==> response.code == HttpOk && response.StatusFlag())
      && (r.Some? ==> r.value == response.Models())
  {
    GetContests(api(ContestsRequest))
  }

  /**
   * The listing check recovers exactly the contests a successful response
   * carries, whatever they are.
   */
  lemma GetContestsRecoversListing(contests: seq<Contest>)
    ensures GetContests(Envelope(HttpOk, Some(true), Some(contests))) == Some(contests)
    ensures forall code :: code != HttpOk ==> GetContests(Envelope(code, Some(true), Some(contests))).None?
  {
  }

  /** A successful response with a false flag is a failed check, not an empty listing. */
  lemma FalseStatusIsNotEmptyListing(models: Option<seq<Contest>>)
    ensures GetContests(Envelope(HttpOk, Some(false), models)) == None
    ensures GetContests(Envelope(HttpOk, None, models)) == None
    ensures GetContests(Envelope(HttpOk, Some(true), None)) == Some([])
  {
  }

  // ---------------------------------------------------------------------
  // Leaderboard pagination
  // ---------------------------------------------------------------------

  /** The request for the `k`-th leaderboard page. */
  function PageAt(k: nat): (req: PageRequest)
    ensures req.limit == PageLimit && req.offset == k * PageLimit
  {
    PageRequest(k * PageLimit, PageLimit)
  }

  /** A response that ends the fetch loop: a non-200 status or an empty page. */
  predicate Halts(response: Envelope<Entry>) {
    response.code != HttpOk || |response.Models()| == 0
  }

  /** The API answers page `k` with a response that ends the loop. */
  predicate HaltsAt(api: PageRequest -> Envelope<Entry>, k: nat) {
    Halts(api(PageAt(k)))
  }

  /** Page `n` is the first page whose response ends the loop. */
  ghost predicate FirstHalt(api: PageRequest -> Envelope<Entry>, n: nat) {
    HaltsAt(api, n) && forall k: nat :: k < n ==> !HaltsAt(api, k)
  }

  /** The entries of pages 0 .. n-1 concatenated in page order. */
  function PagesUpTo(api: PageRequest -> Envelope<Entry>, n: nat): seq<Entry> {
    if n == 0 then [] else PagesUpTo(api, n - 1) + api(PageAt(n - 1)).Models()
  }

  /**
   * The loop from page `k` on: stops on a response that halts it, otherwise
   * keeps that page's entries and asks for the next page. The caller names
   * a page `bound` whose response halts the loop; without one the source
   * loops forever.
   */
  function FetchFrom(api: PageRequest -> Envelope<Entry>, k: nat, bound: nat): (entries: seq<Entry>)
    requires k <= bound && HaltsAt(api, bound)
    decreases bound - k
  {
    if HaltsAt(api, k) then []
    else api(PageAt(k)).Models() + FetchFrom(api, k + 1, bound)
  }

  /** The whole leaderboard, fetched from page 0. */
  function FullLeaderboard(api: PageRequest -> Envelope<Entry>, bound: nat): seq<Entry>
    requires HaltsAt(api, bound)
  {
    FetchFrom(api, 0, bound)
  }

  /** Pages `k` .. `n`-1 continue the loop and page `n` halts it. */
  ghost predicate FirstHaltFrom(api: PageRequest -> Envelope<Entry>, k: nat, n: nat) {
    k <= n && HaltsAt(api, n) && forall j: nat :: k <= j < n ==> !HaltsAt(api, j)
  }

  lemma PagesUpToStep(api: PageRequest -> Envelope<Entry>, k: nat)
    ensures PagesUpTo(api, k + 1) == PagesUpTo(api, k) + api(PageAt(k)).Models()
  {
  }

  /**
   * From page `k`, the loop returns exactly the entries of pages `k` up to
   * the first halting page `n`, and the bound it was given does not matter.
   */
  lemma {:induction false} FetchFromPages(api: PageRequest -> Envelope<Entry>, k: nat, n: nat, bound: nat)
    requires k <= bound && HaltsAt(api, bound)
    requires FirstHaltFrom(api, k, n)
    ensures PagesUpTo(api, k) + FetchFrom(api, k, bound) == PagesUpTo(api, n)
    decreases n - k
  {
    if k == n {
    } else {
      assert !HaltsAt(api, k);
      var rest := FetchFrom(api, k + 1, bound);
      assert k + 1 <= bound;
      FetchFromPages(api, k + 1, n, bound);
      PagesUpToStep(api, k);
      assert PagesUpTo(api, k) + FetchFrom(api, k, bound)
          == (PagesUpTo(api, k) + api(PageAt(k)).Models()) + rest;
    }
  }

  /** The first halting page exists at or before any halting page. */
  lemma {:induction false} FirstHaltExists(api: PageRequest -> Envelope<Entry>, bound: nat)
    requires HaltsAt(api, bound)
    ensures exists n: nat :: n <= bound && FirstHalt(api, n)
    decreases bound
  {
    if forall k: nat :: k < bound ==> !HaltsAt(api, k) {
      assert FirstHalt(api, bound);
    } else {
      var k: nat :| k < bound && HaltsAt(api, k);
      FirstHaltExists(api, k);
    }
  }

  /**
   * The fetched leaderboard is the in-order concatenation of all pages
   * before the first page that answered with a non-200 status or no entries.
   */
  lemma FullLeaderboardIsPagesBeforeHalt(api: PageRequest -> Envelope<Entry>, bound: nat, n: nat)
    requires HaltsAt(api, bound) && FirstHalt(api, n)
    ensures FullLeaderboard(api, bound) == PagesUpTo(api, n)
  {
    assert n <= bound;
    FetchFromPages(api, 0, n, bound);
  }

  /**
   * The fetch loop as the source runs it: asks for page after page at
   * offsets 0, 100, 200, ... with limit 100, appending each page's entries,
   * until a response halts it. Besides the entries it returns the number of
   * pages kept and the requests it made, in order.
   */
  method GetFullLeaderboard(api: PageRequest -> Envelope<Entry>, ghost bound: nat)
    returns (entries: seq<Entry>, pages: nat, requests: seq<PageRequest>)
    requires HaltsAt(api, bound)
    ensures FirstHalt(api, pages)
    ensures entries == PagesUpTo(api, pages)
    ensures entries == FullLeaderboard(api, bound)
    ensures |requests| == pages + 1
    ensures forall i :: 0 <= i < |requests| ==> requests[i] == PageRequest(PageLimit * i, PageLimit)
  {
    entries := [];
    var offset: nat := 0;
    pages := 0;
    requests := [];
    while true
      invariant pages <= bound && offset == PageLimit * pages
      invariant forall k: nat :: k < pages ==> !HaltsAt(api, k)
      invariant entries == PagesUpTo(api, pages)
      invariant |requests| == pages
      invariant forall i :: 0 <= i < |requests| ==> requests[i] == PageRequest(PageLimit * i, PageLimit)
      decreases bound - pages
    {
      var request := PageRequest(offset, PageLimit);
      requests := requests + [request];
      var response := api(request);
      assert request == PageAt(pages);
      if response.code != HttpOk {
        break;
      }
      var data := response.Models();
      if |data| == 0 {
        break;
      }
      entries := entries + data;
      offset := offset + PageLimit;
      pages := pages + 1;
    }
    FullLeaderboardIsPagesBeforeHalt(api, bound, pages);
  }

  /** Three pages of 100, 100 and 0 entries give the first two pages, in order. */
  lemma TwoFullPagesThenEmpty(api: PageRequest -> Envelope<Entry>, p0: seq<Entry>, p1: seq<Entry>)
    requires |p0| == 100 && |p1| == 100
    requires api(PageAt(0)) == Envelope(HttpOk, Some(true), Some(p0))
    requires api(PageAt(1)) == Envelope(HttpOk, Some(true), Some(p1))
    requires api(PageAt(2)) == Envelope(HttpOk, Some(true), Some([]))
    ensures FullLeaderboard(api, 2) == p0 + p1
    ensures |FullLeaderboard(api, 2)| == 200
  {
    assert FirstHalt(api, 2);
    FullLeaderboardIsPagesBeforeHalt(api, 2, 2);
    assert PagesUpTo(api, 1) == p0;
  }

  /** A failing second page truncates the leaderboard to the first page, without an error. */
  lemma FailureTruncates(api: PageRequest -> Envelope<Entry>, p0: seq<Entry>, code: int, bound: nat)
    requires |p0| > 0 && code != HttpOk && HaltsAt(api, bound)
    requires api(PageAt(0)).code == HttpOk && api(PageAt(0)).Models() == p0
    requires api(PageAt(1)).code == code
    ensures FullLeaderboard(api, bound) == p0
  {
    assert FirstHalt(api, 1);
    FullLeaderboardIsPagesBeforeHalt(api, bound, 1);
    assert PagesUpTo(api, 1) == p0;
  }
}
