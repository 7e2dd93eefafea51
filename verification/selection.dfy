/**
 * Choosing what the export handlers work on: the contest whose slug was
 * picked, and the three best-ranked leaderboard entries.
 */
module Selection {
  import opened Wrappers
  import opened Api

  /** Number of entries shown on the result page. */
  const TopCount: nat := 3

  // ---------------------------------------------------------------------
  // Contest lookup
  // ---------------------------------------------------------------------

  /**
   * The position of the first contest whose slug equals `slug` exactly,
   * or None when no contest has that slug.
   */
  function FirstMatch(contests: seq<Contest>, slug: string): (r: Option<nat>)
    ensures r.Some? ==> r.value < |contests| && contests[r.value].slug == slug
    ensures r.Some? ==> forall j :: 0 <= j < r.value ==> contests[j].slug != slug
    ensures r.None? <==> forall j :: 0 <= j < |contests| ==> contests[j].slug != slug
  {
    if |contests| == 0 then None
    else if contests[0].slug == slug then Some(0)
    else match FirstMatch(contests[1..], slug)
      case None => None
      case Some(i) => Some(i + 1)
  }

  /** The first contest whose slug equals `slug`, if any. */
  function FindContest(contests: seq<Contest>, slug: string): (r: Option<Contest>)
    ensures r.Some? ==> r.value in contests && r.value.slug == slug
    ensures r.None? <==> forall c :: c in contests ==> c.slug != slug
  {
    match FirstMatch(contests, slug)
    case None => None
    case Some(i) => Some(contests[i])
  }

  /** When several contests share a slug, the earliest one in the listing is taken. */
  lemma FindContestTakesEarliest(pre: seq<Contest>, c: Contest, post: seq<Contest>)
    requires forall d :: d in pre ==> d.slug != c.slug
    ensures FindContest(pre + [c] + post, c.slug) == Some(c)
  {
    var all := pre + [c] + post;
    assert all[|pre|] == c;
    assert forall j :: 0 <= j < |pre| ==> all[j] == pre[j];
  }

  // ---------------------------------------------------------------------
  // Stable sort by rank
  // ---------------------------------------------------------------------

  /** Ranks never decrease along `s`. */
  predicate SortedByRank(s: seq<Entry>) {
    forall i, j :: 0 <= i < j < |s| ==> s[i].rank <= s[j].rank
  }

  /** The entries of `s` with rank `r`, in their order in `s`. */
  function WithRank(s: seq<Entry>, r: int): seq<Entry> {
    if |s| == 0 then []
    else (if s[0].rank == r then [s[0]] else []) + WithRank(s[1..], r)
  }

  /**
   * `t` orders `s` stably by rank: ranks never decrease and, for every
   * rank, the entries with that rank appear in the same order as in `s`.
   */
  ghost predicate StableRankOrder(s: seq<Entry>, t: seq<Entry>) {
    SortedByRank(t) && forall r :: WithRank(t, r) == WithRank(s, r)
  }

  /**
   * Places `e` before the first entry of `s` whose rank is not smaller,
   * so `e` precedes every entry of `s` with the same rank.
   */
  function Insert(e: Entry, s: seq<Entry>): seq<Entry> {
    if |s| == 0 then [e]
    else if e.rank <= s[0].rank then [e] + s
    else [s[0]] + Insert(e, s[1..])
  }

  /** Python's `sorted(s, key=rank)`, as an insertion sort from the back. */
  function SortByRank(s: seq<Entry>): seq<Entry> {
    if |s| == 0 then [] else Insert(s[0], SortByRank(s[1..]))
  }

  /**
   * Inserting into a rank-sorted sequence keeps it sorted, adds exactly
   * `e`, and puts `e` in front of the entries that share its rank.
   */
  lemma {:induction false} InsertSpec(e: Entry, s: seq<Entry>)
    requires SortedByRank(s)
    ensures SortedByRank(Insert(e, s))
    ensures multiset(Insert(e, s)) == multiset(s) + multiset{e}
    ensures forall r :: WithRank(Insert(e, s), r) == (if e.rank == r then [e] else []) + WithRank(s, r)
    decreases |s|
  {
    if |s| == 0 || e.rank <= s[0].rank {
      WithRankNotAtHead(e, s);
      ConsSorted(e, s);
    } else {
      InsertSpec(e, s[1..]);
      InsertStep(e, s, Insert(e, s[1..]));
    }
  }

  /** An entry ranked no worse than the head of a sorted sequence can go in front of it. */
  lemma ConsSorted(e: Entry, s: seq<Entry>)
    requires SortedByRank(s) && (|s| == 0 || e.rank <= s[0].rank)
    ensures SortedByRank([e] + s)
  {
    var t := [e] + s;
    forall i, j | 0 <= i < j < |t|
      ensures t[i].rank <= t[j].rank
    {
      assert t[j] == s[j - 1];
      if i > 0 {
        assert t[i] == s[i - 1];
      }
    }
  }

  lemma MultisetCons(s: seq<Entry>)
    requires |s| > 0
    ensures multiset(s) == multiset{s[0]} + multiset(s[1..])
  {
    assert s == [s[0]] + s[1..];
  }

  /** The recursive case of `Insert`: `e` goes behind the head of `s`. */
  lemma InsertStep(e: Entry, s: seq<Entry>, t': seq<Entry>)
    requires SortedByRank(s) && |s| > 0 && s[0].rank < e.rank
    requires SortedByRank(t')
    requires multiset(t') == multiset(s[1..]) + multiset{e}
    requires forall r :: WithRank(t', r) == (if e.rank == r then [e] else []) + WithRank(s[1..], r)
    ensures SortedByRank([s[0]] + t')
    ensures multiset([s[0]] + t') == multiset(s) + multiset{e}
    ensures forall r :: WithRank([s[0]] + t', r) == (if e.rank == r then [e] else []) + WithRank(s, r)
  {
    InsertStepSorted(e, s, t');
    MultisetCons(s);
    forall r
      ensures WithRank([s[0]] + t', r) == (if e.rank == r then [e] else []) + WithRank(s, r)
    {
      InsertStepGroup(e, s, t', r);
    }
  }

  /** One rank group in the recursive case of `Insert`. */
  lemma InsertStepGroup(e: Entry, s: seq<Entry>, t': seq<Entry>, r: int)
    requires |s| > 0 && s[0].rank < e.rank
    requires WithRank(t', r) == (if e.rank == r then [e] else []) + WithRank(s[1..], r)
    ensures WithRank([s[0]] + t', r) == (if e.rank == r then [e] else []) + WithRank(s, r)
  {
    WithRankCons(s[0], t', r);
    WithRankUnfold(s, r);
  }

  lemma InsertStepSorted(e: Entry, s: seq<Entry>, t': seq<Entry>)
    requires SortedByRank(s) && |s| > 0 && s[0].rank < e.rank
    requires SortedByRank(t')
    requires multiset(t') == multiset(s[1..]) + multiset{e}
    ensures SortedByRank([s[0]] + t')
  {
    forall j | 0 <= j < |t'|
      ensures s[0].rank <= t'[j].rank
    {
      assert t'[j] in multiset(t');
      if t'[j] != e {
        assert t'[j] in multiset(s[1..]);
        var k :| 0 <= k < |s[1..]| && s[1..][k] == t'[j];
        assert s[k + 1] == t'[j];
      }
    }
    var t := [s[0]] + t';
    forall i, j | 0 <= i < j < |t|
      ensures t[i].rank <= t[j].rank
    {
      assert t[j] == t'[j - 1];
      if i > 0 {
        assert t[i] == t'[i - 1];
      }
    }
  }

  /** Prepending to a sequence adds the new entry in front of its rank group. */
  lemma WithRankCons(e: Entry, s: seq<Entry>, r: int)
    ensures WithRank([e] + s, r) == (if e.rank == r then [e] else []) + WithRank(s, r)
  {
    assert ([e] + s)[1..] == s;
  }

  lemma WithRankNotAtHead(e: Entry, s: seq<Entry>)
    ensures forall r :: WithRank([e] + s, r) == (if e.rank == r then [e] else []) + WithRank(s, r)
  {
    forall r
      ensures WithRank([e] + s, r) == (if e.rank == r then [e] else []) + WithRank(s, r)
    {
      WithRankCons(e, s, r);
    }
  }

  /** `SortByRank` is a stable sort by rank: a rank-sorted permutation that keeps ties in input order. */
  lemma {:induction false} SortByRankSpec(s: seq<Entry>)
    ensures StableRankOrder(s, SortByRank(s))
    ensures multiset(SortByRank(s)) == multiset(s) && |SortByRank(s)| == |s|
    decreases |s|
  {
    if |s| > 0 {
      SortByRankSpec(s[1..]);
      InsertSpec(s[0], SortByRank(s[1..]));
      forall r
        ensures WithRank(SortByRank(s), r) == WithRank(s, r)
      {
        WithRankUnfold(s, r);
      }
      assert s == [s[0]] + s[1..];
      assert multiset(s) == multiset{s[0]} + multiset(s[1..]);
      assert |multiset(SortByRank(s))| == |multiset(s)|;
    }
  }

  /** The rank group of a non-empty sequence, one step unfolded. */
  lemma WithRankUnfold(s: seq<Entry>, r: int)
    requires |s| > 0
    ensures WithRank(s, r) == (if s[0].rank == r then [s[0]] else []) + WithRank(s[1..], r)
  {
  }

  /** A non-empty sequence has a non-empty rank group for the rank of its head. */
  lemma HeadHasRankGroup(s: seq<Entry>)
    requires |s| > 0
    ensures WithRank(s, s[0].rank) == [s[0]] + WithRank(s[1..], s[0].rank)
  {
  }

  /** An entry of rank `r` is found in `s` whenever `s` has a non-empty rank-`r` group. */
  lemma {:induction false} RankGroupMember(s: seq<Entry>, r: int)
    requires |WithRank(s, r)| > 0
    ensures exists i :: 0 <= i < |s| && s[i].rank == r
    decreases |s|
  {
    if s[0].rank != r {
      RankGroupMember(s[1..], r);
      var i :| 0 <= i < |s[1..]| && s[1..][i].rank == r;
      assert s[i + 1].rank == r;
    }
  }

  /** Two non-empty rank-sorted sequences with the same rank groups start with the same entry. */
  lemma SameFirstEntry(t: seq<Entry>, u: seq<Entry>)
    requires |t| > 0 && |u| > 0 && SortedByRank(t) && SortedByRank(u)
    requires WithRank(t, t[0].rank) == WithRank(u, t[0].rank)
    requires WithRank(t, u[0].rank) == WithRank(u, u[0].rank)
    ensures t[0] == u[0]
  {
    HeadHasRankGroup(t);
    HeadHasRankGroup(u);
    if t[0].rank < u[0].rank {
      RankGroupMember(u, t[0].rank);
    } else if u[0].rank < t[0].rank {
      RankGroupMember(t, u[0].rank);
    }
    assert t[0].rank == u[0].rank;
    assert t[0] == WithRank(t, t[0].rank)[0];
    assert u[0] == WithRank(u, u[0].rank)[0];
  }

  /** Dropping a common first entry keeps the rank groups equal. */
  lemma SameTailGroups(t: seq<Entry>, u: seq<Entry>, r: int)
    requires |t| > 0 && |u| > 0 && t[0] == u[0]
    requires WithRank(t, r) == WithRank(u, r)
    ensures WithRank(t[1..], r) == WithRank(u[1..], r)
  {
    WithRankUnfold(t, r);
    WithRankUnfold(u, r);
    ConcatCancel(if t[0].rank == r then [t[0]] else [], WithRank(t[1..], r), WithRank(u[1..], r));
  }

  lemma ConcatCancel(h: seq<Entry>, a: seq<Entry>, b: seq<Entry>)
    requires h + a == h + b
    ensures a == b
  {
    assert a == (h + a)[|h|..];
    assert b == (h + b)[|h|..];
  }

  lemma SortedTail(t: seq<Entry>)
    requires |t| > 0 && SortedByRank(t)
    ensures SortedByRank(t[1..])
  {
    forall i, j | 0 <= i < j < |t[1..]|
      ensures t[1..][i].rank <= t[1..][j].rank
    {
      assert t[1..][i] == t[i + 1] && t[1..][j] == t[j + 1];
    }
  }

  /**
   * There is only one stable order by rank: two rank-sorted sequences with
   * the same rank groups are equal. So `SortByRank` is the stable sort.
   */
  lemma {:induction false} StableOrderUnique(t: seq<Entry>, u: seq<Entry>)
    requires SortedByRank(t) && SortedByRank(u)
    requires forall r :: WithRank(t, r) == WithRank(u, r)
    ensures t == u
    decreases |t|
  {
    if |t| == 0 || |u| == 0 {
      if |t| > 0 {
        HeadHasRankGroup(t);
      } else if |u| > 0 {
        HeadHasRankGroup(u);
      }
    } else {
      SameFirstEntry(t, u);
      forall r
        ensures WithRank(t[1..], r) == WithRank(u[1..], r)
      {
        SameTailGroups(t, u, r);
      }
      SortedTail(t);
      SortedTail(u);
      StableOrderUnique(t[1..], u[1..]);
      assert t == [t[0]] + t[1..];
      assert u == [u[0]] + u[1..];
    }
  }

  /** Any stable order of `s` by rank is the one `SortByRank` produces. */
  lemma SortByRankIsTheStableSort(s: seq<Entry>, t: seq<Entry>)
    requires StableRankOrder(s, t)
    ensures t == SortByRank(s)
  {
    SortByRankSpec(s);
    StableOrderUnique(t, SortByRank(s));
  }

  // ---------------------------------------------------------------------
  // Top three
  // ---------------------------------------------------------------------

  function Min(a: nat, b: nat): nat {
    if a <= b then a else b
  }

  /**
   * A prefix of a rank-sorted sequence: the entries left behind rank no
   * better than any entry kept.
   */
  lemma SortedPrefix(sorted: seq<Entry>, k: nat)
    requires SortedByRank(sorted) && k <= |sorted|
    ensures SortedByRank(sorted[..k])
    ensures multiset(sorted[..k]) <= multiset(sorted)
    ensures forall e, x :: e in multiset(sorted) - multiset(sorted[..k]) && x in sorted[..k] ==> x.rank <= e.rank
  {
    SuffixRanksNotBetter(sorted, k);
    LeftOutIsSuffix(sorted, k);
  }

  /** In a rank-sorted sequence, nothing after position `k` ranks better than anything before it. */
  lemma SuffixRanksNotBetter(sorted: seq<Entry>, k: nat)
    requires SortedByRank(sorted) && k <= |sorted|
    ensures SortedByRank(sorted[..k])
    ensures forall e, x :: e in sorted[k..] && x in sorted[..k] ==> x.rank <= e.rank
  {
    forall e, x | e in sorted[k..] && x in sorted[..k]
      ensures x.rank <= e.rank
    {
      var j :| 0 <= j < |sorted[k..]| && sorted[k..][j] == e;
      var i :| 0 <= i < |sorted[..k]| && sorted[..k][i] == x;
      assert sorted[i] == x;
      assert sorted[k + j] == e;
    }
  }

  /** What a prefix leaves out of a sequence lies in the rest of it. */
  lemma LeftOutIsSuffix(s: seq<Entry>, k: nat)
    requires k <= |s|
    ensures multiset(s[..k]) <= multiset(s)
    ensures forall e :: e in multiset(s) - multiset(s[..k]) ==> e in s[k..]
  {
    assert s == s[..k] + s[k..];
    MultisetSplit(s[..k], s[k..]);
  }

  lemma MultisetSplit(a: seq<Entry>, b: seq<Entry>)
    ensures multiset(a + b) - multiset(a) == multiset(b)
    ensures multiset(a) <= multiset(a + b)
  {
    assert multiset(a + b) == multiset(a) + multiset(b);
  }

  /**
   * `sorted(leaderboard, key=rank)[:3]`: at most three entries of the
   * leaderboard, in rank order, and no entry left out ranks better than
   * one shown.
   */
  function TopThree(leaderboard: seq<Entry>): (top: seq<Entry>)
    ensures |top| == Min(TopCount, |leaderboard|)
    ensures SortedByRank(top)
    ensures multiset(top) <= multiset(leaderboard)
    ensures forall e, x :: e in multiset(leaderboard) - multiset(top) && x in top ==> x.rank <= e.rank
  {
    var sorted := SortByRank(leaderboard);
    SortByRankSpec(leaderboard);
    SortedPrefix(sorted, Min(TopCount, |sorted|));
    sorted[..Min(TopCount, |sorted|)]
  }

  /** The top three are the first entries of the stable sort by rank, ties kept in input order. */
  lemma TopThreeIsStablePrefix(leaderboard: seq<Entry>, sorted: seq<Entry>)
    requires StableRankOrder(leaderboard, sorted)
    ensures TopThree(leaderboard) == sorted[..Min(TopCount, |sorted|)]
  {
    SortByRankIsTheStableSort(leaderboard, sorted);
  }

  function E(rank: int): Entry {
    Entry(rank, "", 0.0, None)
  }

  /** Ranks 5, 1, 3, 2, 4 give the entries ranked 1, 2, 3. */
  lemma TopThreeExample()
    ensures TopThree([E(5), E(1), E(3), E(2), E(4)]) == [E(1), E(2), E(3)]
  {
  }
}
