/**
 * The GitHub statistics handlers: a commit-per-day histogram, per-language byte totals, the star
 * total and the six most starred repositories of one account.
 *
 * The repository listing and every per-repository fetch are inputs of the model. `listing` is
 * `None` when the listing request or its decoding failed; `commitsOf(name)` and
 * `langsOf(languagesUrl)` are `None` when that repository's request or decoding failed, and
 * otherwise hold the decoded commit author dates and the decoded language map. The concurrent
 * fan-out over repositories is modelled as a sequential fold: every merge it performs is
 * commutative, and the lemmas below show that the results do not depend on the order of the
 * repositories.
 */
module Stats {
  import opened Wrappers
  import opened Sequences

  datatype RepoInfo = RepoInfo(name: string, fork: bool, languagesUrl: string, stargazersCount: int, htmlUrl: string)

  /** One histogram entry, `{"date": ..., "count": ...}`. */
  datatype DayCount = DayCount(date: string, count: int)

  /** One entry of the top-repository answer, `{"name": ..., "url": ..., "stars": ...}`. */
  datatype TopRepo = TopRepo(name: string, url: string, stars: int)

  /** A handler's answer: the JSON value on success, or a status with `{"error": ...}`. */
  datatype Reply<T> = Json(value: T) | Failure(status: int, error: string)

  const RepoFetchFailed := "repo_fetch_failed"

  /** Sum of `f` over `s`. */
  function SumOf<T>(s: seq<T>, f: T -> int): int {
    if |s| == 0 then 0 else SumOf(s[..|s| - 1], f) + f(s[|s| - 1])
  }

  lemma {:induction false} SumOfConcat<T>(a: seq<T>, b: seq<T>, f: T -> int)
    ensures SumOf(a + b, f) == SumOf(a, f) + SumOf(b, f)
  {
    if |b| == 0 {
      assert a + b == a;
    } else {
      assert (a + b)[..|a + b| - 1] == a + b[..|b| - 1];
      SumOfConcat(a, b[..|b| - 1], f);
    }
  }

  /** Taking `x` out from between `p` and `q` takes its value out of the sum. */
  lemma SumOfSplit<T>(p: seq<T>, x: T, q: seq<T>, f: T -> int)
    ensures SumOf(p + ([x] + q), f) == SumOf(p + q, f) + f(x)
  {
    SumOfConcat(p, [x] + q, f);
    SumOfConcat([x], q, f);
    SumOfConcat(p, q, f);
    assert SumOf([x], f) == f(x) by {
      assert [x][..0] == [];
    }
  }

  /** `b` around its element at `k`; the rest holds one occurrence of that element fewer. */
  lemma SplitAt<T>(b: seq<T>, k: int)
    requires 0 <= k < |b|
    ensures b == b[..k] + ([b[k]] + b[k + 1..])
    ensures multiset(b[..k] + b[k + 1..]) == multiset(b) - multiset{b[k]}
  {
    assert b[k..] == [b[k]] + b[k + 1..];
    assert b == b[..k] + b[k..];
  }

  /** `b` around an occurrence of the last element of `a`; what is left is a rearrangement of the rest of `a`. */
  lemma MatchLast<T>(a: seq<T>, b: seq<T>) returns (p: seq<T>, q: seq<T>)
    requires |a| > 0 && multiset(a) == multiset(b)
    ensures b == p + ([a[|a| - 1]] + q)
    ensures multiset(a[..|a| - 1]) == multiset(p + q)
  {
    var x, a' := a[|a| - 1], a[..|a| - 1];
    assert multiset(a') == multiset(a) - multiset{x} by {
      assert a == a' + [x];
    }
    var k :| 0 <= k < |b| && b[k] == x by {
      assert x in multiset(b) by {
        assert x in a;
      }
    }
    SplitAt(b, k);
    p, q := b[..k], b[k + 1..];
  }

  /** A sum does not depend on the order of its terms. */
  lemma {:induction false} SumOfPermutation<T>(a: seq<T>, b: seq<T>, f: T -> int)
    requires multiset(a) == multiset(b)
    ensures SumOf(a, f) == SumOf(b, f)
  {
    if |a| > 0 {
      var p, q := MatchLast(a, b);
      SumOfSplit(p, a[|a| - 1], q, f);
      SumOfPermutation(a[..|a| - 1], p + q, f);
    } else {
      assert |multiset(b)| == 0;
    }
  }

  // ---------------------------------------------------------------------------------------------
  // Go's `<` on strings: lexicographic order, a proper prefix first.

  predicate Less(a: string, b: string) {
    if |a| == 0 then |b| > 0
    else if |b| == 0 then false
    else a[0] < b[0] || (a[0] == b[0] && Less(a[1..], b[1..]))
  }

  lemma {:induction false} LessIrreflexive(a: string)
    ensures !Less(a, a)
  {
    if |a| > 0 {
      LessIrreflexive(a[1..]);
    }
  }

  lemma {:induction false} LessTransitive(a: string, b: string, c: string)
    requires Less(a, b) && Less(b, c)
    ensures Less(a, c)
  {
    if |a| > 0 && a[0] == b[0] && b[0] == c[0] {
      LessTransitive(a[1..], b[1..], c[1..]);
    }
  }

  lemma {:induction false} LessTotal(a: string, b: string)
    requires a != b
    ensures Less(a, b) || Less(b, a)
  {
    if |a| > 0 && |b| > 0 && a[0] == b[0] {
      assert a == [a[0]] + a[1..] && b == [b[0]] + b[1..];
      LessTotal(a[1..], b[1..]);
    }
  }

  // ---------------------------------------------------------------------------------------------
  // Commit histogram

  /** `Date[:10]`, the `YYYY-MM-DD` part of an ISO 8601 author date. */
  function Day(date: string): (d: string)
    requires |date| >= 10
    ensures |d| == 10 && d <= date
  {
    date[..10]
  }

  /**
   * A commit author date as decoded: an ISO 8601 timestamp, so at least its `YYYY-MM-DD` part is
   * there. (A shorter string would make `Date[:10]` panic.)
   */
  type AuthorDate = s: string | |s| >= 10 witness "1970-01-01"

  function DaysOf(dates: seq<AuthorDate>): (r: seq<string>)
    ensures |r| == |dates|
    ensures forall j :: 0 <= j < |dates| ==> r[j] == Day(dates[j])
  {
    if |dates| == 0 then [] else DaysOf(dates[..|dates| - 1]) + [Day(dates[|dates| - 1])]
  }

  /** The days one repository contributes: none for a fork or a failed fetch. */
  function RepoDays(r: RepoInfo, commitsOf: string -> Option<seq<AuthorDate>>): seq<string>
  {
    if r.fork then []
    else match commitsOf(r.name)
      case None => []
      case Some(dates) => DaysOf(dates)
  }

  /** Every day counted, one entry per commit, repository by repository. */
  function Days(repos: seq<RepoInfo>, commitsOf: string -> Option<seq<AuthorDate>>): seq<string>
  {
    if |repos| == 0 then []
    else Days(repos[..|repos| - 1], commitsOf) + RepoDays(repos[|repos| - 1], commitsOf)
  }

  /** `counts` is the multiset `ms` written as a map from element to multiplicity. */
  ghost predicate Tallies(counts: map<string, int>, ms: multiset<string>) {
    && (forall d :: d in counts ==> counts[d] == ms[d] && counts[d] > 0)
    && (forall d :: d in ms ==> d in counts)
  }

  /** `counts[day]++` on a Go map, where a missing key reads as 0. */
  function Bump(counts: map<string, int>, day: string): (r: map<string, int>)
    ensures r.Keys == counts.Keys + {day}
    ensures r[day] == (if day in counts then counts[day] + 1 else 1)
    ensures forall d :: d in counts && d != day ==> r[d] == counts[d]
  {
    counts[day := (if day in counts then counts[day] else 0) + 1]
  }

  /** `counts` after `counts[day]++` for every day of `days`, in order. */
  function CountInto(counts: map<string, int>, days: seq<string>): map<string, int> {
    if |days| == 0 then counts else Bump(CountInto(counts, days[..|days| - 1]), days[|days| - 1])
  }

  lemma TalliesBump(counts: map<string, int>, ms: multiset<string>, day: string)
    requires Tallies(counts, ms)
    ensures Tallies(Bump(counts, day), ms + multiset{day})
  {
  }

  /** Counting `days` into a tally of `ms` gives a tally of both together. */
  lemma {:induction false} CountIntoTallies(counts: map<string, int>, ms: multiset<string>, days: seq<string>)
    requires Tallies(counts, ms)
    ensures Tallies(CountInto(counts, days), ms + multiset(days))
  {
    if |days| > 0 {
      var init := days[..|days| - 1];
      CountIntoTallies(counts, ms, init);
      TalliesBump(CountInto(counts, init), ms + multiset(init), days[|days| - 1]);
      assert days == init + [days[|days| - 1]];
    }
  }

  lemma DaysOfStep(dates: seq<AuthorDate>, j: int)
    requires 0 <= j < |dates|
    ensures DaysOf(dates[..j + 1]) == DaysOf(dates[..j]) + [Day(dates[j])]
  {
    assert dates[..j + 1][..j] == dates[..j];
  }

  lemma CountIntoSnoc(counts: map<string, int>, days: seq<string>, day: string)
    ensures CountInto(counts, days + [day]) == Bump(CountInto(counts, days), day)
  {
    assert (days + [day])[..|days|] == days;
  }

  /** One goroutine's `counts[day]++` loop over the commits it decoded. */
  method TallyDays(counts: map<string, int>, dates: seq<AuthorDate>) returns (counts': map<string, int>)
    ensures counts' == CountInto(counts, DaysOf(dates))
  {
    counts' := counts;
    var j := 0;
    while j < |dates|
      invariant 0 <= j <= |dates|
      invariant counts' == CountInto(counts, DaysOf(dates[..j]))
    {
      var day := Day(dates[j]);
      counts' := Bump(counts', day);
      DaysOfStep(dates, j);
      CountIntoSnoc(counts, DaysOf(dates[..j]), day);
      j := j + 1;
    }
    assert dates[..j] == dates;
  }

  lemma {:induction false} CountIntoConcat(counts: map<string, int>, a: seq<string>, b: seq<string>)
    ensures CountInto(CountInto(counts, a), b) == CountInto(counts, a + b)
  {
    if |b| > 0 {
      assert (a + b)[..|a + b| - 1] == a + b[..|b| - 1];
      CountIntoConcat(counts, a, b[..|b| - 1]);
    } else {
      assert a + b == a;
    }
  }

  /** Counting one more repository's days on top of the count of the earlier ones. */
  lemma DaysStep(repos: seq<RepoInfo>, commitsOf: string -> Option<seq<AuthorDate>>, i: int)
    requires 0 <= i < |repos|
    ensures CountInto(map[], Days(repos[..i + 1], commitsOf))
         == CountInto(CountInto(map[], Days(repos[..i], commitsOf)), RepoDays(repos[i], commitsOf))
  {
    assert repos[..i + 1][..i] == repos[..i];
    CountIntoConcat(map[], Days(repos[..i], commitsOf), RepoDays(repos[i], commitsOf));
  }

  /** The `counts[day]++` loops of all goroutines, run one repository after another. */
  method CountCommitDays(repos: seq<RepoInfo>, commitsOf: string -> Option<seq<AuthorDate>>) returns (counts: map<string, int>)
    ensures Tallies(counts, multiset(Days(repos, commitsOf)))
  {
    counts := map[];
    var i := 0;
    while i < |repos|
      invariant 0 <= i <= |repos|
      invariant counts == CountInto(map[], Days(repos[..i], commitsOf))
    {
      var repo := repos[i];
      DaysStep(repos, commitsOf, i);
      if !repo.fork {
        var fetched := commitsOf(repo.name);
        if fetched.Some? {
          counts := TallyDays(counts, fetched.value);
        }
      }
      i := i + 1;
    }
    assert repos[..i] == repos;
    CountIntoTallies(map[], multiset{}, Days(repos, commitsOf));
  }

  /** Dates strictly ascending, hence each date at most once. */
  predicate StrictlyAscending(h: seq<DayCount>) {
    forall i, j :: 0 <= i < j < |h| ==> Less(h[i].date, h[j].date)
  }

  lemma AscendingCons(x: DayCount, h: seq<DayCount>)
    requires StrictlyAscending(h)
    requires forall k :: 0 <= k < |h| ==> Less(x.date, h[k].date)
    ensures StrictlyAscending([x] + h)
  {
    forall i, j | 0 <= i < j < |[x] + h|
      ensures Less(([x] + h)[i].date, ([x] + h)[j].date)
    {
      if i > 0 {
        assert ([x] + h)[i] == h[i - 1] && ([x] + h)[j] == h[j - 1];
      }
    }
  }

  /** A date below every date of `tail` and below `e.date` stays below every date of any rearrangement of `tail + [e]`. */
  lemma AfterAll(head: DayCount, tail: seq<DayCount>, e: DayCount, rest: seq<DayCount>)
    requires forall k :: 0 <= k < |tail| ==> Less(head.date, tail[k].date)
    requires Less(head.date, e.date)
    requires multiset(rest) == multiset(tail) + multiset{e}
    ensures forall k :: 0 <= k < |rest| ==> Less(head.date, rest[k].date)
  {
    forall k | 0 <= k < |rest| ensures Less(head.date, rest[k].date) {
      assert rest[k] in multiset(rest);
      if rest[k] != e {
        assert rest[k] in multiset(tail);
        var m :| 0 <= m < |tail| && tail[m] == rest[k];
      }
    }
  }

  /** `sort.Slice(result, ... date < date)` on entries with distinct dates: insert `e` in place. */
  function InsertByDate(h: seq<DayCount>, e: DayCount): (r: seq<DayCount>)
    requires StrictlyAscending(h)
    requires forall k :: 0 <= k < |h| ==> h[k].date != e.date
    ensures StrictlyAscending(r)
    ensures multiset(r) == multiset(h) + multiset{e}
  {
    if |h| == 0 then [e]
    else if Less(e.date, h[0].date) then
      assert forall k :: 0 <= k < |h| ==> Less(e.date, h[k].date) by {
        forall k | 0 < k < |h| ensures Less(e.date, h[k].date) {
          LessTransitive(e.date, h[0].date, h[k].date);
        }
      }
      AscendingCons(e, h);
      [e] + h
    else
      var rest := InsertByDate(h[1..], e);
      LessTotal(e.date, h[0].date);
      AfterAll(h[0], h[1..], e, rest);
      AscendingCons(h[0], rest);
      assert h == [h[0]] + h[1..];
      [h[0]] + rest
  }

  /** `h` is the histogram of `days`: sorted, and each day's entry holds its number of occurrences. */
  ghost predicate IsHistogramOf(h: seq<DayCount>, days: seq<string>) {
    && StrictlyAscending(h)
    && (forall k :: 0 <= k < |h| ==> h[k].date in days && h[k].count == multiset(days)[h[k].date])
    && (forall d :: d in days ==> exists k :: 0 <= k < |h| && h[k].date == d)
  }

  /** `h` holds one entry per key of `keys`, each with that key's count in `counts`. */
  ghost predicate ListsExactly(h: seq<DayCount>, counts: map<string, int>, keys: set<string>) {
    && (forall k :: 0 <= k < |h| ==> h[k].date in keys && h[k].date in counts && h[k].count == counts[h[k].date])
    && Covers(h, keys)
  }

  /** Every key of `keys` has an entry in `h`. */
  ghost predicate Covers(h: seq<DayCount>, keys: set<string>) {
    forall d :: d in keys ==> exists k :: 0 <= k < |h| && h[k].date == d
  }

  /** Every entry after the insertion is a listed key with its count. */
  lemma ListsInsertSound(h: seq<DayCount>, counts: map<string, int>, keys: set<string>, d: string)
    requires StrictlyAscending(h) && ListsExactly(h, counts, keys)
    requires d in counts && d !in keys
    ensures forall k :: 0 <= k < |h| ==> h[k].date != d
    ensures var next := InsertByDate(h, DayCount(d, counts[d]));
            forall k :: 0 <= k < |next| ==> next[k].date in keys + {d} && next[k].date in counts && next[k].count == counts[next[k].date]
  {
    var e := DayCount(d, counts[d]);
    var next := InsertByDate(h, e);
    forall k | 0 <= k < |next|
      ensures next[k].date in keys + {d} && next[k].date in counts && next[k].count == counts[next[k].date]
    {
      assert next[k] in multiset(next);
      if next[k] != e {
        var k' :| 0 <= k' < |h| && h[k'] == next[k];
      }
    }
  }

  lemma InsertByDateMembers(h: seq<DayCount>, e: DayCount)
    requires StrictlyAscending(h)
    requires forall k :: 0 <= k < |h| ==> h[k].date != e.date
    ensures forall x :: x in InsertByDate(h, e) <==> x in h || x == e
  {
    var next := InsertByDate(h, e);
    forall x
      ensures x in next <==> x in h || x == e
    {
      assert x in next <==> x in multiset(next);
      assert x in h <==> x in multiset(h);
    }
  }

  /** Every listed key, and the new one, has an entry after the insertion. */
  lemma ListsInsertComplete(h: seq<DayCount>, counts: map<string, int>, keys: set<string>, d: string)
    requires StrictlyAscending(h) && ListsExactly(h, counts, keys)
    requires d in counts && d !in keys
    ensures forall k :: 0 <= k < |h| ==> h[k].date != d
    ensures Covers(InsertByDate(h, DayCount(d, counts[d])), keys + {d})
  {
    var e := DayCount(d, counts[d]);
    InsertByDateMembers(h, e);
    var next := InsertByDate(h, e);
    forall d' | d' in keys + {d}
      ensures exists k :: 0 <= k < |next| && next[k].date == d'
    {
      if d' == d {
        assert e in next;
      } else {
        var k :| 0 <= k < |h| && h[k].date == d';
        assert h[k] in next;
      }
    }
    assert Covers(next, keys + {d});
  }

  lemma ListsInsert(h: seq<DayCount>, counts: map<string, int>, keys: set<string>, d: string)
    requires StrictlyAscending(h) && ListsExactly(h, counts, keys)
    requires d in counts && d !in keys
    ensures forall k :: 0 <= k < |h| ==> h[k].date != d
    ensures ListsExactly(InsertByDate(h, DayCount(d, counts[d])), counts, keys + {d})
  {
    ListsInsertSound(h, counts, keys, d);
    ListsInsertComplete(h, counts, keys, d);
  }

  /** Collect `{"date", "count"}` for every key of `counts`, then sort by date. */
  method SortedHistogram(counts: map<string, int>) returns (result: seq<DayCount>)
    ensures StrictlyAscending(result)
    ensures forall k :: 0 <= k < |result| ==> result[k].date in counts && result[k].count == counts[result[k].date]
    ensures forall d :: d in counts ==> exists k :: 0 <= k < |result| && result[k].date == d
  {
    result := [];
    var pending := counts.Keys;
    ghost var done: set<string> := {};
    while pending != {}
      invariant pending <= counts.Keys && done == counts.Keys - pending
      invariant StrictlyAscending(result)
      invariant ListsExactly(result, counts, done)
      decreases |pending|
    {
      var d :| d in pending;
      ListsInsert(result, counts, done, d);
      result := InsertByDate(result, DayCount(d, counts[d]));
      pending := pending - {d};
      done := done + {d};
    }
    assert done == counts.Keys;
  }

  lemma HistogramOfTallies(counts: map<string, int>, days: seq<string>, h: seq<DayCount>)
    requires Tallies(counts, multiset(days))
    requires StrictlyAscending(h)
    requires forall k :: 0 <= k < |h| ==> h[k].date in counts && h[k].count == counts[h[k].date]
    requires forall d :: d in counts ==> exists k :: 0 <= k < |h| && h[k].date == d
    ensures IsHistogramOf(h, days)
  {
    forall k | 0 <= k < |h|
      ensures h[k].date in days
    {
      assert h[k].date in multiset(days);
    }
    forall d | d in days
      ensures exists k :: 0 <= k < |h| && h[k].date == d
    {
      assert d in multiset(days);
    }
  }

  /** `FetchGitHubCommits`: the per-day commit histogram of the account's non-fork repositories. */
  method FetchGitHubCommits(listing: Option<seq<RepoInfo>>, commitsOf: string -> Option<seq<AuthorDate>>)
    returns (r: Reply<seq<DayCount>>)
    ensures listing.None? ==> r == Failure(500, RepoFetchFailed)
    ensures listing.Some? ==> r.Json? && IsHistogramOf(r.value, Days(listing.value, commitsOf))
  {
    if listing.None? {
      return Failure(500, RepoFetchFailed);
    }
    var counts := CountCommitDays(listing.value, commitsOf);
    var result := SortedHistogram(counts);
    HistogramOfTallies(counts, Days(listing.value, commitsOf), result);
    r := Json(result);
  }

  function CountOf(e: DayCount): int { e.count }

  /** Number of commits one repository contributes: none for a fork or a failed fetch. */
  function CommitCount(r: RepoInfo, commitsOf: string -> Option<seq<AuthorDate>>): int {
    if r.fork then 0
    else match commitsOf(r.name)
      case None => 0
      case Some(dates) => |dates|
  }

  /** The non-fork repositories of `repos`, in order. */
  function NonForks(repos: seq<RepoInfo>): (r: seq<RepoInfo>)
    ensures forall i :: 0 <= i < |r| ==> !r[i].fork && r[i] in repos
  {
    if |repos| == 0 then []
    else NonForks(repos[..|repos| - 1]) + (if repos[|repos| - 1].fork then [] else [repos[|repos| - 1]])
  }

  /** As many days are counted as commits were decoded from non-fork repositories. */
  lemma {:induction false} DaysLength(repos: seq<RepoInfo>, commitsOf: string -> Option<seq<AuthorDate>>)
    ensures |Days(repos, commitsOf)| == SumOf(repos, (r: RepoInfo) => CommitCount(r, commitsOf))
  {
    if |repos| > 0 {
      DaysLength(repos[..|repos| - 1], commitsOf);
    }
  }

  /** Forks contribute no day: the histogram of all repositories is that of the non-fork ones. */
  lemma {:induction false} DaysIgnoreForks(repos: seq<RepoInfo>, commitsOf: string -> Option<seq<AuthorDate>>)
    ensures Days(repos, commitsOf) == Days(NonForks(repos), commitsOf)
  {
    if |repos| > 0 {
      var init := repos[..|repos| - 1];
      var last := repos[|repos| - 1];
      DaysIgnoreForks(init, commitsOf);
      var nf := NonForks(repos);
      if last.fork {
        assert nf == NonForks(init);
        assert Days(repos, commitsOf) == Days(init, commitsOf) + [];
      } else {
        assert nf == NonForks(init) + [last];
        assert nf[..|nf| - 1] == NonForks(init);
        assert Days(nf, commitsOf) == Days(NonForks(init), commitsOf) + RepoDays(last, commitsOf);
      }
    }
  }

  /** How often day `d` occurs among the days of one repository. */
  function Occurrences(commitsOf: string -> Option<seq<AuthorDate>>, d: string): RepoInfo -> int {
    (r: RepoInfo) => multiset(RepoDays(r, commitsOf))[d]
  }

  /** The count of a day over all repositories is the sum of its counts per repository. */
  lemma {:induction false} DaysCount(repos: seq<RepoInfo>, commitsOf: string -> Option<seq<AuthorDate>>, d: string)
    ensures multiset(Days(repos, commitsOf))[d] == SumOf(repos, Occurrences(commitsOf, d))
  {
    if |repos| > 0 {
      DaysCount(repos[..|repos| - 1], commitsOf, d);
    }
  }

  /** The days counted do not depend on the order in which the repositories are visited. */
  lemma DaysPermutation(a: seq<RepoInfo>, b: seq<RepoInfo>, commitsOf: string -> Option<seq<AuthorDate>>)
    requires multiset(a) == multiset(b)
    ensures multiset(Days(a, commitsOf)) == multiset(Days(b, commitsOf))
  {
    forall d
      ensures multiset(Days(a, commitsOf))[d] == multiset(Days(b, commitsOf))[d]
    {
      DaysCount(a, commitsOf, d);
      DaysCount(b, commitsOf, d);
      SumOfPermutation(a, b, Occurrences(commitsOf, d));
    }
  }

  /** Two nonempty strictly ascending sequences with the same elements start with the same entry. */
  lemma SameFirst(h1: seq<DayCount>, h2: seq<DayCount>)
    requires StrictlyAscending(h1) && StrictlyAscending(h2) && |h1| > 0 && |h2| > 0
    requires forall x :: x in h1 <==> x in h2
    ensures h1[0] == h2[0]
  {
    assert h1[0] in h1 && h2[0] in h2;
    var j :| 0 <= j < |h2| && h2[j] == h1[0];
    var i :| 0 <= i < |h1| && h1[i] == h2[0];
    if j > 0 {
      if i == 0 {
        LessIrreflexive(h2[0].date);
      } else {
        LessTransitive(h1[0].date, h2[0].date, h1[0].date);
        LessIrreflexive(h1[0].date);
      }
    }
  }

  /** With a common first entry, every later entry of `h1` is a later entry of `h2`. */
  lemma TailIncluded(h1: seq<DayCount>, h2: seq<DayCount>, t1: seq<DayCount>, t2: seq<DayCount>)
    requires StrictlyAscending(h1) && |h1| > 0 && |h2| > 0 && h1[0] == h2[0]
    requires forall x :: x in h1 ==> x in h2
    requires t1 == h1[1..] && t2 == h2[1..]
    ensures forall x :: x in t1 ==> x in t2
  {
    forall x | x in t1
      ensures x in t2
    {
      var m :| 0 <= m < |t1| && t1[m] == x;
      assert h1[m + 1] == x && x in h1;
      var m' :| 0 <= m' < |h2| && h2[m'] == x;
      if m' == 0 {
        LessIrreflexive(x.date);
      }
      assert t2[m' - 1] == x;
    }
  }

  /** Two strictly ascending sequences with the same elements are the same sequence. */
  lemma {:induction false} AscendingUnique(h1: seq<DayCount>, h2: seq<DayCount>)
    requires StrictlyAscending(h1) && StrictlyAscending(h2)
    requires forall x :: x in h1 <==> x in h2
    ensures h1 == h2
  {
    assert |h1| > 0 ==> h1[0] in h1;
    assert |h2| > 0 ==> h2[0] in h2;
    if |h1| > 0 && |h2| > 0 {
      SameFirst(h1, h2);
      var t1, t2 := h1[1..], h2[1..];
      TailIncluded(h1, h2, t1, t2);
      TailIncluded(h2, h1, t2, t1);
      AscendingUnique(t1, t2);
      assert h1 == [h1[0]] + t1 && h2 == [h2[0]] + t2;
    }
  }

  /** A multiset of days has exactly one histogram. */
  lemma HistogramUnique(h1: seq<DayCount>, h2: seq<DayCount>, days: seq<string>)
    requires IsHistogramOf(h1, days) && IsHistogramOf(h2, days)
    ensures h1 == h2
  {
    forall x | x in h1 ensures x in h2 {
      var k :| 0 <= k < |h1| && h1[k] == x;
      var k' :| 0 <= k' < |h2| && h2[k'].date == x.date;
    }
    forall x | x in h2 ensures x in h1 {
      var k :| 0 <= k < |h2| && h2[k] == x;
      var k' :| 0 <= k' < |h1| && h1[k'].date == x.date;
    }
    AscendingUnique(h1, h2);
  }

  /** The commit histogram does not depend on the order of the repositories. */
  lemma HistogramOrderIndependent(a: seq<RepoInfo>, b: seq<RepoInfo>, commitsOf: string -> Option<seq<AuthorDate>>, h1: seq<DayCount>, h2: seq<DayCount>)
    requires multiset(a) == multiset(b)
    requires IsHistogramOf(h1, Days(a, commitsOf)) && IsHistogramOf(h2, Days(b, commitsOf))
    ensures h1 == h2
  {
    var da, db := Days(a, commitsOf), Days(b, commitsOf);
    DaysPermutation(a, b, commitsOf);
    assert IsHistogramOf(h1, db) by {
      forall k | 0 <= k < |h1| ensures h1[k].date in db {
        assert h1[k].date in multiset(da);
      }
      forall d | d in db ensures exists k :: 0 <= k < |h1| && h1[k].date == d {
        assert d in multiset(db);
        assert d in da;
      }
    }
    HistogramUnique(h1, h2, db);
  }

  /** The entries before the last one keep their counts once the last entry's day is removed. */
  lemma DropLastSound(h: seq<DayCount>, days: seq<string>, init: seq<DayCount>, rest: seq<string>)
    requires IsHistogramOf(h, days) && |h| > 0 && init == h[..|h| - 1]
    requires multiset(rest) == multiset(days)[h[|h| - 1].date := 0]
    ensures forall k :: 0 <= k < |init| ==> init[k].date in rest && init[k].count == multiset(rest)[init[k].date]
  {
    var last := h[|h| - 1];
    forall k | 0 <= k < |init|
      ensures init[k].date in rest && init[k].count == multiset(rest)[init[k].date]
    {
      assert init[k] == h[k];
      assert h[k].date != last.date by {
        LessIrreflexive(last.date);
      }
      assert h[k].date in multiset(days);
      assert h[k].date in multiset(rest);
    }
  }

  /** Every day left after removing the last entry's day has an entry before the last one. */
  lemma DropLastComplete(h: seq<DayCount>, days: seq<string>, init: seq<DayCount>, rest: seq<string>)
    requires IsHistogramOf(h, days) && |h| > 0 && init == h[..|h| - 1]
    requires multiset(rest) == multiset(days)[h[|h| - 1].date := 0]
    ensures forall d :: d in rest ==> exists k :: 0 <= k < |init| && init[k].date == d
  {
    forall d | d in rest
      ensures exists k :: 0 <= k < |init| && init[k].date == d
    {
      assert d in multiset(rest);
      assert d in days && d != h[|h| - 1].date;
      var k :| 0 <= k < |h| && h[k].date == d;
      assert init[k] == h[k];
    }
  }

  lemma DropLastAscending(h: seq<DayCount>, init: seq<DayCount>)
    requires StrictlyAscending(h) && |h| > 0 && init == h[..|h| - 1]
    ensures StrictlyAscending(init)
  {
    assert forall k :: 0 <= k < |init| ==> init[k] == h[k];
  }

  /** Without its last entry, a histogram is the histogram of the days other than that entry's. */
  lemma HistogramDropLast(h: seq<DayCount>, days: seq<string>)
    requires IsHistogramOf(h, days) && |h| > 0
    ensures IsHistogramOf(h[..|h| - 1], RemoveAll(days, h[|h| - 1].date))
  {
    var init := h[..|h| - 1];
    var rest := RemoveAll(days, h[|h| - 1].date);
    RemoveAllCounts(days, h[|h| - 1].date);
    DropLastAscending(h, init);
    DropLastSound(h, days, init, rest);
    DropLastComplete(h, days, init, rest);
  }

  /** The counts of a histogram add up to the number of days it was built from. */
  lemma {:induction false} HistogramTotal(h: seq<DayCount>, days: seq<string>)
    requires IsHistogramOf(h, days)
    ensures SumOf(h, CountOf) == |days|
  {
    assert |days| > 0 ==> days[0] in days;
    if |h| > 0 {
      var last := h[|h| - 1];
      RemoveAllLength(days, last.date);
      HistogramDropLast(h, days);
      HistogramTotal(h[..|h| - 1], RemoveAll(days, last.date));
    }
  }

  // ---------------------------------------------------------------------------------------------
  // Language totals

  /** A Go map read: a missing key reads as 0. */
  function Get(m: map<string, int>, key: string): int {
    if key in m then m[key] else 0
  }

  /** Bytes of `lang` one repository contributes: none for a fork or a failed fetch. */
  function RepoBytes(r: RepoInfo, langsOf: string -> Option<map<string, int>>, lang: string): int {
    if r.fork then 0
    else match langsOf(r.languagesUrl)
      case None => 0
      case Some(m) => Get(m, lang)
  }

  /** Bytes of `lang` over all repositories. */
  function LangBytes(repos: seq<RepoInfo>, langsOf: string -> Option<map<string, int>>, lang: string): int {
    SumOf(repos, (r: RepoInfo) => RepoBytes(r, langsOf, lang))
  }

  /** `r` is a fetched non-fork repository whose language map names `lang`. */
  predicate Contributes(r: RepoInfo, langsOf: string -> Option<map<string, int>>, lang: string) {
    !r.fork && langsOf(r.languagesUrl).Some? && lang in langsOf(r.languagesUrl).value
  }

  predicate Mentions(repos: seq<RepoInfo>, langsOf: string -> Option<map<string, int>>, lang: string) {
    exists i :: 0 <= i < |repos| && Contributes(repos[i], langsOf, lang)
  }

  /** `m[key] += n` on a Go map. */
  function AddTo(m: map<string, int>, key: string, n: int): (r: map<string, int>)
    ensures forall k :: k in r <==> k in m || k == key
    ensures forall k :: Get(r, k) == Get(m, k) + (if k == key then n else 0)
  {
    m[key := Get(m, key) + n]
  }

  /** One goroutine's `langStats[lang] += bytes` loop over the language map it decoded. */
  method AddBytes(langStats: map<string, int>, langs: map<string, int>) returns (r: map<string, int>)
    ensures forall lang :: lang in r <==> lang in langStats || lang in langs
    ensures forall lang :: Get(r, lang) == Get(langStats, lang) + Get(langs, lang)
  {
    r := langStats;
    var pending := langs.Keys;
    while pending != {}
      invariant pending <= langs.Keys
      invariant forall lang :: lang in r <==> lang in langStats || (lang in langs && lang !in pending)
      invariant forall lang :: Get(r, lang) == Get(langStats, lang) + (if lang in langs && lang !in pending then langs[lang] else 0)
      decreases |pending|
    {
      var lang :| lang in pending;
      r := AddTo(r, lang, langs[lang]);
      pending := pending - {lang};
    }
  }

  lemma LangStep(repos: seq<RepoInfo>, langsOf: string -> Option<map<string, int>>, i: int, lang: string)
    requires 0 <= i < |repos|
    ensures LangBytes(repos[..i + 1], langsOf, lang) == LangBytes(repos[..i], langsOf, lang) + RepoBytes(repos[i], langsOf, lang)
    ensures Mentions(repos[..i + 1], langsOf, lang) <==> Mentions(repos[..i], langsOf, lang) || Contributes(repos[i], langsOf, lang)
  {
    assert repos[..i + 1][..i] == repos[..i];
    if Mentions(repos[..i + 1], langsOf, lang) {
      var k :| 0 <= k < i + 1 && Contributes(repos[..i + 1][k], langsOf, lang);
      if k < i {
        assert repos[..i][k] == repos[..i + 1][k];
      }
    }
    if Mentions(repos[..i], langsOf, lang) {
      var k :| 0 <= k < i && Contributes(repos[..i][k], langsOf, lang);
      assert repos[..i + 1][k] == repos[..i][k];
    }
    if Contributes(repos[i], langsOf, lang) {
      assert repos[..i + 1][i] == repos[i];
    }
  }

  /** The merge of all goroutines' language maps, run one repository after another. */
  method SumLanguages(repos: seq<RepoInfo>, langsOf: string -> Option<map<string, int>>) returns (langStats: map<string, int>)
    ensures forall lang :: lang in langStats <==> Mentions(repos, langsOf, lang)
    ensures forall lang :: Get(langStats, lang) == LangBytes(repos, langsOf, lang)
  {
    langStats := map[];
    var i := 0;
    while i < |repos|
      invariant 0 <= i <= |repos|
      invariant forall lang :: lang in langStats <==> Mentions(repos[..i], langsOf, lang)
      invariant forall lang :: Get(langStats, lang) == LangBytes(repos[..i], langsOf, lang)
    {
      var repo := repos[i];
      forall lang {
        LangStep(repos, langsOf, i, lang);
      }
      if !repo.fork {
        var fetched := langsOf(repo.languagesUrl);
        if fetched.Some? {
          langStats := AddBytes(langStats, fetched.value);
        }
      }
      i := i + 1;
    }
    assert repos[..i] == repos;
  }

  /** `FetchGitHubLanguages`: bytes per language over the account's non-fork repositories. */
  method FetchGitHubLanguages(listing: Option<seq<RepoInfo>>, langsOf: string -> Option<map<string, int>>)
    returns (r: Reply<map<string, int>>)
    ensures listing.None? ==> r == Failure(500, RepoFetchFailed)
    ensures listing.Some? ==> r.Json?
    ensures listing.Some? ==> forall lang :: lang in r.value <==> Mentions(listing.value, langsOf, lang)
    ensures listing.Some? ==> forall lang :: lang in r.value ==> r.value[lang] == LangBytes(listing.value, langsOf, lang)
  {
    if listing.None? {
      return Failure(500, RepoFetchFailed);
    }
    var langStats := SumLanguages(listing.value, langsOf);
    r := Json(langStats);
  }

  /** Forks contribute no bytes. */
  lemma {:induction false} LangBytesIgnoreForks(repos: seq<RepoInfo>, langsOf: string -> Option<map<string, int>>, lang: string)
    ensures LangBytes(repos, langsOf, lang) == LangBytes(NonForks(repos), langsOf, lang)
  {
    if |repos| > 0 {
      var init := repos[..|repos| - 1];
      var last := repos[|repos| - 1];
      LangBytesIgnoreForks(init, langsOf, lang);
      var nf := NonForks(repos);
      if last.fork {
        assert nf == NonForks(init);
      } else {
        assert nf == NonForks(init) + [last];
        assert nf[..|nf| - 1] == NonForks(init);
      }
    }
  }

  /** The language totals do not depend on the order in which the repositories are merged. */
  lemma LangOrderIndependent(a: seq<RepoInfo>, b: seq<RepoInfo>, langsOf: string -> Option<map<string, int>>, lang: string)
    requires multiset(a) == multiset(b)
    ensures LangBytes(a, langsOf, lang) == LangBytes(b, langsOf, lang)
    ensures Mentions(a, langsOf, lang) <==> Mentions(b, langsOf, lang)
  {
    SumOfPermutation(a, b, (r: RepoInfo) => RepoBytes(r, langsOf, lang));
    if Mentions(a, langsOf, lang) {
      var k :| 0 <= k < |a| && Contributes(a[k], langsOf, lang);
      assert a[k] in multiset(b);
      var k' :| 0 <= k' < |b| && b[k'] == a[k];
    }
    if Mentions(b, langsOf, lang) {
      var k :| 0 <= k < |b| && Contributes(b[k], langsOf, lang);
      assert b[k] in multiset(a);
      var k' :| 0 <= k' < |a| && a[k'] == b[k];
    }
  }

  // ---------------------------------------------------------------------------------------------
  // Stars

  function Stars(r: RepoInfo): int { r.stargazersCount }

  /** `FetchGitHubStars`: the star total over every listed repository, forks included. */
  method FetchGitHubStars(listing: Option<seq<RepoInfo>>) returns (r: Reply<int>)
    ensures listing.None? ==> r == Failure(500, RepoFetchFailed)
    ensures listing.Some? ==> r == Json(SumOf(listing.value, Stars))
  {
    if listing.None? {
      return Failure(500, RepoFetchFailed);
    }
    var repos := listing.value;
    var total := 0;
    var i := 0;
    while i < |repos|
      invariant 0 <= i <= |repos|
      invariant total == SumOf(repos[..i], Stars)
    {
      total := total + repos[i].stargazersCount;
      assert repos[..i + 1][..i] == repos[..i];
      i := i + 1;
    }
    assert repos[..i] == repos;
    r := Json(total);
  }

  // ---------------------------------------------------------------------------------------------
  // Top starred repositories

  const TopCount := 6

  predicate NonIncreasing(s: seq<RepoInfo>) {
    forall i, j :: 0 <= i < j < |s| ==> s[i].stargazersCount >= s[j].stargazersCount
  }

  lemma NonIncreasingCons(x: RepoInfo, s: seq<RepoInfo>)
    requires NonIncreasing(s)
    requires |s| > 0 ==> x.stargazersCount >= s[0].stargazersCount
    ensures NonIncreasing([x] + s)
  {
    forall i, j | 0 <= i < j < |[x] + s|
      ensures ([x] + s)[i].stargazersCount >= ([x] + s)[j].stargazersCount
    {
      if i > 0 {
        assert ([x] + s)[i] == s[i - 1];
      }
      assert ([x] + s)[j] == s[j - 1];
    }
  }

  /** A star count at least every count of `tail` and `x`'s is at least every count of any rearrangement of `tail + [x]`. */
  lemma AtMostAll(head: RepoInfo, tail: seq<RepoInfo>, x: RepoInfo, rest: seq<RepoInfo>)
    requires forall k :: 0 <= k < |tail| ==> head.stargazersCount >= tail[k].stargazersCount
    requires head.stargazersCount >= x.stargazersCount
    requires multiset(rest) == multiset(tail) + multiset{x}
    ensures forall k :: 0 <= k < |rest| ==> head.stargazersCount >= rest[k].stargazersCount
  {
    forall k | 0 <= k < |rest| ensures head.stargazersCount >= rest[k].stargazersCount {
      assert rest[k] in multiset(rest);
      if rest[k] != x {
        assert rest[k] in multiset(tail);
        var m :| 0 <= m < |tail| && tail[m] == rest[k];
      }
    }
  }

  /** One step of sorting by stars, most starred first: `x` goes before the first repository with fewer stars or as many. */
  function InsertByStars(s: seq<RepoInfo>, x: RepoInfo): (r: seq<RepoInfo>)
    requires NonIncreasing(s)
    ensures NonIncreasing(r)
    ensures multiset(r) == multiset(s) + multiset{x}
  {
    if |s| == 0 then [x]
    else if x.stargazersCount >= s[0].stargazersCount then
      NonIncreasingCons(x, s);
      [x] + s
    else
      var rest := InsertByStars(s[1..], x);
      AtMostAll(s[0], s[1..], x, rest);
      NonIncreasingCons(s[0], rest);
      assert s == [s[0]] + s[1..];
      [s[0]] + rest
  }

  /** `sort.Slice(repos, ... StargazersCount > StargazersCount)`. */
  method SortByStars(repos: seq<RepoInfo>) returns (sorted: seq<RepoInfo>)
    ensures NonIncreasing(sorted)
    ensures multiset(sorted) == multiset(repos)
  {
    sorted := [];
    var i := 0;
    while i < |repos|
      invariant 0 <= i <= |repos|
      invariant NonIncreasing(sorted)
      invariant multiset(sorted) == multiset(repos[..i])
    {
      sorted := InsertByStars(sorted, repos[i]);
      assert repos[..i + 1] == repos[..i] + [repos[i]];
      i := i + 1;
    }
    assert repos[..i] == repos;
  }

  function Entry(r: RepoInfo): TopRepo {
    TopRepo(r.name, r.htmlUrl, r.stargazersCount)
  }

  /** `FetchTopStarredRepos`: the most starred repositories, at most six, most starred first. */
  method FetchTopStarredRepos(listing: Option<seq<RepoInfo>>) returns (r: Reply<seq<TopRepo>>)
    ensures listing.None? ==> r == Failure(500, RepoFetchFailed)
    ensures listing.Some? ==> r.Json?
    ensures listing.Some? ==> |r.value| == (if |listing.value| < TopCount then |listing.value| else TopCount)
    ensures listing.Some? ==> forall i, j :: 0 <= i < j < |r.value| ==> r.value[i].stars >= r.value[j].stars
    ensures listing.Some? ==>
              exists sorted :: && multiset(sorted) == multiset(listing.value) && NonIncreasing(sorted)
                               && |r.value| <= |sorted|
                               && forall k :: 0 <= k < |r.value| ==> r.value[k] == Entry(sorted[k])
  {
    if listing.None? {
      return Failure(500, RepoFetchFailed);
    }
    var sorted := SortByStars(listing.value);
    assert |sorted| == |listing.value| by {
      assert |multiset(sorted)| == |multiset(listing.value)|;
    }
    var top := [];
    var i := 0;
    while i < |sorted|
      invariant 0 <= i <= |sorted| && i <= TopCount
      invariant |top| == i
      invariant forall k :: 0 <= k < i ==> top[k] == Entry(sorted[k])
    {
      if i >= TopCount {
        break;
      }
      top := top + [Entry(sorted[i])];
      i := i + 1;
    }
    r := Json(top);
  }

  /** Every repository left out has no more stars than the last one included. */
  lemma TopLeftOut(sorted: seq<RepoInfo>, t: int)
    requires NonIncreasing(sorted)
    requires 0 < t <= |sorted|
    ensures forall x :: x in multiset(sorted) - multiset(sorted[..t]) ==> x.stargazersCount <= sorted[t - 1].stargazersCount
  {
    assert sorted == sorted[..t] + sorted[t..];
    assert multiset(sorted) - multiset(sorted[..t]) == multiset(sorted[t..]);
    forall x | x in multiset(sorted[t..])
      ensures x.stargazersCount <= sorted[t - 1].stargazersCount
    {
      var m :| 0 <= m < |sorted[t..]| && sorted[t..][m] == x;
      assert sorted[t + m] == x;
    }
  }
}
