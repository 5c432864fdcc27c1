/** `utils`: URL validation and `filter_and_sort_articles`, the selection of
    today's articles newest first. The network and the clock are parameters. */
module Utils {
  import opened Wrappers
  import opened Models

  /** `requests.head(url)`: the status code, or `None` when the request raises. */
  type Head = string -> Option<int>

  /** `is_valid_url`: a HEAD request answers exactly 200. */
  predicate IsValidUrl(url: string, head: Head) {
    head(url) == Some(200)
  }

  /** `article.download(); article.parse()`: the publish date, if the page has
      one, or `Failure` when either call raises. */
  type Download = string -> Result<Option<DateTime>>

  /** Whether the loop body appends `url`: valid, downloaded and parsed, and published on `today`. */
  predicate PublishedOn(url: string, head: Head, download: Download, today: Day) {
    && IsValidUrl(url, head)
    && download(url).Success?
    && download(url).value.Some?
    && download(url).value.value.day == today
  }

  /** The `(publish_date, url)` pairs the loop collects, in input order. */
  function TodaysArticles(urls: seq<string>, head: Head, download: Download, today: Day): (r: seq<(Day, string)>)
    ensures |r| <= |urls|
    ensures forall i :: 0 <= i < |r| ==> r[i].0 == today && r[i].1 in urls && PublishedOn(r[i].1, head, download, today)
    decreases |urls|
  {
    if |urls| == 0 then []
    else
      var rest := TodaysArticles(urls[1..], head, download, today);
      if PublishedOn(urls[0], head, download, today) then [(today, urls[0])] + rest else rest
  }

  /** The URLs among `urls` that pass, in input order: the reference the result is compared against. */
  function TodaysUrls(urls: seq<string>, head: Head, download: Download, today: Day): seq<string>
    decreases |urls|
  {
    if |urls| == 0 then []
    else (if PublishedOn(urls[0], head, download, today) then [urls[0]] else []) + TodaysUrls(urls[1..], head, download, today)
  }

  /** A URL is selected exactly when it is listed and passes every test. */
  lemma {:induction false} TodaysUrlsMembers(urls: seq<string>, head: Head, download: Download, today: Day, u: string)
    ensures u in TodaysUrls(urls, head, download, today) <==> u in urls && PublishedOn(u, head, download, today)
    decreases |urls|
  {
    if |urls| > 0 {
      TodaysUrlsMembers(urls[1..], head, download, today, u);
      assert urls == [urls[0]] + urls[1..];
    }
  }

  function Urls(pairs: seq<(Day, string)>): (r: seq<string>)
    ensures |r| == |pairs| && forall i :: 0 <= i < |pairs| ==> r[i] == pairs[i].1
  {
    seq(|pairs|, i requires 0 <= i < |pairs| => pairs[i].1)
  }

  // ---------------------------------------------------------------------------
  // sorted(..., key=lambda x: x[0], reverse=True)

  predicate DescendingByDay(xs: seq<(Day, string)>) {
    forall i, j :: 0 <= i < j < |xs| ==> xs[i].0 >= xs[j].0
  }

  /** Places `p` after every element whose day is not earlier, so equal days keep their order. */
  function InsertByDay(xs: seq<(Day, string)>, p: (Day, string)): (r: seq<(Day, string)>)
    ensures |r| == |xs| + 1
    decreases |xs|
  {
    if |xs| == 0 then [p]
    else if xs[0].0 < p.0 then [p] + xs
    else [xs[0]] + InsertByDay(xs[1..], p)
  }

  /** Python's stable sort, newest day first: each element is inserted after the ones before it. */
  function SortByDayDesc(xs: seq<(Day, string)>): (r: seq<(Day, string)>)
    ensures |r| == |xs|
    decreases |xs|
  {
    if |xs| == 0 then [] else InsertByDay(SortByDayDesc(xs[..|xs| - 1]), xs[|xs| - 1])
  }

  /** Insertion adds exactly the inserted element. */
  lemma {:induction false} InsertByDayPermutes(xs: seq<(Day, string)>, p: (Day, string))
    ensures multiset(InsertByDay(xs, p)) == multiset(xs) + multiset{p}
    decreases |xs|
  {
    if |xs| > 0 && xs[0].0 >= p.0 {
      InsertByDayPermutes(xs[1..], p);
      assert xs == [xs[0]] + xs[1..];
    }
  }

  lemma {:induction false} InsertByDaySorted(xs: seq<(Day, string)>, p: (Day, string))
    requires DescendingByDay(xs)
    ensures DescendingByDay(InsertByDay(xs, p))
    ensures multiset(InsertByDay(xs, p)) == multiset(xs) + multiset{p}
    decreases |xs|
  {
    InsertByDayPermutes(xs, p);
    if |xs| > 0 && xs[0].0 >= p.0 {
      InsertByDaySorted(xs[1..], p);
      var r := InsertByDay(xs[1..], p);
      var r' := InsertByDay(xs, p);
      assert r' == [xs[0]] + r;
      forall k | 0 <= k < |r|
        ensures xs[0].0 >= r[k].0
      {
        InsertByDayPermutes(xs[1..], p);
        assert r[k] in multiset(xs[1..]) + multiset{p};
        if r[k] != p {
          assert r[k] in xs[1..];
        }
      }
      forall i, j | 0 <= i < j < |r'|
        ensures r'[i].0 >= r'[j].0
      {
        assert r'[j] == r[j - 1];
        if i > 0 {
          assert r'[i] == r[i - 1];
        }
      }
    }
  }

  /** The sort is a permutation whose days never increase. */
  lemma {:induction false} SortByDayDescSorted(xs: seq<(Day, string)>)
    ensures DescendingByDay(SortByDayDesc(xs))
    ensures multiset(SortByDayDesc(xs)) == multiset(xs)
    decreases |xs|
  {
    if |xs| > 0 {
      SortByDayDescSorted(xs[..|xs| - 1]);
      InsertByDaySorted(SortByDayDesc(xs[..|xs| - 1]), xs[|xs| - 1]);
      assert xs == xs[..|xs| - 1] + [xs[|xs| - 1]];
    }
  }

  predicate SameDay(xs: seq<(Day, string)>, d: Day) {
    forall i :: 0 <= i < |xs| ==> xs[i].0 == d
  }

  /** Stability: when every element has the same day the sort changes nothing. */
  lemma {:induction false} SortSameDayUnchanged(xs: seq<(Day, string)>, d: Day)
    requires SameDay(xs, d)
    ensures SortByDayDesc(xs) == xs
    decreases |xs|
  {
    if |xs| > 0 {
      var init := xs[..|xs| - 1];
      SortSameDayUnchanged(init, d);
      InsertSameDayAppends(init, xs[|xs| - 1], d);
      assert init + [xs[|xs| - 1]] == xs;
    }
  }

  lemma {:induction false} InsertSameDayAppends(xs: seq<(Day, string)>, p: (Day, string), d: Day)
    requires SameDay(xs, d) && p.0 == d
    ensures InsertByDay(xs, p) == xs + [p]
    decreases |xs|
  {
    if |xs| > 0 {
      InsertSameDayAppends(xs[1..], p, d);
      assert [xs[0]] + (xs[1..] + [p]) == xs + [p];
    }
  }

  // ---------------------------------------------------------------------------
  // The selection

  /** `number_or_all`: the string `'all'`, or the integer a slice is taken with. */
  datatype Count = All | Take(n: int)

  /** Python's `xs[:n]`: a negative `n` counts from the end, and the bound is clipped to the length. */
  function Prefix<T>(xs: seq<T>, n: int): (r: seq<T>)
    ensures n >= 0 ==> r == xs[..if n <= |xs| then n else |xs|]
    ensures n < 0 ==> r == xs[..if |xs| + n >= 0 then |xs| + n else 0]
  {
    var k := if n < 0 then |xs| + n else n;
    if k < 0 then [] else if k > |xs| then xs else xs[..k]
  }

  /** `filter_and_sort_articles(urls, number_or_all)`, with `today` read once. */
  function FilterAndSortArticles(urls: seq<string>, count: Count, head: Head, download: Download, today: Day): seq<string> {
    var sorted := Urls(SortByDayDesc(TodaysArticles(urls, head, download, today)));
    match count
    case All => sorted
    case Take(n) => Prefix(sorted, n)
  }

  lemma {:induction false} TodaysArticlesUrls(urls: seq<string>, head: Head, download: Download, today: Day)
    ensures Urls(TodaysArticles(urls, head, download, today)) == TodaysUrls(urls, head, download, today)
    decreases |urls|
  {
    if |urls| > 0 {
      TodaysArticlesUrls(urls[1..], head, download, today);
      var rest := TodaysArticles(urls[1..], head, download, today);
      assert Urls([(today, urls[0])] + rest) == [urls[0]] + Urls(rest);
    }
  }

  /** Every kept article is from today, so sorting keeps input order: the
      result is the passing URLs in the order given, cut as the count asks. */
  lemma FilterAndSortInInputOrder(urls: seq<string>, count: Count, head: Head, download: Download, today: Day)
    ensures var kept := TodaysUrls(urls, head, download, today);
      FilterAndSortArticles(urls, count, head, download, today) ==
        (if count.All? then kept else Prefix(kept, count.n))
  {
    var pairs := TodaysArticles(urls, head, download, today);
    SortSameDayUnchanged(pairs, today);
    TodaysArticlesUrls(urls, head, download, today);
  }

  /** What a caller can rely on: every returned URL was listed, answered HEAD
      with 200, parsed, and is dated today; with `'all'`, every such URL is returned. */
  lemma FilterAndSortSound(urls: seq<string>, count: Count, head: Head, download: Download, today: Day, u: string)
    ensures u in FilterAndSortArticles(urls, count, head, download, today) ==>
      u in urls && PublishedOn(u, head, download, today)
    ensures count.All? ==>
      (u in FilterAndSortArticles(urls, count, head, download, today) <==> u in urls && PublishedOn(u, head, download, today))
  {
    FilterAndSortInInputOrder(urls, count, head, download, today);
    TodaysUrlsMembers(urls, head, download, today, u);
    var kept := TodaysUrls(urls, head, download, today);
    if count.Take? {
      var r := Prefix(kept, count.n);
      assert forall i :: 0 <= i < |r| ==> r[i] == kept[i];
    }
  }
}
