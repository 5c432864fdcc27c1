/** `rss_feed.fetch_rss_feed`: the entry links of every feed, feed by feed. */
module RssFeed {
  import opened Wrappers

  /** `feedparser.parse(url)` as the loop uses it: the `link` of each entry in
      order, or the exception reading the feed raises. */
  type FeedReader = string -> Result<seq<string>>

  /** The feeds are read in list order; the first failure ends the call,
      since there is no per-feed `try`. */
  function FetchRssFeed(feeds: seq<string>, read: FeedReader): (r: Result<seq<string>>)
    ensures r.Success? <==> forall i :: 0 <= i < |feeds| ==> read(feeds[i]).Success?
    ensures r.Failure? ==> exists i :: 0 <= i < |feeds| && read(feeds[i]) == Failure(r.error)
    decreases |feeds|
  {
    if |feeds| == 0 then Success([])
    else
      match read(feeds[0])
      case Failure(e) => Failure(e)
      case Success(links) =>
        match FetchRssFeed(feeds[1..], read)
        case Failure(e) => Failure(e)
        case Success(rest) => Success(links + rest)
  }

  /** The number of entries the feeds hold between them. */
  function EntryCount(feeds: seq<string>, read: FeedReader): nat
    decreases |feeds|
  {
    if |feeds| == 0 then 0
    else (if read(feeds[0]).Success? then |read(feeds[0]).value| else 0) + EntryCount(feeds[1..], read)
  }

  /** Reading a list of feeds is reading its two halves and concatenating the links. */
  lemma {:induction false} FetchAppend(a: seq<string>, b: seq<string>, read: FeedReader)
    requires FetchRssFeed(a + b, read).Success?
    ensures FetchRssFeed(a, read).Success? && FetchRssFeed(b, read).Success?
    ensures FetchRssFeed(a + b, read).value == FetchRssFeed(a, read).value + FetchRssFeed(b, read).value
    decreases |a|
  {
    assert forall i :: 0 <= i < |a| ==> (a + b)[i] == a[i];
    assert forall i :: 0 <= i < |b| ==> (a + b)[|a| + i] == b[i];
    if |a| == 0 {
      assert a + b == b;
    } else {
      assert (a + b)[1..] == a[1..] + b;
      FetchAppend(a[1..], b, read);
    }
  }

  /** The result holds as many links as the feeds have entries; no feed is
      deduplicated against another. */
  lemma {:induction false} FetchLength(feeds: seq<string>, read: FeedReader)
    requires FetchRssFeed(feeds, read).Success?
    ensures |FetchRssFeed(feeds, read).value| == EntryCount(feeds, read)
    decreases |feeds|
  {
    if |feeds| > 0 {
      FetchLength(feeds[1..], read);
    }
  }

  /** A link is in the result exactly when some feed has it. */
  lemma {:induction false} FetchMembership(feeds: seq<string>, read: FeedReader, u: string)
    requires FetchRssFeed(feeds, read).Success?
    ensures u in FetchRssFeed(feeds, read).value <==>
      exists i :: 0 <= i < |feeds| && u in read(feeds[i]).value
    decreases |feeds|
  {
    if |feeds| > 0 {
      FetchMembership(feeds[1..], read, u);
      if exists i :: 0 <= i < |feeds| && u in read(feeds[i]).value {
        var i :| 0 <= i < |feeds| && u in read(feeds[i]).value;
        if i > 0 {
          assert feeds[1..][i - 1] == feeds[i];
        }
      }
    }
  }

  /** A feed listed twice contributes its links twice. */
  lemma FetchFeedTwice(f: string, read: FeedReader)
    requires read(f).Success?
    ensures FetchRssFeed([f, f], read) == Success(read(f).value + read(f).value)
  {
    assert [f][1..] == [];
    assert read(f).value + [] == read(f).value;
    assert FetchRssFeed([f], read) == Success(read(f).value);
    assert [f, f][1..] == [f];
  }
}
