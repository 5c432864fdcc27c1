/** `article_extraction`: fetching a page with retries, reading an article
    out of it, and extracting a list of URLs all together. The network, the
    HTML parser and the clock are parameters. */
module ArticleExtraction {
  import opened Wrappers
  import opened Models

  /** `stop_after_attempt(3)`. */
  const MaxAttempts: nat := 3

  /** The retried `fetch_article` from attempt `n` on: the page of the first
      attempt that succeeds, or a retry error once the third attempt has failed.
      The second component is the number of attempts made so far. */
  function Retry(attempt: nat -> Result<string>, n: nat): (r: (Result<string>, nat))
    requires n < MaxAttempts
    ensures n < r.1 <= MaxAttempts
    ensures r.0.Success? ==> r.0 == attempt(r.1 - 1)
    ensures forall m :: n <= m < r.1 - 1 ==> attempt(m).Failure?
    ensures r.0.Success? <==> exists m :: n <= m < MaxAttempts && attempt(m).Success?
    ensures r.0.Failure? ==> r.1 == MaxAttempts
    decreases MaxAttempts - n
  {
    match attempt(n)
    case Success(page) => (Success(page), n + 1)
    case Failure(e) =>
      if n + 1 == MaxAttempts then (Failure("RetryError: " + e), MaxAttempts)
      else Retry(attempt, n + 1)
  }

  /** `fetch_article(session, url)` under its retry decorator; `attempt(n)` is
      the outcome of the request made on attempt `n`, counting from 0. */
  function FetchArticle(attempt: nat -> Result<string>): (r: (Result<string>, nat)) {
    Retry(attempt, 0)
  }

  /** What the retry decorator promises: at most three requests, the page of
      the first that succeeds, and a failure only when the first three all fail. */
  lemma FetchArticleBound(attempt: nat -> Result<string>)
    ensures 1 <= FetchArticle(attempt).1 <= MaxAttempts
    ensures FetchArticle(attempt).0.Success? <==>
      attempt(0).Success? || attempt(1).Success? || attempt(2).Success?
    ensures FetchArticle(attempt).0.Success? ==>
      FetchArticle(attempt).0 == attempt(FetchArticle(attempt).1 - 1)
  {
    var r := Retry(attempt, 0);
    if r.0.Success? {
      var m :| 0 <= m < MaxAttempts && attempt(m).Success?;
    }
  }

  /** What `newspaper` reads from a page: title, text and publish date, if any. */
  datatype Parsed = Parsed(title: string, text: string, publishDate: Option<DateTime>)

  /** The outside world extraction depends on: the outcome of each request
      for a URL, and the parser's reading of a page. */
  datatype Source = Source(
    attempt: (string, nat) -> Result<string>,
    parse: (string, string) -> Result<Parsed>)

  function PageOf(src: Source, url: string): Result<string> {
    FetchArticle((n: nat) => src.attempt(url, n)).0
  }

  /** `extract_article_content(url)`: the article carries the URL it was asked
      for, and the current time when the page gives no publish date. */
  function ExtractArticleContent(url: string, src: Source, now: DateTime): (r: Result<Article>)
    ensures r.Success? <==> PageOf(src, url).Success? && src.parse(url, PageOf(src, url).value).Success?
    ensures r.Success? ==> r.value.url == url
    ensures r.Success? ==>
      var p := src.parse(url, PageOf(src, url).value).value;
      && r.value.title == p.title && r.value.content == p.text
      && (p.publishDate.Some? ==> r.value.publishDate == p.publishDate.value)
      && (p.publishDate.None? ==> r.value.publishDate == now)
  {
    match PageOf(src, url)
    case Failure(e) => Failure(e)
    case Success(page) =>
      match src.parse(url, page)
      case Failure(e) => Failure(e)
      case Success(p) => Success(Article(url, p.title, p.text, p.publishDate.GetOr(now)))
  }

  /** `asyncio.gather` without `return_exceptions`: every result, in input order,
      or the first failure. Task `from + i` runs on `urls[i]`, so each task can
      see what is particular to it (the moment it reads the clock). */
  function Gather<T>(urls: seq<string>, run: (nat, string) -> Result<T>, from: nat): (r: Result<seq<T>>)
    ensures r.Success? <==> forall i :: 0 <= i < |urls| ==> run(from + i, urls[i]).Success?
    ensures r.Success? ==> |r.value| == |urls| && forall i :: 0 <= i < |urls| ==> r.value[i] == run(from + i, urls[i]).value
    decreases |urls|
  {
    if |urls| == 0 then Success([])
    else
      match run(from, urls[0])
      case Failure(e) => Failure(e)
      case Success(x) =>
        match Gather(urls[1..], run, from + 1)
        case Failure(e) => Failure(e)
        case Success(xs) =>
          assert forall i :: 1 <= i < |urls| ==> urls[i] == urls[1..][i - 1];
          Success([x] + xs)
  }

  /** `extract_articles(urls)`. The trailing `None` filter keeps every result,
      since `extract_article_content` never returns `None`. The tasks run
      concurrently and each reads `datetime.now()` once its own page is in,
      after its own retries: `clock(i)` is that reading for the `i`-th URL. */
  function ExtractArticles(urls: seq<string>, src: Source, clock: nat -> DateTime): (r: Result<seq<Article>>)
    ensures r.Success? <==> forall i :: 0 <= i < |urls| ==> ExtractArticleContent(urls[i], src, clock(i)).Success?
    ensures r.Success? ==>
      && |r.value| == |urls|
      && forall i :: 0 <= i < |urls| ==> r.value[i] == ExtractArticleContent(urls[i], src, clock(i)).value
  {
    Gather(urls, (i: nat, u: string) => ExtractArticleContent(u, src, clock(i)), 0)
  }

  /** All or nothing: one article per URL, in order, each carrying its own URL
      and, when its page gives no date, its own task's clock reading; a single
      failing URL fails the call. */
  lemma ExtractArticlesUrls(urls: seq<string>, src: Source, clock: nat -> DateTime)
    ensures ExtractArticles(urls, src, clock).Success? <==>
      forall i :: 0 <= i < |urls| ==> ExtractArticleContent(urls[i], src, clock(i)).Success?
    ensures ExtractArticles(urls, src, clock).Success? ==>
      |ExtractArticles(urls, src, clock).value| == |urls|
      && forall i :: 0 <= i < |urls| ==>
        && ExtractArticles(urls, src, clock).value[i].url == urls[i]
        && ExtractArticles(urls, src, clock).value[i] == ExtractArticleContent(urls[i], src, clock(i)).value
  {
    var r := ExtractArticles(urls, src, clock);
    if r.Success? {
      forall i | 0 <= i < |urls|
        ensures r.value[i].url == urls[i]
      {
        assert r.value[i] == ExtractArticleContent(urls[i], src, clock(i)).value;
      }
    }
  }
}
