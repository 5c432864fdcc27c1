/** The two steps every processing pass shares: choosing the fetched URLs
    not yet stored, and putting extracted articles under their URLs. */
module Pipeline {
  import opened Models

  /** `[url for url in urls if url not in known]`. */
  function NewUrls(urls: seq<string>, known: set<string>): (r: seq<string>)
    ensures |r| <= |urls|
    ensures forall i :: 0 <= i < |r| ==> r[i] !in known
    decreases |urls|
  {
    if |urls| == 0 then []
    else (if urls[0] in known then [] else [urls[0]]) + NewUrls(urls[1..], known)
  }

  /** Filtering goes URL by URL, in fetch order: it distributes over concatenation. */
  lemma {:induction false} NewUrlsAppend(a: seq<string>, b: seq<string>, known: set<string>)
    ensures NewUrls(a + b, known) == NewUrls(a, known) + NewUrls(b, known)
    decreases |a|
  {
    if |a| == 0 {
      assert a + b == b;
    } else {
      assert (a + b)[1..] == a[1..] + b;
      NewUrlsAppend(a[1..], b, known);
    }
  }

  /** Exactly the unknown URLs survive, each as often as it was fetched: duplicates are kept. */
  lemma {:induction false} NewUrlsCount(urls: seq<string>, known: set<string>, u: string)
    ensures multiset(NewUrls(urls, known))[u] == if u in known then 0 else multiset(urls)[u]
    decreases |urls|
  {
    if |urls| > 0 {
      NewUrlsCount(urls[1..], known, u);
      assert urls == [urls[0]] + urls[1..];
    }
  }

  /** When nothing fetched is known the list passes through unchanged. */
  lemma {:induction false} NewUrlsNoneKnown(urls: seq<string>, known: set<string>)
    requires forall i :: 0 <= i < |urls| ==> urls[i] !in known
    ensures NewUrls(urls, known) == urls
    decreases |urls|
  {
    if |urls| > 0 {
      NewUrlsNoneKnown(urls[1..], known);
      assert [urls[0]] + urls[1..] == urls;
    }
  }

  /** `for article in articles: d[article.url] = article`. */
  function PutArticles(m: map<string, Article>, arts: seq<Article>): (r: map<string, Article>)
    decreases |arts|
  {
    if |arts| == 0 then m else PutArticles(m[arts[0].url := arts[0]], arts[1..])
  }

  /** Every article lands under its own URL, a later article with the same
      URL replacing an earlier one; nothing else changes. */
  lemma PutArticlesEffect(m: map<string, Article>, arts: seq<Article>)
    ensures forall u :: u in PutArticles(m, arts) <==> u in m || exists i :: 0 <= i < |arts| && arts[i].url == u
    ensures forall u :: u in m && (forall i :: 0 <= i < |arts| ==> arts[i].url != u) ==> PutArticles(m, arts)[u] == m[u]
    ensures forall i :: 0 <= i < |arts| && (forall j :: i < j < |arts| ==> arts[j].url != arts[i].url) ==>
      arts[i].url in PutArticles(m, arts) && PutArticles(m, arts)[arts[i].url] == arts[i]
  {
    forall u
      ensures u in PutArticles(m, arts) <==> u in m || exists i :: 0 <= i < |arts| && arts[i].url == u
      ensures u in m && (forall i :: 0 <= i < |arts| ==> arts[i].url != u) ==> PutArticles(m, arts)[u] == m[u]
    {
      PutArticlesKey(m, arts, u);
    }
    forall i | 0 <= i < |arts| && (forall j :: i < j < |arts| ==> arts[j].url != arts[i].url)
      ensures arts[i].url in PutArticles(m, arts) && PutArticles(m, arts)[arts[i].url] == arts[i]
    {
      PutArticlesLastWins(m, arts, i);
    }
  }

  /** One URL: present afterwards exactly when it was before or some article
      carries it, and untouched when no article carries it. */
  lemma {:induction false} PutArticlesKey(m: map<string, Article>, arts: seq<Article>, u: string)
    ensures u in PutArticles(m, arts) <==> u in m || exists i :: 0 <= i < |arts| && arts[i].url == u
    ensures u in m && (forall i :: 0 <= i < |arts| ==> arts[i].url != u) ==> PutArticles(m, arts)[u] == m[u]
    decreases |arts|
  {
    if |arts| > 0 {
      var tail := arts[1..];
      PutArticlesKey(m[arts[0].url := arts[0]], tail, u);
      if exists i :: 0 <= i < |arts| && arts[i].url == u {
        var i :| 0 <= i < |arts| && arts[i].url == u;
        if i > 0 {
          assert tail[i - 1].url == u;
        }
      }
      if exists i :: 0 <= i < |tail| && tail[i].url == u {
        var i :| 0 <= i < |tail| && tail[i].url == u;
        assert arts[i + 1].url == u;
      }
      if forall i :: 0 <= i < |arts| ==> arts[i].url != u {
        forall i | 0 <= i < |tail|
          ensures tail[i].url != u
        {
          assert tail[i] == arts[i + 1];
        }
      }
    }
  }

  /** An article no later article overrides is the one stored under its URL. */
  lemma {:induction false} PutArticlesLastWins(m: map<string, Article>, arts: seq<Article>, i: nat)
    requires i < |arts| && forall j :: i < j < |arts| ==> arts[j].url != arts[i].url
    ensures arts[i].url in PutArticles(m, arts) && PutArticles(m, arts)[arts[i].url] == arts[i]
    decreases |arts|
  {
    var tail := arts[1..];
    if i == 0 {
      forall j | 0 <= j < |tail|
        ensures tail[j].url != arts[0].url
      {
        assert tail[j] == arts[j + 1];
      }
      PutArticlesKey(m[arts[0].url := arts[0]], tail, arts[0].url);
    } else {
      assert tail[i - 1] == arts[i];
      forall j | i - 1 < j < |tail|
        ensures tail[j].url != tail[i - 1].url
      {
        assert tail[j] == arts[j + 1];
      }
      PutArticlesLastWins(m[arts[0].url := arts[0]], tail, i - 1);
    }
  }

  /** Putting one more article is one more assignment on top of the rest. */
  lemma {:induction false} PutArticlesSnoc(m: map<string, Article>, arts: seq<Article>, a: Article)
    ensures PutArticles(m, arts + [a]) == PutArticles(m, arts)[a.url := a]
    decreases |arts|
  {
    if |arts| == 0 {
      assert PutArticles(m, [a]) == PutArticles(m[a.url := a], []);
    } else {
      assert (arts + [a])[1..] == arts[1..] + [a];
      PutArticlesSnoc(m[arts[0].url := arts[0]], arts[1..], a);
    }
  }

  /** The URLs a list of articles carries. */
  function UrlsOf(arts: seq<Article>): set<string> {
    set i | 0 <= i < |arts| :: arts[i].url
  }

  /** The first article's URL, together with the rest's, makes up the whole list's. */
  lemma UrlsOfCons(arts: seq<Article>)
    requires |arts| > 0
    ensures UrlsOf(arts) == {arts[0].url} + UrlsOf(arts[1..])
  {
    forall u | u in UrlsOf(arts[1..])
      ensures u in UrlsOf(arts)
    {
      var i :| 0 <= i < |arts[1..]| && arts[1..][i].url == u;
      assert arts[i + 1].url == u;
    }
    forall u | u in UrlsOf(arts) && u != arts[0].url
      ensures u in UrlsOf(arts[1..])
    {
      var i :| 0 <= i < |arts| && arts[i].url == u;
      assert arts[1..][i - 1].url == u;
    }
  }
}
