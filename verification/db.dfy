/** `db.Database`: three SQLite tables held as maps keyed by their primary
    keys. A `Result<Store>` stands for the database as a call finds it:
    `Failure` when opening or querying it raises. Reads then return an empty
    result, writes re-raise. */
module Db {
  import opened Wrappers
  import opened Text
  import opened Json
  import opened Models
  import Config

  /** A row of `articles`, keyed by `url`. */
  datatype ArticleRow = ArticleRow(title: string, content: string, publishDate: DateTime)

  /** A row of `summaries`, keyed by `article_url`. */
  datatype SummaryRow = SummaryRow(summary: string, audioPath: string)

  datatype Store = Store(
    articles: map<string, ArticleRow>,
    summaries: map<string, SummaryRow>,
    settings: map<string, string>)

  const EmptyStore: Store := Store(map[], map[], map[])

  /** The `publish_date` entry of an article dict: text, a datetime, or `None`. */
  datatype DateField = DateText(text: string) | DateStamp(stamp: DateTime) | DateNone

  /** The dict `save_article` receives. */
  datatype ArticleFields = ArticleFields(url: string, title: string, content: string, publishDate: DateField)

  /** The dict `save_summary` receives; `audio_path` may be `None`. */
  datatype SummaryFields = SummaryFields(summary: string, audioPath: Option<string>)

  /** `after` is `before` with key `k` inserted or replaced by `v`, and nothing else changed. */
  ghost predicate Upserted<V>(before: map<string, V>, after: map<string, V>, k: string, v: V) {
    && after.Keys == before.Keys + {k}
    && after[k] == v
    && forall u :: u in before && u != k ==> after[u] == before[u]
  }

  // ---------------------------------------------------------------------------
  // save_article

  /** `s.replace('Z', '+00:00')`. */
  function ReplaceZulu(s: string): (r: string)
    ensures 'Z' !in r
    ensures 'Z' !in s ==> r == s
  {
    if |s| == 0 then ""
    else
      var r := (if s[0] == 'Z' then "+00:00" else [s[0]]) + ReplaceZulu(s[1..]);
      assert s[0] != 'Z' ==> [s[0]] + s[1..] == s;
      r
  }

  lemma {:induction false} ReplaceZuluConcat(a: string, b: string)
    ensures ReplaceZulu(a + b) == ReplaceZulu(a) + ReplaceZulu(b)
    decreases |a|
  {
    if |a| == 0 {
      assert a + b == b;
    } else {
      assert (a + b)[1..] == a[1..] + b;
      ReplaceZuluConcat(a[1..], b);
    }
  }

  /** A trailing UTC designator becomes the offset `fromisoformat` accepts. */
  lemma ZuluSuffix(s: string)
    requires 'Z' !in s
    ensures ReplaceZulu(s + "Z") == s + "+00:00"
  {
    ReplaceZuluConcat(s, "Z");
  }

  /** The timestamp `save_article` binds: text goes through `fromisoformat`
      (given as `fromIso`, `None` where it raises) after the `'Z'` rewrite,
      a datetime is bound as it is, and `None` breaks `NOT NULL`. */
  function BindDate(d: DateField, fromIso: string -> Option<DateTime>): Result<DateTime> {
    match d
    case DateStamp(t) => Success(t)
    case DateNone => Failure("NOT NULL constraint failed: articles.publish_date")
    case DateText(s) =>
      match fromIso(ReplaceZulu(s))
      case Some(t) => Success(t)
      case None => Failure("Invalid isoformat string")
  }

  /** `save_article`: insert-or-replace keyed by URL; an error re-raises and writes nothing. */
  function SaveArticle(db: Result<Store>, a: ArticleFields, fromIso: string -> Option<DateTime>): (r: Result<Store>)
    ensures r.Success? <==> db.Success? && BindDate(a.publishDate, fromIso).Success?
    ensures r.Success? ==>
      && Upserted(db.value.articles, r.value.articles, a.url,
                  ArticleRow(a.title, a.content, BindDate(a.publishDate, fromIso).value))
      && r.value.summaries == db.value.summaries
      && r.value.settings == db.value.settings
  {
    if db.Failure? then Failure(db.error)
    else
      match BindDate(a.publishDate, fromIso)
      case Failure(e) => Failure(e)
      case Success(t) =>
        var s := db.value;
        Success(s.(articles := s.articles[a.url := ArticleRow(a.title, a.content, t)]))
  }

  /** Saving the same article twice leaves the store as saving it once. */
  lemma SaveArticleIdempotent(db: Result<Store>, a: ArticleFields, fromIso: string -> Option<DateTime>)
    ensures SaveArticle(SaveArticle(db, a, fromIso), a, fromIso) == SaveArticle(db, a, fromIso)
  {
    var r := SaveArticle(db, a, fromIso);
    if r.Success? {
      var s := r.value;
      assert s.articles[a.url := s.articles[a.url]] == s.articles;
    }
  }

  /** A timestamp text ending in `Z` is stored as the instant `fromisoformat`
      reads from the same text with `+00:00`. */
  lemma SaveArticleZulu(db: Result<Store>, a: ArticleFields, fromIso: string -> Option<DateTime>, s: string)
    requires db.Success? && 'Z' !in s && a.publishDate == DateText(s + "Z")
    requires fromIso(s + "+00:00").Some?
    ensures SaveArticle(db, a, fromIso).Success?
    ensures SaveArticle(db, a, fromIso).value.articles[a.url].publishDate == fromIso(s + "+00:00").value
  {
    ZuluSuffix(s);
  }

  // ---------------------------------------------------------------------------
  // save_summary

  /** `save_summary`: insert-or-replace keyed by `article_url`. SQLite leaves
      foreign keys unchecked unless asked, so a summary of an unknown article is stored. */
  function SaveSummary(db: Result<Store>, url: string, f: SummaryFields): (r: Result<Store>)
    ensures r.Success? <==> db.Success? && f.audioPath.Some?
    ensures r.Success? ==>
      && Upserted(db.value.summaries, r.value.summaries, url, SummaryRow(f.summary, f.audioPath.value))
      && r.value.articles == db.value.articles
      && r.value.settings == db.value.settings
  {
    if db.Failure? then Failure(db.error)
    else if f.audioPath.None? then Failure("NOT NULL constraint failed: summaries.audio_path")
    else
      var s := db.value;
      Success(s.(summaries := s.summaries[url := SummaryRow(f.summary, f.audioPath.value)]))
  }

  // ---------------------------------------------------------------------------
  // settings

  /** Python's `str(v)` for a scalar, and `json.dumps(v)` for a list or dict.
      A float is written in the exponent form `Dumps` uses, not as Python's
      shortest `repr`. */
  function EncodeSetting(v: Json): string {
    match v
    case JArr(_) => Dumps(v)
    case JObj(_) => Dumps(v)
    case JStr(s) => s
    case JBool(b) => if b then "True" else "False"
    case JInt(i) => IntToDecimal(i)
    case JFloat(_, _) => Dumps(v)
    case JNull => "None"
  }

  predicate LooksLikeJson(raw: string) {
    |raw| > 0 && (raw[0] == '[' || raw[0] == '{')
  }

  /** `get_settings` on one stored value: text that starts with `[` or `{` is
      handed to `json.loads`, and kept as it is when that raises. */
  function DecodeSetting(raw: string): (v: Json)
    ensures !LooksLikeJson(raw) ==> v == JStr(raw)
  {
    if LooksLikeJson(raw) then
      match Loads(raw)
      case Some(v) => v
      case None => JStr(raw)
    else JStr(raw)
  }

  /** The values that come back from the settings table as they went in. */
  predicate SurvivesStorage(v: Json) {
    || v.JArr?
    || v.JObj?
    || (v.JStr? && !LooksLikeJson(v.s))
  }

  /** Lists, dicts, and text not starting with `[` or `{` read back equal. */
  lemma SettingRoundTrip(v: Json)
    requires WellFormed(v) && SurvivesStorage(v)
    ensures DecodeSetting(EncodeSetting(v)) == v
  {
    if v.JArr? || v.JObj? {
      LoadsDumps(v);
      DumpsHead(v);
    }
  }

  /** Other scalars read back as their `str`: booleans as `"True"`/`"False"`,
      `None` as `"None"`, and integers as text that `int()` turns back into them. */
  lemma ScalarSettingAsText(v: Json)
    requires v.JBool? || v.JInt? || v.JNull?
    ensures DecodeSetting(EncodeSetting(v)).JStr?
    ensures v.JBool? ==> DecodeSetting(EncodeSetting(v)).s == (if v.b then "True" else "False")
    ensures v.JNull? ==> DecodeSetting(EncodeSetting(v)).s == "None"
    ensures v.JInt? ==> ParsePyInt(DecodeSetting(EncodeSetting(v)).s) == Some(v.i)
  {
    if v.JInt? {
      PyIntRoundTrip(v.i);
      assert !LooksLikeJson(IntToDecimal(v.i)) by {
        var t := IntToDecimal(v.i);
        if v.i >= 0 { assert IsDigit(t[0]); }
      }
    }
  }

  /** Text that is itself a JSON list or dict does not survive: it reads back as that list or dict. */
  lemma JsonTextReadsBackParsed(v: Json)
    requires WellFormed(v) && (v.JArr? || v.JObj?)
    ensures DecodeSetting(EncodeSetting(JStr(Dumps(v)))) == v
    ensures DecodeSetting(EncodeSetting(JStr(Dumps(v)))) != JStr(Dumps(v))
  {
    LoadsDumps(v);
    DumpsHead(v);
  }

  /** `save_settings`: every key of the argument is upserted in turn; other keys keep their values. */
  function SaveSettings(db: Result<Store>, settings: map<string, Json>): (r: Result<Store>)
    ensures r.Success? <==> db.Success?
    ensures r.Success? ==>
      && r.value.settings.Keys == db.value.settings.Keys + settings.Keys
      && (forall k :: k in settings ==> r.value.settings[k] == EncodeSetting(settings[k]))
      && (forall k :: k in db.value.settings && k !in settings ==> r.value.settings[k] == db.value.settings[k])
      && r.value.articles == db.value.articles
      && r.value.summaries == db.value.summaries
  {
    if db.Failure? then Failure(db.error)
    else
      var s := db.value;
      Success(s.(settings := map k | k in s.settings.Keys + settings.Keys ::
        if k in settings then EncodeSetting(settings[k]) else s.settings[k]))
  }

  /** `get_settings`: every stored value decoded; `{}` when the query raises. */
  function GetSettings(db: Result<Store>): (r: map<string, Json>)
    ensures db.Failure? ==> r == map[]
    ensures db.Success? ==> r.Keys == db.value.settings.Keys
  {
    if db.Failure? then map[]
    else map k | k in db.value.settings :: DecodeSetting(db.value.settings[k])
  }

  /** Saving settings and reading them back: values that survive storage come
      back equal, and keys the save did not mention read as before. */
  lemma SaveThenGetSettings(db: Result<Store>, settings: map<string, Json>, k: string)
    requires db.Success?
    requires k in settings ==> WellFormed(settings[k]) && SurvivesStorage(settings[k])
    ensures k in settings ==> GetSettings(SaveSettings(db, settings))[k] == settings[k]
    ensures k !in settings && k in db.value.settings ==>
      GetSettings(SaveSettings(db, settings))[k] == GetSettings(db)[k]
    ensures k !in settings && k !in db.value.settings ==> k !in GetSettings(SaveSettings(db, settings))
  {
    if k in settings {
      SettingRoundTrip(settings[k]);
    }
  }

  /** The settings `ensure_default_settings` writes on first run. */
  function DefaultSettings(): map<string, Json> {
    map[
      "ttsProvider" := JStr(Config.DefaultTtsProvider),
      "voice" := JStr(Config.DefaultVoice),
      "neetModel" := JStr(Config.DefaultNeetsModel),
      "summarizerModel" := JStr(Config.SummarizerModel),
      "rssFeeds" := JArr(seq(|Config.RssFeeds|, i requires 0 <= i < |Config.RssFeeds| => JStr(Config.RssFeeds[i]))),
      "autoPlay" := JBool(false),
      "processInterval" := JInt(300)]
  }

  /** `ensure_default_settings`: reads the settings, writes the defaults only
      when there are none, and returns what it read before writing. */
  function EnsureDefaultSettings(db: Result<Store>): (r: Result<(map<string, Json>, Store)>)
    ensures r.Success? ==> db.Success? && r.value.0 == GetSettings(db)
    ensures r.Success? && |GetSettings(db)| > 0 ==> r.value.1 == db.value
    ensures db.Success? && |GetSettings(db)| == 0 ==>
      r.Success? && r.value.1 == SaveSettings(db, DefaultSettings()).value
    ensures db.Failure? ==> r.Failure?
  {
    var settings := GetSettings(db);
    if |settings| == 0 then
      match SaveSettings(db, DefaultSettings())
      case Failure(e) => Failure(e)
      case Success(s) => Success((settings, s))
    else
      Success((settings, db.value))
  }

  lemma Decimal300()
    ensures IntToDecimal(300) == "300"
  {
    assert NatToDecimal(3) == "3";
    assert NatToDecimal(30) == "30";
  }

  /** Every default reads back as written, except the two scalars, which read back as text. */
  lemma DefaultsDecode(k: string)
    requires k in DefaultSettings()
    ensures k == "autoPlay" ==> DecodeSetting(EncodeSetting(DefaultSettings()[k])) == JStr("False")
    ensures k == "processInterval" ==> DecodeSetting(EncodeSetting(DefaultSettings()[k])) == JStr("300")
    ensures k != "autoPlay" && k != "processInterval" ==>
      DecodeSetting(EncodeSetting(DefaultSettings()[k])) == DefaultSettings()[k]
  {
    var v := DefaultSettings()[k];
    if k == "processInterval" {
      Decimal300();
    } else if k != "autoPlay" {
      assert WellFormed(v);
      SettingRoundTrip(v);
    }
  }

  /** On a fresh database the call returns `{}`; afterwards the settings read back
      as the defaults, with `autoPlay` and `processInterval` turned into text. */
  lemma FirstRunDefaults(s: Store)
    requires s.settings == map[]
    ensures EnsureDefaultSettings(Success(s)).Success?
    ensures EnsureDefaultSettings(Success(s)).value.0 == map[]
    ensures var after := GetSettings(Success(EnsureDefaultSettings(Success(s)).value.1));
      && after.Keys == DefaultSettings().Keys
      && after["autoPlay"] == JStr("False")
      && after["processInterval"] == JStr("300")
      && (forall k :: k in after && k != "autoPlay" && k != "processInterval" ==> after[k] == DefaultSettings()[k])
  {
    var d := DefaultSettings();
    var st := EnsureDefaultSettings(Success(s)).value.1;
    assert st.settings.Keys == d.Keys;
    var after := GetSettings(Success(st));
    forall k | k in after
      ensures k == "autoPlay" ==> after[k] == JStr("False")
      ensures k == "processInterval" ==> after[k] == JStr("300")
      ensures k != "autoPlay" && k != "processInterval" ==> after[k] == d[k]
    {
      assert after[k] == DecodeSetting(EncodeSetting(d[k]));
      DefaultsDecode(k);
    }
  }

  /** A second call finds the defaults and writes nothing. */
  lemma EnsureDefaultsTwice(s: Store)
    requires s.settings == map[]
    ensures var first := EnsureDefaultSettings(Success(s)).value.1;
      EnsureDefaultSettings(Success(first)) == Success((GetSettings(Success(first)), first))
  {
    var first := EnsureDefaultSettings(Success(s)).value.1;
    assert "autoPlay" in GetSettings(Success(first));
  }

  // ---------------------------------------------------------------------------
  // get_articles and get_summaries

  /** The rows are in descending order of `at`. */
  predicate NewestFirst(urls: seq<string>, at: string -> int) {
    forall i, j :: 0 <= i < j < |urls| ==> at(urls[i]) >= at(urls[j])
  }

  predicate DistinctUrls(urls: seq<string>) {
    forall i, j :: 0 <= i < j < |urls| ==> urls[i] != urls[j]
  }

  /** Where `u` goes in a newest-first list: after every entry at least as new. */
  function Slot(urls: seq<string>, u: string, at: string -> int): (k: nat)
    ensures k <= |urls|
    ensures forall i :: 0 <= i < k ==> at(urls[i]) >= at(u)
    ensures k < |urls| ==> at(urls[k]) < at(u)
  {
    if |urls| == 0 || at(urls[0]) < at(u) then 0 else 1 + Slot(urls[1..], u, at)
  }

  function Insert(urls: seq<string>, u: string, at: string -> int): seq<string> {
    var k := Slot(urls, u, at);
    urls[..k] + [u] + urls[k..]
  }

  /** Where each entry of `Insert` comes from. */
  lemma InsertAt(urls: seq<string>, u: string, at: string -> int)
    ensures var k := Slot(urls, u, at); var r := Insert(urls, u, at);
      && |r| == |urls| + 1 && r[k] == u
      && (forall i :: 0 <= i < k ==> r[i] == urls[i])
      && (forall i :: k < i < |r| ==> r[i] == urls[i - 1])
  {
  }

  lemma InsertNewestFirst(urls: seq<string>, u: string, at: string -> int)
    requires NewestFirst(urls, at)
    requires DistinctUrls(urls) && u !in urls
    ensures NewestFirst(Insert(urls, u, at), at)
    ensures DistinctUrls(Insert(urls, u, at))
    ensures forall v :: v in Insert(urls, u, at) <==> v in urls || v == u
  {
    var k := Slot(urls, u, at);
    var r := Insert(urls, u, at);
    InsertAt(urls, u, at);
    forall i, j | 0 <= i < j < |r|
      ensures at(r[i]) >= at(r[j])
    {
      if j == k {
        assert r[i] == urls[i];
      } else if i == k {
        assert r[j] == urls[j - 1];
        assert at(urls[k]) < at(u);
        assert k == j - 1 || at(urls[k]) >= at(urls[j - 1]);
      } else if j < k {
        assert r[i] == urls[i] && r[j] == urls[j];
      } else if i < k {
        assert r[i] == urls[i] && r[j] == urls[j - 1];
      } else {
        assert r[i] == urls[i - 1] && r[j] == urls[j - 1];
      }
    }
    forall i, j | 0 <= i < j < |r|
      ensures r[i] != r[j]
    {
      if i == k {
        assert r[j] == urls[j - 1];
      } else if j == k {
        assert r[i] == urls[i];
      } else {
        var i' := if i < k then i else i - 1;
        var j' := if j < k then j else j - 1;
        assert r[i] == urls[i'] && r[j] == urls[j'] && i' < j';
      }
    }
    assert urls == urls[..k] + urls[k..];
  }

  /** Lists the URLs of `keys` newest first; the order among equal times is unspecified,
      as SQL leaves it. */
  method OrderNewestFirst(keys: set<string>, at: string -> int) returns (urls: seq<string>)
    ensures forall u :: u in urls <==> u in keys
    ensures DistinctUrls(urls)
    ensures NewestFirst(urls, at)
  {
    urls := [];
    var todo := keys;
    while todo != {}
      invariant todo <= keys
      invariant forall u :: u in urls <==> u in keys - todo
      invariant DistinctUrls(urls)
      invariant NewestFirst(urls, at)
      decreases todo
    {
      var u :| u in todo;
      InsertNewestFirst(urls, u, at);
      urls := Insert(urls, u, at);
      todo := todo - {u};
    }
  }

  /** The row `get_articles` returns for a stored URL. */
  function ArticleOf(s: Store, url: string): Article
    requires url in s.articles
  {
    Article(url, s.articles[url].title, s.articles[url].content, s.articles[url].publishDate)
  }

  /** `WHERE DATE(publish_date) = DATE(?)`; no filter keeps every row. */
  predicate OnDate(row: ArticleRow, filter: Option<DateTime>) {
    filter.None? || row.publishDate.day == filter.value.day
  }

  /** `get_articles(filter_date)`: the articles published on the filter's day
      (all of them without a filter), newest first, one per URL; `{}` when the query raises. */
  method GetArticles(db: Result<Store>, filter: Option<DateTime>) returns (rows: seq<Article>)
    ensures db.Failure? ==> rows == []
    ensures db.Success? ==>
      && (forall i :: 0 <= i < |rows| ==>
            rows[i].url in db.value.articles && rows[i] == ArticleOf(db.value, rows[i].url))
      && (forall u :: u in db.value.articles && OnDate(db.value.articles[u], filter) <==>
            exists i :: 0 <= i < |rows| && rows[i].url == u)
      && (forall i, j :: 0 <= i < j < |rows| ==> rows[i].url != rows[j].url)
      && (forall i, j :: 0 <= i < j < |rows| ==>
            Instant(rows[i].publishDate) >= Instant(rows[j].publishDate))
  {
    if db.Failure? {
      return [];
    }
    var s := db.value;
    var keys := set u | u in s.articles && OnDate(s.articles[u], filter);
    var at := (u: string) => if u in s.articles then Instant(s.articles[u].publishDate) else 0;
    var urls := OrderNewestFirst(keys, at);
    assert forall i :: 0 <= i < |urls| ==> urls[i] in keys;
    rows := seq(|urls|, i requires 0 <= i < |urls| => ArticleOf(s, urls[i]));
    forall i, j | 0 <= i < j < |rows|
      ensures rows[i].url != rows[j].url
      ensures Instant(rows[i].publishDate) >= Instant(rows[j].publishDate)
    {
      assert rows[i].url == urls[i] && rows[j].url == urls[j];
      assert at(urls[i]) >= at(urls[j]);
    }
    forall u | u in s.articles && OnDate(s.articles[u], filter)
      ensures exists i :: 0 <= i < |rows| && rows[i].url == u
    {
      assert u in keys;
      var i :| 0 <= i < |urls| && urls[i] == u;
      assert rows[i].url == u;
    }
  }

  /** The URLs `get_summaries` can return: the inner join of the two tables. */
  function JoinedUrls(s: Store): (r: set<string>)
    ensures forall u :: u in r <==> u in s.articles && u in s.summaries
  {
    s.articles.Keys * s.summaries.Keys
  }

  function SummaryOf(s: Store, url: string): Summary
    requires url in JoinedUrls(s)
  {
    Summary(ArticleOf(s, url), s.summaries[url].summary, Some(s.summaries[url].audioPath))
  }

  /** `get_summaries`: exactly the summaries whose article is stored, joined
      with it, newest article first; `{}` when the query raises. */
  method GetSummaries(db: Result<Store>) returns (rows: seq<Summary>)
    ensures db.Failure? ==> rows == []
    ensures db.Success? ==>
      && (forall i :: 0 <= i < |rows| ==>
            rows[i].article.url in JoinedUrls(db.value) && rows[i] == SummaryOf(db.value, rows[i].article.url))
      && (forall u :: u in db.value.articles && u in db.value.summaries <==>
            exists i :: 0 <= i < |rows| && rows[i].article.url == u)
      && (forall i, j :: 0 <= i < j < |rows| ==> rows[i].article.url != rows[j].article.url)
      && (forall i, j :: 0 <= i < j < |rows| ==>
            Instant(rows[i].article.publishDate) >= Instant(rows[j].article.publishDate))
  {
    if db.Failure? {
      return [];
    }
    var s := db.value;
    var at := (u: string) => if u in s.articles then Instant(s.articles[u].publishDate) else 0;
    var urls := OrderNewestFirst(JoinedUrls(s), at);
    assert forall i :: 0 <= i < |urls| ==> urls[i] in JoinedUrls(s);
    rows := seq(|urls|, i requires 0 <= i < |urls| => SummaryOf(s, urls[i]));
    forall i, j | 0 <= i < j < |rows|
      ensures rows[i].article.url != rows[j].article.url
      ensures Instant(rows[i].article.publishDate) >= Instant(rows[j].article.publishDate)
    {
      assert rows[i].article.url == urls[i] && rows[j].article.url == urls[j];
      assert at(urls[i]) >= at(urls[j]);
    }
    forall u | u in s.articles && u in s.summaries
      ensures exists i :: 0 <= i < |rows| && rows[i].article.url == u
    {
      assert u in JoinedUrls(s);
      var i :| 0 <= i < |urls| && urls[i] == u;
      assert rows[i].article.url == u;
    }
  }

  // ---------------------------------------------------------------------------
  // migrate_from_yaml

  /** `save_article` for each article in turn, stopping at the first that raises.
      Each call commits on its own connection, so the ones before it stay written. */
  function SaveArticles(s: Store, arts: seq<ArticleFields>, fromIso: string -> Option<DateTime>): (r: (Store, Option<string>))
    decreases |arts|
  {
    if |arts| == 0 then (s, None)
    else
      match SaveArticle(Success(s), arts[0], fromIso)
      case Failure(e) => (s, Some(e))
      case Success(s') => SaveArticles(s', arts[1..], fromIso)
  }

  function SaveSummaries(s: Store, sums: seq<(string, SummaryFields)>): (r: (Store, Option<string>))
    decreases |sums|
  {
    if |sums| == 0 then (s, None)
    else
      match SaveSummary(Success(s), sums[0].0, sums[0].1)
      case Failure(e) => (s, Some(e))
      case Success(s') => SaveSummaries(s', sums[1..])
  }

  /** `migrate_from_yaml`: the store as it is left (its writes are not rolled
      back) and the error re-raised, if any. */
  function Migrate(s: Store, arts: seq<ArticleFields>, sums: seq<(string, SummaryFields)>,
                   settings: map<string, Json>, fromIso: string -> Option<DateTime>): (Store, Option<string>)
  {
    var (s1, e1) := SaveArticles(s, arts, fromIso);
    if e1.Some? then (s1, e1)
    else
      var (s2, e2) := SaveSummaries(s1, sums);
      if e2.Some? then (s2, e2)
      else (SaveSettings(Success(s2), settings).value, None)
  }

  /** When every article binds its timestamp, all of them are written, in order, and none fails. */
  lemma {:induction false} SaveArticlesAllOk(s: Store, arts: seq<ArticleFields>, fromIso: string -> Option<DateTime>)
    requires forall i :: 0 <= i < |arts| ==> BindDate(arts[i].publishDate, fromIso).Success?
    ensures SaveArticles(s, arts, fromIso).1 == None
    ensures forall i :: 0 <= i < |arts| ==> arts[i].url in SaveArticles(s, arts, fromIso).0.articles
    ensures SaveArticles(s, arts, fromIso).0.summaries == s.summaries
    decreases |arts|
  {
    if |arts| > 0 {
      var s' := SaveArticle(Success(s), arts[0], fromIso).value;
      SaveArticlesAllOk(s', arts[1..], fromIso);
      var r := SaveArticles(s', arts[1..], fromIso).0;
      assert forall i :: 1 <= i < |arts| ==> arts[i] == arts[1..][i - 1];
      SaveArticlesKeeps(s', arts[1..], fromIso, arts[0].url);
    }
  }

  /** A URL already stored stays stored. */
  lemma {:induction false} SaveArticlesKeeps(s: Store, arts: seq<ArticleFields>, fromIso: string -> Option<DateTime>, u: string)
    requires u in s.articles
    ensures u in SaveArticles(s, arts, fromIso).0.articles
    decreases |arts|
  {
    if |arts| > 0 && SaveArticle(Success(s), arts[0], fromIso).Success? {
      SaveArticlesKeeps(SaveArticle(Success(s), arts[0], fromIso).value, arts[1..], fromIso, u);
    }
  }

  /** The migration is not atomic: when article `k` is the first that fails, the
      articles before it stay written, and no summary or setting is written. */
  lemma {:induction false} SaveArticlesStopsAt(s: Store, arts: seq<ArticleFields>, fromIso: string -> Option<DateTime>, k: nat)
    requires k < |arts|
    requires forall i :: 0 <= i < k ==> BindDate(arts[i].publishDate, fromIso).Success?
    requires BindDate(arts[k].publishDate, fromIso).Failure?
    ensures SaveArticles(s, arts, fromIso) == (SaveArticles(s, arts[..k], fromIso).0, Some(BindDate(arts[k].publishDate, fromIso).error))
    decreases k
  {
    if k > 0 {
      var s' := SaveArticle(Success(s), arts[0], fromIso).value;
      assert arts[1..][..k - 1] == arts[..k][1..];
      SaveArticlesStopsAt(s', arts[1..], fromIso, k - 1);
    }
  }

  lemma MigrateNotAtomic(s: Store, arts: seq<ArticleFields>, sums: seq<(string, SummaryFields)>,
                         settings: map<string, Json>, fromIso: string -> Option<DateTime>, k: nat)
    requires k < |arts|
    requires forall i :: 0 <= i < k ==> BindDate(arts[i].publishDate, fromIso).Success?
    requires BindDate(arts[k].publishDate, fromIso).Failure?
    ensures Migrate(s, arts, sums, settings, fromIso).1.Some?
    ensures Migrate(s, arts, sums, settings, fromIso).0 == SaveArticles(s, arts[..k], fromIso).0
    ensures forall i :: 0 <= i < k ==> arts[i].url in Migrate(s, arts, sums, settings, fromIso).0.articles
    ensures Migrate(s, arts, sums, settings, fromIso).0.summaries == s.summaries
    ensures Migrate(s, arts, sums, settings, fromIso).0.settings == s.settings
  {
    var prefix := arts[..k];
    assert forall i :: 0 <= i < k ==> prefix[i] == arts[i];
    SaveArticlesStopsAt(s, arts, fromIso, k);
    SaveArticlesAllOk(s, prefix, fromIso);
    SaveArticlesSettings(s, prefix, fromIso);
    var saved := SaveArticles(s, arts, fromIso);
    assert saved.1.Some? && saved.0 == SaveArticles(s, prefix, fromIso).0;
    assert Migrate(s, arts, sums, settings, fromIso) == saved;
  }

  lemma {:induction false} SaveArticlesSettings(s: Store, arts: seq<ArticleFields>, fromIso: string -> Option<DateTime>)
    ensures SaveArticles(s, arts, fromIso).0.settings == s.settings
    decreases |arts|
  {
    if |arts| > 0 && SaveArticle(Success(s), arts[0], fromIso).Success? {
      SaveArticlesSettings(SaveArticle(Success(s), arts[0], fromIso).value, arts[1..], fromIso);
    }
  }

  /** Saving articles, however far it gets, writes no summary and drops no stored URL. */
  lemma {:induction false} SaveArticlesKeepsSummaries(s: Store, arts: seq<ArticleFields>, fromIso: string -> Option<DateTime>)
    ensures SaveArticles(s, arts, fromIso).0.summaries == s.summaries
    ensures s.articles.Keys <= SaveArticles(s, arts, fromIso).0.articles.Keys
    decreases |arts|
  {
    if |arts| > 0 && SaveArticle(Success(s), arts[0], fromIso).Success? {
      SaveArticlesKeepsSummaries(SaveArticle(Success(s), arts[0], fromIso).value, arts[1..], fromIso);
    }
  }
}
