/** `api/main.py`: the settings the web API keeps, the `/articles` filter
    branch, and `process_articles`, the pass that stores every newly fetched
    article and enriches each one on its own. Files, the network, the
    summariser, the speech provider and the clock are parameters; the YAML
    documents are JSON values. */
module ApiMain {
  import opened Wrappers
  import opened Json
  import opened Models
  import opened Pipeline
  import Config
  import RssFeed
  import ArticleExtraction
  import TextToSpeech

  // ---------------------------------------------------------------------------
  // Settings

  /** The `Settings` request model. */
  datatype Settings = Settings(
    ttsProvider: string,
    voice: string,
    neetModel: string,
    summarizerModel: string,
    rssFeeds: seq<string>,
    autoPlay: bool,
    processInterval: int)

  /** The built-in settings `load_current_settings` falls back to. */
  const DefaultSettings: Settings := Settings(
    Config.DefaultTtsProvider, Config.DefaultVoice, Config.DefaultNeetsModel,
    Config.SummarizerModel, Config.RssFeeds, false, 300)

  /** Python truthiness of a loaded document. */
  predicate Truthy(v: Json) {
    match v
    case JNull => false
    case JBool(b) => b
    case JInt(i) => i != 0
    case JFloat(m, _) => m != 0
    case JStr(s) => |s| > 0
    case JArr(items) => |items| > 0
    case JObj(ms) => |ms| > 0
  }

  function Lookup(ms: seq<Member>, key: string): TextToSpeech.Lookup {
    TextToSpeech.Find(ms, key)
  }

  /** A required `str` field. */
  function StrField(ms: seq<Member>, key: string): (r: Result<string>)
    ensures r.Success? <==> Lookup(ms, key).Found? && Lookup(ms, key).value.JStr?
    ensures r.Success? ==> Lookup(ms, key) == TextToSpeech.Found(JStr(r.value))
  {
    match Lookup(ms, key)
    case Found(JStr(s)) => Success(s)
    case Found(_) => Failure(key + ": Input should be a valid string")
    case _ => Failure(key + ": Field required")
  }

  /** The strings of a list, or `None` when an item is not a string. */
  function Strings(items: seq<Json>): (r: Option<seq<string>>)
    ensures r.Some? <==> forall i :: 0 <= i < |items| ==> items[i].JStr?
    ensures r.Some? ==> |r.value| == |items| && forall i :: 0 <= i < |items| ==> items[i] == JStr(r.value[i])
    decreases |items|
  {
    if |items| == 0 then Some([])
    else if !items[0].JStr? then None
    else
      match Strings(items[1..])
      case None => None
      case Some(rest) => Some([items[0].s] + rest)
  }

  /** A required `List[str]` field. */
  function StrListField(ms: seq<Member>, key: string): (r: Result<seq<string>>)
    ensures r.Success? <==>
      && Lookup(ms, key).Found? && Lookup(ms, key).value.JArr?
      && forall i :: 0 <= i < |Lookup(ms, key).value.items| ==> Lookup(ms, key).value.items[i].JStr?
    ensures r.Success? ==>
      Lookup(ms, key).Found? && Lookup(ms, key).value.JArr? && Strings(Lookup(ms, key).value.items) == Some(r.value)
  {
    match Lookup(ms, key)
    case Found(JArr(items)) =>
      (match Strings(items)
       case Some(ss) => Success(ss)
       case None => Failure(key + ": Input should be a valid string"))
    case Found(_) => Failure(key + ": Input should be a valid list")
    case _ => Failure(key + ": Field required")
  }

  /** A required `bool` field. */
  function BoolField(ms: seq<Member>, key: string): (r: Result<bool>)
    ensures r.Success? <==> Lookup(ms, key).Found? && Lookup(ms, key).value.JBool?
    ensures r.Success? ==> Lookup(ms, key) == TextToSpeech.Found(JBool(r.value))
  {
    match Lookup(ms, key)
    case Found(JBool(b)) => Success(b)
    case Found(_) => Failure(key + ": Input should be a valid boolean")
    case _ => Failure(key + ": Field required")
  }

  /** `processInterval: int = 300`: optional, with its default. */
  function IntervalField(ms: seq<Member>): (r: Result<int>)
    ensures r.Success? <==> (Lookup(ms, "processInterval").Found? ==> Lookup(ms, "processInterval").value.JInt?)
    ensures Lookup(ms, "processInterval").KeyMissing? ==> r == Success(300)
    ensures r.Success? && !Lookup(ms, "processInterval").KeyMissing? ==>
      Lookup(ms, "processInterval") == TextToSpeech.Found(JInt(r.value))
  {
    match Lookup(ms, "processInterval")
    case Found(JInt(i)) => Success(i)
    case Found(_) => Failure("processInterval: Input should be a valid integer")
    case _ => Success(300)
  }

  /** A field present and holding a string. */
  predicate HasStr(ms: seq<Member>, key: string) {
    Lookup(ms, key).Found? && Lookup(ms, key).value.JStr?
  }

  /** What `Settings` declares, field by field: a mapping holding the six
      required fields with their types, and `processInterval` an integer
      when it is there at all. */
  predicate Conforms(doc: Json) {
    && doc.JObj?
    && HasStr(doc.members, "ttsProvider") && HasStr(doc.members, "voice")
    && HasStr(doc.members, "neetModel") && HasStr(doc.members, "summarizerModel")
    && var feeds := Lookup(doc.members, "rssFeeds");
    && feeds.Found? && feeds.value.JArr?
    && (forall i :: 0 <= i < |feeds.value.items| ==> feeds.value.items[i].JStr?)
    && Lookup(doc.members, "autoPlay").Found? && Lookup(doc.members, "autoPlay").value.JBool?
    && (Lookup(doc.members, "processInterval").Found? ==> Lookup(doc.members, "processInterval").value.JInt?)
  }

  /** `Settings(**saved_settings)`: the document must be a mapping holding the
      six required fields with their types; keys the model does not declare are
      ignored. Every field of the result is read from the document, and
      `processInterval` falls back to 300 only when the key is absent. */
  function Validate(doc: Json): (r: Result<Settings>)
    ensures r.Success? <==> Conforms(doc)
    ensures r.Success? ==> doc.JObj?
    ensures r.Success? ==>
      var ms := doc.members;
      && Lookup(ms, "ttsProvider") == TextToSpeech.Found(JStr(r.value.ttsProvider))
      && Lookup(ms, "voice") == TextToSpeech.Found(JStr(r.value.voice))
      && Lookup(ms, "neetModel") == TextToSpeech.Found(JStr(r.value.neetModel))
      && Lookup(ms, "summarizerModel") == TextToSpeech.Found(JStr(r.value.summarizerModel))
      && Lookup(ms, "autoPlay") == TextToSpeech.Found(JBool(r.value.autoPlay))
      && Lookup(ms, "rssFeeds").Found? && Lookup(ms, "rssFeeds").value.JArr?
      && Strings(Lookup(ms, "rssFeeds").value.items) == Some(r.value.rssFeeds)
      && (Lookup(ms, "processInterval").KeyMissing? ==> r.value.processInterval == 300)
      && (!Lookup(ms, "processInterval").KeyMissing? ==>
            Lookup(ms, "processInterval") == TextToSpeech.Found(JInt(r.value.processInterval)))
  {
    match doc
    case JObj(ms) =>
      var provider, voice, model := StrField(ms, "ttsProvider"), StrField(ms, "voice"), StrField(ms, "neetModel");
      var summarizer, feeds, autoPlay := StrField(ms, "summarizerModel"), StrListField(ms, "rssFeeds"), BoolField(ms, "autoPlay");
      var interval := IntervalField(ms);
      if provider.Failure? then Failure(provider.error)
      else if voice.Failure? then Failure(voice.error)
      else if model.Failure? then Failure(model.error)
      else if summarizer.Failure? then Failure(summarizer.error)
      else if feeds.Failure? then Failure(feeds.error)
      else if autoPlay.Failure? then Failure(autoPlay.error)
      else if interval.Failure? then Failure(interval.error)
      else Success(Settings(provider.value, voice.value, model.value, summarizer.value,
                            feeds.value, autoPlay.value, interval.value))
    case _ => Failure("TypeError: argument after ** must be a mapping")
  }

  function StrList(ss: seq<string>): (r: seq<Json>)
    ensures |r| == |ss| && forall i :: 0 <= i < |ss| ==> r[i] == JStr(ss[i])
  {
    seq(|ss|, i requires 0 <= i < |ss| => JStr(ss[i]))
  }

  /** `settings.dict()`: the fields in declaration order. */
  function SettingsDocument(s: Settings): (r: Json)
    ensures r.JObj? && |r.members| == 7
  {
    JObj([
      Member("ttsProvider", JStr(s.ttsProvider)),
      Member("voice", JStr(s.voice)),
      Member("neetModel", JStr(s.neetModel)),
      Member("summarizerModel", JStr(s.summarizerModel)),
      Member("rssFeeds", JArr(StrList(s.rssFeeds))),
      Member("autoPlay", JBool(s.autoPlay)),
      Member("processInterval", JInt(s.processInterval))])
  }

  /** Validation reads back every field `settings.dict()` wrote. */
  lemma ValidateDocument(s: Settings)
    ensures Validate(SettingsDocument(s)) == Success(s)
  {
    DocumentFields(s);
  }

  /** Each field of `settings.dict()` reads back as the value it was written from. */
  lemma DocumentFields(s: Settings)
    ensures var ms := SettingsDocument(s).members;
      && StrField(ms, "ttsProvider") == Success(s.ttsProvider)
      && StrField(ms, "voice") == Success(s.voice)
      && StrField(ms, "neetModel") == Success(s.neetModel)
      && StrField(ms, "summarizerModel") == Success(s.summarizerModel)
      && StrListField(ms, "rssFeeds") == Success(s.rssFeeds)
      && BoolField(ms, "autoPlay") == Success(s.autoPlay)
      && IntervalField(ms) == Success(s.processInterval)
  {
    var ms := SettingsDocument(s).members;
    DocumentLookups(s);
    StrFieldFound(ms, "ttsProvider", s.ttsProvider);
    StrFieldFound(ms, "voice", s.voice);
    StrFieldFound(ms, "neetModel", s.neetModel);
    StrFieldFound(ms, "summarizerModel", s.summarizerModel);
    StringsOfStrList(s.rssFeeds);
    OtherFieldsFound(ms, s.rssFeeds, s.autoPlay, s.processInterval);
  }

  lemma StrFieldFound(ms: seq<Member>, key: string, v: string)
    requires Lookup(ms, key) == TextToSpeech.Found(JStr(v))
    ensures StrField(ms, key) == Success(v)
  {
  }

  lemma OtherFieldsFound(ms: seq<Member>, feeds: seq<string>, autoPlay: bool, interval: int)
    requires Lookup(ms, "rssFeeds") == TextToSpeech.Found(JArr(StrList(feeds)))
    requires Strings(StrList(feeds)) == Some(feeds)
    requires Lookup(ms, "autoPlay") == TextToSpeech.Found(JBool(autoPlay))
    requires Lookup(ms, "processInterval") == TextToSpeech.Found(JInt(interval))
    ensures StrListField(ms, "rssFeeds") == Success(feeds)
    ensures BoolField(ms, "autoPlay") == Success(autoPlay)
    ensures IntervalField(ms) == Success(interval)
  {
  }

  lemma DocumentLookups(s: Settings)
    ensures var ms := SettingsDocument(s).members;
      && Lookup(ms, "ttsProvider") == TextToSpeech.Found(JStr(s.ttsProvider))
      && Lookup(ms, "voice") == TextToSpeech.Found(JStr(s.voice))
      && Lookup(ms, "neetModel") == TextToSpeech.Found(JStr(s.neetModel))
      && Lookup(ms, "summarizerModel") == TextToSpeech.Found(JStr(s.summarizerModel))
      && Lookup(ms, "rssFeeds") == TextToSpeech.Found(JArr(StrList(s.rssFeeds)))
      && Lookup(ms, "autoPlay") == TextToSpeech.Found(JBool(s.autoPlay))
      && Lookup(ms, "processInterval") == TextToSpeech.Found(JInt(s.processInterval))
  {
    var ms := SettingsDocument(s).members;
    DistinctInitials(s);
    FieldsFound(ms);
    assert ms[0].key == "ttsProvider" && ms[1].key == "voice" && ms[2].key == "neetModel" && ms[3].key == "summarizerModel";
    assert ms[4].key == "rssFeeds" && ms[5].key == "autoPlay" && ms[6].key == "processInterval";
  }

  lemma DistinctInitials(s: Settings)
    ensures var ms := SettingsDocument(s).members;
      && (forall i :: 0 <= i < |ms| ==> |ms[i].key| > 0)
      && forall i, j :: 0 <= j < i < |ms| ==> ms[j].key[0] != ms[i].key[0]
  {
    var ms := SettingsDocument(s).members;
    assert ms[0].key[0] == 't' && ms[1].key[0] == 'v' && ms[2].key[0] == 'n' && ms[3].key[0] == 's';
    assert ms[4].key[0] == 'r' && ms[5].key[0] == 'a' && ms[6].key[0] == 'p';
  }

  lemma StringsOfStrList(ss: seq<string>)
    ensures Strings(StrList(ss)) == Some(ss)
  {
    var items := StrList(ss);
    assert Strings(items).Some?;
    var r := Strings(items).value;
    assert |r| == |ss|;
    assert forall i :: 0 <= i < |ss| ==> r[i] == ss[i];
    assert r == ss;
  }

  /** In a document whose keys start with distinct letters, every key is found at its own member. */
  lemma FieldsFound(ms: seq<Member>)
    requires forall i :: 0 <= i < |ms| ==> |ms[i].key| > 0
    requires forall i, j :: 0 <= j < i < |ms| ==> ms[j].key[0] != ms[i].key[0]
    ensures forall i :: 0 <= i < |ms| ==> Lookup(ms, ms[i].key) == TextToSpeech.Found(ms[i].value)
  {
    forall i | 0 <= i < |ms|
      ensures Lookup(ms, ms[i].key) == TextToSpeech.Found(ms[i].value)
    {
      FindAt(ms, i);
    }
  }

  /** A lookup finds the first member with the key. */
  lemma {:induction false} FindAt(ms: seq<Member>, i: nat)
    requires i < |ms| && forall j :: 0 <= j < i ==> ms[j].key != ms[i].key
    ensures Lookup(ms, ms[i].key) == TextToSpeech.Found(ms[i].value)
    decreases i
  {
    if i > 0 {
      FindAt(ms[1..], i - 1);
    }
  }

  /** The settings file as the API sees it: absent, or what loading it gave. */
  datatype SettingsFile = NoSettingsFile | SettingsLoaded(doc: Result<Json>)

  /** `load_current_settings`: the settings the file holds when it exists,
      loads, is non-empty and validates; the built-in defaults otherwise. */
  function LoadCurrentSettings(f: SettingsFile): (r: Settings)
    ensures f.NoSettingsFile? ==> r == DefaultSettings
    ensures f.SettingsLoaded? && f.doc.Failure? ==> r == DefaultSettings
    ensures f.SettingsLoaded? && f.doc.Success? && !Truthy(f.doc.value) ==> r == DefaultSettings
    ensures f.SettingsLoaded? && f.doc.Success? && Truthy(f.doc.value) && Validate(f.doc.value).Success? ==>
      r == Validate(f.doc.value).value
    ensures f.SettingsLoaded? && f.doc.Success? && Truthy(f.doc.value) && Validate(f.doc.value).Failure? ==>
      r == DefaultSettings
    ensures r != DefaultSettings ==>
      f.SettingsLoaded? && f.doc.Success? && Validate(f.doc.value) == Success(r)
  {
    match f
    case NoSettingsFile => DefaultSettings
    case SettingsLoaded(Failure(_)) => DefaultSettings
    case SettingsLoaded(Success(doc)) =>
      if !Truthy(doc) then DefaultSettings
      else
        match Validate(doc)
        case Success(s) => s
        case Failure(_) => DefaultSettings
  }

  /** What `update_settings` leaves behind: the settings the process now
      holds, the document it tried to save, and the HTTP answer. */
  datatype Update = Update(current: Settings, written: Json, response: Result<Settings>)

  /** `update_settings(settings)`: the in-memory settings are replaced before
      the save, so they stay replaced even when the save raises and the
      request answers 500. */
  function UpdateSettings(current: Settings, s: Settings, save: Json -> Result<()>): (r: Update)
    ensures r.current == s && r.written == SettingsDocument(s)
    ensures r.response.Success? <==> save(SettingsDocument(s)).Success?
    ensures r.response.Success? ==> r.response.value == s
    ensures r.response.Failure? ==> r.response.error == "Failed to save settings: " + save(SettingsDocument(s)).error
  {
    var doc := SettingsDocument(s);
    match save(doc)
    case Success(_) => Update(s, doc, Success(s))
    case Failure(e) => Update(s, doc, Failure("Failed to save settings: " + e))
  }

  /** Settings saved by `update_settings` are the ones the next load returns,
      provided the file stores the document unchanged. */
  lemma UpdateThenLoad(current: Settings, s: Settings, save: Json -> Result<()>)
    requires save(SettingsDocument(s)).Success?
    ensures var u := UpdateSettings(current, s, save);
      LoadCurrentSettings(SettingsLoaded(Success(u.written))) == s
  {
    ValidateDocument(s);
  }

  // ---------------------------------------------------------------------------
  // GET /articles

  datatype ArticlesFile = NoArticlesFile | ArticlesLoaded(doc: Result<Json>)

  /** `articles if articles else {}`. */
  function OrEmpty(v: Json): (r: Json)
    ensures Truthy(r) || r == JObj([])
  {
    if Truthy(v) then v else JObj([])
  }

  /** `get_articles(filter_date)`. A missing file answers `{}`; a filter is
      applied only when it is a non-empty string and the loaded document is
      non-empty, and a date `strptime` rejects answers 500 like a failed load. */
  function GetArticles(file: ArticlesFile, filterDate: Option<string>,
                       parseDate: string -> Result<Day>, byDate: (Json, Day) -> Json): (r: Result<Json>)
    ensures file.NoArticlesFile? ==> r == Success(JObj([]))
    ensures file.ArticlesLoaded? ==> (r.Failure? <==>
      file.doc.Failure? ||
      (filterDate.Some? && |filterDate.value| > 0 && Truthy(file.doc.value) && parseDate(filterDate.value).Failure?))
    ensures (file.ArticlesLoaded? && file.doc.Success? && filterDate.Some? && |filterDate.value| > 0
             && Truthy(file.doc.value) && parseDate(filterDate.value).Success?) ==>
      r == Success(OrEmpty(byDate(file.doc.value, parseDate(filterDate.value).value)))
    ensures (file.ArticlesLoaded? && file.doc.Success?
             && (filterDate.None? || |filterDate.value| == 0 || !Truthy(file.doc.value))) ==>
      r == Success(OrEmpty(file.doc.value))
    ensures r.Success? ==> Truthy(r.value) || r.value == JObj([])
  {
    match file
    case NoArticlesFile => Success(JObj([]))
    case ArticlesLoaded(Failure(e)) => Failure(e)
    case ArticlesLoaded(Success(doc)) =>
      if filterDate.Some? && |filterDate.value| > 0 && Truthy(doc) then
        match parseDate(filterDate.value)
        case Failure(e) => Failure(e)
        case Success(day) => Success(OrEmpty(byDate(doc, day)))
      else Success(OrEmpty(doc))
  }

  /** An empty filter string is no filter: the whole store is answered, and the date is never parsed. */
  lemma GetArticlesBlankFilter(file: ArticlesFile, parseDate: string -> Result<Day>, byDate: (Json, Day) -> Json,
                               parseDate': string -> Result<Day>, byDate': (Json, Day) -> Json)
    ensures GetArticles(file, Some(""), parseDate, byDate) == GetArticles(file, None, parseDate', byDate')
    ensures file.ArticlesLoaded? && file.doc.Success? ==>
      GetArticles(file, None, parseDate, byDate) == Success(OrEmpty(file.doc.value))
  {
  }

  /** Only the day a filter names matters, not how it is spelt: two filters
      `strptime` reads as the same day answer alike. */
  lemma GetArticlesSameDay(file: ArticlesFile, d1: string, d2: string,
                           parseDate: string -> Result<Day>, byDate: (Json, Day) -> Json)
    requires |d1| > 0 && |d2| > 0 && parseDate(d1) == parseDate(d2)
    ensures GetArticles(file, Some(d1), parseDate, byDate) == GetArticles(file, Some(d2), parseDate, byDate)
  {
  }

  /** An empty store answers `{}` whatever the filter, and never parses it:
      `if filter_date and articles` skips the filter. */
  lemma GetArticlesEmptyStore(file: ArticlesFile, filterDate: Option<string>,
                              parseDate: string -> Result<Day>, byDate: (Json, Day) -> Json)
    requires file.ArticlesLoaded? && file.doc.Success? && !Truthy(file.doc.value)
    ensures GetArticles(file, filterDate, parseDate, byDate) == Success(JObj([]))
  {
  }

  // ---------------------------------------------------------------------------
  // process_articles

  /** The provider, voice and model every synthesis of one pass uses. */
  datatype TtsChoice = TtsChoice(provider: string, voice: string, model: Option<string>)

  /** `model = neetModel if tts_provider == "neets" else None`. */
  function ChooseTts(s: Settings): (t: TtsChoice)
    ensures t.provider == s.ttsProvider && t.voice == s.voice
    ensures t.model.Some? <==> s.ttsProvider == "neets"
    ensures t.model.Some? ==> t.model.value == s.neetModel
  {
    TtsChoice(s.ttsProvider, s.voice, if s.ttsProvider == "neets" then Some(s.neetModel) else None)
  }

  /** Without a settings file the pass speaks through Neets with its default voice and model. */
  lemma DefaultChoice()
    ensures ChooseTts(LoadCurrentSettings(NoSettingsFile)) ==
      TtsChoice("neets", Config.DefaultNeetsVoice, Some(Config.DefaultNeetsModel))
  {
  }

  /** The outside world one pass talks to. `clock(i)` is the time the `i`-th
      extraction task reads once its page is in; `stamp(k)` is the
      `%Y%m%d_%H%M%S` timestamp taken while the `k`-th extracted article is
      processed; `sanitize` is `sanitize_filename`, which is not part of this model. */
  datatype ApiWorld = ApiWorld(
    read: RssFeed.FeedReader,
    src: ArticleExtraction.Source,
    clock: nat -> DateTime,
    summarize: string -> Result<string>,
    stamp: nat -> string,
    sanitize: string -> string,
    synth: TextToSpeech.Synthesiser)

  function AudioName(a: Article, k: nat, w: ApiWorld): string {
    w.sanitize(a.title + "_" + w.stamp(k) + ".mp3")
  }

  function RequestFor(a: Article, text: string, k: nat, t: TtsChoice, w: ApiWorld): TextToSpeech.TtsRequest {
    TextToSpeech.TtsRequestFor(text, Config.JoinPath(Config.OutputFolder, AudioName(a, k, w)), t.provider, Some(t.voice), t.model)
  }

  /** Both calls in the per-article `try` return for the `k`-th article. */
  predicate Ok(a: Article, k: nat, t: TtsChoice, w: ApiWorld) {
    && w.summarize(a.content).Success?
    && w.synth(RequestFor(a, w.summarize(a.content).value, k, t, w)).Success?
  }

  /** The in-memory maps, the snapshots `save_to_yaml` wrote, the speech
      requests and the errors logged, as the loop leaves them. */
  datatype ApiRun = ApiRun(
    articles: map<string, Article>,
    summaries: map<string, Summary>,
    saves: seq<(map<string, Article>, map<string, Summary>)>,
    speech: seq<TextToSpeech.TtsRequest>,
    errors: seq<string>)

  /** One article: stored in memory first, then summarised and spoken inside
      the `try`. Only when both return is the summary added and are both files
      written; a failure is logged and the loop moves on. */
  function ApiStep(run: ApiRun, a: Article, k: nat, t: TtsChoice, w: ApiWorld): (r: ApiRun)
    ensures r.articles == run.articles[a.url := a]
    ensures Ok(a, k, t, w) ==>
      && r.summaries == run.summaries[a.url := Summary(a, w.summarize(a.content).value, Some("/audio/" + AudioName(a, k, w)))]
      && r.saves == run.saves + [(r.articles, r.summaries)]
      && r.errors == run.errors
    ensures !Ok(a, k, t, w) ==>
      && r.summaries == run.summaries && r.saves == run.saves
      && |r.errors| == |run.errors| + 1 && r.errors[..|run.errors|] == run.errors
    ensures w.summarize(a.content).Success? ==>
      r.speech == run.speech + [RequestFor(a, w.summarize(a.content).value, k, t, w)]
    ensures w.summarize(a.content).Failure? ==> r.speech == run.speech
  {
    var articles := run.articles[a.url := a];
    match w.summarize(a.content)
    case Failure(e) => run.(articles := articles, errors := run.errors + [e])
    case Success(text) =>
      var req := RequestFor(a, text, k, t, w);
      match w.synth(req)
      case Failure(e) => run.(articles := articles, speech := run.speech + [req], errors := run.errors + [e])
      case Success(_) =>
        var summaries := run.summaries[a.url := Summary(a, text, Some("/audio/" + AudioName(a, k, w)))];
        ApiRun(articles, summaries, run.saves + [(articles, summaries)], run.speech + [req], run.errors)
  }

  /** The `for article in new_articles` loop, the `k`-th article numbered `k`.
      Each article either writes one snapshot or logs one error, never both;
      one speech request at most is made per article. */
  function ApiLoop(run: ApiRun, arts: seq<Article>, t: TtsChoice, w: ApiWorld): (r: ApiRun)
    ensures (|r.saves| - |run.saves|) + (|r.errors| - |run.errors|) == |arts|
    ensures |run.saves| <= |r.saves| && |run.errors| <= |r.errors|
    ensures |run.speech| <= |r.speech| <= |run.speech| + |arts|
    decreases |arts|
  {
    if |arts| == 0 then run
    else ApiStep(ApiLoop(run, arts[..|arts| - 1], t, w), arts[|arts| - 1], |arts| - 1, t, w)
  }

  /** Every extracted article ends up in the articles map, whatever happened to its enrichment. */
  lemma {:induction false} ApiLoopArticles(run: ApiRun, arts: seq<Article>, t: TtsChoice, w: ApiWorld)
    ensures ApiLoop(run, arts, t, w).articles == PutArticles(run.articles, arts)
    decreases |arts|
  {
    if |arts| > 0 {
      var n := |arts|;
      ApiLoopArticles(run, arts[..n - 1], t, w);
      PutArticlesSnoc(run.articles, arts[..n - 1], arts[n - 1]);
      assert arts[..n - 1] + [arts[n - 1]] == arts;
    }
  }

  /** Failure isolation: a URL gets a summary exactly when it had one or some
      article for it got through both calls; one that had one and never got
      through keeps it unchanged. */
  lemma {:induction false} ApiLoopSummary(run: ApiRun, arts: seq<Article>, t: TtsChoice, w: ApiWorld, u: string)
    ensures var r := ApiLoop(run, arts, t, w);
      u in r.summaries <==> u in run.summaries || OkFor(arts, |arts|, u, t, w)
    ensures !OkFor(arts, |arts|, u, t, w) && u in run.summaries ==>
      ApiLoop(run, arts, t, w).summaries[u] == run.summaries[u]
    decreases |arts|
  {
    if |arts| > 0 {
      var n := |arts|;
      var p := arts[..n - 1];
      ApiLoopSummary(run, p, t, w, u);
      OkForPrefix(arts, n - 1, u, t, w);
      ApiStepSummary(ApiLoop(run, p, t, w), arts[n - 1], n - 1, t, w, u);
    }
  }

  /** Some article among the first `n` carries `u` and got through both calls. */
  predicate OkFor(arts: seq<Article>, n: nat, u: string, t: TtsChoice, w: ApiWorld)
    requires n <= |arts|
  {
    exists k :: 0 <= k < n && arts[k].url == u && Ok(arts[k], k, t, w)
  }

  /** Looking at one more article adds exactly that article's outcome; the
      articles after the first `n` do not matter. */
  lemma OkForPrefix(arts: seq<Article>, n: nat, u: string, t: TtsChoice, w: ApiWorld)
    requires n < |arts|
    ensures OkFor(arts, n + 1, u, t, w) <==> OkFor(arts, n, u, t, w) || (arts[n].url == u && Ok(arts[n], n, t, w))
    ensures OkFor(arts[..n], n, u, t, w) <==> OkFor(arts, n, u, t, w)
  {
    var p := arts[..n];
    assert forall k :: 0 <= k < n ==> p[k] == arts[k];
  }

  /** One step adds a summary for its own article exactly when both calls return, and touches no other. */
  lemma ApiStepSummary(run: ApiRun, a: Article, k: nat, t: TtsChoice, w: ApiWorld, u: string)
    ensures var r := ApiStep(run, a, k, t, w);
      u in r.summaries <==> u in run.summaries || (a.url == u && Ok(a, k, t, w))
    ensures (a.url != u || !Ok(a, k, t, w)) && u in run.summaries ==>
      ApiStep(run, a, k, t, w).summaries[u] == run.summaries[u]
  {
  }

  /** The last article, counting from the end, for which both calls return; -1 when there is none. */
  function LastOk(arts: seq<Article>, t: TtsChoice, w: ApiWorld): (j: int)
    ensures -1 <= j < |arts|
    ensures j >= 0 ==> Ok(arts[j], j, t, w)
    ensures forall k :: j < k < |arts| ==> !Ok(arts[k], k, t, w)
    decreases |arts|
  {
    if |arts| == 0 then -1
    else if Ok(arts[|arts| - 1], |arts| - 1, t, w) then |arts| - 1
    else
      var j := LastOk(arts[..|arts| - 1], t, w);
      assert forall k :: j < k < |arts| - 1 ==> arts[..|arts| - 1][k] == arts[k];
      j
  }

  /** The files are written only after a successful article: when the loop
      ends, the last snapshot written holds the summaries as they stand and
      the articles up to the last success, so an article whose enrichment
      failed reaches the file only if a later one succeeds. */
  lemma ApiLoopCheckpoints(run: ApiRun, arts: seq<Article>, t: TtsChoice, w: ApiWorld)
    ensures var r := ApiLoop(run, arts, t, w);
      && |r.saves| >= |run.saves| && r.saves[..|run.saves|] == run.saves
      && (LastOk(arts, t, w) == -1 ==> r.saves == run.saves && r.summaries == run.summaries)
      && (LastOk(arts, t, w) >= 0 ==>
            |r.saves| > |run.saves| &&
            r.saves[|r.saves| - 1] == (PutArticles(run.articles, arts[..LastOk(arts, t, w) + 1]), r.summaries))
  {
    ApiLoopSavesGrow(run, arts, t, w);
    ApiLoopLastCheckpoint(run, arts, t, w);
  }

  /** Snapshots are only ever appended. */
  lemma {:induction false} ApiLoopSavesGrow(run: ApiRun, arts: seq<Article>, t: TtsChoice, w: ApiWorld)
    ensures var r := ApiLoop(run, arts, t, w);
      |r.saves| >= |run.saves| && r.saves[..|run.saves|] == run.saves
    decreases |arts|
  {
    if |arts| > 0 {
      var p := arts[..|arts| - 1];
      ApiLoopSavesGrow(run, p, t, w);
      var rp := ApiLoop(run, p, t, w);
      var r := ApiLoop(run, arts, t, w);
      assert r.saves == rp.saves || r.saves == rp.saves + [(r.articles, r.summaries)];
      assert r.saves[..|run.saves|] == rp.saves[..|run.saves|];
    }
  }

  /** The last snapshot is the one the last successful article wrote. */
  lemma {:induction false} ApiLoopLastCheckpoint(run: ApiRun, arts: seq<Article>, t: TtsChoice, w: ApiWorld)
    ensures var r := ApiLoop(run, arts, t, w);
      && (LastOk(arts, t, w) == -1 ==> r.saves == run.saves && r.summaries == run.summaries)
      && (LastOk(arts, t, w) >= 0 ==>
            |r.saves| > 0 &&
            r.saves[|r.saves| - 1] == (PutArticles(run.articles, arts[..LastOk(arts, t, w) + 1]), r.summaries))
    decreases |arts|
  {
    if |arts| > 0 {
      var n := |arts|;
      var p := arts[..n - 1];
      ApiLoopLastCheckpoint(run, p, t, w);
      var rp := ApiLoop(run, p, t, w);
      var r := ApiLoop(run, arts, t, w);
      var j := LastOk(arts, t, w);
      if Ok(arts[n - 1], n - 1, t, w) {
        ApiLoopArticles(run, arts, t, w);
        assert arts[..j + 1] == arts;
        assert r.saves[|r.saves| - 1] == (r.articles, r.summaries);
      } else {
        assert j == LastOk(p, t, w);
        assert r.saves == rp.saves && r.summaries == rp.summaries;
        if j >= 0 {
          assert p[..j + 1] == arts[..j + 1];
        }
      }
    }
  }

  /** What a pass leaves: the settings it reloaded, what the loop did, and
      whether it ended in the outer `except` (HTTP 500). */
  datatype ApiOutcome = ApiOutcome(settings: Settings, run: ApiRun, result: Result<()>)

  /** `process_articles()`. `articles` and `summaries` are what `load_from_yaml`
      returned for the two files, `None` standing for nothing loaded. */
  function ProcessArticles(settingsFile: SettingsFile, articles: Option<map<string, Article>>,
                           summaries: Option<map<string, Summary>>, w: ApiWorld): (r: ApiOutcome)
    ensures r.settings == LoadCurrentSettings(settingsFile)
    ensures var start := ApiRun(articles.GetOr(map[]), summaries.GetOr(map[]), [], [], []);
      var fetched := RssFeed.FetchRssFeed(r.settings.rssFeeds, w.read);
      && (fetched.Failure? ==> r.result.Failure? && r.run == start)
      && (fetched.Success? && |NewUrls(fetched.value, start.articles.Keys)| == 0 ==> r.result.Success? && r.run == start)
      && (fetched.Success? && ArticleExtraction.ExtractArticles(NewUrls(fetched.value, start.articles.Keys), w.src, w.clock).Failure? ==>
            r.result.Failure? && r.run == start)
      && (fetched.Success? && |NewUrls(fetched.value, start.articles.Keys)| > 0 &&
          ArticleExtraction.ExtractArticles(NewUrls(fetched.value, start.articles.Keys), w.src, w.clock).Success? ==>
            r.result.Success? &&
            r.run == ApiLoop(start, ArticleExtraction.ExtractArticles(NewUrls(fetched.value, start.articles.Keys), w.src, w.clock).value,
                             ChooseTts(r.settings), w))
      && (r.run != start ==>
            r.result.Success? && fetched.Success? &&
            var arts := ArticleExtraction.ExtractArticles(NewUrls(fetched.value, start.articles.Keys), w.src, w.clock);
            arts.Success? && r.run == ApiLoop(start, arts.value, ChooseTts(r.settings), w))
  {
    var settings := LoadCurrentSettings(settingsFile);
    var t := ChooseTts(settings);
    var start := ApiRun(articles.GetOr(map[]), summaries.GetOr(map[]), [], [], []);
    match RssFeed.FetchRssFeed(settings.rssFeeds, w.read)
    case Failure(e) => ApiOutcome(settings, start, Failure(e))
    case Success(urls) =>
      var unseen := NewUrls(urls, start.articles.Keys);
      if |unseen| == 0 then ApiOutcome(settings, start, Success(()))
      else
        match ArticleExtraction.ExtractArticles(unseen, w.src, w.clock)
        case Failure(e) => ApiOutcome(settings, start, Failure(e))
        case Success(arts) => ApiOutcome(settings, ApiLoop(start, arts, t, w), Success(()))
  }

  /** A pass that extracts its new URLs stores, under each of them, an
      article carrying that URL, whatever then happens to its enrichment. */
  lemma ProcessArticlesStores(settingsFile: SettingsFile, articles: Option<map<string, Article>>,
                              summaries: Option<map<string, Summary>>, w: ApiWorld)
    ensures var r := ProcessArticles(settingsFile, articles, summaries, w);
      var start := articles.GetOr(map[]);
      var fetched := RssFeed.FetchRssFeed(r.settings.rssFeeds, w.read);
      r.result.Success? && fetched.Success? ==>
        var unseen := NewUrls(fetched.value, start.Keys);
        forall i :: 0 <= i < |unseen| ==> unseen[i] in r.run.articles && r.run.articles[unseen[i]].url == unseen[i]
  {
    var r := ProcessArticles(settingsFile, articles, summaries, w);
    var start := ApiRun(articles.GetOr(map[]), summaries.GetOr(map[]), [], [], []);
    var fetched := RssFeed.FetchRssFeed(r.settings.rssFeeds, w.read);
    if fetched.Success? {
      var unseen := NewUrls(fetched.value, start.articles.Keys);
      var ex := ArticleExtraction.ExtractArticles(unseen, w.src, w.clock);
      if |unseen| > 0 && ex.Success? {
        var t := ChooseTts(r.settings);
        ArticleExtraction.ExtractArticlesUrls(unseen, w.src, w.clock);
        ApiLoopArticles(start, ex.value, t, w);
        PutArticlesStoresEach(start.articles, ex.value, unseen);
      }
    }
  }

  /** The summaries file is never left behind the summaries held in memory
      at the end of a pass, except when no article got through both calls. */
  lemma ProcessArticlesLastSave(settingsFile: SettingsFile, articles: Option<map<string, Article>>,
                                summaries: Option<map<string, Summary>>, w: ApiWorld)
    ensures LastSaveKept(ProcessArticles(settingsFile, articles, summaries, w).run, summaries.GetOr(map[]))
  {
    var r := ProcessArticles(settingsFile, articles, summaries, w);
    var start := ApiRun(articles.GetOr(map[]), summaries.GetOr(map[]), [], [], []);
    var fetched := RssFeed.FetchRssFeed(r.settings.rssFeeds, w.read);
    if r.run != start {
      var arts := ArticleExtraction.ExtractArticles(NewUrls(fetched.value, start.articles.Keys), w.src, w.clock).value;
      ApiLoopLastSave(start, arts, ChooseTts(r.settings), w);
    }
  }

  /** The last snapshot written, if any, holds `run`'s summaries; with none,
      they are still `loaded`. */
  predicate LastSaveKept(run: ApiRun, loaded: map<string, Summary>) {
    && (|run.saves| > 0 ==> run.saves[|run.saves| - 1].1 == run.summaries)
    && (|run.saves| == 0 ==> run.summaries == loaded)
  }

  /** From no snapshot yet: the last one written holds the summaries as they
      stand, and without one the summaries are as they were. */
  lemma ApiLoopLastSave(start: ApiRun, arts: seq<Article>, t: TtsChoice, w: ApiWorld)
    requires start.saves == []
    ensures LastSaveKept(ApiLoop(start, arts, t, w), start.summaries)
  {
    ApiLoopCheckpoints(start, arts, t, w);
  }

  /** Storing articles whose URLs are exactly `urls`, in order, leaves each
      of those URLs keyed to an article that carries it. */
  lemma PutArticlesStoresEach(m: map<string, Article>, arts: seq<Article>, urls: seq<string>)
    requires |arts| == |urls| && forall i :: 0 <= i < |urls| ==> arts[i].url == urls[i]
    ensures forall i :: 0 <= i < |urls| ==>
      urls[i] in PutArticles(m, arts) && PutArticles(m, arts)[urls[i]].url == urls[i]
  {
    forall i | 0 <= i < |urls|
      ensures urls[i] in PutArticles(m, arts) && PutArticles(m, arts)[urls[i]].url == urls[i]
    {
      var last := LastWith(arts, urls[i], i);
      PutArticlesLastWins(m, arts, last);
    }
  }

  /** The position of the last article carrying `u`, at or after `i`. */
  function LastWith(arts: seq<Article>, u: string, i: nat): (j: nat)
    requires i < |arts| && arts[i].url == u
    ensures i <= j < |arts| && arts[j].url == u
    ensures forall k :: j < k < |arts| ==> arts[k].url != u
    decreases |arts| - i
  {
    if exists k :: i < k < |arts| && arts[k].url == u then
      var k :| i < k < |arts| && arts[k].url == u;
      LastWith(arts, u, k)
    else i
  }

  /** A successful article is served from the file synthesis wrote: its
      summary carries `/audio/<name>` and its request wrote `output/<name>`,
      the folder mounted at `/audio`, as long as the sanitised name is not absolute. */
  lemma ServedPathIsWrittenFile(run: ApiRun, a: Article, k: nat, t: TtsChoice, w: ApiWorld)
    requires Ok(a, k, t, w)
    requires var n := AudioName(a, k, w); |n| == 0 || n[0] != '/'
    ensures var r := ApiStep(run, a, k, t, w);
      var n := AudioName(a, k, w);
      && a.url in r.summaries && r.summaries[a.url].audioPath == Some("/audio/" + n)
      && |r.speech| == |run.speech| + 1
      && r.speech[|run.speech|].path == Config.OutputFolder + "/" + n
  {
  }
}
