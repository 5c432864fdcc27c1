/** `main.py`: the command-line pass. It chooses a voice and model, stores
    every newly fetched article in the database, and then summarises and
    speaks the articles of the day as they stood before this pass stored
    anything. Files, the network, the clock, the summariser and the speech
    provider are parameters. */
module CliMain {
  import opened Wrappers
  import opened Models
  import opened Pipeline
  import Text
  import Json
  import Config
  import Db
  import RssFeed
  import ArticleExtraction
  import TextToSpeech

  // ---------------------------------------------------------------------------
  // The provider, voice and model decision

  /** The voice and model every synthesis of a run uses. */
  datatype VoiceSetup = VoiceSetup(voice: Option<string>, model: Option<string>)

  /** Python's `x or y` on an optional string: `y` when `x` is `None` or empty. */
  function Or(x: Option<string>, y: Option<string>): (r: Option<string>)
    ensures x.Some? && |x.value| > 0 ==> r == x
    ensures x.None? || |x.value| == 0 ==> r == y
  {
    if x.Some? && |x.value| > 0 then x else y
  }

  /** The decision at the top of `process_feeds`. `selectedVoice` is what
      `select_voice` answered and `selectedModel` what `select_neets_model`
      answered; neither menu is shown for the default provider. */
  function ChooseVoiceAndModel(provider: string, selectedVoice: Option<string>, selectedModel: string,
                               env: Config.Env): (r: VoiceSetup)
    // The menu answers matter only away from the default provider.
    ensures provider == Config.DefaultTtsProvider ==> r.model == Some(Config.DefaultNeetsModel)
    // A model is passed exactly when the Neets branch is taken.
    ensures r.model.Some? <==> provider != "elevenlabs"
    ensures provider != Config.DefaultTtsProvider && provider != "elevenlabs" ==> r.model == Some(selectedModel)
    // A picked, non-empty voice wins off the default path; otherwise the provider's fallback.
    ensures provider != Config.DefaultTtsProvider && selectedVoice.Some? && |selectedVoice.value| > 0 ==>
      r.voice == selectedVoice
    ensures provider == "elevenlabs" && (selectedVoice.None? || |selectedVoice.value| == 0) ==>
      r.voice == env.elevenLabsVoiceId
    ensures provider != "elevenlabs" && (provider == Config.DefaultTtsProvider || selectedVoice.None? || |selectedVoice.value| == 0) ==>
      r.voice == Some(Config.DefaultNeetsVoice)
  {
    if provider == Config.DefaultTtsProvider then
      VoiceSetup(if provider == "neets" then Some(Config.DefaultNeetsVoice) else env.elevenLabsVoiceId,
                 if provider == "neets" then Some(Config.DefaultNeetsModel) else None)
    else if provider == "elevenlabs" then
      VoiceSetup(Or(selectedVoice, env.elevenLabsVoiceId), None)
    else
      VoiceSetup(Or(selectedVoice, Some(Config.DefaultNeetsVoice)), Some(selectedModel))
  }

  /** With the configured default provider, Neets, choosing Neets ignores both
      menus and uses the Neets defaults; choosing ElevenLabs never passes a
      model and falls back to `ELEVENLABS_VOICE_ID` when no voice is picked.
      The third branch, a non-default Neets, cannot be reached. */
  lemma ChooseVoiceAndModelCases(selectedVoice: Option<string>, selectedModel: string, env: Config.Env, provider: string)
    ensures ChooseVoiceAndModel("neets", selectedVoice, selectedModel, env) ==
      VoiceSetup(Some(Config.DefaultNeetsVoice), Some(Config.DefaultNeetsModel))
    ensures var r := ChooseVoiceAndModel("elevenlabs", selectedVoice, selectedModel, env);
      && r.model.None?
      && (selectedVoice.Some? && |selectedVoice.value| > 0 ==> r.voice == selectedVoice)
      && (selectedVoice.None? || |selectedVoice.value| == 0 ==> r.voice == env.elevenLabsVoiceId)
    ensures provider != "neets" && provider != "elevenlabs" ==>
      ChooseVoiceAndModel(provider, selectedVoice, selectedModel, env).model == Some(selectedModel)
  {
  }

  /** The voice id a voice-menu answer carries: the picked id when the
      provider listed it as a string, nothing when the default was taken. */
  function PickedVoice(answer: Option<Json.Json>): (r: Option<string>)
    ensures answer.None? ==> r.None?
    ensures r.Some? ==> answer == Some(Json.JStr(r.value))
  {
    match answer
    case Some(JStr(s)) => Some(s)
    case _ => None
  }

  /** The three menus at the top of `process_feeds`, each reading the lines
      typed at it: the provider menu; for a provider other than the default,
      the voice menu over `voices`, the list the provider's voice fetch gave;
      and for Neets the model menu. `None` is the `EOFError` of a menu that
      ran out of lines. */
  function Decide(providerLines: seq<string>, voiceLines: seq<string>, modelLines: seq<string>,
                  voices: seq<TextToSpeech.Voice>, env: Config.Env): (r: Option<(string, VoiceSetup)>)
    ensures r.Some? ==> TextToSpeech.SelectTtsProvider(providerLines) == Some(r.value.0)
    ensures r.Some? ==> (r.value.1.model.Some? <==> r.value.0 != "elevenlabs")
    ensures TextToSpeech.SelectTtsProvider(providerLines).None? ==> r.None?
  {
    match TextToSpeech.SelectTtsProvider(providerLines)
    case None => None
    case Some(p) =>
      if p == Config.DefaultTtsProvider then Some((p, ChooseVoiceAndModel(p, None, "", env)))
      else
        match TextToSpeech.SelectVoice(voiceLines, voices)
        case None => None
        case Some(answer) =>
          if p == "elevenlabs" then Some((p, ChooseVoiceAndModel(p, PickedVoice(answer), "", env)))
          else
            match TextToSpeech.SelectNeetsModel(modelLines)
            case None => None
            case Some(m) => Some((p, ChooseVoiceAndModel(p, PickedVoice(answer), m, env)))
  }

  /** What the menus decide for ElevenLabs, from the voice menu's answer
      (which `TextToSpeech.SelectVoiceAnswer` ties to the lines typed): the
      picked voice when its id is a non-empty string, `ELEVENLABS_VOICE_ID`
      when the default is taken, and never a model. */
  lemma DecideAnswers(providerLines: seq<string>, voiceLines: seq<string>, modelLines: seq<string>,
                      voices: seq<TextToSpeech.Voice>, env: Config.Env, id: string)
    requires TextToSpeech.SelectTtsProvider(providerLines) == Some("elevenlabs")
    ensures TextToSpeech.SelectVoice(voiceLines, voices) == Some(None) ==>
      Decide(providerLines, voiceLines, modelLines, voices, env) ==
        Some(("elevenlabs", VoiceSetup(env.elevenLabsVoiceId, None)))
    ensures TextToSpeech.SelectVoice(voiceLines, voices) == Some(Some(Json.JStr(id))) && |id| > 0 ==>
      Decide(providerLines, voiceLines, modelLines, voices, env) ==
        Some(("elevenlabs", VoiceSetup(Some(id), None)))
    ensures TextToSpeech.SelectVoice(voiceLines, voices).None? ==>
      Decide(providerLines, voiceLines, modelLines, voices, env).None?
  {
    if TextToSpeech.SelectVoice(voiceLines, voices).Some? {
      DecideElevenLabs(providerLines, voiceLines, modelLines, voices, env);
    }
  }

  /** Neets, the default provider, speaks with the Neets defaults whatever
      the voice and model menus would have read. */
  lemma DecideDefault(providerLines: seq<string>, voiceLines: seq<string>, modelLines: seq<string>,
                      voices: seq<TextToSpeech.Voice>, env: Config.Env)
    requires TextToSpeech.SelectTtsProvider(providerLines) == Some("neets")
    ensures Decide(providerLines, voiceLines, modelLines, voices, env) ==
      Some(("neets", VoiceSetup(Some(Config.DefaultNeetsVoice), Some(Config.DefaultNeetsModel))))
  {
  }

  /** ElevenLabs speaks with the picked voice, falling back to `ELEVENLABS_VOICE_ID`, and no model. */
  lemma DecideElevenLabs(providerLines: seq<string>, voiceLines: seq<string>, modelLines: seq<string>,
                         voices: seq<TextToSpeech.Voice>, env: Config.Env)
    requires TextToSpeech.SelectTtsProvider(providerLines) == Some("elevenlabs")
    requires TextToSpeech.SelectVoice(voiceLines, voices).Some?
    ensures Decide(providerLines, voiceLines, modelLines, voices, env) ==
      Some(("elevenlabs", VoiceSetup(Or(PickedVoice(TextToSpeech.SelectVoice(voiceLines, voices).value),
                                        env.elevenLabsVoiceId), None)))
  {
  }

  // ---------------------------------------------------------------------------
  // The pass

  /** The outside world of one pass. `clock(i)` is the time the `i`-th
      extraction task reads once its page is in. `byDate` is `filter_articles_by_date`
      followed by `.values()`, and `sanitize` is `sanitize_filename`; neither
      is part of this model. `iso` is `isoformat`, `fromIso` the database's
      reading of it back. */
  datatype CliWorld = CliWorld(
    read: RssFeed.FeedReader,
    src: ArticleExtraction.Source,
    clock: nat -> DateTime,
    today: Day,
    iso: DateTime -> string,
    fromIso: string -> Option<DateTime>,
    byDate: (map<string, Article>, Day) -> seq<Article>,
    summarize: string -> Result<string>,
    sanitize: string -> string,
    synth: TextToSpeech.Synthesiser)

  /** `db.get_articles()`: every stored article by URL, or `{}` when the query raises. */
  function Snapshot(db: Result<Db.Store>): (r: map<string, Article>)
    ensures db.Failure? ==> r == map[]
    ensures db.Success? ==> r.Keys == db.value.articles.Keys
    ensures forall u :: u in r ==> r[u].url == u
  {
    if db.Failure? then map[]
    else map u | u in db.value.articles :: Db.ArticleOf(db.value, u)
  }

  /** The keys of `db.get_summaries()`: the summaries whose article is stored. */
  function Summarised(db: Result<Db.Store>): (r: set<string>)
    ensures db.Failure? ==> r == {}
    ensures db.Success? ==> r == Db.JoinedUrls(db.value)
  {
    if db.Failure? then {} else Db.JoinedUrls(db.value)
  }

  /** The dictionary `save_article` receives for an extracted article. */
  function FieldsOf(arts: seq<Article>, iso: DateTime -> string): (r: seq<Db.ArticleFields>)
    ensures |r| == |arts|
    ensures forall i :: 0 <= i < |arts| ==>
      r[i] == Db.ArticleFields(arts[i].url, arts[i].title, arts[i].content, Db.DateText(iso(arts[i].publishDate)))
  {
    seq(|arts|, i requires 0 <= i < |arts| =>
      Db.ArticleFields(arts[i].url, arts[i].title, arts[i].content, Db.DateText(iso(arts[i].publishDate))))
  }

  /** The database, the audio files on disk, the synthesis requests made, and
      the exception that ended the pass, if any. */
  datatype CliState = CliState(
    db: Result<Db.Store>,
    files: set<string>,
    speech: seq<TextToSpeech.TtsRequest>,
    error: Option<string>)

  function AudioName(a: Article, w: CliWorld): string {
    w.sanitize(a.title) + ".mp3"
  }

  /** One of today's articles: skipped when `get_summaries` already has it;
      otherwise summarised, spoken unless its audio file exists, and saved
      with the served path `/audio/<file>`. Nothing is caught: the first
      exception ends the pass. */
  function CliStep(st: CliState, a: Article, provider: string, v: VoiceSetup, w: CliWorld): (r: CliState)
    ensures st.error.Some? || a.url in Summarised(st.db) ==> r == st
    ensures st.files <= r.files
    ensures |st.speech| <= |r.speech| <= |st.speech| + 1 && r.speech[..|st.speech|] == st.speech
    ensures r.error.None? ==> st.error.None?
    ensures st.db.Success? && r.error.None? ==>
      && r.db.Success? && st.db.value.summaries.Keys <= r.db.value.summaries.Keys
      && a.url in r.db.value.summaries
  {
    if st.error.Some? || a.url in Summarised(st.db) then st
    else
      match w.summarize(a.content)
      case Failure(e) => st.(error := Some(e))
      case Success(text) =>
        var name := AudioName(a, w);
        var path := Config.JoinPath(Config.OutputFolder, name);
        var spoken :=
          if path in st.files then st
          else
            var req := TextToSpeech.TtsRequestFor(text, path, provider, v.voice, v.model);
            match w.synth(req)
            case Failure(e) => st.(speech := st.speech + [req], error := Some(e))
            case Success(_) => st.(files := st.files + {path}, speech := st.speech + [req]);
        if spoken.error.Some? then spoken
        else
          match Db.SaveSummary(spoken.db, a.url, Db.SummaryFields(text, Some("/audio/" + name)))
          case Failure(e) => spoken.(error := Some(e))
          case Success(s) => spoken.(db := Success(s))
  }

  /** The loop over the day's articles. A loop no exception ended leaves
      every one of them with a summary row; requests are only appended, at
      most one per article, and no audio file disappears. */
  function CliLoop(st: CliState, todays: seq<Article>, provider: string, v: VoiceSetup, w: CliWorld): (r: CliState)
    ensures st.error.Some? ==> r == st
    ensures r.error.None? ==> st.error.None?
    ensures st.files <= r.files
    ensures |st.speech| <= |r.speech| <= |st.speech| + |todays| && r.speech[..|st.speech|] == st.speech
    ensures st.db.Success? && r.error.None? ==>
      && r.db.Success? && st.db.value.summaries.Keys <= r.db.value.summaries.Keys
      && forall i :: 0 <= i < |todays| ==> todays[i].url in r.db.value.summaries
    decreases |todays|
  {
    if |todays| == 0 then st
    else
      var st1 := CliStep(st, todays[0], provider, v, w);
      var r := CliLoop(st1, todays[1..], provider, v, w);
      assert r.speech[..|st.speech|] == r.speech[..|st1.speech|][..|st.speech|];
      assert forall i :: 1 <= i < |todays| ==> todays[i] == todays[1..][i - 1];
      r
  }

  /** A summary row the pass wrote or rewrote. */
  predicate Changed(st0: CliState, st: CliState, u: string)
    requires st0.db.Success? && st.db.Success?
  {
    u in st.db.value.summaries && (u !in st0.db.value.summaries || st.db.value.summaries[u] != st0.db.value.summaries[u])
  }

  /** What the enrichment loop keeps: the articles table as it was, the
      summaries of articles that had one untouched, no row dropped, speech
      only for files that were absent, one request per file; and once an
      exception has ended the pass nothing changes any more. */
  ghost predicate CliInvariant(st0: CliState, st: CliState) {
    && (st0.error.Some? ==> st == st0)
    && (st0.db.Failure? ==> st.db == st0.db)
    && (st0.db.Success? ==>
          && st.db.Success?
          && st.db.value.articles == st0.db.value.articles
          && st.db.value.settings == st0.db.value.settings
          && st0.db.value.summaries.Keys <= st.db.value.summaries.Keys
          && forall u :: u in Db.JoinedUrls(st0.db.value) ==> st.db.value.summaries[u] == st0.db.value.summaries[u])
    && |st.speech| >= |st0.speech| && st.speech[..|st0.speech|] == st0.speech
    && (forall i :: |st0.speech| <= i < |st.speech| ==> st.speech[i].path !in st0.files)
    && (forall i, j :: |st0.speech| <= i < j < |st.speech| ==> st.speech[i].path != st.speech[j].path)
    && (forall i :: |st0.speech| <= i < |st.speech| ==> st.speech[i].path in st.files || st.error.Some?)
    && st0.files <= st.files
  }

  /** One step keeps the invariant and writes a summary for its own article only. */
  lemma CliStepKeeps(st: CliState, a: Article, provider: string, v: VoiceSetup, w: CliWorld)
    ensures CliInvariant(st, CliStep(st, a, provider, v, w))
    ensures var st1 := CliStep(st, a, provider, v, w);
      st.db.Success? ==> forall u :: Changed(st, st1, u) ==> u == a.url
  {
    var st1 := CliStep(st, a, provider, v, w);
    assert st1.speech[..|st.speech|] == st.speech;
  }

  lemma CliInvariantTrans(st0: CliState, st1: CliState, st2: CliState)
    requires CliInvariant(st0, st1) && CliInvariant(st1, st2)
    ensures CliInvariant(st0, st2)
  {
    var n0, n1 := |st0.speech|, |st1.speech|;
    assert st2.speech[..n0] == st2.speech[..n1][..n0];
    assert forall i :: n0 <= i < n1 ==> st2.speech[i] == st1.speech[i];
  }

  /** The loop writes summary rows only for the articles it is given. */
  lemma {:induction false} CliLoopKeeps(st: CliState, todays: seq<Article>, provider: string, v: VoiceSetup, w: CliWorld)
    ensures CliInvariant(st, CliLoop(st, todays, provider, v, w))
    ensures var st1 := CliLoop(st, todays, provider, v, w);
      st.db.Success? ==> forall u :: Changed(st, st1, u) ==> u in UrlsOf(todays)
    decreases |todays|
  {
    if |todays| > 0 {
      var st1 := CliStep(st, todays[0], provider, v, w);
      var st2 := CliLoop(st1, todays[1..], provider, v, w);
      CliStepKeeps(st, todays[0], provider, v, w);
      CliLoopKeeps(st1, todays[1..], provider, v, w);
      CliInvariantTrans(st, st1, st2);
      UrlsOfCons(todays);
      if st.db.Success? {
        forall u | Changed(st, st2, u)
          ensures u in UrlsOf(todays)
        {
          if !Changed(st1, st2, u) {
            assert Changed(st, st1, u);
          }
        }
      }
    }
  }

  /** An article that needs a summary and whose audio file already exists is
      summarised and saved with the served path of that file, but not spoken. */
  lemma CliStepExistingFile(st: CliState, a: Article, provider: string, v: VoiceSetup, w: CliWorld)
    requires st.error.None? && st.db.Success? && a.url !in Summarised(st.db)
    requires w.summarize(a.content).Success?
    requires Config.JoinPath(Config.OutputFolder, AudioName(a, w)) in st.files
    ensures var st1 := CliStep(st, a, provider, v, w);
      && st1.speech == st.speech && st1.files == st.files && st1.error.None?
      && st1.db.Success?
      && a.url in st1.db.value.summaries
      && st1.db.value.summaries[a.url] == Db.SummaryRow(w.summarize(a.content).value, "/audio/" + AudioName(a, w))
  {
  }

  /** What one pass leaves: the database, the audio files, the requests made,
      and the count it prints, or the exception that ended it. */
  datatype CliOutcome = CliOutcome(db: Result<Db.Store>, files: set<string>,
                                   speech: seq<TextToSpeech.TtsRequest>, result: Result<nat>)

  /** `process_feeds()` after the decision: `fetch_rss_feed` on the configured
      feeds, the snapshot, the new URLs, the saves, then today's articles of
      the snapshot. */
  function ProcessFeeds(provider: string, v: VoiceSetup, db: Result<Db.Store>, files: set<string>, w: CliWorld): (r: CliOutcome)
    ensures RssFeed.FetchRssFeed(Config.RssFeeds, w.read).Failure? ==>
      r.db == db && r.files == files && r.speech == [] && r.result.Failure?
    ensures files <= r.files
    ensures r.result.Success? ==> r.result.value == |w.byDate(Snapshot(db), w.today)|
    ensures r.result.Success? && db.Success? ==>
      && r.db.Success?
      && forall i :: 0 <= i < |w.byDate(Snapshot(db), w.today)| ==> w.byDate(Snapshot(db), w.today)[i].url in r.db.value.summaries
  {
    match RssFeed.FetchRssFeed(Config.RssFeeds, w.read)
    case Failure(e) => CliOutcome(db, files, [], Failure(e))
    case Success(urls) =>
      var existing := Snapshot(db);
      var unseen := NewUrls(urls, existing.Keys);
      match ArticleExtraction.ExtractArticles(unseen, w.src, w.clock)
      case Failure(e) => CliOutcome(db, files, [], Failure(e))
      case Success(arts) =>
        if db.Failure? && |arts| > 0 then CliOutcome(db, files, [], Failure(db.error))
        else
          var saved := if db.Success? then Db.SaveArticles(db.value, FieldsOf(arts, w.iso), w.fromIso) else (Db.EmptyStore, None);
          if saved.1.Some? then CliOutcome(Success(saved.0), files, [], Failure(saved.1.value))
          else
            var db1 := if db.Success? then Success(saved.0) else db;
            var todays := w.byDate(existing, w.today);
            var st := CliLoop(CliState(db1, files, [], None), todays, provider, v, w);
            CliOutcome(st.db, st.files, st.speech, if st.error.Some? then Failure(st.error.value) else Success(|todays|))
  }

  /** The day's articles are drawn from the snapshot: `filter_articles_by_date` returns some of its values. */
  predicate FromSnapshot(w: CliWorld, existing: map<string, Article>) {
    forall i :: 0 <= i < |w.byDate(existing, w.today)| ==> w.byDate(existing, w.today)[i].url in existing
  }

  /** The pass as the database sees it, when the database answers. No
      summary row of an article stored by this pass is written in it, since
      the day's articles come from the snapshot taken before the saves; no
      article that already had a summary is summarised again; and a pass
      that completes reports the number of the day's articles, however few
      of them it had to summarise. */
  lemma ProcessFeedsSummaries(provider: string, v: VoiceSetup, db: Result<Db.Store>, files: set<string>, w: CliWorld)
    requires db.Success?
    requires FromSnapshot(w, Snapshot(db))
    ensures var r := ProcessFeeds(provider, v, db, files, w);
      && r.db.Success?
      && db.value.articles.Keys <= r.db.value.articles.Keys
      && db.value.summaries.Keys <= r.db.value.summaries.Keys
      && (forall u :: u in Db.JoinedUrls(db.value) ==> r.db.value.summaries[u] == db.value.summaries[u])
      && (forall u :: u !in db.value.articles && u in r.db.value.summaries ==>
            u in db.value.summaries && r.db.value.summaries[u] == db.value.summaries[u])
    ensures var r := ProcessFeeds(provider, v, db, files, w);
      r.result.Success? ==> r.result.value == |w.byDate(Snapshot(db), w.today)|
  {
    var r := ProcessFeeds(provider, v, db, files, w);
    var fetched := RssFeed.FetchRssFeed(Config.RssFeeds, w.read);
    if fetched.Success? {
      var existing := Snapshot(db);
      var unseen := NewUrls(fetched.value, existing.Keys);
      var ex := ArticleExtraction.ExtractArticles(unseen, w.src, w.clock);
      if ex.Success? {
        var saved := Db.SaveArticles(db.value, FieldsOf(ex.value, w.iso), w.fromIso);
        Db.SaveArticlesKeepsSummaries(db.value, FieldsOf(ex.value, w.iso), w.fromIso);
        if saved.1.None? {
          var todays := w.byDate(existing, w.today);
          var st0 := CliState(Success(saved.0), files, [], None);
          CliLoopKeeps(st0, todays, provider, v, w);
          CliLoopWithin(st0, todays, provider, v, w, existing.Keys);
          assert Db.JoinedUrls(db.value) <= Db.JoinedUrls(saved.0);
        }
      }
    }
  }

  /** Summary rows of URLs outside the articles the loop is given stay as they were. */
  lemma CliLoopWithin(st0: CliState, todays: seq<Article>, provider: string, v: VoiceSetup, w: CliWorld, keys: set<string>)
    requires st0.db.Success?
    requires forall i :: 0 <= i < |todays| ==> todays[i].url in keys
    ensures var st := CliLoop(st0, todays, provider, v, w);
      st.db.Success? &&
      forall u :: u !in keys && u in st.db.value.summaries ==>
        u in st0.db.value.summaries && st.db.value.summaries[u] == st0.db.value.summaries[u]
  {
    CliLoopKeeps(st0, todays, provider, v, w);
    var st := CliLoop(st0, todays, provider, v, w);
    forall u | u !in keys && u in st.db.value.summaries
      ensures u in st0.db.value.summaries && st.db.value.summaries[u] == st0.db.value.summaries[u]
    {
      assert u !in UrlsOf(todays);
      assert !Changed(st0, st, u);
    }
  }

  /** When every one of the day's articles already has a summary, the pass
      summarises and speaks nothing, yet reports all of them. */
  lemma ProcessFeedsAllSummarised(provider: string, v: VoiceSetup, db: Result<Db.Store>, files: set<string>, w: CliWorld)
    requires db.Success?
    requires var todays := w.byDate(Snapshot(db), w.today);
      forall i :: 0 <= i < |todays| ==> todays[i].url in Db.JoinedUrls(db.value)
    ensures var r := ProcessFeeds(provider, v, db, files, w);
      r.result.Success? ==> r.speech == [] && r.files == files && r.result.value == |w.byDate(Snapshot(db), w.today)|
  {
    var fetched := RssFeed.FetchRssFeed(Config.RssFeeds, w.read);
    if fetched.Success? {
      var existing := Snapshot(db);
      var ex := ArticleExtraction.ExtractArticles(NewUrls(fetched.value, existing.Keys), w.src, w.clock);
      if ex.Success? {
        var saved := Db.SaveArticles(db.value, FieldsOf(ex.value, w.iso), w.fromIso);
        Db.SaveArticlesKeepsSummaries(db.value, FieldsOf(ex.value, w.iso), w.fromIso);
        if saved.1.None? {
          assert Db.JoinedUrls(db.value) <= Db.JoinedUrls(saved.0);
          SkipAll(CliState(Success(saved.0), files, [], None), w.byDate(existing, w.today), provider, v, w);
        }
      }
    }
  }

  /** A loop over articles that all have summaries changes nothing. */
  lemma {:induction false} SkipAll(st: CliState, todays: seq<Article>, provider: string, v: VoiceSetup, w: CliWorld)
    requires forall i :: 0 <= i < |todays| ==> todays[i].url in Summarised(st.db)
    ensures CliLoop(st, todays, provider, v, w) == st
    decreases |todays|
  {
    if |todays| > 0 {
      SkipAll(st, todays[1..], provider, v, w);
    }
  }
}
