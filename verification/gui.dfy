/** The logic of the desktop window (`gui.py`) without the widgets: the
    feed list typed as text, the voice label, the settings rewrite of
    `config.py`, the pause flag, the single processing thread, stepping to
    the next library row, and the processing pass itself. */
module Gui {
  import opened Wrappers
  import opened Text
  import opened Models
  import Config
  import Pipeline
  import RssFeed
  import ArticleExtraction
  import TextToSpeech

  // ---------------------------------------------------------------------------
  // The feed list

  predicate IsBracket(c: char) { c == '[' || c == ']' }
  predicate IsQuote(c: char) { c == '\'' }
  predicate IsComma(c: char) { c == ',' }

  /** `", ".join(RSS_FEEDS)`: how the feed list is shown in its entry box. */
  function FeedsText(feeds: seq<string>): string {
    JoinWith(feeds, ", ")
  }

  /** A non-empty text with no whitespace at either end: what `strip()` leaves when it leaves anything. */
  predicate Trimmed(f: string) {
    |f| > 0 && !IsSpace(f[0]) && !IsSpace(f[|f| - 1])
  }

  /** `[feed.strip() for feed in pieces if feed.strip()]`. */
  function CleanFeeds(pieces: seq<string>): (r: seq<string>)
    ensures |r| <= |pieces|
    decreases |pieces|
  {
    if |pieces| == 0 then []
    else
      var f := Strip(pieces[0]);
      (if |f| > 0 then [f] else []) + CleanFeeds(pieces[1..])
  }

  lemma {:induction false} CleanFeedsTrimmed(pieces: seq<string>)
    ensures forall i :: 0 <= i < |CleanFeeds(pieces)| ==> Trimmed(CleanFeeds(pieces)[i])
    decreases |pieces|
  {
    if |pieces| > 0 {
      StripByEnds(pieces[0], IsSpace);
      CleanFeedsTrimmed(pieces[1..]);
    }
  }

  lemma {:induction false} CleanFeedsNoneOf(pieces: seq<string>, p: char -> bool)
    requires forall i :: 0 <= i < |pieces| ==> NoneOf(pieces[i], p)
    ensures forall i :: 0 <= i < |CleanFeeds(pieces)| ==> NoneOf(CleanFeeds(pieces)[i], p)
    decreases |pieces|
  {
    if |pieces| > 0 {
      StripByNoneOf(pieces[0], IsSpace, p);
      CleanFeedsNoneOf(pieces[1..], p);
    }
  }

  /** Reading the feed entry box: brackets stripped from both ends, single
      quotes removed, split at commas, each piece stripped, empty pieces dropped. */
  function ParseFeeds(text: string): (r: seq<string>)
    ensures forall i :: 0 <= i < |r| ==> Trimmed(r[i]) && NoneOf(r[i], IsComma) && NoneOf(r[i], IsQuote)
  {
    var unquoted := Without(StripBy(text, IsBracket), IsQuote);
    var pieces := SplitOn(unquoted, ',');
    assert forall i :: 0 <= i < |pieces| ==> NoneOf(pieces[i], IsComma) by {
      forall i | 0 <= i < |pieces|
        ensures NoneOf(pieces[i], IsComma)
      {
        assert forall k :: 0 <= k < |pieces[i]| ==> pieces[i][k] in pieces[i];
      }
    }
    SplitOnNoneOf(unquoted, ',', IsQuote);
    CleanFeedsNoneOf(pieces, IsComma);
    CleanFeedsNoneOf(pieces, IsQuote);
    CleanFeedsTrimmed(pieces);
    CleanFeeds(pieces)
  }

  /** A feed the entry box can carry: non-empty, no comma or single quote, no surrounding whitespace. */
  predicate FeedShape(f: string) {
    Trimmed(f) && NoneOf(f, IsComma) && NoneOf(f, IsQuote)
  }

  /** Each later feed as it appears in the shown text: after the space of the separator. */
  function Padded(feeds: seq<string>): (r: seq<string>)
    ensures |r| == |feeds|
    decreases |feeds|
  {
    if |feeds| == 0 then [] else [" " + feeds[0]] + Padded(feeds[1..])
  }

  lemma {:induction false} SplitFeedsText(feeds: seq<string>)
    requires |feeds| >= 1
    requires forall i :: 0 <= i < |feeds| ==> ',' !in feeds[i]
    ensures SplitOn(FeedsText(feeds), ',') == [feeds[0]] + Padded(feeds[1..])
    decreases |feeds|
  {
    if |feeds| == 1 {
      SplitOnNoSep(feeds[0], ',');
    } else {
      var tail := feeds[1..];
      var j := FeedsText(tail);
      SplitFeedsText(tail);
      assert FeedsText(feeds) == feeds[0] + [','] + (" " + j);
      SplitOnCons(feeds[0], ',', " " + j);
      assert (" " + j)[1..] == j;
      assert tail[1..] == feeds[2..];
      assert SplitOn(" " + j, ',') == Padded(tail);
    }
  }

  lemma {:induction false} CleanPadded(feeds: seq<string>)
    requires forall i :: 0 <= i < |feeds| ==> FeedShape(feeds[i])
    ensures CleanFeeds(Padded(feeds)) == feeds
    decreases |feeds|
  {
    if |feeds| > 0 {
      var tail := feeds[1..];
      assert [feeds[0]] + tail == feeds;
      assert forall i :: 0 <= i < |tail| ==> FeedShape(tail[i]) by {
        assert forall i :: 0 <= i < |tail| ==> tail[i] == feeds[i + 1];
      }
      CleanPadded(tail);
      var padded := Padded(feeds);
      assert padded[1..] == Padded(tail);
      assert FeedShape(feeds[0]);
      StripPadded(feeds[0]);
    }
  }

  /** The space the separator puts before a feed is stripped again. */
  lemma StripPadded(f: string)
    requires Trimmed(f)
    ensures Strip(" " + f) == f
  {
    StripByLeading(' ', f, IsSpace);
    StripByUnchanged(f, IsSpace);
  }

  /** Showing a feed list and reading it back gives the list again, for
      feeds of the shape the box can carry whose text does not start or end
      with a bracket. */
  lemma ParseFeedsRoundTrip(feeds: seq<string>)
    requires |feeds| >= 1 && forall i :: 0 <= i < |feeds| ==> FeedShape(feeds[i])
    requires FeedShape(feeds[0]) && !IsBracket(feeds[0][0])
    requires var l := feeds[|feeds| - 1]; FeedShape(l) && !IsBracket(l[|l| - 1])
    ensures ParseFeeds(FeedsText(feeds)) == feeds
  {
    StripByUnchanged(feeds[0], IsSpace);
    var text := FeedsText(feeds);
    JoinWithFirst(feeds, ", ");
    JoinWithLast(feeds, ", ");
    StripByUnchanged(text, IsBracket);
    JoinNoneOf(feeds, ", ", IsQuote);
    assert Without(text, IsQuote) == text;
    forall i | 0 <= i < |feeds|
      ensures ',' !in feeds[i]
    {
      assert NoneOf(feeds[i], IsComma);
    }
    SplitFeedsText(feeds);
    var tail := feeds[1..];
    assert [feeds[0]] + tail == feeds;
    assert forall i :: 0 <= i < |tail| ==> FeedShape(tail[i]) by {
      assert forall i :: 0 <= i < |tail| ==> tail[i] == feeds[i + 1];
    }
    CleanPadded(tail);
    var pieces := [feeds[0]] + Padded(tail);
    assert pieces[1..] == Padded(tail);
  }

  // ---------------------------------------------------------------------------
  // Voice labels

  /** `f"{voice[1]} ({voice[0]})"`: the name, then the id in parentheses. */
  function VoiceLabel(id: string, name: string): string {
    name + " (" + id + ")"
  }

  predicate IsCloseParen(c: char) { c == ')' }

  /** `label.split('(')[-1].strip(')')`: the voice id the synthesiser is given. */
  function ParseVoiceId(shown: string): string {
    var pieces := SplitOn(shown, '(');
    StripBy(pieces[|pieces| - 1], IsCloseParen)
  }

  /** The label gives its id back, whatever the name, when the id holds no
      '(' and neither starts nor ends with ')'. */
  lemma VoiceLabelRoundTrip(id: string, name: string)
    requires '(' !in id
    requires |id| > 0 ==> id[0] != ')' && id[|id| - 1] != ')'
    ensures ParseVoiceId(VoiceLabel(id, name)) == id
  {
    var s := id + ")";
    assert VoiceLabel(id, name) == (name + " ") + ['('] + s;
    SplitOnLast(name + " ", '(', s);
    if |id| == 0 {
      assert s[1..] == "";
    } else {
      assert TrimStart(s, IsCloseParen) == s;
      assert s[..|s| - 1] == id;
      assert TrimEnd(s, IsCloseParen) == TrimEnd(id, IsCloseParen);
    }
  }

  // ---------------------------------------------------------------------------
  // Saving settings into config.py

  predicate StartsWith(s: string, prefix: string) {
    |prefix| <= |s| && s[..|prefix|] == prefix
  }

  const ProviderKey: string := "DEFAULT_TTS_PROVIDER"
  const ModelKey: string := "DEFAULT_NEETS_MODEL"
  const SummarizerKey: string := "SUMMARIZER_MODEL"

  /** `f'{KEY} = "{value}"\n'`. */
  function Assignment(key: string, value: string): string {
    key + " = \"" + value + "\"\n"
  }

  /** The three values the settings tab saves. */
  datatype ConfigValues = ConfigValues(provider: string, model: string, summarizer: string)

  /** The first of the three prefixes a line starts with decides its new text. */
  function RewriteLine(line: string, v: ConfigValues): string {
    if StartsWith(line, ProviderKey) then Assignment(ProviderKey, v.provider)
    else if StartsWith(line, ModelKey) then Assignment(ModelKey, v.model)
    else if StartsWith(line, SummarizerKey) then Assignment(SummarizerKey, v.summarizer)
    else line
  }

  predicate IsSettingLine(line: string) {
    StartsWith(line, ProviderKey) || StartsWith(line, ModelKey) || StartsWith(line, SummarizerKey)
  }

  /** `save_settings`: the lines of `config.py` rewritten one by one. The
      three keys do not prefix one another, so at most one rule applies to a line. */
  function RewriteConfig(lines: seq<string>, v: ConfigValues): (r: seq<string>)
    ensures |r| == |lines|
    ensures forall i :: 0 <= i < |lines| && !IsSettingLine(lines[i]) ==> r[i] == lines[i]
    ensures forall i :: 0 <= i < |lines| && StartsWith(lines[i], ProviderKey) ==> r[i] == Assignment(ProviderKey, v.provider)
    ensures forall i :: 0 <= i < |lines| && StartsWith(lines[i], ModelKey) ==> r[i] == Assignment(ModelKey, v.model)
    ensures forall i :: 0 <= i < |lines| && StartsWith(lines[i], SummarizerKey) ==> r[i] == Assignment(SummarizerKey, v.summarizer)
  {
    forall i | 0 <= i < |lines| {
      KeysExclusive(lines[i]);
    }
    seq(|lines|, i requires 0 <= i < |lines| => RewriteLine(lines[i], v))
  }

  /** No line starts with two of the keys. */
  lemma KeysExclusive(s: string)
    ensures !(StartsWith(s, ProviderKey) && StartsWith(s, ModelKey))
    ensures !(StartsWith(s, ProviderKey) && StartsWith(s, SummarizerKey))
    ensures !(StartsWith(s, ModelKey) && StartsWith(s, SummarizerKey))
  {
    if StartsWith(s, ProviderKey) {
      assert s[8] == ProviderKey[8] && s[0] == ProviderKey[0];
    }
    if StartsWith(s, ModelKey) {
      assert s[8] == ModelKey[8] && s[0] == ModelKey[0];
    }
  }

  /** A rewritten line starts with the key it is the assignment of. */
  lemma AssignmentKeeps(key: string, value: string)
    ensures StartsWith(Assignment(key, value), key)
  {
    assert Assignment(key, value)[..|key|] == key;
  }

  /** A later save overrides an earlier one: rewriting twice equals rewriting
      once with the later values, so saving the same values twice changes nothing. */
  lemma RewriteConfigLatest(lines: seq<string>, v: ConfigValues, w: ConfigValues)
    ensures RewriteConfig(RewriteConfig(lines, v), w) == RewriteConfig(lines, w)
  {
    AssignmentKeeps(ProviderKey, v.provider);
    AssignmentKeeps(ModelKey, v.model);
    AssignmentKeeps(SummarizerKey, v.summarizer);
    KeysExclusive(Assignment(ProviderKey, v.provider));
    KeysExclusive(Assignment(ModelKey, v.model));
    KeysExclusive(Assignment(SummarizerKey, v.summarizer));
  }

  // ---------------------------------------------------------------------------
  // Pause, the processing thread, and the library player

  datatype Progress = Progress(paused: bool, status: string)

  /** `toggle_processing`: flips the flag and reports the new state. */
  function ToggleProcessing(p: Progress): (r: Progress)
    ensures r.paused == !p.paused
    ensures r.status == "Processing Paused" <==> r.paused
    ensures r.status == "Processing Paused" || r.status == "Processing Resumed"
  {
    var paused := !p.paused;
    Progress(paused, "Processing " + (if paused then "Paused" else "Resumed"))
  }

  /** Two toggles restore the flag and leave the status as it was after a toggle. */
  lemma ToggleTwice(p: Progress)
    ensures ToggleProcessing(ToggleProcessing(p)).paused == p.paused
    ensures ToggleProcessing(ToggleProcessing(ToggleProcessing(p))) == ToggleProcessing(p)
  {
  }

  /** The processing thread as `process_feeds` sees it: none yet, or one that is or is not alive. */
  datatype Worker = NoWorker | Worker(alive: bool)

  datatype Launch = Refused | Started

  /** `process_feeds`: a new thread is started unless one is still alive. */
  function ProcessFeeds(w: Worker): (r: (Launch, Worker))
    ensures r.0 == Refused <==> w == Worker(true)
    ensures r.1 == Worker(true)
  {
    if w.Worker? && w.alive then (Refused, w) else (Started, Worker(true))
  }

  /** A second click before the pass ends is refused, whatever came before. */
  lemma ProcessFeedsOneAtATime(w: Worker)
    ensures ProcessFeeds(ProcessFeeds(w).1).0 == Refused
  {
  }

  datatype Next = Play(row: nat) | StopAudio | IndexError

  /** `play_next_audio` as written: with a selection, the row after it,
      indexed without a bound check; without one, playback stops. */
  function PlayNextAudioAsWritten(rows: nat, selection: Option<nat>): (r: Next)
    requires selection.Some? ==> selection.value < rows
  {
    if selection.None? then StopAudio
    else if selection.value + 1 < rows then Play(selection.value + 1)
    else IndexError
  }

  /** With the last row selected, the unchecked index raises. */
  lemma PlayNextAudioLastRowRaises(rows: nat)
    requires rows > 0
    ensures PlayNextAudioAsWritten(rows, Some(rows - 1)) == IndexError
  {
  }

  /** `play_next_audio` as the loop option intends: from the last row the
      player goes back to the first. */
  function PlayNextAudio(rows: nat, selection: Option<nat>): (r: Next)
    requires selection.Some? ==> selection.value < rows
    ensures !r.IndexError?
    ensures r.Play? ==> r.row < rows
    ensures r.StopAudio? <==> selection.None?
  {
    if selection.None? then StopAudio
    else if selection.value + 1 < rows then Play(selection.value + 1)
    else Play(0)
  }

  /** The corrected step agrees with the written one wherever that one does not raise. */
  lemma PlayNextAudioAgrees(rows: nat, selection: Option<nat>)
    requires selection.Some? ==> selection.value < rows
    ensures !PlayNextAudioAsWritten(rows, selection).IndexError? ==>
      PlayNextAudio(rows, selection) == PlayNextAudioAsWritten(rows, selection)
    ensures PlayNextAudioAsWritten(rows, selection).IndexError? ==> PlayNextAudio(rows, selection) == Play(0)
  {
  }

  // ---------------------------------------------------------------------------
  // process_feeds_async

  /** What the settings tab holds when a pass starts. */
  datatype Choices = Choices(provider: string, voiceLabel: string, model: string)

  /** The outside world of a pass: feeds, pages and each extraction task's
      clock reading, the undefined `filter_today_articles` and `sanitize_filename`, the
      summariser, the synthesiser, and the audio files already on disk. */
  datatype GuiWorld = GuiWorld(
    read: RssFeed.FeedReader,
    src: ArticleExtraction.Source,
    clock: nat -> DateTime,
    today: map<string, Article> -> seq<Article>,
    sanitize: string -> string,
    summarize: string -> Result<string>,
    synth: TextToSpeech.Synthesiser,
    files: set<string>)

  /** The summaries so far, the audio files on disk, the synthesis requests
      made, and the error that ended the loop, if any. */
  datatype Enrichment = Enrichment(
    summaries: map<string, Summary>,
    files: set<string>,
    speech: seq<TextToSpeech.TtsRequest>,
    error: Option<string>)

  function AudioPath(a: Article, w: GuiWorld): string {
    Config.JoinPath(Config.OutputFolder, w.sanitize(a.title) + ".mp3")
  }

  /** One of today's articles: skipped when it has a summary; otherwise it is
      summarised, spoken unless its audio file exists, and recorded with the
      file's path. Any failure ends the loop. */
  function EnrichOne(e: Enrichment, a: Article, c: Choices, w: GuiWorld): (r: Enrichment)
    ensures e.error.Some? || a.url in e.summaries ==> r == e
    ensures r.error.None? ==> e.error.None? && a.url in r.summaries
    ensures e.summaries.Keys <= r.summaries.Keys <= e.summaries.Keys + {a.url}
    ensures e.files <= r.files
    ensures a.url in r.summaries && a.url !in e.summaries ==>
      w.summarize(a.content).Success? && r.summaries[a.url] == Summary(a, w.summarize(a.content).value, Some(AudioPath(a, w)))
  {
    if e.error.Some? || a.url in e.summaries then e
    else
      match w.summarize(a.content)
      case Failure(err) => e.(error := Some(err))
      case Success(text) =>
        var path := AudioPath(a, w);
        var entry := Summary(a, text, Some(path));
        if path in e.files then e.(summaries := e.summaries[a.url := entry])
        else
          var req := TextToSpeech.TtsRequestFor(text, path, c.provider, Some(ParseVoiceId(c.voiceLabel)), Some(c.model));
          match w.synth(req)
          case Failure(err) => e.(speech := e.speech + [req], error := Some(err))
          case Success(_) => Enrichment(e.summaries[a.url := entry], e.files + {path}, e.speech + [req], None)
  }

  /** The loop over today's articles. A loop no error ended leaves every one
      of them with a summary; none is ever dropped, nor any audio file. */
  function Enrich(e: Enrichment, todays: seq<Article>, c: Choices, w: GuiWorld): (r: Enrichment)
    ensures e.error.Some? ==> r == e
    ensures r.error.None? ==> e.error.None?
    ensures e.summaries.Keys <= r.summaries.Keys && e.files <= r.files
    ensures r.error.None? ==> forall i :: 0 <= i < |todays| ==> todays[i].url in r.summaries
    decreases |todays|
  {
    if |todays| == 0 then e
    else
      var r := Enrich(EnrichOne(e, todays[0], c, w), todays[1..], c, w);
      assert forall i :: 1 <= i < |todays| ==> todays[i] == todays[1..][i - 1];
      r
  }

  function PathsOf(speech: seq<TextToSpeech.TtsRequest>): set<string> {
    set i | 0 <= i < |speech| :: speech[i].path
  }

  /** What the loop keeps: old summaries untouched, new ones only for today's
      articles and pointing at their audio path, and speech requested only
      for files that were absent, one request per file; and once an error
      has ended the loop nothing changes any more. */
  ghost predicate EnrichInvariant(e0: Enrichment, e: Enrichment, w: GuiWorld) {
    && (forall u :: u in e0.summaries ==> u in e.summaries && e.summaries[u] == e0.summaries[u])
    && (forall u :: u in e.summaries && u !in e0.summaries ==>
          e.summaries[u].article.url == u && e.summaries[u].audioPath == Some(AudioPath(e.summaries[u].article, w)))
    && |e.speech| >= |e0.speech| && e.speech[..|e0.speech|] == e0.speech
    && (forall i :: |e0.speech| <= i < |e.speech| ==> e.speech[i].path !in e0.files)
    && (forall i, j :: |e0.speech| <= i < j < |e.speech| ==> e.speech[i].path != e.speech[j].path)
    && (forall i :: |e0.speech| <= i < |e.speech| ==> e.speech[i].path in e.files || e.error.Some?)
    && e0.files <= e.files
    && (e0.error.Some? ==> e == e0)
  }

  /** One step keeps the invariant and adds a summary for its own article only. */
  lemma EnrichOneKeeps(e: Enrichment, a: Article, c: Choices, w: GuiWorld)
    ensures EnrichInvariant(e, EnrichOne(e, a, c, w), w)
    ensures forall u :: u in EnrichOne(e, a, c, w).summaries && u !in e.summaries ==> u == a.url
  {
    var e1 := EnrichOne(e, a, c, w);
    assert e1.speech[..|e.speech|] == e.speech;
  }

  lemma EnrichInvariantTrans(e0: Enrichment, e1: Enrichment, e2: Enrichment, w: GuiWorld)
    requires EnrichInvariant(e0, e1, w) && EnrichInvariant(e1, e2, w)
    ensures EnrichInvariant(e0, e2, w)
  {
    var n0, n1 := |e0.speech|, |e1.speech|;
    assert e2.speech[..n0] == e2.speech[..n1][..n0];
    assert forall i :: n0 <= i < n1 ==> e2.speech[i] == e1.speech[i];
  }

  lemma {:induction false} EnrichKeeps(e: Enrichment, todays: seq<Article>, c: Choices, w: GuiWorld)
    ensures EnrichInvariant(e, Enrich(e, todays, c, w), w)
    ensures forall u :: u in Enrich(e, todays, c, w).summaries && u !in e.summaries ==> u in Pipeline.UrlsOf(todays)
    decreases |todays|
  {
    if |todays| > 0 {
      var e1 := EnrichOne(e, todays[0], c, w);
      EnrichOneKeeps(e, todays[0], c, w);
      EnrichKeeps(e1, todays[1..], c, w);
      EnrichInvariantTrans(e, e1, Enrich(e1, todays[1..], c, w), w);
      Pipeline.UrlsOfCons(todays);
    }
  }

  /** What one pass leaves behind: the articles file and the summaries file
      as written (`None` when not written), the speech requested, and the
      number of today's articles reported, or the error shown. */
  datatype GuiOutcome = GuiOutcome(
    articlesFile: Option<map<string, Article>>,
    summariesFile: Option<map<string, Summary>>,
    speech: seq<TextToSpeech.TtsRequest>,
    result: Result<nat>)

  /** `process_feeds_async`, from the feed box's text and the two loaded files. */
  function ProcessFeedsAsync(feedsText: string, articles: map<string, Article>, summaries: map<string, Summary>,
                             c: Choices, w: GuiWorld): (r: GuiOutcome)
    ensures r.summariesFile.Some? <==> r.result.Success?
    ensures r.articlesFile.None? ==> r.speech == [] && r.result.Failure?
    ensures r.result.Success? ==>
      && r.articlesFile.Some? && summaries.Keys <= r.summariesFile.value.Keys
      && r.result.value == |w.today(r.articlesFile.value)|
      && forall i :: 0 <= i < |w.today(r.articlesFile.value)| ==> w.today(r.articlesFile.value)[i].url in r.summariesFile.value
  {
    match RssFeed.FetchRssFeed(ParseFeeds(feedsText), w.read)
    case Failure(err) => GuiOutcome(None, None, [], Failure(err))
    case Success(all) =>
      var unseen := Pipeline.NewUrls(all, articles.Keys);
      match ArticleExtraction.ExtractArticles(unseen, w.src, w.clock)
      case Failure(err) => GuiOutcome(None, None, [], Failure(err))
      case Success(arts) => Complete(Pipeline.PutArticles(articles, arts), summaries, c, w)
  }

  /** The rest of a pass once the articles are stored: today's articles are
      enriched, and the summaries file is written only if none of them fails. */
  function Complete(stored: map<string, Article>, summaries: map<string, Summary>, c: Choices, w: GuiWorld): (r: GuiOutcome)
    ensures r.articlesFile == Some(stored)
    ensures r.summariesFile.Some? <==> r.result.Success?
    ensures r.result.Success? ==>
      && r.result.value == |w.today(stored)| && summaries.Keys <= r.summariesFile.value.Keys
      && forall i :: 0 <= i < |w.today(stored)| ==> w.today(stored)[i].url in r.summariesFile.value
  {
    var todays := w.today(stored);
    var e := Enrich(Enrichment(summaries, w.files, [], None), todays, c, w);
    if e.error.Some? then GuiOutcome(Some(stored), None, e.speech, Failure(e.error.value))
    else GuiOutcome(Some(stored), Some(e.summaries), e.speech, Success(|todays|))
  }

  /** The files of a pass: the articles file is written as soon as the
      articles are extracted, whether or not enrichment then fails; the
      summaries file is written once, at the end, and only by a pass that
      completes. */
  lemma ProcessFeedsAsyncWrites(feedsText: string, articles: map<string, Article>, summaries: map<string, Summary>,
                                c: Choices, w: GuiWorld)
    ensures var out := ProcessFeedsAsync(feedsText, articles, summaries, c, w);
      && (out.summariesFile.Some? <==> out.result.Success?)
      && (out.summariesFile.Some? ==> out.articlesFile.Some?)
    ensures var out := ProcessFeedsAsync(feedsText, articles, summaries, c, w);
      var fetched := RssFeed.FetchRssFeed(ParseFeeds(feedsText), w.read);
      fetched.Success? ==>
        var ex := ArticleExtraction.ExtractArticles(Pipeline.NewUrls(fetched.value, articles.Keys), w.src, w.clock);
        (out.articlesFile.Some? <==> ex.Success?)
        && (ex.Success? ==> out.articlesFile == Some(Pipeline.PutArticles(articles, ex.value)))
  {
    var out := ProcessFeedsAsync(feedsText, articles, summaries, c, w);
    var fetched := RssFeed.FetchRssFeed(ParseFeeds(feedsText), w.read);
    if fetched.Failure? {
      assert out == GuiOutcome(None, None, [], Failure(fetched.error));
    } else {
      var ex := ArticleExtraction.ExtractArticles(Pipeline.NewUrls(fetched.value, articles.Keys), w.src, w.clock);
      if ex.Failure? {
        assert out == GuiOutcome(None, None, [], Failure(ex.error));
      } else {
        assert out == Complete(Pipeline.PutArticles(articles, ex.value), summaries, c, w);
      }
    }
  }

  /** A completed rest of a pass keeps the loaded summaries, adds entries only
      for today's articles, each pointing at its audio file, and requests
      speech only for absent files, once each. */
  lemma CompleteEnrichment(stored: map<string, Article>, summaries: map<string, Summary>, c: Choices, w: GuiWorld)
    requires Complete(stored, summaries, c, w).result.Success?
    ensures var out := Complete(stored, summaries, c, w);
      && out.summariesFile.Some?
      && out.result.value == |w.today(stored)|
      && (forall u :: u in summaries ==> u in out.summariesFile.value && out.summariesFile.value[u] == summaries[u])
      && (forall u :: u in out.summariesFile.value && u !in summaries ==>
            u in Pipeline.UrlsOf(w.today(stored)) && out.summariesFile.value[u].audioPath == Some(AudioPath(out.summariesFile.value[u].article, w)))
      && (forall i :: 0 <= i < |out.speech| ==> out.speech[i].path !in w.files)
      && (forall i, j :: 0 <= i < j < |out.speech| ==> out.speech[i].path != out.speech[j].path)
  {
    EnrichKeeps(Enrichment(summaries, w.files, [], None), w.today(stored), c, w);
  }

  /** What a completed pass puts in the summaries file: the old entries
      unchanged, new entries only for today's articles, each pointing at its
      audio file; and no speech is requested for a file that already existed,
      nor twice for one file. */
  lemma ProcessFeedsAsyncEnrichment(feedsText: string, articles: map<string, Article>, summaries: map<string, Summary>,
                                    c: Choices, w: GuiWorld)
    requires ProcessFeedsAsync(feedsText, articles, summaries, c, w).result.Success?
    ensures var out := ProcessFeedsAsync(feedsText, articles, summaries, c, w);
      var fetched := RssFeed.FetchRssFeed(ParseFeeds(feedsText), w.read).value;
      var arts := ArticleExtraction.ExtractArticles(Pipeline.NewUrls(fetched, articles.Keys), w.src, w.clock).value;
      var todays := w.today(Pipeline.PutArticles(articles, arts));
      && out.summariesFile.Some?
      && out.result.value == |todays|
      && (forall u :: u in summaries ==> u in out.summariesFile.value && out.summariesFile.value[u] == summaries[u])
      && (forall u :: u in out.summariesFile.value && u !in summaries ==>
            u in Pipeline.UrlsOf(todays) && out.summariesFile.value[u].audioPath == Some(AudioPath(out.summariesFile.value[u].article, w)))
      && (forall i :: 0 <= i < |out.speech| ==> out.speech[i].path !in w.files)
      && (forall i, j :: 0 <= i < j < |out.speech| ==> out.speech[i].path != out.speech[j].path)
  {
    var fetched := RssFeed.FetchRssFeed(ParseFeeds(feedsText), w.read);
    assert fetched.Success?;
    var ex := ArticleExtraction.ExtractArticles(Pipeline.NewUrls(fetched.value, articles.Keys), w.src, w.clock);
    assert ex.Success?;
    var stored := Pipeline.PutArticles(articles, ex.value);
    assert ProcessFeedsAsync(feedsText, articles, summaries, c, w) == Complete(stored, summaries, c, w);
    CompleteEnrichment(stored, summaries, c, w);
  }
}
