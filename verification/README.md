# NarrateNews, modelled in Dafny

NarrateNews turns news feeds into spoken summaries. A processing pass:

1. reads the configured RSS feeds;
2. keeps the links it has not stored before;
3. downloads and parses each new article (three tries per page);
4. stores the articles;
5. summarises each article that has no summary yet;
6. has a text-to-speech provider (ElevenLabs or Neets) speak the summary into an audio file;
7. records the summary together with the audio file's path.

There are three variants of the pass:

- the web API's background task (`api/main.py`);
- the command-line run (`main.py`), whose provider, voice and model come from interactive menus;
- the desktop window (`gui.py`), which runs the pass on a worker thread.

Around the pass sit:

- the SQLite store (`db.py`), with its articles, summaries and settings tables;
- the API's settings file and `/articles` filter;
- the processed-URL log and CSV export (`csv_handler.py`);
- the "today's articles, newest first" selection (`utils.py`);
- the small pure helpers of the desktop window.

The model has one module per source file:

- `Db`, `RssFeed`, `ArticleExtraction`, `TextToSpeech`, `CsvHandler`, `Utils`;
- `ApiMain`, `CliMain`, `Gui`, `Config`, `Models`.

It also has four supporting modules:

- `Pipeline` holds the two steps every pass shares: choosing the unseen URLs, and storing articles under their URLs.
- `Json` is a JSON codec for the values the program stores and the documents it reads: null, booleans, integers, finite floats (kept as exact decimals), strings, lists and string-keyed dicts. It has a `loads(dumps(v)) == v` proof.
- `Text` holds Python's `strip`, `split`, `splitlines` and `int()` on text.
- `Wrappers` holds `Option` and `Result`.

The outside world is a parameter of each operation, never a hidden effect:

- feeds, pages, the parser, the clock, the summariser and the speech provider;
- environment variables;
- the helpers the program calls but does not define (see "Left out").

Each table of the database is a map keyed by its primary key. A database that cannot be opened is a `Failure`.

Timestamps are `Models.DateTime`: a day number and the second within that day. They are taken in one fixed time zone, and SQLite's `DATE()` is the day.

## Model

| member | source | states |
|---|---|---|
| Models.InstantOrder | models.py:4-9 | Distinct timestamps sit at distinct instants, and an earlier day is an earlier instant, so ordering by `publish_date` orders by day first |
| Config.JoinPath | config.py:13-14 | `os.path.join` on POSIX: an absolute second part discards the folder; otherwise the two are joined by one `/` |
| Json.LoadsDumps | db.py:138-216 | `json.loads(json.dumps(v)) == v` for every null, boolean, integer, string (any code point, astral ones through surrogate pairs), list and dict with distinct keys |
| Json.StringRoundTrip | db.py:138-216 | A string `json.dumps` quotes and escapes parses back to the same string, whatever text follows it |
| Json.ValueRoundTrip | db.py:138-216 | Any dumped value parses back to itself and leaves the text after it unconsumed |
| Json.FloatRoundTrip | db.py:138-216 | A float written as mantissa and exponent reads back as the same number, leaving the text after it |
| Text.PyIntRoundTrip | text_to_speech.py:85 | `int(str(i)) == i`: the decimal text of any integer parses back to it |
| Db.ReplaceZulu | db.py:99 | `replace('Z', '+00:00')` leaves no `Z`, and leaves text without `Z` unchanged |
| Db.ZuluSuffix | db.py:97-99 | A timestamp text ending in a UTC designator `Z` becomes the same text ending in `+00:00` |
| Db.SaveArticle | db.py:92-113 | `INSERT OR REPLACE` keyed by URL: the row is written under its URL, every other article, summary and setting is unchanged; it fails, writing nothing, exactly when the database fails or the date is missing or unparseable |
| Db.SaveArticleIdempotent | db.py:101-109 | Saving the same article twice leaves the store as saving it once |
| Db.SaveArticleZulu | db.py:97-99 | An article dated with trailing `Z` is stored at the instant its `+00:00` form denotes |
| Db.SaveSummary | db.py:115-130 | Upsert keyed by `article_url`, nothing else changed; a `None` audio path violates `NOT NULL` and writes nothing |
| Db.DecodeSetting | db.py:212-219 | A stored value not starting with `[` or `{` reads back as that text |
| Db.SettingRoundTrip | db.py:137-219 | Lists, dicts, and strings not starting with `[` or `{` read back from the settings table equal to what was saved |
| Db.ScalarSettingAsText | db.py:137-219 | Booleans read back as the text `"True"`/`"False"`, `None` as `"None"`, integers as their decimal text (which `int()` turns back into the integer) |
| Db.JsonTextReadsBackParsed | db.py:137-219 | A string that is itself a JSON list or dict does not survive: it reads back as that list or dict |
| Db.SaveSettings | db.py:132-147 | Every key given is upserted with its encoding; other settings, articles and summaries unchanged |
| Db.GetSettings | db.py:205-223 | Reads back exactly the stored keys; `{}` when the query raises |
| Db.SaveThenGetSettings | db.py:132-223 | After `save_settings`, a saved key reads back as saved, an unsaved stored key as before, and an unknown key stays absent |
| Db.EnsureDefaultSettings | db.py:71-90 | Returns what it read before writing; writes the defaults exactly when no setting is stored, and otherwise leaves the store alone; a failing database yields a failure |
| Db.DefaultsDecode | db.py:76-84 | Each default reads back as written, except `autoPlay` and `processInterval`, which read back as `"False"` and `"300"` |
| Db.FirstRunDefaults | db.py:71-87 | On a fresh database the call returns `{}`, and the seven defaults are then stored |
| Db.EnsureDefaultsTwice | db.py:73-87 | A second call finds the defaults and writes nothing |
| Db.InsertNewestFirst | db.py:157 | Inserting a URL at its slot keeps the list newest first, duplicate-free, and holding exactly the old URLs plus the new one |
| Db.OrderNewestFirst | db.py:160 | `ORDER BY publish_date DESC`: every key exactly once, newest first |
| Db.GetArticles | db.py:149-173 | Exactly the stored articles whose day matches the filter (every article without a filter), each once, as stored, newest first; `{}` when the query raises |
| Db.JoinedUrls | db.py:183-184 | The inner join keeps the URLs present in both tables, and no others |
| Db.GetSummaries | db.py:175-203 | Exactly the summaries whose article is stored, each joined with its article, once, newest article first; `{}` when the query raises |
| Db.SaveArticlesAllOk | db.py:233-234 | When every article's date binds, the migration stores them all, reports no error, and writes no summary |
| Db.SaveArticlesKeepsSummaries | db.py:233-234 | Saving articles, however far it gets, writes no summary and removes no stored article |
| Db.MigrateNotAtomic | db.py:225-249 | The transaction does not cover the writes: when article `k` is the first to fail, the articles before it stay stored and the error is reported, with summaries and settings untouched |
| Pipeline.NewUrls | api/main.py:130 | The result is no longer than the fetched list and holds no known URL |
| Pipeline.NewUrlsAppend | main.py:43 | The filter goes URL by URL: it distributes over concatenation |
| Pipeline.NewUrlsCount | api/main.py:130 | Each unknown URL survives as often as it was fetched (duplicates are kept); a known one never does |
| Pipeline.NewUrlsNoneKnown | gui.py:270 | When nothing fetched is known, the list passes through unchanged |
| Pipeline.PutArticlesEffect | api/main.py:140-150 | The keys afterwards are the old keys plus the articles' URLs; untouched keys keep their values; an article no later one overrides is stored under its URL |
| Pipeline.PutArticlesKey | gui.py:282 | One URL is present afterwards exactly when it was before or some article carries it |
| Pipeline.PutArticlesLastWins | api/main.py:150 | When several articles share a URL, the last one is stored |
| Pipeline.PutArticlesSnoc | gui.py:282 | Storing one more article is one more assignment on top of the rest |
| Pipeline.UrlsOfCons | main.py:57 | A list's URLs are its first article's URL plus the rest's |
| RssFeed.FetchRssFeed | rss_feed.py:5-11 | Succeeds exactly when every feed can be read; a failure is the error of some feed |
| RssFeed.FetchAppend | rss_feed.py:5-11 | Reading a list of feeds is reading its two halves and concatenating the links |
| RssFeed.FetchLength | rss_feed.py:5-11 | As many links as the feeds have entries: nothing is deduplicated |
| RssFeed.FetchMembership | rss_feed.py:5-11 | A link is in the result exactly when some feed has it |
| RssFeed.FetchFeedTwice | rss_feed.py:5-11 | A feed listed twice contributes its links twice |
| ArticleExtraction.Retry | article_extraction.py:8-13 | At most three attempts; the page of the first that succeeds, every earlier one failed; a failure only when all three fail |
| ArticleExtraction.FetchArticleBound | article_extraction.py:8-13 | Between one and three requests, and success exactly when one of the first three attempts succeeds |
| ArticleExtraction.ExtractArticleContent | article_extraction.py:15-31 | The article carries the URL it was asked for, the parsed title and text, and the page's date or else the time the task reads from the clock; it fails exactly when fetching or parsing fails |
| ArticleExtraction.Gather | article_extraction.py:33-39 | `asyncio.gather`: every result in input order, or a failure when any task fails; each task runs on its own URL and position |
| ArticleExtraction.ExtractArticles | article_extraction.py:33-39 | Succeeds exactly when every URL's extraction succeeds, and then gives those articles one per URL, in order |
| ArticleExtraction.ExtractArticlesUrls | article_extraction.py:33-39 | All or nothing: one article per URL, in order, each carrying its own URL and, when its page has no date, its own task's clock reading (each task reads `datetime.now()` after its own fetch and retries) |
| TextToSpeech.CheckApiKeys | text_to_speech.py:7-13 | Import succeeds exactly when both API keys are set and non-empty, and names the ElevenLabs key first |
| TextToSpeech.Prompt | text_to_speech.py:46-53 | An answer is an accepted stripped line of the input |
| TextToSpeech.PromptAt | text_to_speech.py:46-53 | The first accepted line is the answer; every line before it re-prompts |
| TextToSpeech.PromptExhausted | text_to_speech.py:46-53 | When no line is accepted, the input runs out with no answer |
| TextToSpeech.PromptAnswered | text_to_speech.py:46-53 | A menu answers exactly when some line is acceptable |
| TextToSpeech.SelectTtsProviderAnswer | text_to_speech.py:46-53 | `""` or `"0"` picks the default provider, `"1"` ElevenLabs and `"2"` Neets |
| TextToSpeech.SelectVoiceAnswer | text_to_speech.py:56-71 | `""` or `"0"` picks no voice; a number `n` in range picks the id of voice `n`, counting from 1 |
| TextToSpeech.NeetsModelChoiceListed | text_to_speech.py:74-90 | Every accepted line names one of the three listed models |
| TextToSpeech.SelectNeetsModelListed | text_to_speech.py:74-90 | The answer is one of the three listed models, and it exists exactly when some line is acceptable |
| TextToSpeech.Get | text_to_speech.py:25 | `x[key]`: the member's value when found; a `KeyError` exactly when a dict lacks the key |
| TextToSpeech.Find | text_to_speech.py:40 | A dict lookup finds a member with that key, or reports the key missing exactly when no member has it |
| TextToSpeech.ElevenLabsVoices | text_to_speech.py:16-28 | A client error gives the empty list |
| TextToSpeech.NeetsVoices | text_to_speech.py:31-43 | A client error gives the empty list |
| TextToSpeech.NeetsEntryComplete | text_to_speech.py:40 | A complete entry gives exactly one voice, carrying its id and title |
| TextToSpeech.ShapeEachOnePerEntry | text_to_speech.py:40 | When every entry gives one voice, the list comprehension gives them one for one, in order |
| TextToSpeech.ShapeNeetsInOrder | text_to_speech.py:31-43 | Complete Neets entries give their voices in order, one per entry |
| TextToSpeech.ShapeNeetsMissingId | text_to_speech.py:40-43 | One entry lacking `id` raises a `KeyError`, which empties the whole list |
| TextToSpeech.ShapeElevenLabsInOrder | text_to_speech.py:25 | Complete ElevenLabs entries give `(voice_id, name)` in order, one per entry |
| TextToSpeech.ElevenLabsVoicesInOrder | text_to_speech.py:16-28 | For a response whose `voices` entries are complete, the whole call lists their ids and names in order |
| TextToSpeech.ElevenLabsVoicesOfDocument | text_to_speech.py:16-28 | Any document whose `voices` entries are complete, floats included, is listed id and name, in order, one per entry |
| TextToSpeech.NeetsVoicesOfDocument | text_to_speech.py:31-43 | Any list of complete entries is listed id and title, in order, one per entry |
| TextToSpeech.VoicesUndecodable | text_to_speech.py:16-43 | A body that is not JSON raises `JSONDecodeError`, which neither fetch catches |
| TextToSpeech.TtsRequestFor | text_to_speech.py:152-156 | `"elevenlabs"` goes to ElevenLabs, which ignores the model; every other provider goes to Neets with the model and mp3 format; text, path and voice are passed through |
| TextToSpeech.ConvertToAudio | text_to_speech.py:152-156 | Returns the output path exactly when the provider succeeds |
| CsvHandler.ProcessedIffMarked | csv_handler.py:13-22 | On a log written only by `mark_as_processed`, a URL counts as processed exactly when it was marked |
| CsvHandler.MarkThenProcessed | csv_handler.py:20-22 | Marking adds one line, and the processed set grows by exactly that URL |
| CsvHandler.LineBreakUrlNeverProcessed | csv_handler.py:13-18 | A URL holding a line break never reads back as processed |
| CsvHandler.SanitizeTitle | csv_handler.py:45 | The result holds none of the nine characters the pattern removes |
| CsvHandler.SanitizeKeeps | csv_handler.py:45 | A character survives exactly when it was there and is safe |
| CsvHandler.SanitizeInOrder | csv_handler.py:45 | Sanitising works character by character, and a second pass changes nothing |
| CsvHandler.AudioIdentifierParts | csv_handler.py:46-47 | The identifier reads as the sanitised title, `_`, then the date text (`Not Available` without a date) |
| CsvHandler.AudioIdentifierSafe | csv_handler.py:45-47 | The identifier is free of the nine characters exactly when the date text is, and always when there is no date |
| CsvHandler.SetupCsv | csv_handler.py:24-28 | The file is truncated to exactly the header row, other files are unchanged, and the path is returned |
| CsvHandler.HeaderRowFields | csv_handler.py:11 | The header row, less its `\r\n`, splits back into the five column names |
| CsvHandler.WriteOne | csv_handler.py:34-71 | A URL already marked, or whose processing fails, changes nothing; otherwise exactly its row, its speech request and its mark are added |
| CsvHandler.WriteOneEffect | csv_handler.py:34-71 | An unmarked URL that processes gets its row, a request to speak its summary into `output_audios/<identifier>.mp3`, and its mark; any other URL leaves the run as it was |
| CsvHandler.WriteToCsv | csv_handler.py:30-71 | Rows and requests are only appended, one request per new row, and each new row is a listed URL's row, spoken to its own audio file |
| CsvHandler.WriteToCsvWritesEveryNew | csv_handler.py:34-71 | Every listed URL not marked before whose processing succeeds gets a row |
| CsvHandler.WriteToCsvOutcome | csv_handler.py:34-71 | For a listed URL not marked before: a row and a mark exactly when its processing succeeds |
| CsvHandler.WriteToCsvMarksRows | csv_handler.py:30-71 | Rows and marks go together: earlier rows are kept, the log grows by exactly the new rows' URLs in order, and no new row repeats a URL or one marked before |
| Utils.TodaysArticles | utils.py:19-41 | Every collected pair is dated today and names a listed URL that answered HEAD with 200 and downloaded |
| Utils.TodaysUrlsMembers | utils.py:19-41 | A URL is selected exactly when it is listed and passes every test |
| Utils.InsertByDayPermutes | utils.py:44 | Insertion adds exactly the inserted element |
| Utils.SortByDayDescSorted | utils.py:44 | The sort is a permutation whose days never increase |
| Utils.SortSameDayUnchanged | utils.py:44 | Stability: when all days are equal, the sort changes nothing |
| Utils.Prefix | utils.py:51 | Python's `xs[:n]`: a negative `n` counts from the end, and the bound is clipped to the length |
| Utils.FilterAndSortInInputOrder | utils.py:19-51 | Every kept article is from today, so the result is the kept URLs in input order, sliced when a number is given |
| Utils.FilterAndSortSound | utils.py:19-51 | Every returned URL was listed and passes every test; with `'all'`, every such URL is returned |
| ApiMain.StrField | api/main.py:68-71 | A required `str` field: present exactly when the key holds a string, and then that string |
| ApiMain.Strings | api/main.py:72 | The strings of a list exactly when every item is a string |
| ApiMain.BoolField | api/main.py:73 | A required `bool` field: present exactly when the key holds a boolean |
| ApiMain.IntervalField | api/main.py:74 | `processInterval` defaults to 300 when absent, and is otherwise the integer stored |
| ApiMain.Validate | api/main.py:67-74 | Validation succeeds exactly when the document is a mapping holding the six required fields with their declared types and `processInterval` is an integer or absent; every field of the result, `rssFeeds` included, is read from the document, and `processInterval` is 300 only when the key is absent |
| ApiMain.SettingsDocument | api/main.py:208 | `settings.dict()` is a mapping of the seven fields |
| ApiMain.ValidateDocument | api/main.py:67-74 | Validating `settings.dict()` gives back the same settings |
| ApiMain.DocumentFields | api/main.py:67-74 | Each field of `settings.dict()` reads back as the value it was written from |
| ApiMain.LoadCurrentSettings | api/main.py:77-95 | The defaults when the file is absent, unreadable, empty or fails validation (the `except` path); the validated settings when a non-empty file validates |
| ApiMain.UpdateSettings | api/main.py:200-217 | The in-memory settings are replaced before the save, so they stay replaced when the save fails; the answer is the settings or the save's error |
| ApiMain.UpdateThenLoad | api/main.py:200-211 | Settings saved by `update_settings` are the ones the next load returns |
| ApiMain.GetArticles | api/main.py:219-238 | No file answers `{}`; it fails exactly when loading fails or a non-empty filter date does not parse (for a non-empty store); a parsed filter answers `filter_articles_by_date` of the store for that day, and no filter, an empty one or an empty store answers the whole store; an empty answer is `{}` |
| ApiMain.GetArticlesBlankFilter | api/main.py:229-235 | An empty filter string is no filter: the whole store is answered, and the date is never parsed |
| ApiMain.GetArticlesSameDay | api/main.py:229-233 | Two filter strings read as the same day give the same answer |
| ApiMain.GetArticlesEmptyStore | api/main.py:229-235 | An empty store answers `{}` whatever the filter, without parsing it |
| ApiMain.ChooseTts | api/main.py:114-116 | Provider and voice come from the settings; a model is passed exactly for Neets, and it is `neetModel` |
| ApiMain.DefaultChoice | api/main.py:87-95 | Without a settings file, the pass speaks through Neets with its default voice and model |
| ApiMain.ApiStep | api/main.py:150-185 | The article is stored first; when summary and speech both return, the summary is recorded and both files are written; otherwise one error is logged and no summary or file is written; a returned summary is always sent to speech, a failed one is not |
| ApiMain.ApiLoop | api/main.py:140-185 | Each article either writes both files or logs one error; at most one speech request per article |
| ApiMain.ApiLoopArticles | api/main.py:140-150 | Every extracted article ends up in the articles map, whatever happens to its enrichment |
| ApiMain.ApiLoopSummary | api/main.py:152-185 | Failure isolation: a URL has a summary exactly when it had one or one of its articles got through both calls |
| ApiMain.ApiStepSummary | api/main.py:152-185 | One step adds a summary for its own article exactly when both calls return, and touches no other |
| ApiMain.LastOk | api/main.py:178-180 | The last article for which both calls return: it did, and every later one did not |
| ApiMain.ApiLoopCheckpoints | api/main.py:178-180 | Snapshots are only appended; the last one holds the articles up to the last successful article and the final summaries |
| ApiMain.ApiLoopSavesGrow | api/main.py:178-180 | Snapshots are only ever appended |
| ApiMain.ApiLoopLastCheckpoint | api/main.py:178-180 | The last snapshot is the one the last successful article wrote; with no success, no snapshot and no summary |
| ApiMain.ApiLoopLastSave | api/main.py:171-180 | From no snapshot yet, the last snapshot holds the summaries as they end up |
| ApiMain.ProcessArticles | api/main.py:100-193 | The pass reloads the settings; a feed or extraction failure answers 500 and changes nothing; no new URL changes nothing; otherwise it runs the loop over the extracted articles |
| ApiMain.ProcessArticlesStores | api/main.py:130-150 | A pass that extracts its new URLs stores, under each of them, an article carrying that URL |
| ApiMain.ProcessArticlesLastSave | api/main.py:171-180 | The summaries file is never left behind the summaries held in memory; with no snapshot, the summaries are the ones loaded |
| ApiMain.ServedPathIsWrittenFile | api/main.py:158-174 | A successful article is served at `/audio/<file>` under the mount, and its speech was written to that file in the output folder |
| CliMain.Or | main.py:34 | Python's `x or y`: `x` when it is a non-empty string, `y` otherwise |
| CliMain.ChooseVoiceAndModel | main.py:27-39 | The default provider uses the Neets defaults; a model exactly off ElevenLabs; a picked non-empty voice wins off the default path, else the provider's fallback voice |
| CliMain.ChooseVoiceAndModelCases | main.py:28-39 | Neets (the default) ignores the menus; ElevenLabs uses the picked voice or `ELEVENLABS_VOICE_ID` and no model; any other provider uses the chosen model |
| CliMain.PickedVoice | main.py:34-38 | No answer picks no voice, and a picked voice is the string id the menu returned |
| CliMain.Decide | main.py:27-39 | The decided provider is the menu's answer; a model exactly off ElevenLabs; no provider answer, no decision |
| CliMain.DecideAnswers | main.py:32-35 | For ElevenLabs: no pick falls back to `ELEVENLABS_VOICE_ID`, a non-empty picked id is used, and a voice menu with no answer gives no decision |
| CliMain.DecideDefault | main.py:28-30 | Neets, the default provider, speaks with the Neets defaults whatever the other menus would say |
| CliMain.DecideElevenLabs | main.py:32-35 | ElevenLabs speaks with the picked voice, falling back to `ELEVENLABS_VOICE_ID`, and no model |
| CliMain.Snapshot | main.py:42 | `db.get_articles()`: every stored URL, each under its own URL; `{}` when the database fails |
| CliMain.Summarised | main.py:58 | The summaries' keys are the URLs present in both tables; none when the database fails |
| CliMain.FieldsOf | main.py:46-52 | One dict per article, carrying its URL, title, content and ISO date text |
| CliMain.CliStep | main.py:57-70 | An error or an existing summary leaves the state as it is; otherwise, unless an exception ends the pass, the article gets a summary row, keeping the others; at most one speech request; no file disappears |
| CliMain.CliLoop | main.py:57-70 | A loop no exception ended leaves every one of the day's articles with a summary row; requests only appended, at most one per article |
| CliMain.ProcessFeeds | main.py:41-72 | A failed fetch changes nothing and requests no speech; a completed pass reports the count of the day's articles and leaves each of them with a summary row |
| CliMain.CliStepKeeps | main.py:57-70 | One step keeps the articles and settings, keeps existing summaries, asks for speech only for files that were absent, and writes a summary for its own article only |
| CliMain.CliLoopKeeps | main.py:57-70 | The loop keeps that invariant and writes summary rows only for the articles it is given |
| CliMain.CliStepExistingFile | main.py:64-70 | An article that needs a summary and whose audio file exists is summarised and saved with no speech request |
| CliMain.ProcessFeedsSummaries | main.py:24-72 | Stored articles and summaries are kept; no summary is written for an article stored by this pass; a completed pass counts the day's articles |
| CliMain.CliLoopWithin | main.py:55-70 | Summary rows of URLs outside the day's articles stay as they were |
| CliMain.ProcessFeedsAllSummarised | main.py:57-72 | When every one of the day's articles has a summary, a completed pass requests no speech and writes no file |
| CliMain.SkipAll | main.py:57-58 | A loop over articles that all have summaries changes nothing |
| Gui.CleanFeeds | gui.py:260 | Dropping blank pieces never lengthens the list |
| Gui.CleanFeedsTrimmed | gui.py:260 | Every kept feed is non-empty and has no surrounding whitespace |
| Gui.ParseFeeds | gui.py:259-260 | Every parsed feed is trimmed and holds no comma and no single quote |
| Gui.ParseFeedsRoundTrip | gui.py:259-260 | Reading back the feed box's `", "`-joined text gives the feed list again, for feeds with no comma, quote or surrounding whitespace that do not begin or end the text with a bracket |
| Gui.VoiceLabelRoundTrip | gui.py:303 | The `name (id)` label gives its id back, whatever the name, when the id holds no `(` and does not start or end with `)` |
| Gui.RewriteConfig | gui.py:175-191 | Same number of lines; each setting line becomes its new assignment; every other line is unchanged |
| Gui.KeysExclusive | gui.py:180-186 | No line starts with two of the three keys, so at most one rule applies to a line |
| Gui.RewriteConfigLatest | gui.py:175-189 | A later save overrides an earlier one: rewriting twice is rewriting once with the later values |
| Gui.ToggleProcessing | gui.py:141-144 | The pause flag flips, and the status reads "Processing Paused" exactly when paused |
| Gui.ToggleTwice | gui.py:141-144 | Two toggles restore the flag |
| Gui.ProcessFeeds | gui.py:241-248 | A new pass starts unless one is running; afterwards one is running |
| Gui.ProcessFeedsOneAtATime | gui.py:241-248 | A second click before the pass ends is refused |
| Gui.PlayNextAudioLastRowRaises | gui.py:337-345 | As written, with the last row selected, the next-row index raises `IndexError` |
| Gui.PlayNextAudio | gui.py:337-345 | Corrected: it never raises; it plays a row that exists; it stops exactly when nothing is selected |
| Gui.PlayNextAudioAgrees | gui.py:337-345 | The corrected step agrees with the written one wherever that one does not raise, and wraps to the first row where it does |
| Gui.EnrichOne | gui.py:289-309 | An error or an existing summary changes nothing; otherwise, without a failure, the article gets `Summary(article, summary, its audio path)`, keeping the others |
| Gui.Enrich | gui.py:289-309 | A loop no failure ended leaves every one of today's articles with a summary; none is dropped, nor any audio file |
| Gui.Complete | gui.py:287-313 | The articles file holds the stored articles; the summaries file is written exactly when the pass completes, keeping the loaded summaries and covering today's articles |
| Gui.ProcessFeedsAsync | gui.py:256-315 | Without an articles file, no speech and a failure; a completed pass writes a summaries file covering today's articles and reports their count |
| Gui.EnrichOneKeeps | gui.py:289-309 | One step keeps old summaries, adds one only for its own article, pointing at its audio path, and asks for speech only for absent files |
| Gui.EnrichKeeps | gui.py:289-309 | The loop keeps that invariant, and new summaries are only for today's articles |
| Gui.ProcessFeedsAsyncWrites | gui.py:256-315 | The articles file is written exactly when extraction succeeds, whatever enrichment does; the summaries file only by a pass that completes |
| Gui.CompleteEnrichment | gui.py:287-313 | A completed rest of a pass keeps the loaded summaries, adds entries only for today's articles, and speaks each absent file at most once |
| Gui.ProcessFeedsAsyncEnrichment | gui.py:256-315 | What a completed pass writes to the summaries file, in terms of the feed text, the new URLs and the extracted articles |

## Left out

What the model does not cover:

- **Concurrency and timing:** threads, the progress queue, pause polling (`asyncio.sleep` loops), the FastAPI lifespan and scheduler, logging, and `print`. These are I/O and timing with no decision of their own.
- **Widgets and audio:** the Tk widgets, the library tree display, and `pygame` playback. Only the logic behind them is modelled.
- **Time:** time zones and calendar arithmetic. `strftime`, `fromisoformat` and `isoformat` are oracle parameters, and a timestamp is a day and a second in one zone.
- **Helpers called but defined nowhere in the repository:**
  - `create_output_folder` is modelled only as the folder's name;
  - `save_to_yaml`, `load_from_yaml`, `filter_today_articles`, `filter_articles_by_date` and `sanitize_filename` are oracle parameters or outcomes. `utils.py` defines none of them, although `api/main.py:32`, `main.py:9` and `gui.py:16` import them.
- **Not part of this model:** `summarization.py` (the summariser is a parameter), `start.py`, the `/summaries`, `/voices` and `/start-processing` endpoints, and the `narrate-news-web` frontend.
- **Floating point:** a float is kept as the exact decimal `mantissa × 10^exponent`. Python's rounding to the nearest double is not modelled, so neither is overflow to `inf` nor underflow to `0.0` (Python reads `1e-400` as a false `0.0`; here it is truthy).
- Json.Loads: `NaN`, `Infinity`, `-Infinity` and lone surrogate escapes are rejected, though Python's `json.loads` accepts them (db.py:215-216). Every string the program stores is valid Unicode.
- Json.Dumps: a float is written as `<mantissa>e<exponent>`, not as Python's `repr`. It reads back as the same number, but the text differs.
- TextToSpeech.ElevenLabsVoicesInOrder: stated for bodies that decode. Bodies that do not decode are covered by `TextToSpeech.VoicesUndecodable`, and every well-formed document, floats included, by `TextToSpeech.ElevenLabsVoicesOfDocument`.
- TextToSpeech.ElevenLabsVoices: a body holding `NaN` or `Infinity` fails to decode here, though Python would read it (text_to_speech.py:24).
- TextToSpeech.NeetsVoices: the same as `ElevenLabsVoices` for `NaN` and `Infinity` (text_to_speech.py:39).
- Text.ParsePyInt: only ASCII digits are accepted. Python's `int()` also accepts other Unicode decimal digits (text_to_speech.py:66, 85). Menu input is modelled as ASCII.
- ApiMain.Validate: Pydantic's lax coercion is not modelled (api/main.py:67-74). In the source, `"1"` would become `True` for `autoPlay`, `"60"` would become `60` for `processInterval`, and so on. Here, only values already of the declared type validate.
- Db.GetArticles: rows are ordered by instant. SQLite orders by the stored text, which agrees only when every stored date has the same textual form (db.py:157).
- Db.GetArticles: with `PARSE_DECLTYPES`, reading a timestamp stored with a UTC offset raises in the converter, and the call then returns `{}` (db.py:171-173). Every `...Z` date that `save_article` rewrites to `+00:00` is such a timestamp. The model reads every stored date back.
- Db.GetSummaries: the same ordering and converter caveats apply (db.py:185, 201-203).
- Db.SaveSummary: the `created_at` column (db.py:49) is not kept, since no read returns it.
- ApiMain.ApiStep: both `save_to_yaml` calls (api/main.py:179-180) are assumed to succeed, because `save_to_yaml` is defined nowhere. A failing save would be caught, logged, and would leave the in-memory summary recorded.
- CliMain.PickedVoice: a non-string voice id returned by the menu is treated as no pick.
- CliMain.Decide: each menu reads its own lines of input; the interleaving on one stdin is not modelled.
- **Broken call sites, modelled as their evident intent:**
  - `main.py:19` calls `launch_gui_with_defaults`, which is defined nowhere.
  - `main.py:33` and `main.py:37` call `fetch_elevenlabs_voices` and `fetch_neets_voices` without importing them, and without awaiting the coroutines. The voice list is a parameter.
  - `main.py:41` calls `fetch_rss_feed()` without its feed list. The model passes the configured feeds.
  - `main.py:55` calls `filter_articles_by_date`, which is defined nowhere. It is an oracle over the pre-save snapshot.
  - `main.py:59` and `main.py:65` call the async `summarize_text` and `convert_to_audio` without awaiting them. The model treats each as the awaited result.
  - `gui.py:297` and `gui.py:304` do the same with `summarize_text` and `convert_to_audio`.
  - `csv_handler.py:39-40` do the same with `extract_article_content` and `summarize_text`. The model folds the try body into one `process` oracle.
  - `csv_handler.py:59` calls `convert_to_audio(summary, path)` without a provider or voice, which raises `TypeError` (caught). The model records the request and ignores its outcome, since the failure is caught.
  - `utils.py:33` catches `ArticleException` without importing it, so a failed download raises `NameError` instead of being skipped. The model skips the URL, as the `except` clause means to.
  - `text_to_speech.py:58` unpacks each voice into three names, though ElevenLabs voices are pairs, so listing them raises `ValueError`. The model keeps an optional third field.
  - `save_to_yaml` is called as `(data, path)` at `gui.py:285` and `gui.py:311`, but as `(path, data)` at `api/main.py:179-180` and `api/main.py:208`. The model writes the data to the named file in both cases.

## Findings

| source | as written | input that shows it | evidently intended | confidence | as-written member | corrected member |
|---|---|---|---|---|---|---|
| gui.py:341 | `get_children()[current_index + 1]` indexes the row after the selection without a bound check | The last row of the library is selected while the Loop checkbox (gui.py:91-92) is on: when the pass ends, gui.py:334-335 calls `play_next_audio`, and the index is out of range (`IndexError`) | Playback continues from the first row, as the Loop option means | medium (not executed) | Gui.PlayNextAudioAsWritten, Gui.PlayNextAudioLastRowRaises | Gui.PlayNextAudio, Gui.PlayNextAudioAgrees |
