/** `csv_handler`: the processed-URL log, title sanitisation, audio
    identifiers, the CSV header and the `write_to_csv` loop. Files are
    values: the log is its text, or `None` while it does not exist. */
module CsvHandler {
  import opened Wrappers
  import opened Text
  import opened Models
  import Config

  // ---------------------------------------------------------------------------
  // The processed-URL log

  type Log = Option<string>

  /** `has_been_processed(url)`: `False` without a log file, else whether
      `url` is one of the file's lines. */
  predicate HasBeenProcessed(url: string, log: Log) {
    log.Some? && url in SplitLines(log.value)
  }

  /** `mark_as_processed(url)`: appends the URL and a newline, creating the file if needed. */
  function MarkAsProcessed(url: string, log: Log): string {
    (if log.Some? then log.value else "") + url + "\n"
  }

  predicate NoLineBreaks(urls: seq<string>) {
    forall i :: 0 <= i < |urls| ==> NoneOf(urls[i], IsLineBreak)
  }

  /** The log left by marking `lines` in order, starting without a file. */
  function LogOf(lines: seq<string>): Log {
    if |lines| == 0 then None else Some(LinesText(lines))
  }

  /** On a log written only by `mark_as_processed`, a URL counts as processed
      exactly when it was marked. */
  lemma ProcessedIffMarked(lines: seq<string>, url: string)
    requires NoLineBreaks(lines)
    ensures HasBeenProcessed(url, LogOf(lines)) <==> url in lines
  {
    if |lines| > 0 {
      SplitLinesOfLinesText(lines);
    }
  }

  /** After `mark_as_processed(u)`, `u` is processed, and so is every URL that
      was before, provided `u` holds no line break. */
  lemma MarkThenProcessed(lines: seq<string>, u: string)
    requires NoLineBreaks(lines) && NoneOf(u, IsLineBreak)
    ensures Some(MarkAsProcessed(u, LogOf(lines))) == LogOf(lines + [u])
    ensures forall v :: HasBeenProcessed(v, Some(MarkAsProcessed(u, LogOf(lines)))) <==>
      HasBeenProcessed(v, LogOf(lines)) || v == u
  {
    LinesTextAppend(lines, u);
    assert |lines| == 0 ==> LinesText(lines) == "" && "" + u + "\n" == u + "\n";
    var lines' := lines + [u];
    assert NoLineBreaks(lines');
    forall v
      ensures HasBeenProcessed(v, LogOf(lines')) <==> HasBeenProcessed(v, LogOf(lines)) || v == u
    {
      ProcessedIffMarked(lines, v);
      ProcessedIffMarked(lines', v);
    }
  }

  /** A URL holding a line break never reads back as processed, however often it is marked. */
  lemma LineBreakUrlNeverProcessed(url: string, log: Log)
    requires !NoneOf(url, IsLineBreak)
    ensures !HasBeenProcessed(url, log)
  {
  }

  // ---------------------------------------------------------------------------
  // Titles and audio identifiers

  /** The nine characters the title's regular-expression substitution removes:
      backslash, slash, star, question mark, colon, double quote, angle brackets, bar. */
  predicate IsUnsafe(c: char) {
    c == '\\' || c == '/' || c == '*' || c == '?' || c == ':' || c == '"' || c == '<' || c == '>' || c == '|'
  }

  function SanitizeTitle(title: string): (r: string)
    ensures NoneOf(r, IsUnsafe)
  {
    Without(title, IsUnsafe)
  }

  /** Sanitising drops exactly the unsafe characters: a character survives iff it was there and is safe. */
  lemma SanitizeKeeps(title: string, c: char)
    ensures c in SanitizeTitle(title) <==> c in title && !IsUnsafe(c)
  {
    WithoutMembers(title, IsUnsafe, c);
  }

  /** Sanitising works character by character, in order, and a second pass changes nothing. */
  lemma SanitizeInOrder(a: string, b: string)
    ensures SanitizeTitle(a + b) == SanitizeTitle(a) + SanitizeTitle(b)
    ensures SanitizeTitle(SanitizeTitle(a)) == SanitizeTitle(a)
  {
    WithoutConcat(a, b, IsUnsafe);
  }

  /** `strftime('%Y-%m-%d')` of a day; the calendar is not part of this model. */
  type DayFormat = Day -> string

  function DateText(date: Option<Day>, ymd: DayFormat): string {
    if date.Some? then ymd(date.value) else "Not Available"
  }

  /** `f"{sanitized_title}_{publish_date}"`. */
  function AudioIdentifier(title: string, date: Option<Day>, ymd: DayFormat): string {
    SanitizeTitle(title) + "_" + DateText(date, ymd)
  }

  /** The identifier reads as the sanitised title, an underscore, then the date text. */
  lemma AudioIdentifierParts(title: string, date: Option<Day>, ymd: DayFormat)
    ensures var id := AudioIdentifier(title, date, ymd);
      var n := |SanitizeTitle(title)|;
      && |id| == n + 1 + |DateText(date, ymd)|
      && id[..n] == SanitizeTitle(title)
      && id[n] == '_'
      && id[n + 1..] == DateText(date, ymd)
  {
    var t, d := SanitizeTitle(title), DateText(date, ymd);
    var id := t + "_" + d;
    assert id[..|t|] == t;
    assert id[|t| + 1..] == d;
  }

  /** The identifier is free of unsafe characters whenever the date text is,
      and "Not Available" is. */
  lemma AudioIdentifierSafe(title: string, date: Option<Day>, ymd: DayFormat)
    ensures NoneOf(DateText(date, ymd), IsUnsafe) <==> NoneOf(AudioIdentifier(title, date, ymd), IsUnsafe)
    ensures date.None? ==> NoneOf(AudioIdentifier(title, date, ymd), IsUnsafe)
  {
    var t, d := SanitizeTitle(title), DateText(date, ymd);
    NoneOfConcat(t, "_", IsUnsafe);
    NoneOfConcat(t + "_", d, IsUnsafe);
    assert date.None? ==> NoneOf(d, IsUnsafe);
  }

  // ---------------------------------------------------------------------------
  // The CSV file

  const CsvHeaders: seq<string> := ["Publishing Date", "Article URL", "Title", "Summary", "Audio Identifier"]

  /** `writer.writeheader()`: the field names, comma-separated, ended by `csv`'s `"\r\n"`. */
  const HeaderRow: string := JoinWith(CsvHeaders, ",") + "\r\n"

  /** `setup_csv(path)`: the file is truncated to exactly the header row, and the path returned. */
  function SetupCsv(files: map<string, string>, path: string): (r: (map<string, string>, string))
    ensures r.1 == path
    ensures r.0.Keys == files.Keys + {path} && r.0[path] == HeaderRow
    ensures forall p :: p in files && p != path ==> r.0[p] == files[p]
  {
    (files[path := HeaderRow], path)
  }

  /** The header row splits back into the five column names. */
  lemma HeaderRowFields()
    ensures HeaderRow[..|HeaderRow| - 2] == JoinWith(CsvHeaders, ",")
    ensures SplitOn(HeaderRow[..|HeaderRow| - 2], ',') == CsvHeaders
  {
    assert HeaderRow[..|HeaderRow| - 2] == JoinWith(CsvHeaders, ",");
    forall i | 0 <= i < |CsvHeaders|
      ensures ',' !in CsvHeaders[i]
    {
    }
    SplitJoinRoundTrip(CsvHeaders, ',');
  }

  // ---------------------------------------------------------------------------
  // write_to_csv

  /** What the `try` body learns about a URL before writing its row: the
      summary, the title and the publish day, or the exception that ends it. */
  datatype Processed = Processed(summary: string, title: string, date: Option<Day>)

  datatype Row = Row(publishingDate: string, url: string, title: string, summary: string, audioId: string)

  /** The effects of `write_to_csv` so far: rows written, the log, and the
      speech requests made (their failures are caught and do not matter). */
  datatype CsvRun = CsvRun(rows: seq<Row>, log: Log, speech: seq<(string, string)>)

  function RowFor(url: string, p: Processed, ymd: DayFormat): Row {
    Row(DateText(p.date, ymd), url, p.title, p.summary, AudioIdentifier(p.title, p.date, ymd))
  }

  /** `os.path.join('output_audios', f"{audio_identifier}.mp3")`. */
  function AudioPathOf(row: Row): string {
    Config.JoinPath("output_audios", row.audioId + ".mp3")
  }

  /** The speech request made for a written row. */
  predicate SpokenFor(row: Row, req: (string, string)) {
    req == (row.summary, AudioPathOf(row))
  }

  /** `r` continues `st`: rows and speech requests are only appended, one
      request per new row, and every new row is the row of a URL in `urls`
      whose processing succeeded, spoken to its audio file. */
  predicate Continues(st: CsvRun, r: CsvRun, urls: seq<string>, process: string -> Result<Processed>, ymd: DayFormat) {
    && |r.rows| >= |st.rows| && r.rows[..|st.rows|] == st.rows
    && |r.speech| == |st.speech| + (|r.rows| - |st.rows|) && r.speech[..|st.speech|] == st.speech
    && forall i :: |st.rows| <= i < |r.rows| ==>
         && r.rows[i].url in urls && process(r.rows[i].url).Success?
         && r.rows[i] == RowFor(r.rows[i].url, process(r.rows[i].url).value, ymd)
         && SpokenFor(r.rows[i], r.speech[|st.speech| + (i - |st.rows|)])
  }

  lemma ContinuesTrans(a: CsvRun, b: CsvRun, c: CsvRun, xs: seq<string>, ys: seq<string>, zs: seq<string>,
                       process: string -> Result<Processed>, ymd: DayFormat)
    requires Continues(a, b, xs, process, ymd) && Continues(b, c, ys, process, ymd)
    requires forall u :: u in xs ==> u in zs
    requires forall u :: u in ys ==> u in zs
    ensures Continues(a, c, zs, process, ymd)
  {
    assert c.rows[..|a.rows|] == c.rows[..|b.rows|][..|a.rows|];
    assert c.speech[..|a.speech|] == c.speech[..|b.speech|][..|a.speech|];
    forall i | |a.rows| <= i < |b.rows|
      ensures c.rows[i] == b.rows[i] && c.speech[|a.speech| + (i - |a.rows|)] == b.speech[|a.speech| + (i - |a.rows|)]
    {
      assert c.rows[i] == c.rows[..|b.rows|][i];
      assert c.speech[|a.speech| + (i - |a.rows|)] == c.speech[..|b.speech|][|a.speech| + (i - |a.rows|)];
    }
  }

  /** One URL: skipped when already processed; otherwise, if the `try` body
      gets as far as the row, the row is written, speech is requested, and
      only then is the URL marked. An earlier failure leaves nothing behind.
      Either nothing changes, or exactly this URL's row, its request and its
      mark are added. */
  function WriteOne(st: CsvRun, url: string, process: string -> Result<Processed>, ymd: DayFormat): (r: CsvRun)
    ensures r == st <==> HasBeenProcessed(url, st.log) || process(url).Failure?
    ensures r != st ==>
      && process(url).Success?
      && r.rows == st.rows + [RowFor(url, process(url).value, ymd)]
      && r.log == Some(MarkAsProcessed(url, st.log))
      && Continues(st, r, [url], process, ymd)
  {
    if HasBeenProcessed(url, st.log) then st
    else
      match process(url)
      case Failure(_) => st
      case Success(p) =>
        var row := RowFor(url, p, ymd);
        var r := CsvRun(st.rows + [row], Some(MarkAsProcessed(url, st.log)), st.speech + [(p.summary, AudioPathOf(row))]);
        assert r.rows[..|st.rows|] == st.rows && r.speech[..|st.speech|] == st.speech;
        r
  }

  /** The loop over `urls`, one `WriteOne` each, in order: rows and requests
      are only appended, one request per new row, and every new row is the
      row of a listed URL whose processing succeeded. */
  function WriteToCsv(st: CsvRun, urls: seq<string>, process: string -> Result<Processed>, ymd: DayFormat): (r: CsvRun)
    ensures Continues(st, r, urls, process, ymd)
    decreases |urls|
  {
    if |urls| == 0 then
      assert st.rows[..|st.rows|] == st.rows && st.speech[..|st.speech|] == st.speech;
      st
    else
      var st' := WriteOne(st, urls[0], process, ymd);
      var r := WriteToCsv(st', urls[1..], process, ymd);
      assert forall u :: u in urls[1..] ==> u in urls;
      if st' == st then r
      else
        ContinuesTrans(st, st', r, [urls[0]], urls[1..], urls, process, ymd);
        r
  }

  function RowUrls(rows: seq<Row>): (r: seq<string>)
    ensures |r| == |rows| && forall i :: 0 <= i < |rows| ==> r[i] == rows[i].url
  {
    seq(|rows|, i requires 0 <= i < |rows| => rows[i].url)
  }

  /** Rows and marks go together: starting from a log of `lines`, the log
      afterwards holds `lines` followed by the URLs of the new rows, in row
      order; no row is written for a URL that was already processed, and a
      URL listed twice gets at most one row. */
  lemma {:induction false} WriteToCsvMarksRows(lines: seq<string>, rows: seq<Row>, speech: seq<(string, string)>,
                                               urls: seq<string>, process: string -> Result<Processed>, ymd: DayFormat)
    requires NoLineBreaks(lines) && NoLineBreaks(urls)
    ensures var out := WriteToCsv(CsvRun(rows, LogOf(lines), speech), urls, process, ymd);
      && |out.rows| >= |rows| && out.rows[..|rows|] == rows
      && out.log == LogOf(lines + RowUrls(out.rows[|rows|..]))
      && (forall i :: |rows| <= i < |out.rows| ==> out.rows[i].url !in lines)
      && forall i, j :: |rows| <= i < j < |out.rows| ==> out.rows[i].url != out.rows[j].url
    decreases |urls|
  {
    if |urls| > 0 {
      var st := CsvRun(rows, LogOf(lines), speech);
      var st' := WriteOne(st, urls[0], process, ymd);
      assert NoLineBreaks(urls[1..]);
      ProcessedIffMarked(lines, urls[0]);
      assert WriteToCsv(st, urls, process, ymd) == WriteToCsv(st', urls[1..], process, ymd);
      if st' == st {
        WriteToCsvMarksRows(lines, rows, speech, urls[1..], process, ymd);
      } else {
        var u := urls[0];
        MarkThenProcessed(lines, u);
        assert NoLineBreaks(lines + [u]);
        WriteToCsvMarksRows(lines + [u], st'.rows, st'.speech, urls[1..], process, ymd);
        var out := WriteToCsv(st', urls[1..], process, ymd);
        MarksRowsStep(lines, rows, st'.rows[|rows|], out.rows, out.log);
      }
    } else {
      assert RowUrls(rows[|rows|..]) == [];
      assert lines + [] == lines;
    }
  }

  /** One URL against a log written by `mark_as_processed`: a URL already
      marked, or whose processing fails, leaves everything as it was; an
      unmarked URL whose processing succeeds gets its row, its speech request
      for `output_audios/<audio identifier>.mp3`, and then its mark, whether
      or not the speech succeeds. */
  lemma WriteOneEffect(lines: seq<string>, rows: seq<Row>, speech: seq<(string, string)>, url: string,
                       process: string -> Result<Processed>, ymd: DayFormat)
    requires NoLineBreaks(lines) && NoneOf(url, IsLineBreak)
    ensures var st := CsvRun(rows, LogOf(lines), speech);
      url in lines || process(url).Failure? ==> WriteOne(st, url, process, ymd) == st
    ensures var st := CsvRun(rows, LogOf(lines), speech);
      url !in lines && process(url).Success? ==>
        var row := RowFor(url, process(url).value, ymd);
        && WriteOne(st, url, process, ymd) ==
             CsvRun(rows + [row], LogOf(lines + [url]),
                    speech + [(process(url).value.summary, Config.JoinPath("output_audios", row.audioId + ".mp3"))])
        && HasBeenProcessed(url, WriteOne(st, url, process, ymd).log)
  {
    ProcessedIffMarked(lines, url);
    MarkThenProcessed(lines, url);
  }

  /** Every listed URL that was not marked and whose processing succeeds gets
      a row in the run, whatever else the list holds. */
  lemma {:induction false} WriteToCsvWritesEveryNew(lines: seq<string>, rows: seq<Row>, speech: seq<(string, string)>,
                                                    urls: seq<string>, process: string -> Result<Processed>, ymd: DayFormat)
    requires NoLineBreaks(lines) && NoLineBreaks(urls)
    ensures var out := WriteToCsv(CsvRun(rows, LogOf(lines), speech), urls, process, ymd);
      forall u :: u in urls && u !in lines && process(u).Success? ==> u in RowUrls(out.rows[|rows|..])
    decreases |urls|
  {
    if |urls| > 0 {
      var u0 := urls[0];
      var st := CsvRun(rows, LogOf(lines), speech);
      var st' := WriteOne(st, u0, process, ymd);
      assert NoLineBreaks(urls[1..]);
      assert forall u :: u in urls ==> u == u0 || u in urls[1..];
      ProcessedIffMarked(lines, u0);
      assert WriteToCsv(st, urls, process, ymd) == WriteToCsv(st', urls[1..], process, ymd);
      var out := WriteToCsv(st', urls[1..], process, ymd);
      if st' == st {
        WriteToCsvWritesEveryNew(lines, rows, speech, urls[1..], process, ymd);
      } else {
        MarkThenProcessed(lines, u0);
        assert NoLineBreaks(lines + [u0]);
        WriteToCsvWritesEveryNew(lines + [u0], st'.rows, st'.speech, urls[1..], process, ymd);
        NewRowsStep(rows, st'.rows, out.rows);
      }
    }
  }

  /** Rows past `rows + [row]` are the rows past `rows` without the first. */
  lemma NewRowsStep(rows: seq<Row>, mid: seq<Row>, out: seq<Row>)
    requires |mid| == |rows| + 1 && |out| >= |mid| && out[..|mid|] == mid
    ensures RowUrls(out[|rows|..]) == [mid[|rows|].url] + RowUrls(out[|mid|..])
  {
    assert out[|rows|] == out[..|mid|][|rows|];
  }

  /** What the run leaves for a listed URL that was not marked before: a
      row and a mark exactly when its processing succeeds. */
  lemma WriteToCsvOutcome(lines: seq<string>, rows: seq<Row>, speech: seq<(string, string)>,
                          urls: seq<string>, process: string -> Result<Processed>, ymd: DayFormat, u: string)
    requires NoLineBreaks(lines) && NoLineBreaks(urls)
    requires u in urls && u !in lines
    ensures var out := WriteToCsv(CsvRun(rows, LogOf(lines), speech), urls, process, ymd);
      && (u in RowUrls(out.rows[|rows|..]) <==> process(u).Success?)
      && (HasBeenProcessed(u, out.log) <==> process(u).Success?)
  {
    var out := WriteToCsv(CsvRun(rows, LogOf(lines), speech), urls, process, ymd);
    var added := RowUrls(out.rows[|rows|..]);
    WriteToCsvWritesEveryNew(lines, rows, speech, urls, process, ymd);
    WriteToCsvMarksRows(lines, rows, speech, urls, process, ymd);
    assert forall k :: 0 <= k < |added| ==> added[k] in urls && process(added[k]).Success?;
    assert NoLineBreaks(lines + added) by {
      forall k | 0 <= k < |lines + added|
        ensures NoneOf((lines + added)[k], IsLineBreak)
      {
        if k >= |lines| {
          var j :| 0 <= j < |urls| && urls[j] == added[k - |lines|];
        }
      }
    }
    ProcessedIffMarked(lines + added, u);
  }

  /** The written case of one step: the URL's row comes first among the new
      rows, its mark comes first among the new log lines, and the URL was
      not marked before. */
  lemma MarksRowsStep(lines: seq<string>, rows: seq<Row>, row: Row, out: seq<Row>, log: Log)
    requires row.url !in lines
    requires |out| >= |rows| + 1 && out[..|rows| + 1] == rows + [row]
    requires log == LogOf(lines + [row.url] + RowUrls(out[|rows| + 1..]))
    requires forall i :: |rows| + 1 <= i < |out| ==> out[i].url !in lines + [row.url]
    requires forall i, j :: |rows| + 1 <= i < j < |out| ==> out[i].url != out[j].url
    ensures out[..|rows|] == rows
    ensures log == LogOf(lines + RowUrls(out[|rows|..]))
    ensures forall i :: |rows| <= i < |out| ==> out[i].url !in lines
    ensures forall i, j :: |rows| <= i < j < |out| ==> out[i].url != out[j].url
  {
    PrefixStep(rows, row, out);
    RowUrlsStep(lines, out, |rows|);
    forall i | |rows| + 1 <= i < |out|
      ensures out[i].url != row.url && out[i].url !in lines
    {
      assert out[i].url !in lines + [row.url];
    }
  }

  /** A list that starts with `rows + [row]` starts with `rows`, followed by `row`. */
  lemma PrefixStep(rows: seq<Row>, row: Row, out: seq<Row>)
    requires |out| >= |rows| + 1 && out[..|rows| + 1] == rows + [row]
    ensures out[..|rows|] == rows && out[|rows|] == row
  {
    assert out[..|rows|] == out[..|rows| + 1][..|rows|];
  }

  /** Marking the URL of row `n` and then those of the later rows marks the
      URLs of the rows from `n` on. */
  lemma RowUrlsStep(lines: seq<string>, out: seq<Row>, n: nat)
    requires n < |out|
    ensures lines + [out[n].url] + RowUrls(out[n + 1..]) == lines + RowUrls(out[n..])
  {
    assert RowUrls(out[n..]) == [out[n].url] + RowUrls(out[n + 1..]);
  }
}
