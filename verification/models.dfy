/** The records of `models.py`, and the timestamps they carry. */
module Models {
  import opened Wrappers

  /** A calendar day, counted from a fixed epoch: what `datetime.date()`
      and SQL `DATE()` extract from a timestamp. */
  type Day = int

  const SecondsPerDay: nat := 86400

  type Second = s: nat | s < 86400

  /** A timestamp, taken in one fixed time zone: its day and the second within that day. */
  datatype DateTime = DateTime(day: Day, second: Second)

  /** The position of a timestamp on the time line; timestamps are ordered by it. */
  function Instant(t: DateTime): int {
    t.day * SecondsPerDay + t.second
  }

  /** Distinct timestamps sit at distinct instants, and an earlier day means an earlier instant. */
  lemma InstantOrder(t: DateTime, u: DateTime)
    ensures Instant(t) == Instant(u) ==> t == u
    ensures t.day < u.day ==> Instant(t) < Instant(u)
  {
  }

  /** `models.Article`. */
  datatype Article = Article(url: string, title: string, content: string, publishDate: DateTime)

  /** `models.Summary`; `audio_path` defaults to `None`. */
  datatype Summary = Summary(article: Article, summary: string, audioPath: Option<string>)
}
