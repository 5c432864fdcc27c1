/** The constants of `config.py`. Values read from the environment
    (API keys, the ElevenLabs voice id) are not constants: they travel in
    `Env`, which the operations that need them take as a parameter. */
module Config {
  import opened Wrappers

  const RssFeeds: seq<string> := ["https://www.aljazeera.com/xml/rss/all.xml"]
  const OutputFolder: string := "output"
  const DefaultTtsProvider: string := "neets"
  const DefaultNeetsModel: string := "ar-diff-50k"
  const DefaultNeetsVoice: string := "cardi-b"
  const DefaultElevenLabsVoice: string := "d39BbXcI33A814zijpKb"
  const SummarizerModel: string := "openrouter/google/gemini-flash-1.5"

  /** The voice the stores fall back to: the Neets default when the default
      provider is Neets, the ElevenLabs default otherwise. */
  const DefaultVoice: string :=
    if DefaultTtsProvider == "neets" then DefaultNeetsVoice else DefaultElevenLabsVoice

  /** `os.getenv` results; `None` where the variable is unset. */
  datatype Env = Env(
    elevenApiKey: Option<string>,
    elevenLabsVoiceId: Option<string>,
    neetsApiKey: Option<string>)

  /** `os.path.join(dir, name)` on POSIX: an absolute `name` discards `dir`. */
  function JoinPath(dir: string, name: string): (r: string)
    ensures |name| > 0 && name[0] == '/' ==> r == name
    ensures (|name| == 0 || name[0] != '/') && |dir| > 0 && dir[|dir| - 1] != '/' ==> r == dir + "/" + name
  {
    if |name| > 0 && name[0] == '/' then name
    else if |dir| == 0 || dir[|dir| - 1] == '/' then dir + name
    else dir + "/" + name
  }

  const ArticlesFile: string := JoinPath(OutputFolder, "articles.yaml")
  const SummariesFile: string := JoinPath(OutputFolder, "summaries.yaml")
  const SettingsFile: string := JoinPath(OutputFolder, "settings.yaml")
}
