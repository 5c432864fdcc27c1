/** `text_to_speech`: the start-up key check, the interactive menus, the
    shaping of the providers' voice lists and the choice of provider for a
    synthesis request. The HTTP calls are parameters. */
module TextToSpeech {
  import opened Wrappers
  import opened Text
  import opened Json
  import Config

  // ---------------------------------------------------------------------------
  // Start-up check

  predicate Present(key: Option<string>) {
    key.Some? && |key.value| > 0
  }

  /** Importing the module raises unless both API keys are set and non-empty,
      whichever provider is going to be used; ElevenLabs is checked first. */
  function CheckApiKeys(env: Config.Env): (r: Result<()>)
    ensures r.Success? <==> Present(env.elevenApiKey) && Present(env.neetsApiKey)
    ensures !Present(env.elevenApiKey) ==> r == Failure("Missing required ELEVEN_API_KEY")
    ensures Present(env.elevenApiKey) && !Present(env.neetsApiKey) ==> r == Failure("Missing required NEETS_API_KEY")
  {
    if !Present(env.elevenApiKey) then Failure("Missing required ELEVEN_API_KEY")
    else if !Present(env.neetsApiKey) then Failure("Missing required NEETS_API_KEY")
    else Success(())
  }

  // ---------------------------------------------------------------------------
  // Menus

  /** A menu loop: each line typed is stripped and offered to `choice`; the first
      line it accepts is the answer (with its position), the others re-prompt.
      Running out of lines is `EOFError`, here `None`. */
  function Prompt<T>(inputs: seq<string>, choice: string -> Option<T>): (r: Option<(T, nat)>)
    ensures r.Some? ==> r.value.1 < |inputs| && choice(Strip(inputs[r.value.1])) == Some(r.value.0)
    decreases |inputs|
  {
    if |inputs| == 0 then None
    else
      match choice(Strip(inputs[0]))
      case Some(x) => Some((x, 0))
      case None =>
        match Prompt(inputs[1..], choice)
        case None => None
        case Some((x, i)) => Some((x, i + 1))
  }

  /** The first accepted line is the answer: every line before it re-prompts. */
  lemma {:induction false} PromptAt<T>(inputs: seq<string>, choice: string -> Option<T>, k: nat)
    requires k < |inputs|
    requires forall i :: 0 <= i < k ==> choice(Strip(inputs[i])).None?
    requires choice(Strip(inputs[k])).Some?
    ensures Prompt(inputs, choice) == Some((choice(Strip(inputs[k])).value, k))
    decreases k
  {
    if k > 0 {
      assert choice(Strip(inputs[0])).None?;
      forall i | 0 <= i < k - 1
        ensures choice(Strip(inputs[1..][i])).None?
      {
        assert inputs[1..][i] == inputs[i + 1];
      }
      assert inputs[1..][k - 1] == inputs[k];
      PromptAt(inputs[1..], choice, k - 1);
    }
  }

  /** When no line is accepted the input runs out: `EOFError`. */
  lemma {:induction false} PromptExhausted<T>(inputs: seq<string>, choice: string -> Option<T>)
    requires forall i :: 0 <= i < |inputs| ==> choice(Strip(inputs[i])).None?
    ensures Prompt(inputs, choice) == None
    decreases |inputs|
  {
    if |inputs| > 0 {
      assert choice(Strip(inputs[0])).None?;
      forall i | 0 <= i < |inputs| - 1
        ensures choice(Strip(inputs[1..][i])).None?
      {
        assert inputs[1..][i] == inputs[i + 1];
      }
      PromptExhausted(inputs[1..], choice);
    }
  }

  /** The menu answers exactly when some line is acceptable. */
  lemma {:induction false} PromptAnswered<T>(inputs: seq<string>, choice: string -> Option<T>)
    ensures Prompt(inputs, choice).Some? <==> exists i :: 0 <= i < |inputs| && choice(Strip(inputs[i])).Some?
    decreases |inputs|
  {
    if |inputs| > 0 && choice(Strip(inputs[0])).None? {
      PromptAnswered(inputs[1..], choice);
      if exists i :: 0 <= i < |inputs| && choice(Strip(inputs[i])).Some? {
        var i :| 0 <= i < |inputs| && choice(Strip(inputs[i])).Some?;
        assert inputs[1..][i - 1] == inputs[i];
      }
      if Prompt(inputs, choice).Some? {
        var j := Prompt(inputs, choice).value.1;
        assert choice(Strip(inputs[j])).Some?;
      }
    }
  }

  predicate IsDefaultChoice(s: string) {
    s == "" || s == "0"
  }

  function ProviderChoice(s: string): Option<string> {
    if IsDefaultChoice(s) then Some(Config.DefaultTtsProvider)
    else if s == "1" then Some("elevenlabs")
    else if s == "2" then Some("neets")
    else None
  }

  /** `select_tts_provider()` over the lines typed at its prompt. */
  function SelectTtsProvider(inputs: seq<string>): Option<string> {
    match Prompt(inputs, ProviderChoice)
    case None => None
    case Some((p, _)) => Some(p)
  }

  /** The first line reading `""`/`"0"`, `"1"` or `"2"` decides: the default
      provider, ElevenLabs or Neets; every other line re-prompts. */
  lemma SelectTtsProviderAnswer(inputs: seq<string>, k: nat)
    requires k < |inputs|
    requires forall i :: 0 <= i < k ==> ProviderChoice(Strip(inputs[i])).None?
    requires ProviderChoice(Strip(inputs[k])).Some?
    ensures var s := Strip(inputs[k]);
      && (IsDefaultChoice(s) ==> SelectTtsProvider(inputs) == Some(Config.DefaultTtsProvider))
      && (s == "1" ==> SelectTtsProvider(inputs) == Some("elevenlabs"))
      && (s == "2" ==> SelectTtsProvider(inputs) == Some("neets"))
  {
    PromptAt(inputs, ProviderChoice, k);
  }

  /** A voice as the providers' lists give it: id, name and, for Neets, the
      comma-joined names of the models it supports. */
  datatype Voice = Voice(id: Json, name: Json, models: Option<string>)

  function VoiceChoice(voices: seq<Voice>, s: string): Option<Option<Json>> {
    if IsDefaultChoice(s) then Some(None)
    else
      match ParsePyInt(s)
      case Some(k) => if 1 <= k <= |voices| then Some(Some(voices[k - 1].id)) else None
      case None => None
  }

  /** `select_voice(voices)`: `None` for the default, else the id of the voice numbered from 1. */
  function SelectVoice(inputs: seq<string>, voices: seq<Voice>): Option<Option<Json>> {
    match Prompt(inputs, s => VoiceChoice(voices, s))
    case None => None
    case Some((v, _)) => Some(v)
  }

  /** The first line the menu accepts decides: `""` or `"0"` picks nothing, so
      the caller falls back to its default voice, and a number `n` in range
      picks the id of voice `n`. */
  lemma SelectVoiceAnswer(inputs: seq<string>, voices: seq<Voice>, k: nat, n: int)
    requires k < |inputs|
    requires forall i :: 0 <= i < k ==> VoiceChoice(voices, Strip(inputs[i])).None?
    ensures IsDefaultChoice(Strip(inputs[k])) ==> SelectVoice(inputs, voices) == Some(None)
    ensures !IsDefaultChoice(Strip(inputs[k])) && ParsePyInt(Strip(inputs[k])) == Some(n) && 1 <= n <= |voices| ==>
      SelectVoice(inputs, voices) == Some(Some(voices[n - 1].id))
  {
    if VoiceChoice(voices, Strip(inputs[k])).Some? {
      PromptAt(inputs, s => VoiceChoice(voices, s), k);
    }
  }

  const NeetsModels: seq<string> := ["style-diff-500", "vits", "ar-diff-50k"]

  function NeetsModelChoice(s: string): Option<string> {
    if IsDefaultChoice(s) then Some(Config.DefaultNeetsModel)
    else
      match ParsePyInt(s)
      case Some(k) => if 1 <= k <= |NeetsModels| then Some(NeetsModels[k - 1]) else None
      case None => None
  }

  /** `select_neets_model()`. */
  function SelectNeetsModel(inputs: seq<string>): Option<string> {
    match Prompt(inputs, NeetsModelChoice)
    case None => None
    case Some((m, _)) => Some(m)
  }

  /** Every accepted line names one of the three listed models. */
  lemma NeetsModelChoiceListed(s: string)
    ensures NeetsModelChoice(s).Some? ==> NeetsModelChoice(s).value in NeetsModels
  {
    assert Config.DefaultNeetsModel == NeetsModels[2];
  }

  /** Whatever is typed, the answer is one of the three listed models: the
      default is one of them. */
  lemma SelectNeetsModelListed(inputs: seq<string>)
    ensures SelectNeetsModel(inputs).Some? ==> SelectNeetsModel(inputs).value in NeetsModels
    ensures SelectNeetsModel(inputs).Some? <==>
      exists i :: 0 <= i < |inputs| && NeetsModelChoice(Strip(inputs[i])).Some?
  {
    PromptAnswered(inputs, NeetsModelChoice);
    var r := Prompt(inputs, NeetsModelChoice);
    if r.Some? {
      NeetsModelChoiceListed(Strip(inputs[r.value.1]));
    }
  }

  // ---------------------------------------------------------------------------
  // Voice lists

  /** `x[key]` on a decoded JSON value: the value, a `KeyError`, or a `TypeError`
      for anything that is not a dict. */
  datatype Lookup = Found(value: Json) | KeyMissing | NotSubscriptable

  function Get(v: Json, key: string): (r: Lookup)
    ensures r.Found? ==> v.JObj? && exists i :: 0 <= i < |v.members| && v.members[i] == Member(key, r.value)
    ensures r.KeyMissing? <==> v.JObj? && forall i :: 0 <= i < |v.members| ==> v.members[i].key != key
  {
    match v
    case JObj(ms) => Find(ms, key)
    case _ => NotSubscriptable
  }

  function Find(ms: seq<Member>, key: string): (r: Lookup)
    ensures !r.NotSubscriptable?
    ensures r.Found? ==> exists i :: 0 <= i < |ms| && ms[i] == Member(key, r.value)
    ensures r.KeyMissing? <==> forall i :: 0 <= i < |ms| ==> ms[i].key != key
    decreases |ms|
  {
    if |ms| == 0 then KeyMissing
    else if ms[0].key == key then Found(ms[0].value)
    else
      var r := Find(ms[1..], key);
      assert forall i :: 1 <= i < |ms| ==> ms[i] == ms[1..][i - 1];
      r
  }

  /** `for x in v`: a list's items, a dict's keys, a string's characters; other values raise. */
  function Items(v: Json): Result<seq<Json>> {
    match v
    case JArr(items) => Success(items)
    case JObj(ms) => Success(seq(|ms|, i requires 0 <= i < |ms| => JStr(ms[i].key)))
    case JStr(s) => Success(seq(|s|, i requires 0 <= i < |s| => JStr([s[i]])))
    case _ => Failure("TypeError: object is not iterable")
  }

  /** The list comprehension over voice entries: the voices, a `KeyError`
      (caught by the caller), or a `TypeError` (not caught). */
  datatype Shaped = Shaped(voices: seq<Voice>) | KeyErr | TypeErr(error: string)

  function ElevenLabsEntry(item: Json): Shaped {
    match (Get(item, "voice_id"), Get(item, "name"))
    case (NotSubscriptable, _) => TypeErr("TypeError: not subscriptable")
    case (KeyMissing, _) => KeyErr
    case (Found(id), Found(name)) => Shaped([Voice(id, name, None)])
    case (Found(_), _) => KeyErr
  }

  /** `", ".join(models)`: every item must be a string. */
  function JoinModels(models: seq<Json>): Result<string> {
    if forall i :: 0 <= i < |models| ==> models[i].JStr? then
      Success(JoinWith(seq(|models|, i requires 0 <= i < |models| && models[i].JStr? => models[i].s), ", "))
    else Failure("TypeError: sequence item: expected str instance")
  }

  function NeetsEntry(item: Json): Shaped {
    match Get(item, "id")
    case NotSubscriptable => TypeErr("TypeError: not subscriptable")
    case KeyMissing => KeyErr
    case Found(id) =>
      match Get(item, "title")
      case Found(title) =>
        (match Get(item, "supported_models")
         case Found(models) =>
           (match Items(models)
            case Failure(e) => TypeErr(e)
            case Success(ms) =>
              match JoinModels(ms)
              case Failure(e) => TypeErr(e)
              case Success(joined) => Shaped([Voice(id, title, Some(joined))]))
         case _ => KeyErr)
      case _ => KeyErr
  }

  /** The comprehension over `items`, entry by entry: the first entry that raises decides. */
  function ShapeEach(items: seq<Json>, entry: Json -> Shaped): (r: Shaped)
    decreases |items|
  {
    if |items| == 0 then Shaped([])
    else
      match entry(items[0])
      case Shaped(v) =>
        (match ShapeEach(items[1..], entry)
         case Shaped(vs) => Shaped(v + vs)
         case other => other)
      case other => other
  }

  /** A response body: `None` for an `aiohttp.ClientError`, else the text `response.json()` decodes. */
  function Caught(s: Shaped): Result<seq<Voice>> {
    match s
    case Shaped(vs) => Success(vs)
    case KeyErr => Success([])
    case TypeErr(e) => Failure(e)
  }

  /** `fetch_elevenlabs_voices()`: `(voice_id, name)` for each entry of
      `voices`; `[]` on a client error or a missing key. */
  function ElevenLabsVoices(response: Option<string>): (r: Result<seq<Voice>>)
    ensures response.None? ==> r == Success([])
  {
    if response.None? then Success([])
    else
      match Loads(response.value)
      case None => Failure("JSONDecodeError")
      case Some(body) =>
        match Get(body, "voices")
        case KeyMissing => Success([])
        case NotSubscriptable => Failure("TypeError: not subscriptable")
        case Found(list) =>
          match Items(list)
          case Failure(e) => Failure(e)
          case Success(items) => Caught(ShapeEach(items, ElevenLabsEntry))
  }

  /** `fetch_neets_voices()`: `(id, title, models)` for each entry of the
      top-level list; `[]` on a client error or a missing key. */
  function NeetsVoices(response: Option<string>): (r: Result<seq<Voice>>)
    ensures response.None? ==> r == Success([])
  {
    if response.None? then Success([])
    else
      match Loads(response.value)
      case None => Failure("JSONDecodeError")
      case Some(body) =>
        match Items(body)
        case Failure(e) => Failure(e)
        case Success(items) => Caught(ShapeEach(items, NeetsEntry))
  }

  /** An entry every field of which is present. */
  predicate NeetsComplete(item: Json) {
    && Get(item, "id").Found?
    && Get(item, "title").Found?
    && Get(item, "supported_models").Found?
    && Get(item, "supported_models").value.JArr?
    && forall j :: 0 <= j < |Get(item, "supported_models").value.items| ==>
         Get(item, "supported_models").value.items[j].JStr?
  }

  /** A complete entry gives one voice carrying its id and title. */
  lemma NeetsEntryComplete(item: Json)
    requires NeetsComplete(item)
    ensures NeetsEntry(item).Shaped? && |NeetsEntry(item).voices| == 1
    ensures NeetsEntry(item).voices[0].id == Get(item, "id").value
    ensures NeetsEntry(item).voices[0].name == Get(item, "title").value
  {
    var models := Get(item, "supported_models").value;
    assert Items(models) == Success(models.items);
    assert JoinModels(models.items).Success?;
  }

  /** When every entry yields exactly one voice, the comprehension yields them in order. */
  lemma {:induction false} ShapeEachOnePerEntry(items: seq<Json>, entry: Json -> Shaped)
    requires forall i :: 0 <= i < |items| ==> entry(items[i]).Shaped? && |entry(items[i]).voices| == 1
    ensures ShapeEach(items, entry).Shaped?
    ensures |ShapeEach(items, entry).voices| == |items|
    ensures forall i :: 0 <= i < |items| ==> ShapeEach(items, entry).voices[i] == entry(items[i]).voices[0]
    decreases |items|
  {
    if |items| > 0 {
      var tail := items[1..];
      assert forall i :: 0 <= i < |tail| ==> tail[i] == items[i + 1];
      ShapeEachOnePerEntry(tail, entry);
      var r := ShapeEach(items, entry);
      assert r.voices == entry(items[0]).voices + ShapeEach(tail, entry).voices;
    }
  }

  /** With every entry complete, the voices follow the entries one for one, in order. */
  lemma ShapeNeetsInOrder(items: seq<Json>)
    requires forall i :: 0 <= i < |items| ==> NeetsComplete(items[i])
    ensures ShapeEach(items, NeetsEntry).Shaped?
    ensures |ShapeEach(items, NeetsEntry).voices| == |items|
    ensures forall i :: 0 <= i < |items| ==>
      && NeetsComplete(items[i])
      && ShapeEach(items, NeetsEntry).voices[i].id == Get(items[i], "id").value
      && ShapeEach(items, NeetsEntry).voices[i].name == Get(items[i], "title").value
  {
    forall i | 0 <= i < |items|
      ensures NeetsEntry(items[i]).Shaped? && |NeetsEntry(items[i]).voices| == 1
      ensures NeetsEntry(items[i]).voices[0].id == Get(items[i], "id").value
      ensures NeetsEntry(items[i]).voices[0].name == Get(items[i], "title").value
    {
      NeetsEntryComplete(items[i]);
    }
    ShapeEachOnePerEntry(items, NeetsEntry);
  }

  /** One entry without an `id`, among entries that are all dicts, empties the whole list. */
  lemma {:induction false} ShapeNeetsMissingId(items: seq<Json>, k: nat)
    requires k < |items|
    requires forall i :: 0 <= i < k ==> NeetsComplete(items[i])
    requires Get(items[k], "id").KeyMissing?
    ensures ShapeEach(items, NeetsEntry) == KeyErr
    decreases k
  {
    if k > 0 {
      assert forall i :: 1 <= i < |items| ==> items[1..][i - 1] == items[i];
      ShapeNeetsMissingId(items[1..], k - 1);
    }
  }

  predicate ElevenLabsComplete(item: Json) {
    Get(item, "voice_id").Found? && Get(item, "name").Found?
  }

  /** A `voices` list of complete entries gives one `(voice_id, name)` per entry, in order. */
  lemma ShapeElevenLabsInOrder(items: seq<Json>)
    requires forall i :: 0 <= i < |items| ==> ElevenLabsComplete(items[i])
    ensures ShapeEach(items, ElevenLabsEntry).Shaped?
    ensures |ShapeEach(items, ElevenLabsEntry).voices| == |items|
    ensures forall i :: 0 <= i < |items| ==>
      && ElevenLabsComplete(items[i])
      && ShapeEach(items, ElevenLabsEntry).voices[i] ==
           Voice(Get(items[i], "voice_id").value, Get(items[i], "name").value, None)
  {
    ShapeEachOnePerEntry(items, ElevenLabsEntry);
  }

  /** The whole call on a body whose `voices` entries are complete. */
  lemma ElevenLabsVoicesInOrder(text: string, items: seq<Json>)
    requires Loads(text).Some? && Get(Loads(text).value, "voices") == Found(JArr(items))
    requires forall i :: 0 <= i < |items| ==> ElevenLabsComplete(items[i])
    ensures ElevenLabsVoices(Some(text)).Success?
    ensures |ElevenLabsVoices(Some(text)).value| == |items|
    ensures forall i :: 0 <= i < |items| ==>
      && ElevenLabsComplete(items[i])
      && ElevenLabsVoices(Some(text)).value[i].id == Get(items[i], "voice_id").value
      && ElevenLabsVoices(Some(text)).value[i].name == Get(items[i], "name").value
  {
    ShapeElevenLabsInOrder(items);
  }

  /** Any document whose `voices` entries are complete, whatever else it holds
      (floats such as a voice's `stability` setting included), gives one voice
      per entry, in order, once the provider sends it as text. */
  lemma ElevenLabsVoicesOfDocument(body: Json, items: seq<Json>)
    requires WellFormed(body) && Get(body, "voices") == Found(JArr(items))
    requires forall i :: 0 <= i < |items| ==> ElevenLabsComplete(items[i])
    ensures ElevenLabsVoices(Some(Dumps(body))).Success?
    ensures |ElevenLabsVoices(Some(Dumps(body))).value| == |items|
    ensures forall i :: 0 <= i < |items| ==>
      && ElevenLabsComplete(items[i])
      && ElevenLabsVoices(Some(Dumps(body))).value[i].id == Get(items[i], "voice_id").value
      && ElevenLabsVoices(Some(Dumps(body))).value[i].name == Get(items[i], "name").value
  {
    LoadsDumps(body);
    ElevenLabsVoicesInOrder(Dumps(body), items);
  }

  /** A top-level list of complete Neets entries, whatever else they hold,
      gives one voice per entry, in order, carrying its id and title. */
  lemma NeetsVoicesOfDocument(items: seq<Json>)
    requires WellFormed(JArr(items))
    requires forall i :: 0 <= i < |items| ==> NeetsComplete(items[i])
    ensures NeetsVoices(Some(Dumps(JArr(items)))).Success?
    ensures |NeetsVoices(Some(Dumps(JArr(items)))).value| == |items|
    ensures forall i :: 0 <= i < |items| ==>
      && NeetsComplete(items[i])
      && NeetsVoices(Some(Dumps(JArr(items)))).value[i].id == Get(items[i], "id").value
      && NeetsVoices(Some(Dumps(JArr(items)))).value[i].name == Get(items[i], "title").value
  {
    LoadsDumps(JArr(items));
    ShapeNeetsInOrder(items);
  }

  /** A body `json.loads` rejects raises `JSONDecodeError`, which neither
      fetch catches: only client errors and missing keys give `[]`. */
  lemma VoicesUndecodable(text: string)
    requires Loads(text).None?
    ensures ElevenLabsVoices(Some(text)) == Failure("JSONDecodeError")
    ensures NeetsVoices(Some(text)) == Failure("JSONDecodeError")
  {
  }

  // ---------------------------------------------------------------------------
  // Synthesis

  /** The request `convert_to_audio` sends. */
  datatype TtsRequest =
    | ElevenLabsRequest(text: string, path: string, voiceId: Option<string>, modelId: string)
    | NeetsRequest(text: string, path: string, voiceId: Option<string>, model: Option<string>, format: string)

  /** `convert_to_audio(text, path, provider, voice_id, model)`: `"elevenlabs"`
      goes to ElevenLabs, which ignores `model`; every other provider string goes to Neets. */
  function TtsRequestFor(text: string, path: string, provider: string, voiceId: Option<string>, model: Option<string>): (r: TtsRequest)
    ensures r.ElevenLabsRequest? <==> provider == "elevenlabs"
    ensures r.text == text && r.path == path && r.voiceId == voiceId
    ensures r.NeetsRequest? ==> r.model == model && r.format == "mp3"
    ensures r.ElevenLabsRequest? ==> r.modelId == "eleven_multilingual_v2"
  {
    if provider == "elevenlabs" then ElevenLabsRequest(text, path, voiceId, "eleven_multilingual_v2")
    else NeetsRequest(text, path, voiceId, model, "mp3")
  }

  /** The provider's answer to a request: the audio written, or the error it re-raises. */
  type Synthesiser = TtsRequest -> Result<()>

  /** `convert_to_audio`: the output path once the provider has written it. */
  function ConvertToAudio(text: string, path: string, provider: string, voiceId: Option<string>,
                          model: Option<string>, synth: Synthesiser): (r: Result<string>)
    ensures r.Success? <==> synth(TtsRequestFor(text, path, provider, voiceId, model)).Success?
    ensures r.Success? ==> r.value == path
  {
    match synth(TtsRequestFor(text, path, provider, voiceId, model))
    case Success(_) => Success(path)
    case Failure(e) => Failure(e)
  }
}
