/**
 * The `AudioTranscriber` object: its configuration, its chosen engine and its
 * replacement table, and the bookkeeping around recognition that does not
 * touch an engine: reading the model language off the Vosk model directory
 * and reconciling it with the configured language, the Whisper language and
 * compute type, post-processing of recognised text, joining result texts,
 * and choosing and ordering the input files.
 */
module Transcriber {
  import opened Wrappers
  import opened Text
  import opened Paths
  import opened TermTable
  import opened TermDictionaries
  import opened Postprocessing
  import opened ModelNames

  /**
   * The configuration entries the transcriber reads, each `None` when the key
   * is absent: `engine`, `vosk_model_path`, `model_path`, `language`,
   * `whisper_device` and `whisper_model_path`.
   */
  datatype Config = Config(
    engine: Option<string>,
    voskModelPath: Option<string>,
    modelPath: Option<string>,
    language: Option<string>,
    whisperDevice: Option<string>,
    whisperModelPath: Option<string>)

  /** The engine name: `config.get('engine', 'vosk').lower()`. */
  function EngineName(config: Config): string {
    LowerStr(config.engine.GetOr("vosk"))
  }

  /** `config.get('vosk_model_path') or config.get('model_path')`, `None` when both are empty or absent. */
  function ModelPath(config: Config): (r: Option<string>)
    ensures r.Some? ==> r.value != ""
    ensures r.None? <==> config.voskModelPath.GetOr("") == "" && config.modelPath.GetOr("") == ""
    ensures config.voskModelPath.GetOr("") != "" ==> r == config.voskModelPath
    ensures config.voskModelPath.GetOr("") == "" && config.modelPath.GetOr("") != "" ==> r == config.modelPath
  {
    if config.voskModelPath.GetOr("") != "" then config.voskModelPath
    else if config.modelPath.GetOr("") != "" then config.modelPath
    else None
  }

  /**
   * The model directory `load_model` requires: `ModelPath` for Vosk and
   * `whisper_model_path` for Whisper; `None`, where the source raises
   * ValueError, when it is empty or absent.
   */
  function ModelDirectory(engine: string, config: Config): Option<string> {
    if engine == "vosk" then ModelPath(config)
    else if engine == "whisper" && config.whisperModelPath.GetOr("") != "" then config.whisperModelPath
    else None
  }

  /** What `extract_language_from_model_path` returns for this engine and configuration. */
  function DetectedLanguage(engine: string, config: Config): Option<string> {
    if engine != "vosk" then None
    else match ModelPath(config)
      case None => None
      case Some(path) => ModelLanguage(Name(path))
  }

  /** The configured language as compared: `config.get('language', '').strip().lower()`. */
  function ConfiguredLanguage(config: Config): string {
    LowerStr(Strip(config.language.GetOr("")))
  }

  /** One language code is a prefix of the other, as `en` and `en-us` are. */
  predicate PrefixRelated(a: string, b: string) {
    a <= b || b <= a
  }

  /** The configuration `validate_language_config` leaves behind. */
  function Reconciled(detected: Option<string>, config: Config): Config {
    var configLang := ConfiguredLanguage(config);
    if detected.Some? && detected.value != "" then
      var d := detected.value;
      if configLang == "" then config.(language := Some(d))
      else if configLang != d && !PrefixRelated(configLang, d) then config.(language := Some(d))
      else config
    else if configLang == "" then config.(language := Some("unknown"))
    else config
  }

  /** `language.split('-')[0]` when `language` is set and not empty: `en-us` becomes `en`. */
  function WhisperLanguage(language: Option<string>): (r: Option<string>)
    ensures r.None? <==> language.None?
    ensures r.Some? ==> r.value <= language.value && '-' !in r.value
    ensures r.Some? ==> |r.value| == |language.value| || language.value[|r.value|] == '-'
  {
    match language
    case None => None
    case Some(s) => if s == "" then Some(s) else Some(Split(s, '-')[0])
  }

  /** `"int8"` on the CPU, the default device, and `"float16"` on any other. */
  function ComputeType(config: Config): (r: string)
    ensures r == "int8" <==> config.whisperDevice.GetOr("cpu") == "cpu"
    ensures r == "int8" || r == "float16"
  {
    if config.whisperDevice.GetOr("cpu") == "cpu" then "int8" else "float16"
  }

  /**
   * The texts of the results, in order, without the empty ones. A result is
   * `None` when it has no `text` key.
   */
  function NonEmptyTexts(results: seq<Option<string>>): (r: seq<string>)
    ensures forall i :: 0 <= i < |r| ==> r[i] != ""
    ensures forall x :: x in r <==> x != "" && Some(x) in results
    decreases |results|
  {
    if results == [] then []
    else
      var rest := NonEmptyTexts(results[1..]);
      assert forall x :: Some(x) in results <==> results[0] == Some(x) || Some(x) in results[1..];
      if results[0].Some? && results[0].value != "" then [results[0].value] + rest else rest
  }

  /**
   * The filter keeps order and repeats: the texts of two runs of results are
   * the texts of the first run followed by those of the second.
   */
  lemma {:induction false} NonEmptyTextsAppend(a: seq<Option<string>>, b: seq<Option<string>>)
    ensures NonEmptyTexts(a + b) == NonEmptyTexts(a) + NonEmptyTexts(b)
    decreases |a|
  {
    if a == [] {
      assert a + b == b;
    } else {
      assert (a + b)[0] == a[0];
      assert (a + b)[1..] == a[1..] + b;
      NonEmptyTextsAppend(a[1..], b);
      if a[0].Some? && a[0].value != "" {
        assert NonEmptyTexts(a + b) == [a[0].value] + NonEmptyTexts(a[1..] + b);
        assert NonEmptyTexts(a) == [a[0].value] + NonEmptyTexts(a[1..]);
      }
    }
  }

  /** One result contributes its text when it has a non-empty one, and nothing otherwise. */
  lemma NonEmptyTextsOne(x: Option<string>)
    ensures NonEmptyTexts([x]) == if x.Some? && x.value != "" then [x.value] else []
  {
    assert [x][1..] == [];
  }

  /** `" ".join(r.get('text', '') for r in results if r.get('text'))`. */
  function FullText(results: seq<Option<string>>): string {
    Join(" ", NonEmptyTexts(results))
  }

  /** The marker written when recognition returned no results. */
  const NoTextMarker: string := "*Текст не распознан*\n"

  /** The transcription section of the Markdown output; `None` when post-processing raised. */
  function TranscriptionBody(sub: Substitute, table: seq<Entry>, results: seq<Option<string>>): Option<string> {
    if results == [] then Some(NoTextMarker)
    else match Postprocess(sub, table, FullText(results))
      case None => None
      case Some(t) => Some(t + "\n\n")
  }

  /** The sort key of an input file: its lower-cased final component. */
  function SortKey(path: string): string {
    LowerStr(Name(path))
  }

  /** `files` in ascending order of `key`. */
  predicate SortedBy(key: string -> string, files: seq<string>) {
    forall i, j :: 0 <= i < j < |files| ==> StrLe(key(files[i]), key(files[j]))
  }

  predicate SortedByName(files: seq<string>) {
    SortedBy(SortKey, files)
  }

  predicate Distinct(files: seq<string>) {
    forall i, j :: 0 <= i < j < |files| ==> files[i] != files[j]
  }

  /** `files` with `x` placed before the first file whose key is not smaller. */
  function InsertBy(key: string -> string, files: seq<string>, x: string): (r: seq<string>)
    ensures |r| == |files| + 1
    ensures forall y :: y in r <==> y in files || y == x
    decreases |files|
  {
    if files == [] then [x]
    else if StrLe(key(x), key(files[0])) then [x] + files
    else
      var r := [files[0]] + InsertBy(key, files[1..], x);
      assert forall y :: y in files <==> y == files[0] || y in files[1..];
      r
  }

  /** Inserting into a sorted list keeps it sorted. */
  lemma {:induction false} InsertKeepsSorted(key: string -> string, files: seq<string>, x: string)
    requires SortedBy(key, files)
    ensures SortedBy(key, InsertBy(key, files, x))
    decreases |files|
  {
    var r := InsertBy(key, files, x);
    if files == [] {
    } else if StrLe(key(x), key(files[0])) {
      forall j | 1 <= j < |r| ensures StrLe(key(x), key(r[j])) {
        if j > 1 { StrLeTransitive(key(x), key(files[0]), key(files[j - 1])); }
      }
    } else {
      var rest := InsertBy(key, files[1..], x);
      InsertKeepsSorted(key, files[1..], x);
      StrLeTotal(key(x), key(files[0]));
      forall j | 1 <= j < |r| ensures StrLe(key(files[0]), key(r[j])) {
        assert r[j] == rest[j - 1];
        assert r[j] in rest;
        if r[j] != x {
          var k :| 0 <= k < |files[1..]| && files[1..][k] == r[j];
          assert files[k + 1] == r[j];
        }
      }
    }
  }

  /** Inserting a new file into a list without repeats keeps it without repeats. */
  lemma {:induction false} InsertKeepsDistinct(key: string -> string, files: seq<string>, x: string)
    requires Distinct(files) && x !in files
    ensures Distinct(InsertBy(key, files, x))
    decreases |files|
  {
    if files != [] && !StrLe(key(x), key(files[0])) {
      InsertKeepsDistinct(key, files[1..], x);
      assert files[0] !in files[1..];
    }
  }

  /**
   * Both name parsers see only the final component: a model directory gives
   * the same answer wherever it lies.
   */
  lemma ParsersSeeFinalComponent(dir: string, n: string)
    requires '/' !in n && IsKeptPart(n)
    ensures ModelLanguage(Name(dir + "/" + n)) == ModelLanguage(n)
    ensures WhisperModelSize(Name(dir + "/" + n)) == WhisperModelSize(n)
  {
    NameOfChild(dir, n);
  }

  /** A Vosk model under a models directory, from the documented examples. */
  lemma DocumentedModelLanguage(dir: string)
    ensures ModelLanguage(Name(dir + "/" + "vosk-model-small-ru-0.22")) == Some("ru")
  {
    NameOfChild(dir, "vosk-model-small-ru-0.22");
    SmallRussianModelIsRu();
  }

  /** `<dir>/faster-whisper-<size>` gives `<size>` for every size and every directory. */
  lemma DocumentedWhisperSizes(dir: string, size: string)
    requires size in Sizes
    ensures WhisperModelSize(Name(dir + "/" + "faster-whisper-" + size)) == Some(size)
  {
    var n := "faster-whisper-" + size;
    assert '/' !in n by {
      assert forall k :: 0 <= k < |size| ==> n[15 + k] == size[k];
    }
    assert dir + "/" + "faster-whisper-" + size == dir + "/" + n;
    NameOfChild(dir, n);
    FasterWhisperNameGivesSize(n, size);
  }

  /**
   * The language is only looked for with the Vosk engine and a configured
   * model path, and whatever is found is a lower-case `xx` or `xx-yy`.
   */
  lemma DetectedLanguageCases(engine: string, config: Config)
    ensures engine != "vosk" ==> DetectedLanguage(engine, config).None?
    ensures ModelPath(config).None? ==> DetectedLanguage(engine, config).None?
    ensures DetectedLanguage(engine, config).Some? ==> IsLanguageCode(DetectedLanguage(engine, config).value)
  {
    if engine == "vosk" && ModelPath(config).Some? {
      ModelLanguageIsCode(Name(ModelPath(config).value));
    }
  }

  /** The decision table of `validate_language_config`, row by row. */
  lemma ReconciliationTable(d: string, config: Config)
    requires d != ""
    ensures ConfiguredLanguage(config) == "" ==> Reconciled(Some(d), config).language == Some(d)
    ensures ConfiguredLanguage(config) != "" && !PrefixRelated(ConfiguredLanguage(config), d) ==>
              Reconciled(Some(d), config).language == Some(d)
    ensures ConfiguredLanguage(config) != "" && PrefixRelated(ConfiguredLanguage(config), d) ==>
              Reconciled(Some(d), config) == config
    ensures ConfiguredLanguage(config) == "" ==> Reconciled(None, config).language == Some("unknown")
    ensures ConfiguredLanguage(config) != "" ==> Reconciled(None, config) == config
  {
  }

  /** Reconciliation writes `language` and no other entry. */
  lemma ReconciledTouchesOnlyLanguage(detected: Option<string>, config: Config)
    ensures Reconciled(detected, config).(language := config.language) == config
    ensures Reconciled(detected, config).language.Some?
  {
    assert LowerStr(Strip("")) == "";
  }

  lemma LanguageCodeIsNormal(c: string)
    requires IsLanguageCode(c)
    ensures LowerStr(Strip(c)) == c
  {
    LowerStripOfLowerAscii(c);
  }

  /**
   * After reconciliation with a detected model language, the configured
   * language agrees with the model: it is the model's language, or one of
   * the two codes is a prefix of the other.
   */
  lemma ReconciledAgreesWithModel(d: string, config: Config)
    requires IsLanguageCode(d)
    ensures ConfiguredLanguage(Reconciled(Some(d), config)) != ""
    ensures PrefixRelated(ConfiguredLanguage(Reconciled(Some(d), config)), d)
  {
    var cl := ConfiguredLanguage(config);
    LanguageCodeIsNormal(d);
    assert LowerStr(Strip("")) == "";
    if cl == "" || !PrefixRelated(cl, d) {
      assert Reconciled(Some(d), config) == config.(language := Some(d));
    } else {
      assert Reconciled(Some(d), config) == config;
    }
  }

  /** Without a detected language, the configured language ends up set and not blank. */
  lemma ReconciledWithoutModelIsSet(config: Config)
    ensures ConfiguredLanguage(Reconciled(None, config)) != ""
  {
    if ConfiguredLanguage(config) == "" {
      assert Reconciled(None, config) == config.(language := Some("unknown"));
      UnknownIsNormal("unknown");
    }
  }

  lemma UnknownIsNormal(u: string)
    requires u == "unknown"
    ensures LowerStr(Strip(u)) == u
  {
    LowerStripOfLowerAscii(u);
  }

  /** Validating a second time changes nothing. */
  lemma ReconcileIdempotent(detected: Option<string>, config: Config)
    requires detected.None? || IsLanguageCode(detected.value)
    ensures Reconciled(detected, Reconciled(detected, config)) == Reconciled(detected, config)
  {
    if detected.Some? {
      ReconciledAgreesWithModel(detected.value, config);
    } else {
      ReconciledWithoutModelIsSet(config);
    }
  }

  /** Whisper is told the base language: `en-us` becomes `en`, `ru` stays `ru`. */
  lemma WhisperLanguageOfCode(c: string)
    requires IsLanguageCode(c)
    ensures WhisperLanguage(Some(c)) == Some(c[..2])
  {
    SplitNoSeparator(c[..2], '-');
    if |c| == 5 {
      assert c == c[..2] + ['-'] + c[3..];
      SplitAround(c[..2], '-', c[3..]);
    } else {
      assert c == c[..2];
    }
  }

  /** Truncation is idempotent: the base language is already its own base. */
  lemma WhisperLanguageIdempotent(language: Option<string>)
    ensures WhisperLanguage(WhisperLanguage(language)) == WhisperLanguage(language)
  {
    if language.Some? && language.value != "" {
      var first := Split(language.value, '-')[0];
      if first != "" {
        SplitNoSeparator(first, '-');
      }
    }
  }

  /** The joined text is empty exactly when no result has a non-empty text. */
  lemma FullTextEmptyIff(results: seq<Option<string>>)
    ensures FullText(results) == "" <==> forall i :: 0 <= i < |results| ==> results[i].None? || results[i].value == ""
  {
    var texts := NonEmptyTexts(results);
    JoinOfNonEmpty(texts);
    forall i | 0 <= i < |results| && results[i].Some? && results[i].value != "" ensures texts != [] {
      assert results[i] in results;
      assert results[i].value in texts;
    }
    if texts != [] {
      assert Some(texts[0]) in results;
    }
  }

  lemma {:induction false} JoinOfNonEmpty(xs: seq<string>)
    requires forall i :: 0 <= i < |xs| ==> xs[i] != ""
    ensures Join(" ", xs) == "" <==> xs == []
    decreases |xs|
  {
    if |xs| > 1 {
      JoinOfNonEmpty(xs[1..]);
    }
  }

  /**
   * When no text contains a space, splitting the joined text on spaces gives
   * back the non-empty texts in their order.
   */
  lemma FullTextSplitsBack(results: seq<Option<string>>)
    requires forall i :: 0 <= i < |results| && results[i].Some? ==> ' ' !in results[i].value
    requires exists i :: 0 <= i < |results| && results[i].Some? && results[i].value != ""
    ensures Split(FullText(results), ' ') == NonEmptyTexts(results)
  {
    var texts := NonEmptyTexts(results);
    var i :| 0 <= i < |results| && results[i].Some? && results[i].value != "";
    assert results[i].value in texts;
    forall k | 0 <= k < |texts| ensures ' ' !in texts[k] {
      assert Some(texts[k]) in results;
    }
    SplitJoin(' ', texts);
  }

  /** With an empty table the recognised text is written as joined. */
  lemma EmptyTableKeepsText(sub: Substitute, results: seq<Option<string>>)
    requires results != []
    ensures TranscriptionBody(sub, [], results) == Some(FullText(results) + "\n\n")
  {
  }

  /** `<dir>/<stem>.<ext>` has the final component `<stem>.<ext>`. */
  lemma NameOfFile(dir: string, stem: string, ext: string)
    requires '/' !in stem && '/' !in ext && stem != ""
    ensures Name(dir + "/" + stem + "." + ext) == stem + "." + ext
  {
    var n := stem + "." + ext;
    forall k | 0 <= k < |n| ensures n[k] != '/' {
      if k < |stem| { assert n[k] == stem[k]; }
      else if k > |stem| { assert n[k] == ext[k - |stem| - 1]; }
    }
    assert dir + "/" + stem + "." + ext == dir + "/" + n;
    NameOfChild(dir, n);
  }

  /** The suffix of `<stem>.<ext>` is `.<ext>` when neither part has a dot. */
  lemma SuffixOfFile(stem: string, ext: string)
    requires stem != "" && ext != "" && '.' !in ext
    ensures Suffix(stem + "." + ext) == "." + ext
  {
    var n := stem + "." + ext;
    assert n[|stem|] == '.';
    forall k | |stem| < k < |n| ensures n[k] != '.' {
      assert n[k] == ext[k - |stem| - 1];
    }
    assert RFind(n, '.') == |stem|;
    assert n[|stem|..] == "." + ext;
  }

  /**
   * A file goes through the gate by its last extension, lower-cased: for
   * `<dir>/<stem>.<ext>` exactly when `.<ext>` in lower case is listed.
   */
  lemma SupportedFormatByExtension(dir: string, stem: string, ext: string, formats: seq<string>)
    requires stem != "" && ext != ""
    requires '/' !in stem && '/' !in ext && '.' !in ext
    ensures IsSupportedFormat(dir + "/" + stem + "." + ext, formats) <==> LowerStr("." + ext) in formats
  {
    NameOfFile(dir, stem, ext);
    SuffixOfFile(stem, ext);
  }

  /**
   * A transcriber: the parsed configuration, the engine it selected and the
   * replacement table it loaded once at construction.
   */
  class AudioTranscriber {
    var engine: string
    var config: Config
    var termReplacements: seq<Entry>

    constructor Init(engine0: string, config0: Config, table: seq<Entry>)
      ensures engine == engine0 && config == config0 && termReplacements == table
    {
      engine := engine0;
      config := config0;
      termReplacements := table;
    }

    /**
     * `__init__` after the configuration is parsed. It gives `null`, where the
     * source raises, for an unsupported engine, for a missing model directory
     * and when the model does not load. `modelLoads` says whether the
     * directory exists, holds the engine's files and the engine opens it.
     * Otherwise the table is loaded and, for Vosk, the language is reconciled
     * with the model.
     */
    static method Create(config0: Config, dictsDirExists: bool, dictFiles: seq<Document>, modelLoads: bool)
      returns (t: AudioTranscriber?)
      ensures t == null <==> (EngineName(config0) != "vosk" && EngineName(config0) != "whisper")
                              || ModelDirectory(EngineName(config0), config0).None? || !modelLoads
      ensures t != null ==> fresh(t) && t.engine == EngineName(config0)
      ensures t != null ==> t.termReplacements == Load(dictsDirExists, dictFiles)
      ensures t != null ==> t.config == if t.engine == "vosk" then Reconciled(DetectedLanguage("vosk", config0), config0) else config0
    {
      var engine := LowerStr(config0.engine.GetOr("vosk"));
      if engine != "vosk" && engine != "whisper" {
        return null;
      }
      var table := LoadTermReplacements(dictsDirExists, dictFiles);
      if ModelDirectory(engine, config0).None? || !modelLoads {
        return null;
      }
      t := new AudioTranscriber.Init(engine, config0, table);
      if engine == "vosk" {
        t.ValidateLanguageConfig();
      }
    }

    /** `extract_whisper_model_size`: the patterns tried in turn on the final path component. */
    method ExtractWhisperModelSize(modelPath: string) returns (size: Option<string>)
      ensures size == WhisperModelSize(Name(modelPath))
    {
      var name := Name(modelPath);
      var patterns := WhisperPatterns;
      var k := 0;
      while k < |patterns|
        invariant 0 <= k <= |patterns|
        invariant FirstMatch(patterns[k..], name) == FirstMatch(patterns, name)
      {
        var m := Search(patterns[k], name);
        if m.Some? {
          return m;
        }
        assert patterns[k..][1..] == patterns[k + 1..];
        k := k + 1;
      }
      return None;
    }

    /** `extract_language_from_model_path`. */
    method ExtractLanguageFromModelPath() returns (lang: Option<string>)
      ensures lang == DetectedLanguage(engine, config)
    {
      if engine != "vosk" {
        return None;
      }
      var modelPath := ModelPath(config);
      if modelPath.None? {
        return None;
      }
      var name := Name(modelPath.value);
      var patterns := LanguagePatterns;
      var k := 0;
      while k < |patterns|
        invariant 0 <= k <= |patterns|
        invariant FirstMatch(patterns[k..], name) == FirstMatch(patterns, name)
      {
        var m := Search(patterns[k], name);
        if m.Some? {
          return m;
        }
        assert patterns[k..][1..] == patterns[k + 1..];
        k := k + 1;
      }
      return None;
    }

    /** `validate_language_config`: only `config['language']` may change. */
    method ValidateLanguageConfig()
      modifies this`config
      ensures config == Reconciled(DetectedLanguage(engine, old(config)), old(config))
    {
      var detectedLang := ExtractLanguageFromModelPath();
      ReconcileLanguage(detectedLang);
    }

    /** The decision `validate_language_config` takes once the model language is known. */
    method ReconcileLanguage(detectedLang: Option<string>)
      modifies this`config
      ensures config == Reconciled(detectedLang, old(config))
    {
      var configLang := ConfiguredLanguage(config);
      if detectedLang.Some? && detectedLang.value != "" {
        var d := detectedLang.value;
        if configLang == "" {
          config := config.(language := Some(d));
          configLang := d;
        }
        if configLang != "" && configLang != d {
          if !(d <= configLang || configLang <= d) {
            config := config.(language := Some(d));
          }
        }
      } else {
        if configLang == "" {
          config := config.(language := Some("unknown"));
        }
      }
    }

    /**
     * `postprocess_text`: every entry of the table in order, each on the
     * previous output; `None` when a substitution raises.
     */
    method PostprocessText(sub: Substitute, text: string) returns (r: Option<string>)
      ensures r == Postprocess(sub, termReplacements, text)
    {
      if termReplacements == [] {
        return Some(text);
      }
      var replacements := termReplacements;
      var current := text;
      var i := 0;
      while i < |replacements|
        invariant 0 <= i <= |replacements|
        invariant ApplyRules(sub, replacements[i..], current) == ApplyRules(sub, replacements, text)
      {
        var pattern := replacements[i].pattern;
        var correct := replacements[i].correct;
        var next: Option<string>;
        if HasRegexChars(pattern) {
          next := sub(pattern, correct, current);
          if next.None? {
            next := sub(WordPattern(pattern), correct, current);
          }
        } else {
          next := sub(WordPattern(pattern), correct, current);
        }
        assert replacements[i..][0] == replacements[i] && replacements[i..][1..] == replacements[i + 1..];
        if next.None? {
          return None;
        }
        current := next.value;
        i := i + 1;
      }
      return Some(current);
    }

    /** The text part of `format_results_to_markdown`. */
    method FormatTranscription(sub: Substitute, results: seq<Option<string>>) returns (body: Option<string>)
      ensures body == TranscriptionBody(sub, termReplacements, results)
    {
      if results == [] {
        return Some(NoTextMarker);
      }
      var fullText := FullText(results);
      var processed := PostprocessText(sub, fullText);
      if processed.None? {
        return None;
      }
      return Some(processed.value + "\n\n");
    }
  }

  /**
   * The input list of `process_directory`: the files the globs found, each
   * once, ordered by lower-cased name. The set's iteration order is
   * unspecified; the first occurrence is kept.
   */
  method NormalizeAudioFiles(found: seq<string>) returns (files: seq<string>)
    ensures forall p :: p in files <==> p in found
    ensures Distinct(files)
    ensures SortedByName(files)
  {
    var unique: seq<string> := [];
    var i := 0;
    while i < |found|
      invariant 0 <= i <= |found|
      invariant forall p :: p in unique <==> p in found[..i]
      invariant Distinct(unique)
    {
      assert found[..i + 1] == found[..i] + [found[i]];
      if found[i] !in unique {
        unique := unique + [found[i]];
      }
      i := i + 1;
    }
    assert found[..|found|] == found;
    files := [];
    var j := 0;
    while j < |unique|
      invariant 0 <= j <= |unique|
      invariant forall p :: p in files <==> p in unique[..j]
      invariant Distinct(files)
      invariant SortedByName(files)
    {
      assert unique[..j + 1] == unique[..j] + [unique[j]];
      assert unique[j] !in unique[..j];
      InsertKeepsSorted(SortKey, files, unique[j]);
      InsertKeepsDistinct(SortKey, files, unique[j]);
      files := InsertBy(SortKey, files, unique[j]);
      j := j + 1;
    }
    assert unique[..|unique|] == unique;
  }
}
