# Speech-recognition transcriber: term dictionaries, post-processing and model names

This project models the part of the `AudioTranscriber` (`speech_recognition.py`) that works
on values and not on engines or files, and proves what that code promises:

- **Term dictionaries.** `load_term_replacements` folds the parsed `.json` documents of the
  `dicts` directory into one replacement table. A document is flat (`replacements`) or nested
  (`contexts` → `replacements` → rules). A rule is a `patterns` list with one `correct`, or a
  legacy `wrong`/`correct` pair; anything else is skipped. A file that raises stops only itself.
  The table is a Python dict, so it is modelled as an insertion-ordered sequence of
  `(pattern, correct)` entries with distinct patterns (`TermTable`). Item assignment keeps a
  key's place, a new key goes to the end, and `update` assigns in order.
- **Post-processing.** `postprocess_text` applies every entry, in table order, to the previous
  output. A pattern with a backspace, a backslash-`b` or one of `[ ] ( ) + ? * ^ $` is tried
  as a regular expression. If it does not compile, it is used as the escaped pattern wrapped
  in word boundaries, the same form that every other pattern gets. The regular-expression
  engine (`re.sub` with IGNORECASE) is a parameter that returns the new text, or nothing for
  `re.error`. `re.escape` is modelled concretely.
- **Model names.** `extract_whisper_model_size` and `extract_language_from_model_path` search
  the final path component with an ordered list of case-insensitive patterns. The patterns
  are written out as hand-coded matchers that keep `re.search`'s leftmost-match and
  backtracking order.
- **Language reconciliation.** `validate_language_config` settles `config['language']`
  against the language read off the Vosk model name. Two related rules belong here: the
  Whisper base-language truncation `split('-')[0]` and the compute-type rule.
- **Helpers.** These are the join of the non-empty result texts, the Markdown transcription
  section built from it, the extension gate in front of each input file, and the
  deduplicated, name-sorted input list.
- **The test copy.** `test_dict_loading.py` repeats the loader and post-processing. Both
  copies are modelled from their own text and proved against the same specification
  functions. So they build the same table and produce the same text for every input.

Files: `wrappers.dfy` (Option), `text.dfy` (the `str` operations used), `paths.dfy`
(`PurePosixPath.name` and `.suffix`), `term_table.dfy`, `term_dictionaries.dfy`,
`postprocessing.dfy`, `model_names.dfy`, `transcriber.dfy` (the class) and
`dict_loading_test.dfy`.

## Model

| member | source | states |
|---|---|---|
| Text.Lower | speech_recognition.py:233 | `lower()` on one character: an ASCII capital moves up by 32 code points, and a character that is neither an ASCII nor a basic Cyrillic capital is unchanged |
| Text.LowerStr | speech_recognition.py:233 | `lower()` keeps the length and lower-cases every character in its place |
| Text.Strip | speech_recognition.py:233 | `strip()` gives the middle of the string between a run of Python whitespace at each end; it is "" exactly when every character is whitespace, and otherwise it starts and ends with non-whitespace |
| Text.IsSpace | speech_recognition.py:233 | definition of the characters `str.strip()` removes: the ASCII and Unicode whitespace set Python uses (space, tab to carriage return, U+001C to U+001F, U+0085, U+00A0, U+1680, U+2000 to U+200A, U+2028, U+2029, U+202F, U+205F, U+3000) |
| Text.Contains | speech_recognition.py:484 | definition of the `in` test on strings: true exactly when the substring occurs at some position |
| Text.StrLe | speech_recognition.py:605 | definition of the string order `sorted` compares keys by: code point by code point, a prefix first; `Text.StrLeTotal` and `Text.StrLeTransitive` state that it is a total preorder |
| Text.StrLeTotal | speech_recognition.py:605 | any two keys are comparable: one is at most the other |
| Text.StrLeTransitive | speech_recognition.py:605 | the key order is transitive |
| Text.StripUnspaced | speech_recognition.py:233 | a string without whitespace is its own `strip()` |
| Text.LowerStripOfLowerAscii | speech_recognition.py:233 | lower-case ASCII letters and `-` read back unchanged after `strip().lower()` |
| Text.Split | speech_recognition.py:387 | `split('-')` has at least one field; the first field is the longest prefix of the input without the separator |
| Text.SplitNoSeparator | speech_recognition.py:387 | a string without the separator splits into itself alone |
| Text.SplitAround | speech_recognition.py:387 | splitting `a + sep + b`, where `a` has no separator, gives `a` followed by the fields of `b` |
| Text.Join | speech_recognition.py:514 | definition of `sep.join(xs)`: the fields with the separator between neighbours, "" for no fields; `Text.SplitJoin` proves `split` undoes it |
| Text.SplitJoin | speech_recognition.py:514 | splitting on the separator undoes `join` when no field contains the separator |
| Paths.Name | speech_recognition.py:106 | definition of `Path(p).name`: the last component that is neither empty nor `.`, "" when there is none; `Paths.NameOfChild` and `Paths.NameHasNoSeparator` state its properties |
| Paths.NameOfChild | speech_recognition.py:106 | `Path(dir + "/" + n).name` is `n` for any plain component `n` |
| Paths.NameHasNoSeparator | speech_recognition.py:209 | a path's `name` never contains `/`, so the parsers see one component |
| Paths.Suffix | speech_recognition.py:530 | `suffix` is "" exactly when the name has no dot, or its last dot is its first or last character; otherwise it is the name's tail from the last dot: at least two characters, shorter than the name, with no further dot |
| Paths.IsSupportedFormat | speech_recognition.py:530 | definition of the gate: the lower-cased suffix of the final component is a listed format; `Transcriber.SupportedFormatByExtension` states it for `<dir>/<stem>.<ext>` |
| TermTable.Put | speech_recognition.py:452-453 | item assignment: the key maps to the new value, every other key keeps its value, a present key keeps its place, a new key is appended, and keys stay distinct |
| TermTable.PutAll | speech_recognition.py:441 | definition of `update`: assign every entry in order; `TermTable.PutAllGet`, `TermTable.PutAllConcat` and `TermTable.PutAllIsTable` state its properties |
| TermTable.GetSomeIff | speech_recognition.py:441 | a key has a value exactly when it is one of the table's patterns |
| TermTable.Get | speech_recognition.py:453 | definition of dict lookup: the correction of the entry holding the key, `None` when no entry does; `TermTable.GetSomeIff` and `TermTable.PutAllGet` state its properties |
| TermTable.PutAllGet | speech_recognition.py:441 | after `update`, each key maps to its last write in the update, or keeps its old value if it was not written |
| TermTable.PutAllConcat | speech_recognition.py:432-466 | two updates in a row are one update with both write sequences |
| TermTable.PutAllIsTable | speech_recognition.py:441 | updates keep the keys distinct |
| TermTable.LastWriteOfTable | speech_recognition.py:441 | in a dict, a key's last write is its value |
| TermDictionaries.FanOut | speech_recognition.py:451-453 | a `patterns` rule writes one entry per listed pattern, in order, all with the rule's `correct` |
| TermDictionaries.RuleEffect | speech_recognition.py:449-461 | reference definition of one rule: `patterns` before `wrong`, an empty list skipped, a missing `correct` raising before any write, anything else skipped; the loader methods are proved equal to it |
| TermDictionaries.RulesEffect | speech_recognition.py:448-461 | reference definition of the rules loop: the rules in order, stopping at the first that raises |
| TermDictionaries.ContextEffect | speech_recognition.py:446-461 | definition of one context: nothing when it has no `replacements`, otherwise its replacement rules in order, stopping at the first one that raises |
| TermDictionaries.ContextsEffect | speech_recognition.py:445-461 | reference definition of the contexts loop: contexts in order, one without `replacements` doing nothing, stopping at the first raise |
| TermDictionaries.DocumentEffect | speech_recognition.py:433-466 | reference definition of one file: an unreadable file raises with no writes, flat `replacements` wins over `contexts` |
| TermDictionaries.AllWrites | speech_recognition.py:432-466 | reference definition: every assignment of every file in listing order, including those before a raise |
| TermDictionaries.Load | speech_recognition.py:415-471 | reference definition of the returned table: empty without the directory or its files, otherwise all writes assigned in order into an empty dict |
| TermDictionaries.LoadTermReplacements | speech_recognition.py:415-471 | the loader returns exactly `Load(dirExists, files)`: empty for a missing directory or no files, otherwise every file's writes applied in order; the result has distinct keys |
| TermDictionaries.LoadDocument | speech_recognition.py:432-466 | one file: the table updated with that file's writes, including a file that raised part-way |
| TermDictionaries.LoadContexts | speech_recognition.py:443-461 | the contexts loop performs the contexts' writes in order up to the first raise, and reports the raise |
| TermDictionaries.LoadRules | speech_recognition.py:446-461 | the rules loop performs the rules' writes in order up to the first raise, and reports the raise |
| TermDictionaries.LoadRule | speech_recognition.py:449-461 | one rule: `patterns` first, then `wrong`; a missing `correct` raises before anything is written |
| TermDictionaries.AllWritesSnoc | speech_recognition.py:432 | the writes of files plus one more file are the earlier writes followed by that file's writes |
| TermDictionaries.AllWritesConcat | speech_recognition.py:432 | the writes of two runs of files concatenate |
| TermDictionaries.FlatDocumentMergedWholesale | speech_recognition.py:439-443 | a document with `replacements` writes exactly that dict, whatever its `contexts`; afterwards each of its keys maps to its value and every other key is unchanged |
| TermDictionaries.LastWriteFanOut | speech_recognition.py:451-453 | after a fan-out, a listed pattern's last write is `correct`, and an unlisted one has none |
| TermDictionaries.PatternsRule | speech_recognition.py:449-458 | a rule with `patterns` ignores `wrong`; an empty list does nothing; a non-empty list with `correct` maps every listed pattern to it and leaves the rest; without `correct` it raises |
| TermDictionaries.SkippedRulesChangeNothing | speech_recognition.py:446-461 | string rules, other values and dicts with neither `patterns` nor `wrong` write nothing and raise nothing |
| TermDictionaries.SkippedContextsChangeNothing | speech_recognition.py:445-446 | contexts without `replacements`, or with only skipped rules, write nothing |
| TermDictionaries.RaisingRuleKeepsEarlierWrites | speech_recognition.py:448-466 | when a rule raises, the writes of the rules before it in the same document are kept and nothing after it runs |
| TermDictionaries.FileFailureIsIsolated | speech_recognition.py:421-428 | a missing directory or no files gives the empty table; a file that raises leaves the writes of the files before and after it, and its own partial writes, in the table |
| TermDictionaries.LastFileWins | speech_recognition.py:432-466 | each key of the final table holds its last write across all files |
| Postprocessing.ContainsAnyOf | speech_recognition.py:484 | the character-class search finds a match exactly when some character is in the class |
| Postprocessing.HasRegexChars | speech_recognition.py:484 | definition of the three-part test; `Postprocessing.RegexCharsExactly` states it position by position |
| Postprocessing.RegexCharsExactly | speech_recognition.py:484 | a pattern is regex-bearing exactly when it has a backspace, a backslash followed by `b`, or one of `[ ] ( ) + ? * ^ $` |
| Postprocessing.PlainPatternIsLiteral | speech_recognition.py:484-495 | a pattern without backslash, backspace and those nine characters is matched literally as a whole word; `.`, `|` and braces do not make a pattern a regex |
| Postprocessing.Escape | speech_recognition.py:492-495 | definition of `re.escape` (Python 3.7 and later); `Postprocessing.UnescapeEscape` proves it loses nothing |
| Postprocessing.WordPattern | speech_recognition.py:492-495 | definition of the whole-word pattern `\b` + escaped pattern + `\b` |
| Postprocessing.ApplyRule | speech_recognition.py:484-495 | definition of one entry: the regular-expression path with its literal fallback, or the literal path |
| Postprocessing.ApplyRules | speech_recognition.py:481-497 | definition of the loop: entries in table order, each on the previous output; `Postprocessing.RulesApplyInSequence` states its composition |
| Postprocessing.UnescapeEscape | speech_recognition.py:492-495 | the escaped pattern denotes exactly the original text |
| Postprocessing.Postprocess | speech_recognition.py:473-497 | an empty table returns the text unchanged; the early return agrees with applying the rules |
| Postprocessing.RulesApplyInSequence | speech_recognition.py:481-497 | rules apply one after another, each to the previous output: two tables in a row are their concatenation |
| Postprocessing.LiteralFallbackNeverRaises | speech_recognition.py:486-492 | an invalid regular expression never makes post-processing fail when the literal forms substitute without error |
| ModelNames.SizeAt | speech_recognition.py:110-111 | definition of the size alternation at a position: the first listed size spelled out there, ignoring case; `ModelNames.SizeAtIsFirst` states it |
| ModelNames.VersionedCodeAt | speech_recognition.py:212-213 | definition of `([a-z]{2}(?:-[a-z]{2})?)-[\d.]+` at a position, trying the region form first |
| ModelNames.CodeAt | speech_recognition.py:214-215 | definition of `([a-z]{2})` at a position |
| ModelNames.MatchAt | speech_recognition.py:109-117 | definition of a pattern matching at one position: the literal prefix ignoring case, then its group, lower-cased; `ModelNames.MatchIsListedSize` and `ModelNames.MatchIsLanguageCode` state what it captures |
| ModelNames.LitAt | speech_recognition.py:110-111 | definition of a literal pattern prefix occurring at a position, ignoring case; `ModelNames.LitAtFoldsAlike` states that case does not matter |
| ModelNames.LetterAt | speech_recognition.py:212-215 | definition of `[a-z]` under IGNORECASE at a position: a letter whose lower case is ASCII |
| ModelNames.CharAt | speech_recognition.py:212-215 | definition of a single literal character at a position, ignoring case: the `-` inside `xx-yy` and the `-` before the version |
| ModelNames.DigitOrDotAt | speech_recognition.py:212-213 | definition of `[\d.]` at a position: an ASCII digit or a dot |
| ModelNames.SizeAtIsFirst | speech_recognition.py:110-111 | the size alternation returns a listed size spelled out at the position, and fails exactly when none of the listed sizes is |
| ModelNames.SearchFrom | speech_recognition.py:115-117 | `re.search` finds a match exactly when the pattern matches at some position, and returns the leftmost one |
| ModelNames.Search | speech_recognition.py:115 | definition of `re.search`: the search from position 0 |
| ModelNames.FirstMatch | speech_recognition.py:114-119 | definition of the pattern loop: the first pattern with a search result gives it; `ModelNames.FirstMatchIsFirst` states it |
| ModelNames.FirstMatchIsFirst | speech_recognition.py:114-119 | the patterns are tried in order: the result of the first pattern that matches anywhere, `None` when none does |
| ModelNames.WhisperModelSize | speech_recognition.py:98-119 | definition of `extract_whisper_model_size` on a final component: the two Whisper patterns in order |
| ModelNames.ModelLanguage | speech_recognition.py:209-224 | definition of the language-pattern loop on a final component: the four Vosk patterns in order |
| ModelNames.MatchIsListedSize | speech_recognition.py:110-111 | a match of a size pattern captures one of that pattern's listed sizes |
| ModelNames.SearchIsListedSize | speech_recognition.py:114-117 | so does any search result of a size pattern |
| ModelNames.FirstMatchIsListedSize | speech_recognition.py:114-119 | the first-matching-pattern result of size patterns is one of their listed sizes |
| ModelNames.WhisperModelSizeIsKnown | speech_recognition.py:109-119 | a detected Whisper size is one of tiny, base, small, medium, large, in lower case |
| ModelNames.MatchIsLanguageCode | speech_recognition.py:212-217 | a match of any language pattern captures `xx` or `xx-yy` in lower-case ASCII |
| ModelNames.SearchIsLanguageCode | speech_recognition.py:219-222 | so does any search result of a language pattern |
| ModelNames.FirstMatchIsLanguageCode | speech_recognition.py:219-224 | so does the first-matching-pattern result |
| ModelNames.ModelLanguageIsCode | speech_recognition.py:212-224 | a detected language is `xx` or `xx-yy` in lower-case ASCII |
| ModelNames.LitAtFoldsAlike | speech_recognition.py:115 | a literal prefix matches two names that differ only in letter case alike |
| ModelNames.SizeAfterIgnoresCase | speech_recognition.py:110-111 | a Whisper pattern matches two names that differ only in letter case alike at every position |
| ModelNames.CodeWithVersionIgnoresCase | speech_recognition.py:212-213 | a versioned Vosk pattern matches two names that differ only in letter case alike at every position |
| ModelNames.CodeIgnoresCase | speech_recognition.py:214-215 | a bare-code Vosk pattern matches two names that differ only in letter case alike at every position |
| ModelNames.MatchAtIgnoresCase | speech_recognition.py:116 | matching at a position ignores case: two names that differ only in letter case match alike |
| ModelNames.SizeAtIgnoresCase | speech_recognition.py:116 | the size alternation picks the same size in two names that differ only in letter case |
| ModelNames.SearchFromIgnoresCase | speech_recognition.py:220 | `re.search` with IGNORECASE gives the same answer for two names that differ only in letter case |
| ModelNames.FirstMatchFoldsAlike | speech_recognition.py:219-224 | the pattern loop gives the same answer for two names that differ only in letter case |
| ModelNames.FirstMatchIgnoresCase | speech_recognition.py:115-119 | both parsers give the same answer for a name in any mix of cases |
| ModelNames.SizeAtSpelledOut | speech_recognition.py:110-111 | the five sizes start with different letters, so a spelled-out size is the one picked |
| ModelNames.FasterWhisperNameGivesSize | speech_recognition.py:98-105 | `faster-whisper-<size>` gives `<size>` for all five sizes, as documented |
| ModelNames.WhisperLargeIsLarge | speech_recognition.py:109-112 | `whisper-large-v3` misses the first pattern and the second gives `large` |
| ModelNames.SmallRussianModelIsRu | speech_recognition.py:197 | `vosk-model-small-ru-0.22` gives `ru` |
| ModelNames.NoSmallPrefix | speech_recognition.py:212 | a name whose twelfth character is not `s` and which has no `v` after its first character is not matched by the first Vosk pattern |
| ModelNames.RussianModelIsRu | speech_recognition.py:198 | `vosk-model-ru-0.42` gives `ru`; the first pattern finds nothing |
| ModelNames.EnglishUsModelIsEnUs | speech_recognition.py:199 | `vosk-model-en-us-0.22` gives `en-us` |
| ModelNames.SmallEnglishUsModelIsEnUs | speech_recognition.py:200 | `vosk-model-small-en-us-0.22` gives `en-us` |
| Transcriber.EngineName | speech_recognition.py:43 | definition of `config.get('engine', 'vosk').lower()` |
| Transcriber.ModelPath | speech_recognition.py:205-207 | `vosk_model_path` when it is non-empty; otherwise `model_path` when that is non-empty; `None` exactly when both are empty or absent; never "" |
| Transcriber.ModelDirectory | speech_recognition.py:72-135 | definition of the model directory the engine requires: `vosk_model_path or model_path` for Vosk, a non-empty `whisper_model_path` for Whisper, `None` where the source raises ValueError |
| Transcriber.DetectedLanguage | speech_recognition.py:202-224 | definition of `extract_language_from_model_path`; `Transcriber.DetectedLanguageCases` states its cases |
| Transcriber.ConfiguredLanguage | speech_recognition.py:233 | definition of `config.get('language', '').strip().lower()` |
| Transcriber.PrefixRelated | speech_recognition.py:247 | definition of the partial-match test: either code is a prefix of the other; `Transcriber.ReconciliationTable` states its use |
| Transcriber.Reconciled | speech_recognition.py:232-268 | definition of the configuration `validate_language_config` leaves; `Transcriber.ReconciliationTable` states it row by row |
| Transcriber.WhisperLanguage | speech_recognition.py:384-387 | the language Whisper is given: unset stays unset, otherwise a prefix without `-` that ends at the first `-` or at the end |
| Transcriber.WhisperLanguageOfCode | speech_recognition.py:387 | `en-us` gives `en` and `ru` stays `ru`: a code's first two letters |
| Transcriber.WhisperLanguageIdempotent | speech_recognition.py:387 | truncating twice is truncating once |
| Transcriber.ComputeType | speech_recognition.py:124-125 | `int8` exactly when the device (default `cpu`) is `cpu`, otherwise `float16` |
| Transcriber.NonEmptyTexts | speech_recognition.py:514 | the kept texts are non-empty and are exactly the non-empty `text` values of the results |
| Transcriber.NonEmptyTextsAppend | speech_recognition.py:514 | the filter keeps order and repeats: the texts of `a + b` are those of `a` followed by those of `b` |
| Transcriber.NonEmptyTextsOne | speech_recognition.py:514 | one result gives its text when it is non-empty, and nothing otherwise |
| Transcriber.FullText | speech_recognition.py:514 | definition of `" ".join(...)` over the kept texts; `Transcriber.FullTextEmptyIff` and `Transcriber.FullTextSplitsBack` state its properties |
| Transcriber.FullTextEmptyIff | speech_recognition.py:514 | the joined text is empty exactly when no result has a non-empty text |
| Transcriber.JoinOfNonEmpty | speech_recognition.py:514 | joining non-empty texts gives "" only for no texts |
| Transcriber.FullTextSplitsBack | speech_recognition.py:514 | when no text contains a space, splitting the joined text on spaces gives back the texts in order |
| Transcriber.TranscriptionBody | speech_recognition.py:511-517 | definition of the transcription section: the no-text marker, or the post-processed join and a blank line, `None` when post-processing raised |
| Transcriber.EmptyTableKeepsText | speech_recognition.py:475-476 | with an empty table the section is the joined text unchanged, followed by a blank line |
| Transcriber.SortKey | speech_recognition.py:605 | definition of the sort key: the final path component, lower-cased |
| Transcriber.InsertBy | speech_recognition.py:605 | one insertion step of the sort keeps every file and adds the new one |
| Transcriber.InsertKeepsSorted | speech_recognition.py:605 | insertion keeps the list ordered by key |
| Transcriber.InsertKeepsDistinct | speech_recognition.py:602 | insertion of a new file keeps the list free of repeats |
| Transcriber.NormalizeAudioFiles | speech_recognition.py:602-605 | the input list holds each found file exactly once, and no other file, ordered by lower-cased name |
| Transcriber.NameOfFile | speech_recognition.py:530 | the final component of `<dir>/<stem>.<ext>` is `<stem>.<ext>` |
| Transcriber.SuffixOfFile | speech_recognition.py:530 | the suffix of `<stem>.<ext>` is `.<ext>` when the extension has no dot |
| Transcriber.SupportedFormatByExtension | speech_recognition.py:530 | `<dir>/<stem>.<ext>`, with any dots in the stem, passes the gate exactly when `.<ext>` in lower case is a listed format: the last extension decides |
| Transcriber.ParsersSeeFinalComponent | speech_recognition.py:106-119 | both name parsers give the same answer for a model directory wherever it lies |
| Transcriber.DocumentedModelLanguage | speech_recognition.py:197 | a `vosk-model-small-ru-0.22` directory anywhere gives `ru` |
| Transcriber.DocumentedWhisperSizes | speech_recognition.py:98-105 | `<dir>/faster-whisper-<size>` gives `<size>` for every directory and size |
| Transcriber.DetectedLanguageCases | speech_recognition.py:202-224 | no language unless the engine is `vosk` and a model path is set; a found language is `xx` or `xx-yy` |
| Transcriber.ReconciliationTable | speech_recognition.py:232-268 | the decision table: detected and empty config gives detected; detected and no prefix relation gives detected; a prefix either way is left as configured; nothing detected and empty gives `unknown`; nothing detected and set is unchanged |
| Transcriber.ReconciledTouchesOnlyLanguage | speech_recognition.py:226-268 | only `language` changes, and it is set afterwards |
| Transcriber.ReconciledAgreesWithModel | speech_recognition.py:235-259 | after reconciliation with a detected model language, the configured language is not blank and is the model's language or prefix-related to it |
| Transcriber.ReconciledWithoutModelIsSet | speech_recognition.py:260-268 | without a detected language, the configured language ends up non-blank |
| Transcriber.ReconcileIdempotent | speech_recognition.py:226-268 | validating a second time changes nothing |
| Transcriber.AudioTranscriber.Init | speech_recognition.py:40-57 | the object holds the engine, the configuration and the loaded table |
| Transcriber.AudioTranscriber.Create | speech_recognition.py:40-62 | no object exactly when the lower-cased engine is unsupported, its model directory is not configured or the model does not load; otherwise the table is the loaded one, and with Vosk the configuration is reconciled |
| Transcriber.AudioTranscriber.ExtractWhisperModelSize | speech_recognition.py:98-119 | the pattern loop returns the first pattern's match on the final component |
| Transcriber.AudioTranscriber.ExtractLanguageFromModelPath | speech_recognition.py:192-224 | the method returns the detected language of the engine and configuration |
| Transcriber.AudioTranscriber.ValidateLanguageConfig | speech_recognition.py:226-268 | the new configuration is the reconciliation of the detected language with the old one |
| Transcriber.AudioTranscriber.ReconcileLanguage | speech_recognition.py:233-268 | the decision part of the validation sets the configuration to the reconciled one |
| Transcriber.AudioTranscriber.PostprocessText | speech_recognition.py:473-497 | the loop returns exactly the post-processing of the text with the object's table |
| Transcriber.AudioTranscriber.FormatTranscription | speech_recognition.py:511-516 | no results give the "not recognised" marker; otherwise the post-processed joined text followed by a blank line |
| DictLoadingTest.LoadTermReplacements | test_dict_loading.py:11-67 | the test copy builds the same table as the main loader for every directory state and file sequence |
| DictLoadingTest.LoadDocument | test_dict_loading.py:31-62 | one file of the test copy has the same effect as in the main loader |
| DictLoadingTest.LoadContexts | test_dict_loading.py:42-57 | the test copy's contexts loop performs the same writes and raises alike |
| DictLoadingTest.LoadRules | test_dict_loading.py:46-57 | the test copy's rules loop performs the same writes and raises alike |
| DictLoadingTest.LoadRule | test_dict_loading.py:48-57 | the test copy's two-branch dispatch has the same effect as the main program's three-branch one |
| DictLoadingTest.StringRuleIsNoOp | speech_recognition.py:459-461 | the branch only the main copy has writes nothing and raises nothing |
| DictLoadingTest.PostprocessText | test_dict_loading.py:69-90 | the test copy post-processes every text exactly as the main program does |

## Left out

- Speech engines are not modelled: Vosk model loading, the frame loop and `KaldiRecognizer`, and Whisper model loading and transcription. They are foreign libraries. The recognised results enter the model as a sequence of optional texts.
- Conversion with ffmpeg is not modelled, because it is an external process.
- File and JSON input/output are not modelled: reading the configuration, listing `dicts`, `open` and `json.load`, `glob`, `mkdir`, moving and deleting files, and writing the Markdown file. Dictionary files enter as already-parsed documents, in the order the directory listing gave. A file that could not be opened or parsed is one `Unreadable` document. The files the globs found enter as a given sequence.
- JSON shapes other than those the loader tests for are not modelled: non-string keys or values, a `patterns` value that is not a list, a `replacements` value that is not a dict. A missing `correct` is modelled, because it is how a well-formed file raises part-way.
- The `loaded_count` counters, all console output and the timestamp are not modelled; they only feed printed messages.
- Transcriber.AudioTranscriber.FormatTranscription: only the transcription section of the Markdown is modelled, not the header with file name, timestamp, engine and language.
- Postprocessing.ApplyRule: `re.sub` is an abstract parameter. The model does not capture Unicode `\b`, case-insensitive matching over Cyrillic text, replacement-template escapes, or which patterns fail to compile.
- Text.Lower: lower-casing covers ASCII and the basic Cyrillic capitals (U+0400 to U+042F) only, not the rest of Unicode.
- ModelNames.MatchAt: the literal prefixes (`faster-whisper-`, `vosk-model-`, `vosk-model-small-`, `whisper-`), the size words, `[a-z]` and `\d` are matched with the ASCII and basic-Cyrillic case folding of `Text.Lower` only. Python's Unicode IGNORECASE also lets four non-ASCII letters match ASCII ones: `ſ` (U+017F) matches `s`; `ı` (U+0131) and `İ` (U+0130) match `i`; the Kelvin sign `K` (U+212A) matches `k`. Also, `\d` matches every Unicode decimal digit. A name that spells a prefix, a size or a code with one of these characters is detected by the source and not by the model. For example, `vosK-model-ru-0.42` with the Kelvin sign gives `ru` in the source and `None` in the model.
- ModelNames.LitAt: compares the lower-cased slice with the literal, so it misses the four IGNORECASE folds named under `ModelNames.MatchAt`.
- ModelNames.LetterAt: `[a-z]` accepts only characters whose `Text.Lower` is an ASCII letter. It does not accept `ſ`, `ı`, `İ` or the Kelvin sign, which the source accepts. The source then keeps them in the lower-cased group: `ſ` and `ı` stay as they are, and `İ` becomes `i` followed by U+0307.
- ModelNames.CharAt: misses the same four folds.
- ModelNames.DigitOrDotAt: takes `\d` as `0` to `9` only.
- ModelNames.SizeAt: a size word spelled with `ſ`, `ı`, `İ` or the Kelvin sign is not found. The source finds it and returns the group lower-cased, for example `ſmall` for `faster-whisper-ſmall`.
- ModelNames.WhisperModelSizeIsKnown: holds of the model only. Because of the folds above, the source can return a size outside the five listed words, such as `ſmall`, which is not a valid Whisper size.
- ModelNames.MatchIsLanguageCode: holds of the model only. The source can return a code that holds `ſ`, `ı` or U+0307.
- ModelNames.ModelLanguageIsCode: holds of the model only, for the same reason.
- Paths.Name: paths are POSIX paths with `/` separators; Windows separators and drive letters are not modelled.
- Transcriber.Config: holds only the six entries the modelled code reads, each as an optional string. Other entries, such as directories and `supported_formats`, are passed where they are used.
- Transcriber.AudioTranscriber.Create: whether the engine library imports, whether the model directory exists and holds `model.bin` and `config.json`, and whether the engine opens it are one boolean parameter, `modelLoads`. The ImportError, the FileNotFoundErrors and the engine's own exception all become "no object", not distinct errors. The missing-directory ValueError is modelled through `ModelDirectory`.
- Transcriber.NormalizeAudioFiles: a Python set has no defined iteration order, and the stable sort keeps that order among files with equal lower-cased names. The model keeps first occurrences and places a file before equal keys. Its contract states only membership, no repeats and order by key, which every run of the source also satisfies.
- Transcriber.AudioTranscriber.ValidateLanguageConfig: the loader and the validation are split into small methods, one loop or one decision each, where the source has one function.
- The Whisper model-size fallback `whisper_model or detected_size or 'unknown'` is not modelled; it is informational and only printed.
- After a Whisper transcription, `config['language']` is set from the detected language. That step is part of the engine path and is not modelled.
- The download script is not modelled. It holds unresolved merge-conflict markers and does network downloads.
- The `test_replacements` driver is not modelled, because it only prints.
