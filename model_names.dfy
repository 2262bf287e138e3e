/**
 * Reading facts out of a model directory's name: the Whisper model size
 * (`faster-whisper-base` gives `base`) and the Vosk model language
 * (`vosk-model-small-ru-0.22` gives `ru`, `vosk-model-en-us-0.22` gives
 * `en-us`). Each fact is found by a short list of case-insensitive patterns,
 * tried in order with `re.search`; the first pattern that matches anywhere in
 * the name decides, and the captured group is returned lower-cased.
 *
 * The patterns are written out as their own matchers instead of being given
 * to a regular-expression engine, with the engine's backtracking order kept:
 * the size alternatives in their listed order, and the optional `-xx` region
 * part of a language code tried before it is left out.
 */
module ModelNames {
  import opened Wrappers
  import opened Text

  /** The model sizes, in the order the alternation lists them. */
  const Sizes: seq<string> := ["tiny", "base", "small", "medium", "large"]

  /** The pattern shapes the two parsers use; each keeps its literal prefix. */
  datatype NamePattern =
    | SizeAfter(prefix: string, sizes: seq<string>)  // prefix + `(tiny|base|...)`
    | CodeWithVersion(prefix: string)                 // prefix + `([a-z]{2}(?:-[a-z]{2})?)-[\d.]+`
    | Code(prefix: string)                            // prefix + `([a-z]{2})`

  const WhisperPatterns: seq<NamePattern> := [SizeAfter("faster-whisper-", Sizes), SizeAfter("whisper-", Sizes)]

  const LanguagePatterns: seq<NamePattern> := [
    CodeWithVersion("vosk-model-small-"),
    CodeWithVersion("vosk-model-"),
    Code("vosk-model-small-"),
    Code("vosk-model-")
  ]

  /** The lower-case literal `lit` occurs at `i`, ignoring case. */
  predicate LitAt(s: string, lit: string, i: int) {
    0 <= i && i + |lit| <= |s| && LowerStr(s[i..i + |lit|]) == lit
  }

  /** `[a-z]` under IGNORECASE matches at `i`. */
  predicate LetterAt(s: string, i: int) {
    0 <= i < |s| && 'a' <= Lower(s[i]) <= 'z'
  }

  /** The character at `i` is `c`, ignoring case. */
  predicate CharAt(s: string, i: int, c: char) {
    0 <= i < |s| && Lower(s[i]) == c
  }

  /** `[\d.]` matches at `i`. */
  predicate DigitOrDotAt(s: string, i: int) {
    0 <= i < |s| && ('0' <= Lower(s[i]) <= '9' || Lower(s[i]) == '.')
  }

  /** The first size of `sizes` that occurs at `j`; it is the lower-cased group. */
  function SizeAt(s: string, j: int, sizes: seq<string>): Option<string>
    decreases |sizes|
  {
    if sizes == [] then None
    else if LitAt(s, sizes[0], j) then Some(sizes[0])
    else SizeAt(s, j, sizes[1..])
  }

  /**
   * The alternation returns a listed size spelled out at `j`, and fails only
   * when none of them is.
   */
  lemma {:induction false} SizeAtIsFirst(s: string, j: int, sizes: seq<string>)
    ensures SizeAt(s, j, sizes).Some? ==>
              SizeAt(s, j, sizes).value in sizes && LitAt(s, SizeAt(s, j, sizes).value, j)
    ensures SizeAt(s, j, sizes).None? <==> forall k :: 0 <= k < |sizes| ==> !LitAt(s, sizes[k], j)
    decreases |sizes|
  {
    if sizes != [] && !LitAt(s, sizes[0], j) {
      var tail := sizes[1..];
      SizeAtIsFirst(s, j, tail);
      assert SizeAt(s, j, sizes) == SizeAt(s, j, tail);
      if SizeAt(s, j, tail).None? {
        forall k | 0 <= k < |sizes| ensures !LitAt(s, sizes[k], j) {
          if k > 0 {
            assert sizes[k] == tail[k - 1];
          }
        }
      } else {
        assert !LitAt(s, tail[0], j) ==> !LitAt(s, sizes[1], j);
      }
    }
  }

  /**
   * `([a-z]{2}(?:-[a-z]{2})?)-[\d.]+` at `j`: the region form `xx-yy` is tried
   * first, and the bare `xx` only when the region form fails.
   */
  function VersionedCodeAt(s: string, j: int): Option<string> {
    if !(LetterAt(s, j) && LetterAt(s, j + 1)) then None
    else if CharAt(s, j + 2, '-') && LetterAt(s, j + 3) && LetterAt(s, j + 4)
         && CharAt(s, j + 5, '-') && DigitOrDotAt(s, j + 6) then
      Some(LowerStr(s[j..j + 5]))
    else if CharAt(s, j + 2, '-') && DigitOrDotAt(s, j + 3) then
      Some(LowerStr(s[j..j + 2]))
    else None
  }

  /** `([a-z]{2})` at `j`. */
  function CodeAt(s: string, j: int): Option<string> {
    if LetterAt(s, j) && LetterAt(s, j + 1) then Some(LowerStr(s[j..j + 2])) else None
  }

  /** The lower-cased group when pattern `p` matches starting exactly at `i`. */
  function MatchAt(p: NamePattern, s: string, i: nat): Option<string> {
    var j := i + |p.prefix|;
    if !LitAt(s, p.prefix, i) then None
    else match p
      case SizeAfter(_, sizes) => SizeAt(s, j, sizes)
      case CodeWithVersion(_) => VersionedCodeAt(s, j)
      case Code(_) => CodeAt(s, j)
  }

  /**
   * `re.search` from position `i` on: the match that starts leftmost. It
   * exists exactly when the pattern matches at some position, and no
   * earlier position matches.
   */
  function SearchFrom(p: NamePattern, s: string, i: nat): (r: Option<string>)
    requires i <= |s| + 1
    ensures r.Some? <==> exists j :: i <= j <= |s| && MatchAt(p, s, j).Some?
    ensures r.Some? ==> exists j :: i <= j <= |s| && r == MatchAt(p, s, j)
                          && forall k :: i <= k < j ==> MatchAt(p, s, k).None?
    decreases |s| + 1 - i
  {
    if i > |s| then None
    else if MatchAt(p, s, i).Some? then MatchAt(p, s, i)
    else SearchFrom(p, s, i + 1)
  }

  function Search(p: NamePattern, s: string): Option<string> {
    SearchFrom(p, s, 0)
  }

  /** The patterns tried in order: the result of the first one that matches anywhere. */
  function FirstMatch(ps: seq<NamePattern>, s: string): Option<string>
    decreases |ps|
  {
    if ps == [] then None
    else if Search(ps[0], s).Some? then Search(ps[0], s)
    else FirstMatch(ps[1..], s)
  }

  /**
   * `FirstMatch` finds something exactly when some pattern matches anywhere,
   * and then it is the result of the first such pattern.
   */
  lemma {:induction false} FirstMatchIsFirst(ps: seq<NamePattern>, s: string)
    ensures FirstMatch(ps, s).Some? <==> exists k :: 0 <= k < |ps| && Search(ps[k], s).Some?
    ensures FirstMatch(ps, s).Some? ==>
              exists k :: 0 <= k < |ps| && FirstMatch(ps, s) == Search(ps[k], s)
                          && forall m :: 0 <= m < k ==> Search(ps[m], s).None?
    decreases |ps|
  {
    if ps != [] && Search(ps[0], s).None? {
      var tail := ps[1..];
      FirstMatchIsFirst(tail, s);
      assert FirstMatch(ps, s) == FirstMatch(tail, s);
      if FirstMatch(tail, s).Some? {
        var k :| 0 <= k < |tail| && FirstMatch(tail, s) == Search(tail[k], s)
                 && forall m :: 0 <= m < k ==> Search(tail[m], s).None?;
        assert ps[k + 1] == tail[k];
        forall m | 0 <= m < k + 1 ensures Search(ps[m], s).None? {
          if m > 0 {
            assert ps[m] == tail[m - 1];
          }
        }
        assert FirstMatch(ps, s) == Search(ps[k + 1], s);
      } else {
        forall k | 0 <= k < |ps| ensures Search(ps[k], s).None? {
          if k > 0 {
            assert ps[k] == tail[k - 1];
          }
        }
      }
    }
  }

  /** `extract_whisper_model_size` on a final path component. */
  function WhisperModelSize(name: string): Option<string> {
    FirstMatch(WhisperPatterns, name)
  }

  /** The pattern loop of `extract_language_from_model_path` on a final path component. */
  function ModelLanguage(name: string): Option<string> {
    FirstMatch(LanguagePatterns, name)
  }

  /** What a language code can look like: `xx` or `xx-yy`, lower-case ASCII letters. */
  predicate IsLanguageCode(c: string) {
    (|c| == 2 || (|c| == 5 && c[2] == '-'))
    && 'a' <= c[0] <= 'z' && 'a' <= c[1] <= 'z'
    && (|c| == 5 ==> 'a' <= c[3] <= 'z' && 'a' <= c[4] <= 'z')
  }

  /** Any match of a size pattern captures one of its listed sizes. */
  lemma MatchIsListedSize(p: NamePattern, s: string, i: nat)
    requires p.SizeAfter?
    requires MatchAt(p, s, i).Some?
    ensures MatchAt(p, s, i).value in p.sizes
  {
    SizeAtIsFirst(s, i + |p.prefix|, p.sizes);
  }

  lemma SearchIsListedSize(p: NamePattern, s: string)
    requires p.SizeAfter?
    ensures Search(p, s).Some? ==> Search(p, s).value in p.sizes
  {
    if Search(p, s).Some? {
      var j :| 0 <= j <= |s| && Search(p, s) == MatchAt(p, s, j);
      MatchIsListedSize(p, s, j);
    }
  }

  lemma FirstMatchIsListedSize(ps: seq<NamePattern>, s: string, sizes: seq<string>)
    requires forall k :: 0 <= k < |ps| ==> ps[k].SizeAfter? && ps[k].sizes == sizes
    ensures FirstMatch(ps, s).Some? ==> FirstMatch(ps, s).value in sizes
  {
    var r := FirstMatch(ps, s);
    FirstMatchIsFirst(ps, s);
    if r.Some? {
      var k :| 0 <= k < |ps| && r == Search(ps[k], s);
      SearchIsListedSize(ps[k], s);
    }
  }

  /** A detected size is always one of the five, in lower case. */
  lemma WhisperModelSizeIsKnown(name: string)
    ensures WhisperModelSize(name).Some? ==> WhisperModelSize(name).value in Sizes
  {
    FirstMatchIsListedSize(WhisperPatterns, name, Sizes);
  }

  /** Any match of a language pattern captures a well-formed lower-case code. */
  lemma {:induction false} MatchIsLanguageCode(p: NamePattern, s: string, i: nat)
    requires !p.SizeAfter?
    requires MatchAt(p, s, i).Some?
    ensures IsLanguageCode(MatchAt(p, s, i).value)
  {
    var j := i + |p.prefix|;
    var c := MatchAt(p, s, i).value;
    assert c[0] == Lower(s[j]) && c[1] == Lower(s[j + 1]);
    if |c| == 5 {
      assert c[2] == Lower(s[j + 2]) && c[3] == Lower(s[j + 3]) && c[4] == Lower(s[j + 4]);
    }
  }

  lemma SearchIsLanguageCode(p: NamePattern, s: string)
    requires !p.SizeAfter?
    ensures Search(p, s).Some? ==> IsLanguageCode(Search(p, s).value)
  {
    if Search(p, s).Some? {
      var j :| 0 <= j <= |s| && Search(p, s) == MatchAt(p, s, j);
      MatchIsLanguageCode(p, s, j);
    }
  }

  lemma FirstMatchIsLanguageCode(ps: seq<NamePattern>, s: string)
    requires forall k :: 0 <= k < |ps| ==> !ps[k].SizeAfter?
    ensures FirstMatch(ps, s).Some? ==> IsLanguageCode(FirstMatch(ps, s).value)
  {
    var r := FirstMatch(ps, s);
    FirstMatchIsFirst(ps, s);
    if r.Some? {
      var k :| 0 <= k < |ps| && r == Search(ps[k], s);
      SearchIsLanguageCode(ps[k], s);
    }
  }

  /** A detected language is always `xx` or `xx-yy` in lower case. */
  lemma ModelLanguageIsCode(name: string)
    ensures ModelLanguage(name).Some? ==> IsLanguageCode(ModelLanguage(name).value)
  {
    FirstMatchIsLanguageCode(LanguagePatterns, name);
  }

  /** `Lower` is idempotent on the characters it folds. */
  lemma LowerLower(c: char)
    ensures Lower(Lower(c)) == Lower(c)
  {
  }

  /** Two names that differ only in case: they lower-case to the same characters. */
  predicate FoldsAlike(s: string, t: string) {
    |s| == |t| && forall k :: 0 <= k < |s| ==> Lower(s[k]) == Lower(t[k])
  }

  lemma LowerStrFoldsAlike(s: string)
    ensures FoldsAlike(s, LowerStr(s))
  {
    var t := LowerStr(s);
    forall k | 0 <= k < |s| ensures Lower(s[k]) == Lower(t[k]) {
      LowerLower(s[k]);
    }
  }

  lemma SliceFoldsAlike(s: string, t: string, i: int, j: int)
    requires FoldsAlike(s, t) && 0 <= i <= j <= |s|
    ensures LowerStr(t[i..j]) == LowerStr(s[i..j])
  {
    forall k | 0 <= k < j - i ensures LowerStr(t[i..j])[k] == LowerStr(s[i..j])[k] {
      assert t[i..j][k] == t[i + k] && s[i..j][k] == s[i + k];
    }
  }

  lemma LitAtFoldsAlike(s: string, t: string, lit: string, m: int)
    requires FoldsAlike(s, t)
    ensures LitAt(t, lit, m) == LitAt(s, lit, m)
  {
    if 0 <= m && m + |lit| <= |s| {
      SliceFoldsAlike(s, t, m, m + |lit|);
    }
  }

  lemma {:induction false} SizeAtIgnoresCase(s: string, t: string, j: int, sizes: seq<string>)
    requires FoldsAlike(s, t)
    ensures SizeAt(t, j, sizes) == SizeAt(s, j, sizes)
    decreases |sizes|
  {
    if sizes != [] {
      LitAtFoldsAlike(s, t, sizes[0], j);
      SizeAtIgnoresCase(s, t, j, sizes[1..]);
    }
  }

  lemma VersionedCodeAtFoldsAlike(s: string, t: string, j: int)
    requires FoldsAlike(s, t)
    ensures VersionedCodeAt(t, j) == VersionedCodeAt(s, j)
  {
    if 0 <= j && j + 5 <= |s| {
      SliceFoldsAlike(s, t, j, j + 5);
    }
    if 0 <= j && j + 2 <= |s| {
      SliceFoldsAlike(s, t, j, j + 2);
    }
  }

  lemma CodeAtFoldsAlike(s: string, t: string, j: int)
    requires FoldsAlike(s, t)
    ensures CodeAt(t, j) == CodeAt(s, j)
  {
    if 0 <= j && j + 2 <= |s| {
      SliceFoldsAlike(s, t, j, j + 2);
    }
  }

  lemma SizeAfterAgrees(prefix: string, sizes: seq<string>, s: string, t: string, i: nat)
    requires LitAt(t, prefix, i) == LitAt(s, prefix, i)
    requires SizeAt(t, i + |prefix|, sizes) == SizeAt(s, i + |prefix|, sizes)
    ensures MatchAt(SizeAfter(prefix, sizes), t, i) == MatchAt(SizeAfter(prefix, sizes), s, i)
  {
  }

  lemma SizeAfterIgnoresCase(prefix: string, sizes: seq<string>, s: string, t: string, i: nat)
    requires FoldsAlike(s, t)
    ensures MatchAt(SizeAfter(prefix, sizes), t, i) == MatchAt(SizeAfter(prefix, sizes), s, i)
  {
    LitAtFoldsAlike(s, t, prefix, i);
    SizeAtIgnoresCase(s, t, i + |prefix|, sizes);
    SizeAfterAgrees(prefix, sizes, s, t, i);
  }

  lemma CodeWithVersionIgnoresCase(prefix: string, s: string, t: string, i: nat)
    requires FoldsAlike(s, t)
    ensures MatchAt(CodeWithVersion(prefix), t, i) == MatchAt(CodeWithVersion(prefix), s, i)
  {
    LitAtFoldsAlike(s, t, prefix, i);
    VersionedCodeAtFoldsAlike(s, t, i + |prefix|);
  }

  lemma CodeIgnoresCase(prefix: string, s: string, t: string, i: nat)
    requires FoldsAlike(s, t)
    ensures MatchAt(Code(prefix), t, i) == MatchAt(Code(prefix), s, i)
  {
    LitAtFoldsAlike(s, t, prefix, i);
    CodeAtFoldsAlike(s, t, i + |prefix|);
  }

  /** Matching at a position ignores case: two names that differ only in case match alike. */
  lemma MatchAtIgnoresCase(p: NamePattern, s: string, t: string, i: nat)
    requires FoldsAlike(s, t)
    ensures MatchAt(p, t, i) == MatchAt(p, s, i)
  {
    match p
    case SizeAfter(prefix, sizes) => SizeAfterIgnoresCase(prefix, sizes, s, t, i);
    case CodeWithVersion(prefix) => CodeWithVersionIgnoresCase(prefix, s, t, i);
    case Code(prefix) => CodeIgnoresCase(prefix, s, t, i);
  }

  lemma {:induction false} SearchFromIgnoresCase(p: NamePattern, s: string, t: string, i: nat)
    requires FoldsAlike(s, t) && i <= |s| + 1
    ensures SearchFrom(p, t, i) == SearchFrom(p, s, i)
    decreases |s| + 1 - i
  {
    if i <= |s| {
      MatchAtIgnoresCase(p, s, t, i);
      SearchFromIgnoresCase(p, s, t, i + 1);
    }
  }

  lemma {:induction false} FirstMatchFoldsAlike(ps: seq<NamePattern>, s: string, t: string)
    requires FoldsAlike(s, t)
    ensures FirstMatch(ps, t) == FirstMatch(ps, s)
    decreases |ps|
  {
    if ps != [] {
      SearchFromIgnoresCase(ps[0], s, t, 0);
      FirstMatchFoldsAlike(ps[1..], s, t);
    }
  }

  /** Both parsers give the same answer for a name in any mix of cases. */
  lemma FirstMatchIgnoresCase(ps: seq<NamePattern>, s: string)
    ensures FirstMatch(ps, LowerStr(s)) == FirstMatch(ps, s)
  {
    LowerStrFoldsAlike(s);
    FirstMatchFoldsAlike(ps, s, LowerStr(s));
  }

  /** A lower-case literal that appears verbatim at `i` matches there. */
  lemma LitAtVerbatim(s: string, lit: string, i: int)
    requires 0 <= i && i + |lit| <= |s| && s[i..i + |lit|] == lit
    requires forall k :: 0 <= k < |lit| ==> Lower(lit[k]) == lit[k]
    ensures LitAt(s, lit, i)
  {
  }

  /** One character that differs, ignoring case, rules a literal out at `i`. */
  lemma NotLitAt(s: string, lit: string, i: int, k: int)
    requires 0 <= k < |lit|
    requires 0 <= i + k < |s| ==> Lower(s[i + k]) != lit[k]
    ensures !LitAt(s, lit, i)
  {
    if 0 <= i && i + |lit| <= |s| {
      assert LowerStr(s[i..i + |lit|])[k] != lit[k];
    }
  }

  // The documented examples. Each is stated on the literal name; its helpers
  // take that name as a parameter fixed by their precondition and walk the
  // matchers step by step.

  /**
   * The five sizes start with five different letters, so a size spelled out
   * at `j` is the one the alternation picks there.
   */
  lemma SizeAtSpelledOut(s: string, j: nat, size: string)
    requires size in Sizes && j + |size| <= |s| && s[j..j + |size|] == size
    ensures SizeAt(s, j, Sizes) == Some(size)
  {
    var n :| 0 <= n < |Sizes| && Sizes[n] == size;
    forall k | 0 <= k < n ensures !LitAt(s, Sizes[k], j) {
      NotLitAt(s, Sizes[k], j, 0);
    }
    LitAtVerbatim(s, size, j);
    SizeAtSkips(s, j, Sizes, n);
  }

  lemma {:induction false} SizeAtSkips(s: string, j: nat, sizes: seq<string>, n: nat)
    requires n < |sizes| && LitAt(s, sizes[n], j)
    requires forall k :: 0 <= k < n ==> !LitAt(s, sizes[k], j)
    ensures SizeAt(s, j, sizes) == Some(sizes[n])
    decreases n
  {
    if n > 0 {
      SizeAtSkips(s, j, sizes[1..], n - 1);
    }
  }

  lemma FirstWhisperPatternDecides(name: string, size: string)
    requires MatchAt(WhisperPatterns[0], name, 0) == Some(size)
    ensures WhisperModelSize(name) == Some(size)
  {
    assert Search(WhisperPatterns[0], name) == Some(size);
  }

  lemma SecondWhisperPatternDecides(name: string, size: string)
    requires Search(WhisperPatterns[0], name).None?
    requires MatchAt(WhisperPatterns[1], name, 0) == Some(size)
    ensures WhisperModelSize(name) == Some(size)
  {
    var rest := WhisperPatterns[1..];
    assert rest[0] == WhisperPatterns[1];
    assert Search(rest[0], name) == Some(size);
    assert FirstMatch(rest, name) == Some(size);
  }

  /** `faster-whisper-<size>` gives `<size>`, for each of the five sizes. */
  lemma FasterWhisperNameGivesSize(name: string, size: string)
    requires size in Sizes && name == "faster-whisper-" + size
    ensures WhisperModelSize(name) == Some(size)
  {
    LitAtVerbatim(name, "faster-whisper-", 0);
    SizeAtSpelledOut(name, 15, size);
    FirstWhisperPatternDecides(name, size);
  }

  /** `whisper-large-v3` holds no `faster-whisper-` at any position. */
  lemma LargeNameMissesFirstPattern(name: string)
    requires name == "whisper-large-v3"
    ensures Search(WhisperPatterns[0], name).None?
  {
    var faster := "faster-whisper-";
    forall j | 0 <= j <= |name| ensures !LitAt(name, faster, j) {
      if j <= 1 { NotLitAt(name, faster, j, 0); }
    }
  }

  lemma LargeNameMatchesAtStart(name: string)
    requires name == "whisper-large-v3"
    ensures MatchAt(WhisperPatterns[1], name, 0) == Some("large")
  {
    LitAtVerbatim(name, "whisper-", 0);
    SizeAtSpelledOut(name, 8, "large");
  }

  /** A name without the `faster-` prefix falls through to the second pattern. */
  lemma WhisperLargeIsLarge()
    ensures WhisperModelSize("whisper-large-v3") == Some("large")
  {
    var name := "whisper-large-v3";
    LargeNameMissesFirstPattern(name);
    LargeNameMatchesAtStart(name);
    SecondWhisperPatternDecides(name, "large");
  }


  /** A language-pattern match at the very start decides when it is the first pattern's. */
  lemma FirstLanguagePatternDecides(name: string, code: string)
    requires MatchAt(LanguagePatterns[0], name, 0) == Some(code)
    ensures ModelLanguage(name) == Some(code)
  {
    assert Search(LanguagePatterns[0], name) == Some(code);
  }

  /** When the first pattern finds nothing, a start match of the second decides. */
  lemma SecondLanguagePatternDecides(name: string, code: string)
    requires Search(LanguagePatterns[0], name).None?
    requires MatchAt(LanguagePatterns[1], name, 0) == Some(code)
    ensures ModelLanguage(name) == Some(code)
  {
    assert Search(LanguagePatterns[1], name) == Some(code);
  }

  /** A pattern whose prefix occurs nowhere in a name finds nothing in it. */
  lemma NoPrefixNoMatch(p: NamePattern, s: string)
    requires forall j :: 0 <= j <= |s| ==> !LitAt(s, p.prefix, j)
    ensures Search(p, s).None?
  {
    forall j | 0 <= j <= |s| ensures MatchAt(p, s, j).None? {
      assert !LitAt(s, p.prefix, j);
    }
  }

  /**
   * A name whose only `v` or `V` is its first character and whose twelfth
   * character is not an `s` or `S` has no `vosk-model-small-` in it.
   */
  lemma NoSmallPrefix(name: string)
    requires 12 <= |name| && name[11] != 's' && name[11] != 'S'
    requires forall j :: 0 < j < |name| ==> name[j] != 'v' && name[j] != 'V'
    ensures Search(LanguagePatterns[0], name).None?
  {
    var small := LanguagePatterns[0].prefix;
    assert small == "vosk-model-small-";
    forall j | 0 <= j <= |name| ensures !LitAt(name, small, j) {
      if j == 0 { NotLitAt(name, small, j, 11); } else { NotLitAt(name, small, j, 0); }
    }
    NoPrefixNoMatch(LanguagePatterns[0], name);
  }

  lemma SmallRussianNameMatchesAtStart(name: string)
    requires name == "vosk-model-small-ru-0.22"
    ensures MatchAt(LanguagePatterns[0], name, 0) == Some("ru")
  {
    LitAtVerbatim(name, "vosk-model-small-", 0);
    assert LowerStr(name[17..19]) == "ru";
  }

  lemma SmallRussianModelIsRu()
    ensures ModelLanguage("vosk-model-small-ru-0.22") == Some("ru")
  {
    var name := "vosk-model-small-ru-0.22";
    SmallRussianNameMatchesAtStart(name);
    FirstLanguagePatternDecides(name, "ru");
  }

  lemma SmallEnglishUsNameMatchesAtStart(name: string)
    requires name == "vosk-model-small-en-us-0.22"
    ensures MatchAt(LanguagePatterns[0], name, 0) == Some("en-us")
  {
    LitAtVerbatim(name, "vosk-model-small-", 0);
    assert LowerStr(name[17..22]) == "en-us";
  }

  lemma SmallEnglishUsModelIsEnUs()
    ensures ModelLanguage("vosk-model-small-en-us-0.22") == Some("en-us")
  {
    var name := "vosk-model-small-en-us-0.22";
    SmallEnglishUsNameMatchesAtStart(name);
    FirstLanguagePatternDecides(name, "en-us");
  }

  lemma RussianNameMatchesAtStart(name: string)
    requires name == "vosk-model-ru-0.42"
    ensures MatchAt(LanguagePatterns[1], name, 0) == Some("ru")
  {
    LitAtVerbatim(name, "vosk-model-", 0);
    assert LowerStr(name[11..13]) == "ru";
  }

  /** Without `small-` the first pattern finds nothing and the second one decides. */
  lemma RussianModelIsRu()
    ensures ModelLanguage("vosk-model-ru-0.42") == Some("ru")
  {
    var name := "vosk-model-ru-0.42";
    NoSmallPrefix(name);
    RussianNameMatchesAtStart(name);
    SecondLanguagePatternDecides(name, "ru");
  }

  lemma EnglishUsNameMatchesAtStart(name: string)
    requires name == "vosk-model-en-us-0.22"
    ensures MatchAt(LanguagePatterns[1], name, 0) == Some("en-us")
  {
    LitAtVerbatim(name, "vosk-model-", 0);
    assert LowerStr(name[11..16]) == "en-us";
  }

  lemma EnglishUsModelIsEnUs()
    ensures ModelLanguage("vosk-model-en-us-0.22") == Some("en-us")
  {
    var name := "vosk-model-en-us-0.22";
    NoSmallPrefix(name);
    EnglishUsNameMatchesAtStart(name);
    SecondLanguagePatternDecides(name, "en-us");
  }
}
