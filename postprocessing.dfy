/**
 * Post-processing of recognised text with the replacement table. Each entry
 * is applied in table order to the output of the previous one. A pattern that
 * looks like a regular expression is tried as one, and if it does not compile
 * it is used literally; any other pattern is matched literally as a whole
 * word. The regular-expression engine itself (`re.sub` with IGNORECASE) is a
 * parameter: it yields the substituted text, or `None` for `re.error`.
 */
module Postprocessing {
  import opened Wrappers
  import opened Text
  import opened TermTable

  /** `re.sub(pattern, template, text, flags=re.IGNORECASE)`; `None` is `re.error`. */
  type Substitute = (string, string, string) -> Option<string>

  /** The backspace character: what the two characters `\b` become inside a JSON string. */
  const Backspace: char := '\U{8}'

  /** The character class `[\[\]()+?*^$]` the classification searches for. */
  const RegexMetachars: string := "[]()+?*^$"

  /** `re.search` of a character class: some character of `s` is in `chars`. */
  function ContainsAnyOf(s: string, chars: string): (r: bool)
    ensures r <==> exists i :: 0 <= i < |s| && s[i] in chars
    decreases |s|
  {
    if s == [] then false
    else if s[0] in chars then true
    else
      var r := ContainsAnyOf(s[1..], chars);
      assert r ==> exists i :: 0 <= i < |s| && s[i] in chars by {
        if r {
          var i :| 0 <= i < |s[1..]| && s[1..][i] in chars;
          assert s[i + 1] in chars;
        }
      }
      r
  }

  /** The test that sends a pattern down the regular-expression path. */
  predicate HasRegexChars(pattern: string) {
    Contains(pattern, [Backspace]) || Contains(pattern, "\\b") || ContainsAnyOf(pattern, RegexMetachars)
  }

  /** Position `i` of `p` is a reason to read `p` as a regular expression. */
  predicate RegexMarkAt(p: string, i: int)
    requires 0 <= i < |p|
  {
    p[i] == Backspace || p[i] in RegexMetachars || (p[i] == '\\' && i + 1 < |p| && p[i + 1] == 'b')
  }

  /**
   * A pattern is regex-bearing exactly when it holds a backspace, a backslash
   * followed by `b`, or one of `[ ] ( ) + ? * ^ $`.
   */
  lemma RegexCharsExactly(p: string)
    ensures HasRegexChars(p) <==> exists i :: 0 <= i < |p| && RegexMarkAt(p, i)
  {
    if Contains(p, [Backspace]) {
      var i :| OccursAt(p, [Backspace], i);
      assert p[i..i + 1][0] == p[i];
      assert RegexMarkAt(p, i);
    }
    if Contains(p, "\\b") {
      var i :| OccursAt(p, "\\b", i);
      assert p[i..i + 2][0] == p[i] && p[i..i + 2][1] == p[i + 1];
      assert RegexMarkAt(p, i);
    }
    if ContainsAnyOf(p, RegexMetachars) {
      var i :| 0 <= i < |p| && p[i] in RegexMetachars;
      assert RegexMarkAt(p, i);
    }
    if exists i :: 0 <= i < |p| && RegexMarkAt(p, i) {
      var i :| 0 <= i < |p| && RegexMarkAt(p, i);
      if p[i] == Backspace {
        assert p[i..i + 1] == [Backspace];
        assert OccursAt(p, [Backspace], i);
        assert Contains(p, [Backspace]);
      } else if p[i] == '\\' && i + 1 < |p| && p[i + 1] == 'b' {
        assert p[i..i + 2] == "\\b";
        assert OccursAt(p, "\\b", i);
        assert Contains(p, "\\b");
      } else {
        assert p[i] in RegexMetachars;
        assert ContainsAnyOf(p, RegexMetachars);
      }
      assert HasRegexChars(p);
    }
  }

  /**
   * `.`, `|`, `{` and `}` alone do not make a pattern regex-bearing: a pattern
   * without backslash, backspace and the nine metacharacters is used literally.
   */
  lemma PlainPatternIsLiteral(p: string)
    requires forall i :: 0 <= i < |p| ==> p[i] != '\\' && p[i] != Backspace && p[i] !in RegexMetachars
    ensures !HasRegexChars(p)
  {
    RegexCharsExactly(p);
  }

  /** The characters `re.escape` puts a backslash in front of (Python 3.7 and later). */
  const EscapedChars: string := "()[]{}?*+-|^$\\.&~# \t\n\r\U{B}\U{C}"

  /** `re.escape(s)`. */
  function Escape(s: string): string
    decreases |s|
  {
    if s == [] then []
    else (if s[0] in EscapedChars then ['\\', s[0]] else [s[0]]) + Escape(s[1..])
  }

  /** Reading an escaped pattern back: every backslash stands for the character after it. */
  function Unescape(s: string): string
    decreases |s|
  {
    if s == [] then []
    else if s[0] == '\\' && |s| >= 2 then [s[1]] + Unescape(s[2..])
    else [s[0]] + Unescape(s[1..])
  }

  /** The escaped pattern denotes exactly the original text. */
  lemma {:induction false} UnescapeEscape(s: string)
    ensures Unescape(Escape(s)) == s
    decreases |s|
  {
    if s != [] {
      UnescapeEscape(s[1..]);
      var e := Escape(s);
      if s[0] in EscapedChars {
        assert e == ['\\', s[0]] + Escape(s[1..]);
        assert e[2..] == Escape(s[1..]);
      } else {
        assert e == [s[0]] + Escape(s[1..]);
        assert e[1..] == Escape(s[1..]);
      }
      assert [s[0]] + s[1..] == s;
    }
  }

  /** The literal whole-word form `r'\b' + re.escape(pattern) + r'\b'`. */
  function WordPattern(pattern: string): string {
    "\\b" + Escape(pattern) + "\\b"
  }

  /** One table entry applied to `text`. */
  function ApplyRule(sub: Substitute, e: Entry, text: string): Option<string> {
    if HasRegexChars(e.pattern) then
      match sub(e.pattern, e.correct, text)
      case Some(r) => Some(r)
      case None => sub(WordPattern(e.pattern), e.correct, text)
    else
      sub(WordPattern(e.pattern), e.correct, text)
  }

  /** The entries applied one after another, each to the previous output; `None` once one raises. */
  function ApplyRules(sub: Substitute, t: seq<Entry>, text: string): Option<string>
    decreases |t|
  {
    if t == [] then Some(text)
    else match ApplyRule(sub, t[0], text)
      case None => None
      case Some(next) => ApplyRules(sub, t[1..], next)
  }

  /** `postprocess_text`: the input unchanged for an empty table, else every entry in order. */
  function Postprocess(sub: Substitute, t: seq<Entry>, text: string): (r: Option<string>)
    ensures t == [] ==> r == Some(text)
    ensures r == ApplyRules(sub, t, text)
  {
    if t == [] then Some(text) else ApplyRules(sub, t, text)
  }

  /**
   * Applying two tables in a row is applying their concatenation: each rule
   * works on the previous rule's output, so an earlier correction can be
   * rewritten by a later rule.
   */
  lemma {:induction false} RulesApplyInSequence(sub: Substitute, a: seq<Entry>, b: seq<Entry>, text: string)
    ensures ApplyRules(sub, a + b, text) ==
            match ApplyRules(sub, a, text)
            case None => None
            case Some(mid) => ApplyRules(sub, b, mid)
    decreases |a|
  {
    if a == [] {
      assert a + b == b;
    } else {
      assert (a + b)[0] == a[0] && (a + b)[1..] == a[1..] + b;
      match ApplyRule(sub, a[0], text)
      case None =>
      case Some(next) => RulesApplyInSequence(sub, a[1..], b, next);
    }
  }

  /**
   * An invalid regular expression never makes post-processing raise: if the
   * literal whole-word form of every entry substitutes without error, so does
   * the whole pass, whatever the regex-bearing patterns do.
   */
  lemma {:induction false} LiteralFallbackNeverRaises(sub: Substitute, t: seq<Entry>, text: string)
    requires forall e, x :: e in t ==> sub(WordPattern(e.pattern), e.correct, x).Some?
    ensures Postprocess(sub, t, text).Some?
    decreases |t|
  {
    if t != [] {
      assert t[0] in t;
      assert forall e :: e in t[1..] ==> e in t;
      var next := ApplyRule(sub, t[0], text);
      LiteralFallbackNeverRaises(sub, t[1..], next.value);
    }
  }
}
