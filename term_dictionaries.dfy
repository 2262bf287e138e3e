/**
 * Loading the term dictionaries: every parsed `.json` document of the
 * dictionary directory is folded, in enumeration order, into one replacement
 * table. A document is either flat (`{"replacements": {pattern: correct}}`) or
 * nested (`{"contexts": {name: {"replacements": [rule, ...]}}}`), where a rule
 * is a `patterns` list with one `correct`, a legacy `wrong`/`correct` pair, or
 * something that is skipped. A document that raises stops only itself.
 */
module TermDictionaries {
  import opened Wrappers
  import opened TermTable

  /**
   * One element of a context's `replacements` list. A dict is described by the
   * three keys the loader reads (`None` when the key is absent); a bare string
   * and every other JSON value are told apart because the loader tests for them.
   */
  datatype Rule =
    | RuleDict(patterns: Option<seq<string>>, wrong: Option<string>, correct: Option<string>)
    | RuleText(text: string)
    | RuleOther

  /** A context object, with or without a `replacements` list. */
  datatype Context = Context(replacements: Option<seq<Rule>>)

  /**
   * A dictionary file. `Unreadable` is a file that `open` or `json.load`
   * rejected; `Parsed` gives the two top-level keys the loader looks at,
   * `replacements` already as a dict and `contexts` as its values in order.
   */
  datatype Document =
    | Unreadable
    | Parsed(replacements: Option<seq<Entry>>, contexts: Option<seq<Context>>)

  /** The assignments a piece of a document makes, and whether it then raised. */
  datatype Effect = Effect(writes: seq<Entry>, raised: bool)

  /** Run `a`, then `b` unless `a` raised. */
  function Then(a: Effect, b: Effect): Effect {
    if a.raised then a else Effect(a.writes + b.writes, b.raised)
  }

  /** One entry per pattern, all with the same correction. */
  function FanOut(patterns: seq<string>, correct: string): (ws: seq<Entry>)
    ensures |ws| == |patterns|
    ensures forall i :: 0 <= i < |patterns| ==> ws[i] == Entry(patterns[i], correct)
  {
    seq(|patterns|, i requires 0 <= i < |patterns| => Entry(patterns[i], correct))
  }

  /**
   * What one rule does. `patterns` is looked for before `wrong`; an empty
   * `patterns` list is skipped before `correct` is read; a missing `correct`
   * raises KeyError before anything is assigned.
   */
  function RuleEffect(r: Rule): Effect {
    match r
    case RuleDict(Some(ps), _, correct) =>
      if ps == [] then Effect([], false)
      else if correct.None? then Effect([], true)
      else Effect(FanOut(ps, correct.value), false)
    case RuleDict(None, Some(w), correct) =>
      if correct.None? then Effect([], true) else Effect([Entry(w, correct.value)], false)
    case RuleDict(None, None, _) => Effect([], false)
    case RuleText(_) => Effect([], false)
    case RuleOther => Effect([], false)
  }

  function RulesEffect(rs: seq<Rule>): Effect
    decreases |rs|
  {
    if rs == [] then Effect([], false) else Then(RuleEffect(rs[0]), RulesEffect(rs[1..]))
  }

  function ContextEffect(c: Context): Effect {
    match c.replacements
    case None => Effect([], false)
    case Some(rs) => RulesEffect(rs)
  }

  function ContextsEffect(cs: seq<Context>): Effect
    decreases |cs|
  {
    if cs == [] then Effect([], false) else Then(ContextEffect(cs[0]), ContextsEffect(cs[1..]))
  }

  /** What one file does: a flat `replacements` wins over `contexts`. */
  function DocumentEffect(d: Document): Effect {
    match d
    case Unreadable => Effect([], true)
    case Parsed(Some(m), _) => Effect(m, false)
    case Parsed(None, Some(cs)) => ContextsEffect(cs)
    case Parsed(None, None) => Effect([], false)
  }

  /** Every assignment of every file, in enumeration order, raised or not. */
  function AllWrites(docs: seq<Document>): seq<Entry>
    decreases |docs|
  {
    if docs == [] then [] else DocumentEffect(docs[0]).writes + AllWrites(docs[1..])
  }

  /** The table `load_term_replacements` returns. */
  function Load(dirExists: bool, docs: seq<Document>): seq<Entry> {
    if !dirExists || docs == [] then [] else PutAll([], AllWrites(docs))
  }

  /**
   * The loader, as written: a loop over the files with a try around each, a
   * loop over the contexts, a loop over their rules and a loop over the
   * patterns of a rule, all assigning into one dict.
   */
  method LoadTermReplacements(dictsDirExists: bool, dictFiles: seq<Document>) returns (replacements: seq<Entry>)
    ensures replacements == Load(dictsDirExists, dictFiles)
    ensures IsTable(replacements)
  {
    replacements := [];
    if !dictsDirExists || |dictFiles| == 0 {
      return;
    }
    var i := 0;
    while i < |dictFiles|
      invariant 0 <= i <= |dictFiles|
      invariant replacements == PutAll([], AllWrites(dictFiles[..i]))
    {
      AllWritesSnoc(dictFiles[..i], dictFiles[i]);
      assert dictFiles[..i + 1] == dictFiles[..i] + [dictFiles[i]];
      PutAllConcat([], AllWrites(dictFiles[..i]), DocumentEffect(dictFiles[i]).writes);
      replacements := LoadDocument(replacements, dictFiles[i]);
      i := i + 1;
    }
    assert dictFiles[..i] == dictFiles;
    PutAllIsTable([], AllWrites(dictFiles));
  }

  /** The body of the per-file `try`: what one file does to the dict. */
  method LoadDocument(table: seq<Entry>, data: Document) returns (replacements: seq<Entry>)
    ensures replacements == PutAll(table, DocumentEffect(data).writes)
  {
    replacements := table;
    match data {
      case Unreadable =>
      case Parsed(flat, contexts) =>
        if flat.Some? {
          replacements := PutAll(replacements, flat.value);
        } else if contexts.Some? {
          var raised;
          replacements, raised := LoadContexts(replacements, contexts.value);
        }
    }
  }

  /** The loop over the contexts of a nested document, up to the first rule that raises. */
  method LoadContexts(table: seq<Entry>, cs: seq<Context>) returns (replacements: seq<Entry>, raised: bool)
    ensures raised == ContextsEffect(cs).raised
    ensures replacements == PutAll(table, ContextsEffect(cs).writes)
  {
    replacements, raised := table, false;
    var j := 0;
    while j < |cs| && !raised
      invariant 0 <= j <= |cs|
      invariant raised ==> ContextsEffect(cs).raised && replacements == PutAll(table, ContextsEffect(cs).writes)
      invariant !raised ==> ContextsEffect(cs[j..]).raised == ContextsEffect(cs).raised
      invariant !raised ==> PutAll(replacements, ContextsEffect(cs[j..]).writes) == PutAll(table, ContextsEffect(cs).writes)
    {
      assert cs[j..][0] == cs[j] && cs[j..][1..] == cs[j + 1..];
      if cs[j].replacements.Some? {
        ghost var before := replacements;
        replacements, raised := LoadRules(replacements, cs[j].replacements.value);
        if !raised {
          PutAllConcat(before, ContextEffect(cs[j]).writes, ContextsEffect(cs[j + 1..]).writes);
        }
      } else {
        assert [] + ContextsEffect(cs[j + 1..]).writes == ContextsEffect(cs[j + 1..]).writes;
        assert ContextsEffect(cs[j..]) == ContextsEffect(cs[j + 1..]);
      }
      j := j + 1;
    }
    if !raised {
      assert cs[j..] == [];
    }
  }

  /** The loop over one context's `replacements` list, up to the first rule that raises. */
  method LoadRules(table: seq<Entry>, rs: seq<Rule>) returns (replacements: seq<Entry>, raised: bool)
    ensures raised == RulesEffect(rs).raised
    ensures replacements == PutAll(table, RulesEffect(rs).writes)
  {
    replacements, raised := table, false;
    var k := 0;
    while k < |rs| && !raised
      invariant 0 <= k <= |rs|
      invariant raised ==> RulesEffect(rs).raised && replacements == PutAll(table, RulesEffect(rs).writes)
      invariant !raised ==> RulesEffect(rs[k..]).raised == RulesEffect(rs).raised
      invariant !raised ==> PutAll(replacements, RulesEffect(rs[k..]).writes) == PutAll(table, RulesEffect(rs).writes)
    {
      assert rs[k..][0] == rs[k] && rs[k..][1..] == rs[k + 1..];
      ghost var before := replacements;
      replacements, raised := LoadRule(replacements, rs[k]);
      if !raised {
        PutAllConcat(before, RuleEffect(rs[k]).writes, RulesEffect(rs[k + 1..]).writes);
      }
      k := k + 1;
    }
    if !raised {
      assert rs[k..] == [];
    }
  }

  /**
   * One element of a context's `replacements` list: a `patterns` rule assigns
   * `correct` to each pattern in turn, a legacy rule assigns `correct` to
   * `wrong`, anything else is skipped. `raised` is the KeyError for a missing
   * `correct`.
   */
  method LoadRule(table: seq<Entry>, rule: Rule) returns (replacements: seq<Entry>, raised: bool)
    ensures raised == RuleEffect(rule).raised
    ensures replacements == PutAll(table, RuleEffect(rule).writes)
  {
    replacements, raised := table, false;
    if rule.RuleDict? && rule.patterns.Some? {
      var ps := rule.patterns.value;
      if |ps| > 0 {
        var l := 0;
        while l < |ps| && !raised
          invariant 0 <= l <= |ps|
          invariant raised ==> rule.correct.None? && replacements == table
          invariant !raised && rule.correct.None? ==> l == 0 && replacements == table
          invariant rule.correct.Some? ==> !raised && replacements == PutAll(table, FanOut(ps[..l], rule.correct.value))
          decreases |ps| - l, !raised
        {
          if rule.correct.None? {
            raised := true;
          } else {
            var c := rule.correct.value;
            assert FanOut(ps[..l + 1], c) == FanOut(ps[..l], c) + [Entry(ps[l], c)];
            PutAllConcat(table, FanOut(ps[..l], c), [Entry(ps[l], c)]);
            replacements := Put(replacements, ps[l], c);
            l := l + 1;
          }
        }
        assert rule.correct.Some? ==> ps[..l] == ps;
      }
    } else if rule.RuleDict? && rule.wrong.Some? {
      if rule.correct.None? {
        raised := true;
      } else {
        replacements := Put(replacements, rule.wrong.value, rule.correct.value);
      }
    } else if rule.RuleText? {
      // A bare string is not a usable rule: skipped.
    }
  }

  lemma {:induction false} AllWritesSnoc(docs: seq<Document>, d: Document)
    ensures AllWrites(docs + [d]) == AllWrites(docs) + DocumentEffect(d).writes
    decreases |docs|
  {
    if docs == [] {
      assert docs + [d] == [d];
    } else {
      assert (docs + [d])[1..] == docs[1..] + [d];
      AllWritesSnoc(docs[1..], d);
    }
  }

  lemma {:induction false} AllWritesConcat(a: seq<Document>, b: seq<Document>)
    ensures AllWrites(a + b) == AllWrites(a) + AllWrites(b)
    decreases |a|
  {
    if a == [] {
      assert a + b == b;
    } else {
      assert (a + b)[0] == a[0] && (a + b)[1..] == a[1..] + b;
      AllWritesConcat(a[1..], b);
    }
  }

  /**
   * A document with a top-level `replacements` dict is merged wholesale: each
   * of its keys maps to its value afterwards, overwriting what was there, every
   * other key keeps its value, and `contexts` is not looked at.
   */
  lemma FlatDocumentMergedWholesale(t: seq<Entry>, m: seq<Entry>, cs: Option<seq<Context>>)
    requires IsTable(m)
    ensures DocumentEffect(Parsed(Some(m), cs)) == Effect(m, false)
    ensures forall k :: Get(PutAll(t, DocumentEffect(Parsed(Some(m), cs)).writes), k)
                        == if k in Patterns(m) then Get(m, k) else Get(t, k)
  {
    forall k ensures Get(PutAll(t, m), k) == if k in Patterns(m) then Get(m, k) else Get(t, k) {
      PutAllGet(t, m, k);
      LastWriteOfTable(m, k);
      GetSomeIff(m, k);
    }
  }

  lemma {:induction false} LastWriteFanOut(ps: seq<string>, c: string, p: string)
    ensures LastWrite(FanOut(ps, c), p) == if p in ps then Some(c) else None
    decreases |ps|
  {
    if ps != [] {
      var n := |ps| - 1;
      assert FanOut(ps, c)[..n] == FanOut(ps[..n], c);
      LastWriteFanOut(ps[..n], c, p);
      assert ps == ps[..n] + [ps[n]];
    }
  }

  /**
   * A `patterns` rule: `wrong` is never read, an empty list adds nothing (even
   * without `correct`), and a non-empty list maps every listed pattern to
   * `correct` and leaves every other key alone, or raises when `correct` is
   * missing.
   */
  lemma PatternsRule(t: seq<Entry>, ps: seq<string>, wrong: Option<string>, correct: Option<string>)
    ensures RuleEffect(RuleDict(Some(ps), wrong, correct)) == RuleEffect(RuleDict(Some(ps), None, correct))
    ensures ps == [] ==> RuleEffect(RuleDict(Some(ps), wrong, correct)) == Effect([], false)
    ensures ps != [] && correct.None? ==> RuleEffect(RuleDict(Some(ps), wrong, correct)) == Effect([], true)
    ensures ps != [] && correct.Some? ==>
      !RuleEffect(RuleDict(Some(ps), wrong, correct)).raised &&
      forall p :: Get(PutAll(t, RuleEffect(RuleDict(Some(ps), wrong, correct)).writes), p)
                  == if p in ps then correct else Get(t, p)
  {
    if ps != [] && correct.Some? {
      forall p ensures Get(PutAll(t, FanOut(ps, correct.value)), p) == if p in ps then correct else Get(t, p) {
        PutAllGet(t, FanOut(ps, correct.value), p);
        LastWriteFanOut(ps, correct.value, p);
      }
    }
  }

  /** A rule the loader skips: a bare string, another JSON value, or a dict with neither `patterns` nor `wrong`. */
  predicate IsSkipped(r: Rule) {
    r.RuleText? || r.RuleOther? || (r.RuleDict? && r.patterns.None? && r.wrong.None?)
  }

  /** A context without a `replacements` list, or whose list holds only skipped rules. */
  predicate AllSkipped(c: Context) {
    c.replacements.None? || forall r :: r in c.replacements.value ==> IsSkipped(r)
  }

  /**
   * Contexts without a `replacements` list, and lists made only of skipped
   * rules, leave the table exactly as it was.
   */
  lemma {:induction false} SkippedContextsChangeNothing(cs: seq<Context>)
    requires forall i :: 0 <= i < |cs| ==> AllSkipped(cs[i])
    ensures ContextsEffect(cs) == Effect([], false)
    decreases |cs|
  {
    if cs != [] {
      SkippedContextsChangeNothing(cs[1..]);
      if cs[0].replacements.Some? {
        SkippedRulesChangeNothing(cs[0].replacements.value);
      }
    }
  }

  lemma {:induction false} SkippedRulesChangeNothing(rs: seq<Rule>)
    requires forall r :: r in rs ==> IsSkipped(r)
    ensures RulesEffect(rs) == Effect([], false)
    decreases |rs|
  {
    if rs != [] {
      assert rs[0] in rs;
      assert forall r :: r in rs[1..] ==> r in rs;
      SkippedRulesChangeNothing(rs[1..]);
    }
  }

  /** The writes of the rules, each in full, one after the other. */
  function ConcatWrites(rs: seq<Rule>): seq<Entry>
    decreases |rs|
  {
    if rs == [] then [] else RuleEffect(rs[0]).writes + ConcatWrites(rs[1..])
  }

  /**
   * A rule that raises ends its file: the writes of the rules before it stay,
   * the rules after it are never run, and the file counts as failed.
   */
  lemma {:induction false} RaisingRuleKeepsEarlierWrites(rs: seq<Rule>, k: nat)
    requires k < |rs| && RuleEffect(rs[k]).raised
    requires forall i :: 0 <= i < k ==> !RuleEffect(rs[i]).raised
    ensures RulesEffect(rs) == Effect(ConcatWrites(rs[..k]), true)
    decreases k
  {
    if k > 0 {
      assert rs[1..][..k - 1] == rs[..k][1..];
      RaisingRuleKeepsEarlierWrites(rs[1..], k - 1);
    }
  }

  /**
   * A missing directory or an empty listing gives the empty table; otherwise
   * the files are applied in order and a file that raises does not stop the
   * ones after it: its own writes up to the raise, and all later files, count.
   */
  lemma FileFailureIsIsolated(before: seq<Document>, d: Document, after: seq<Document>)
    ensures Load(false, before + [d] + after) == [] && Load(true, []) == []
    ensures Load(true, before + [d] + after)
            == PutAll(PutAll(PutAll([], AllWrites(before)), DocumentEffect(d).writes), AllWrites(after))
  {
    AllWritesConcat(before + [d], after);
    AllWritesSnoc(before, d);
    PutAllConcat([], AllWrites(before) + DocumentEffect(d).writes, AllWrites(after));
    PutAllConcat([], AllWrites(before), DocumentEffect(d).writes);
  }

  /** Last writer wins: a pattern maps to the correction of its last assignment in any file. */
  lemma LastFileWins(docs: seq<Document>, k: string)
    ensures Get(Load(true, docs), k) == LastWrite(AllWrites(docs), k)
  {
    PutAllGet([], AllWrites(docs), k);
  }
}
