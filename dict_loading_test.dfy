/**
 * `test_dict_loading.py` carries its own copies of the loader and of
 * post-processing, declared to be copies of the main program's. They are
 * modelled here from their own text and proved against the same
 * specification functions as the main program, so the two copies build the
 * same table from every sequence of documents and post-process every text
 * the same way. The one textual difference, the main loader's explicit
 * branch that skips a bare-string rule, is a no-op: the test copy reaches
 * the same outcome by falling through its two `isinstance` tests.
 */
module DictLoadingTest {
  import opened Wrappers
  import opened TermTable
  import opened TermDictionaries
  import opened Postprocessing

  /** The test copy's `load_term_replacements`: the same table as the main program's. */
  method LoadTermReplacements(dictsDirExists: bool, dictFiles: seq<Document>) returns (replacements: seq<Entry>)
    ensures replacements == Load(dictsDirExists, dictFiles)
    ensures IsTable(replacements)
  {
    replacements := [];
    if !dictsDirExists || |dictFiles| == 0 {
      return;
    }
    var i := 0;
    while i < |dictFiles|
      invariant 0 <= i <= |dictFiles|
      invariant replacements == PutAll([], AllWrites(dictFiles[..i]))
    {
      AllWritesSnoc(dictFiles[..i], dictFiles[i]);
      assert dictFiles[..i + 1] == dictFiles[..i] + [dictFiles[i]];
      PutAllConcat([], AllWrites(dictFiles[..i]), DocumentEffect(dictFiles[i]).writes);
      replacements := LoadDocument(replacements, dictFiles[i]);
      i := i + 1;
    }
    assert dictFiles[..i] == dictFiles;
    PutAllIsTable([], AllWrites(dictFiles));
  }

  /** One file of the test copy's loop. */
  method LoadDocument(table: seq<Entry>, data: Document) returns (replacements: seq<Entry>)
    ensures replacements == PutAll(table, DocumentEffect(data).writes)
  {
    replacements := table;
    match data {
      case Unreadable =>
      case Parsed(flat, contexts) =>
        if flat.Some? {
          replacements := PutAll(replacements, flat.value);
        } else if contexts.Some? {
          var raised;
          replacements, raised := LoadContexts(replacements, contexts.value);
        }
    }
  }

  /** The test copy's loop over the contexts of a nested document. */
  method LoadContexts(table: seq<Entry>, cs: seq<Context>) returns (replacements: seq<Entry>, raised: bool)
    ensures raised == ContextsEffect(cs).raised
    ensures replacements == PutAll(table, ContextsEffect(cs).writes)
  {
    replacements, raised := table, false;
    var j := 0;
    while j < |cs| && !raised
      invariant 0 <= j <= |cs|
      invariant raised ==> ContextsEffect(cs).raised && replacements == PutAll(table, ContextsEffect(cs).writes)
      invariant !raised ==> ContextsEffect(cs[j..]).raised == ContextsEffect(cs).raised
      invariant !raised ==> PutAll(replacements, ContextsEffect(cs[j..]).writes) == PutAll(table, ContextsEffect(cs).writes)
    {
      assert cs[j..][0] == cs[j] && cs[j..][1..] == cs[j + 1..];
      if cs[j].replacements.Some? {
        ghost var before := replacements;
        replacements, raised := LoadRules(replacements, cs[j].replacements.value);
        if !raised {
          PutAllConcat(before, ContextEffect(cs[j]).writes, ContextsEffect(cs[j + 1..]).writes);
        }
      } else {
        assert [] + ContextsEffect(cs[j + 1..]).writes == ContextsEffect(cs[j + 1..]).writes;
        assert ContextsEffect(cs[j..]) == ContextsEffect(cs[j + 1..]);
      }
      j := j + 1;
    }
    if !raised {
      assert cs[j..] == [];
    }
  }

  /** The test copy's loop over one context's rules. */
  method LoadRules(table: seq<Entry>, rs: seq<Rule>) returns (replacements: seq<Entry>, raised: bool)
    ensures raised == RulesEffect(rs).raised
    ensures replacements == PutAll(table, RulesEffect(rs).writes)
  {
    replacements, raised := table, false;
    var k := 0;
    while k < |rs| && !raised
      invariant 0 <= k <= |rs|
      invariant raised ==> RulesEffect(rs).raised && replacements == PutAll(table, RulesEffect(rs).writes)
      invariant !raised ==> RulesEffect(rs[k..]).raised == RulesEffect(rs).raised
      invariant !raised ==> PutAll(replacements, RulesEffect(rs[k..]).writes) == PutAll(table, RulesEffect(rs).writes)
    {
      assert rs[k..][0] == rs[k] && rs[k..][1..] == rs[k + 1..];
      ghost var before := replacements;
      replacements, raised := LoadRule(replacements, rs[k]);
      if !raised {
        PutAllConcat(before, RuleEffect(rs[k]).writes, RulesEffect(rs[k + 1..]).writes);
      }
      k := k + 1;
    }
    if !raised {
      assert rs[k..] == [];
    }
  }

  /**
   * The test copy's rule dispatch: a `patterns` dict, then a `wrong` dict;
   * there is no third branch, so every other rule falls through untouched.
   */
  method LoadRule(table: seq<Entry>, rule: Rule) returns (replacements: seq<Entry>, raised: bool)
    ensures raised == RuleEffect(rule).raised
    ensures replacements == PutAll(table, RuleEffect(rule).writes)
  {
    replacements, raised := table, false;
    if rule.RuleDict? && rule.patterns.Some? {
      var ps := rule.patterns.value;
      if |ps| > 0 {
        var l := 0;
        while l < |ps| && !raised
          invariant 0 <= l <= |ps|
          invariant raised ==> rule.correct.None? && replacements == table
          invariant !raised && rule.correct.None? ==> l == 0 && replacements == table
          invariant rule.correct.Some? ==> !raised && replacements == PutAll(table, FanOut(ps[..l], rule.correct.value))
          decreases |ps| - l, !raised
        {
          if rule.correct.None? {
            raised := true;
          } else {
            var c := rule.correct.value;
            assert FanOut(ps[..l + 1], c) == FanOut(ps[..l], c) + [Entry(ps[l], c)];
            PutAllConcat(table, FanOut(ps[..l], c), [Entry(ps[l], c)]);
            replacements := Put(replacements, ps[l], c);
            l := l + 1;
          }
        }
        assert rule.correct.Some? ==> ps[..l] == ps;
      }
    } else if rule.RuleDict? && rule.wrong.Some? {
      if rule.correct.None? {
        raised := true;
      } else {
        replacements := Put(replacements, rule.wrong.value, rule.correct.value);
      }
    }
  }

  /**
   * The branch only the main copy has changes nothing: a bare string rule,
   * like any value that is neither a `patterns` nor a `wrong` dict, leaves
   * the table as it was and raises nothing.
   */
  lemma StringRuleIsNoOp(text: string, t: seq<Entry>)
    ensures RuleEffect(RuleText(text)) == RuleEffect(RuleOther) == Effect([], false)
    ensures PutAll(t, RuleEffect(RuleText(text)).writes) == t
  {
  }

  /** The test copy's `postprocess_text(text, replacements)`. */
  method PostprocessText(sub: Substitute, text: string, replacements: seq<Entry>) returns (r: Option<string>)
    ensures r == Postprocess(sub, replacements, text)
  {
    if replacements == [] {
      return Some(text);
    }
    var current := text;
    var i := 0;
    while i < |replacements|
      invariant 0 <= i <= |replacements|
      invariant ApplyRules(sub, replacements[i..], current) == ApplyRules(sub, replacements, text)
    {
      var pattern := replacements[i].pattern;
      var correct := replacements[i].correct;
      var next: Option<string>;
      if HasRegexChars(pattern) {
        next := sub(pattern, correct, current);
        if next.None? {
          next := sub(WordPattern(pattern), correct, current);
        }
      } else {
        next := sub(WordPattern(pattern), correct, current);
      }
      assert replacements[i..][0] == replacements[i] && replacements[i..][1..] == replacements[i + 1..];
      if next.None? {
        return None;
      }
      current := next.value;
      i := i + 1;
    }
    return Some(current);
  }
}
