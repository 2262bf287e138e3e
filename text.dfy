/**
 * The few pieces of Python's `str` that the transcriber relies on:
 * `lower()`, `strip()`, the substring test `in`, `split` on one character,
 * `join`, and the code-point order that `sorted` uses on strings.
 */
module Text {

  /** `str.lower()` on one character, for ASCII and the basic Cyrillic block. */
  function Lower(c: char): (r: char)
    ensures 'A' <= c <= 'Z' ==> r as int == c as int + 32
    ensures !('A' <= c <= 'Z') && !('\U{400}' <= c <= '\U{42F}') ==> r == c
  {
    if 'A' <= c <= 'Z' then (c as int + 32) as char
    else if '\U{410}' <= c <= '\U{42F}' then (c as int + 32) as char
    else if '\U{400}' <= c <= '\U{40F}' then (c as int + 80) as char
    else c
  }

  function LowerStr(s: string): (r: string)
    ensures |r| == |s|
    ensures forall i :: 0 <= i < |s| ==> r[i] == Lower(s[i])
  {
    seq(|s|, i requires 0 <= i < |s| => Lower(s[i]))
  }

  /** The characters for which Python's `str.isspace()` holds. */
  predicate IsSpace(c: char) {
    c == ' ' || '\t' <= c <= '\r' || '\U{1C}' <= c <= '\U{1F}' || c == '\U{85}' || c == '\U{A0}'
    || c == '\U{1680}' || '\U{2000}' <= c <= '\U{200A}' || c == '\U{2028}' || c == '\U{2029}'
    || c == '\U{202F}' || c == '\U{205F}' || c == '\U{3000}'
  }

  /** Every character of `s` is whitespace. */
  predicate AllSpace(s: string) {
    forall k :: 0 <= k < |s| ==> IsSpace(s[k])
  }

  function TrimStart(s: string): (r: string)
    ensures |r| <= |s| && r == s[|s| - |r|..]
    ensures forall k :: 0 <= k < |s| - |r| ==> IsSpace(s[k])
    ensures r == [] || !IsSpace(r[0])
  {
    if s != [] && IsSpace(s[0]) then TrimStart(s[1..]) else s
  }

  function TrimEnd(s: string): (r: string)
    ensures |r| <= |s| && r == s[..|r|]
    ensures forall k :: |r| <= k < |s| ==> IsSpace(s[k])
    ensures r == [] || !IsSpace(r[|r| - 1])
  {
    if s != [] && IsSpace(s[|s| - 1]) then TrimEnd(s[..|s| - 1]) else s
  }

  /**
   * `str.strip()` with no argument: the middle of `s` between a whitespace
   * run at each end.
   */
  function Strip(s: string): (r: string)
    ensures exists a, b :: 0 <= a <= b <= |s| && r == s[a..b] && AllSpace(s[..a]) && AllSpace(s[b..])
    ensures r == [] <==> AllSpace(s)
    ensures r == [] || (!IsSpace(r[0]) && !IsSpace(r[|r| - 1]))
  {
    var t := TrimStart(s);
    var r := TrimEnd(t);
    TrimmedEnds(s, t, r);
    r
  }

  /**
   * What stripping both ends gives, from what each trim promises: it is empty
   * the middle of `s` between whitespace runs, empty exactly when everything
   * was whitespace, and otherwise neither end is.
   */
  lemma TrimmedEnds(s: string, t: string, r: string)
    requires |t| <= |s| && t == s[|s| - |t|..]
    requires forall k :: 0 <= k < |s| - |t| ==> IsSpace(s[k])
    requires t == [] || !IsSpace(t[0])
    requires |r| <= |t| && r == t[..|r|]
    requires forall k :: |r| <= k < |t| ==> IsSpace(t[k])
    requires r == [] || !IsSpace(r[|r| - 1])
    ensures exists a, b :: 0 <= a <= b <= |s| && r == s[a..b] && AllSpace(s[..a]) && AllSpace(s[b..])
    ensures r == [] <==> AllSpace(s)
    ensures r == [] || (!IsSpace(r[0]) && !IsSpace(r[|r| - 1]))
  {
    var a := |s| - |t|;
    var b := a + |r|;
    assert r == s[a..b];
    assert AllSpace(s[..a]) by {
      forall k | 0 <= k < a ensures IsSpace(s[..a][k]) {
        assert s[..a][k] == s[k];
      }
    }
    assert AllSpace(s[b..]) by {
      forall k | 0 <= k < |s| - b ensures IsSpace(s[b..][k]) {
        assert s[b..][k] == t[k + |r|];
      }
    }
    if r != [] {
      assert r[0] == t[0] == s[|s| - |t|];
    } else {
      assert t == [];
    }
  }

  /** A string with no whitespace is its own strip. */
  lemma StripUnspaced(s: string)
    requires forall k :: 0 <= k < |s| ==> !IsSpace(s[k])
    ensures Strip(s) == s
  {
    var t := TrimStart(s);
    assert t == s;
    assert TrimEnd(t) == t;
  }

  /** Lower-case ASCII letters and `-` read back as themselves after `strip().lower()`. */
  lemma LowerStripOfLowerAscii(c: string)
    requires forall k :: 0 <= k < |c| ==> 'a' <= c[k] <= 'z' || c[k] == '-'
    ensures LowerStr(Strip(c)) == c
  {
    LowerAsciiIsStripped(c);
    LowerAsciiIsLower(c);
  }

  lemma LowerAsciiIsStripped(c: string)
    requires forall k :: 0 <= k < |c| ==> 'a' <= c[k] <= 'z' || c[k] == '-'
    ensures Strip(c) == c
  {
    assert forall k :: 0 <= k < |c| ==> !IsSpace(c[k]);
    StripUnspaced(c);
  }

  lemma LowerAsciiIsLower(c: string)
    requires forall k :: 0 <= k < |c| ==> 'a' <= c[k] <= 'z' || c[k] == '-'
    ensures LowerStr(c) == c
  {
  }

  /** `sub` occurs in `s` starting at index `i`. */
  predicate OccursAt(s: string, sub: string, i: int) {
    0 <= i && i + |sub| <= |s| && s[i..i + |sub|] == sub
  }

  /** Python's substring test `sub in s`. */
  function Contains(s: string, sub: string): (r: bool)
    ensures r <==> exists i :: OccursAt(s, sub, i)
    decreases |s|
  {
    if |sub| > |s| then
      assert forall i :: !OccursAt(s, sub, i);
      false
    else if s[..|sub|] == sub then
      assert OccursAt(s, sub, 0);
      true
    else
      var r := Contains(s[1..], sub);
      assert forall i :: OccursAt(s[1..], sub, i) <==> OccursAt(s, sub, i + 1) by {
        forall i ensures OccursAt(s[1..], sub, i) <==> OccursAt(s, sub, i + 1) {
          if 0 <= i && i + |sub| <= |s| - 1 {
            assert s[1..][i..i + |sub|] == s[i + 1..i + 1 + |sub|];
          }
        }
      }
      assert !OccursAt(s, sub, 0);
      assert r ==> exists i :: OccursAt(s, sub, i) by {
        if r {
          var i :| OccursAt(s[1..], sub, i);
          assert OccursAt(s, sub, i + 1);
        }
      }
      assert (exists i :: OccursAt(s, sub, i)) ==> r by {
        if exists i :: OccursAt(s, sub, i) {
          var i :| OccursAt(s, sub, i);
          assert i != 0;
          assert OccursAt(s[1..], sub, i - 1);
        }
      }
      r
  }

  /**
   * `s.split(c)` for a one-character separator: the fields between the
   * occurrences of `c`, always at least one. The first field is the longest
   * prefix without `c`.
   */
  function Split(s: string, c: char): (r: seq<string>)
    ensures |r| >= 1
    ensures |r[0]| <= |s| && r[0] == s[..|r[0]|] && c !in r[0]
    ensures |r[0]| == |s| || s[|r[0]|] == c
    decreases |s|
  {
    if s == [] then [""] else Step(s[0], c, Split(s[1..], c))
  }

  /** One character in front of the fields of the rest: it ends the first field or joins it. */
  function Step(x: char, c: char, rest: seq<string>): seq<string>
    requires |rest| >= 1
  {
    if x == c then [""] + rest else [[x] + rest[0]] + rest[1..]
  }

  /** `sep.join(xs)`. */
  function Join(sep: string, xs: seq<string>): string
    decreases |xs|
  {
    if |xs| == 0 then ""
    else if |xs| == 1 then xs[0]
    else xs[0] + sep + Join(sep, xs[1..])
  }

  lemma {:induction false} SplitNoSeparator(s: string, c: char)
    requires c !in s
    ensures Split(s, c) == [s]
    decreases |s|
  {
    if s != [] {
      SplitNoSeparator(s[1..], c);
      assert [s[0]] + s[1..] == s;
    }
  }

  lemma SplitCons(x: char, rest: string, c: char)
    ensures Split([x] + rest, c) == Step(x, c, Split(rest, c))
  {
    assert ([x] + rest)[1..] == rest;
  }

  /** A step in front of two runs of fields only touches the first run. */
  lemma StepConcat(x: char, c: char, p: seq<string>, q: seq<string>)
    requires |p| >= 1
    ensures Step(x, c, p + q) == Step(x, c, p) + q
  {
    assert (p + q)[0] == p[0];
    assert (p + q)[1..] == p[1..] + q;
  }

  /** Splitting at one occurrence of the separator splits the fields there. */
  lemma {:induction false} SplitAround(a: string, c: char, b: string)
    ensures Split(a + [c] + b, c) == Split(a, c) + Split(b, c)
    decreases |a|
  {
    if a == [] {
      assert a + [c] + b == [c] + b;
      SplitCons(c, b, c);
    } else {
      var x, a1 := a[0], a[1..];
      assert a == [x] + a1;
      assert a + [c] + b == [x] + (a1 + [c] + b);
      SplitCons(x, a1 + [c] + b, c);
      SplitCons(x, a1, c);
      SplitAround(a1, c, b);
      StepConcat(x, c, Split(a1, c), Split(b, c));
    }
  }

  /** `split` undoes `join` when no field contains the separator. */
  lemma {:induction false} SplitJoin(c: char, xs: seq<string>)
    requires |xs| >= 1
    requires forall i :: 0 <= i < |xs| ==> c !in xs[i]
    ensures Split(Join([c], xs), c) == xs
    decreases |xs|
  {
    if |xs| == 1 {
      SplitNoSeparator(xs[0], c);
    } else {
      var tail := xs[1..];
      var j := Join([c], tail);
      assert Split(j, c) == tail by {
        assert forall i :: 0 <= i < |tail| ==> tail[i] == xs[i + 1];
        SplitJoin(c, tail);
      }
      assert Split(xs[0], c) == [xs[0]] by {
        SplitNoSeparator(xs[0], c);
      }
      assert Join([c], xs) == xs[0] + [c] + j;
      SplitAround(xs[0], c, j);
      assert [xs[0]] + tail == xs;
    }
  }

  /** `a <= b` on Python strings: lexicographic by code point. */
  predicate StrLe(a: string, b: string)
    decreases |a|
  {
    a == [] || (b != [] && (a[0] < b[0] || (a[0] == b[0] && StrLe(a[1..], b[1..]))))
  }

  lemma {:induction false} StrLeTotal(a: string, b: string)
    ensures StrLe(a, b) || StrLe(b, a)
    decreases |a|
  {
    if a != [] && b != [] && a[0] == b[0] {
      StrLeTotal(a[1..], b[1..]);
    }
  }

  lemma {:induction false} StrLeTransitive(a: string, b: string, c: string)
    requires StrLe(a, b) && StrLe(b, c)
    ensures StrLe(a, c)
    decreases |a|
  {
    if a != [] && b != [] && c != [] && a[0] == b[0] == c[0] {
      StrLeTransitive(a[1..], b[1..], c[1..]);
    }
  }
}
