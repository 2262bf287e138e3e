/**
 * The parts of `pathlib.PurePosixPath` the transcriber reads: `name` (the final
 * component) and `suffix` (the extension of that component).
 */
module Paths {
  import opened Text

  /** A component pathlib keeps: not empty (doubled or trailing `/`) and not `.`. */
  predicate IsKeptPart(part: string) {
    part != "" && part != "."
  }

  function KeptParts(parts: seq<string>): (r: seq<string>)
    ensures forall i :: 0 <= i < |r| ==> IsKeptPart(r[i])
    decreases |parts|
  {
    if parts == [] then []
    else if IsKeptPart(parts[|parts| - 1]) then KeptParts(parts[..|parts| - 1]) + [parts[|parts| - 1]]
    else KeptParts(parts[..|parts| - 1])
  }

  /** The components pathlib parses out of `p`, in order. */
  function Parts(p: string): seq<string> {
    KeptParts(Split(p, '/'))
  }

  /** `Path(p).name`: the last component, or "" for `/`, `.` and "". */
  function Name(p: string): string {
    var parts := Parts(p);
    if parts == [] then "" else parts[|parts| - 1]
  }

  lemma {:induction false} KeptPartsAppend(xs: seq<string>, ys: seq<string>)
    ensures KeptParts(xs + ys) == KeptParts(xs) + KeptParts(ys)
    decreases |ys|
  {
    if ys == [] {
      assert xs + ys == xs;
    } else {
      var n := |ys| - 1;
      assert (xs + ys)[..|xs + ys| - 1] == xs + ys[..n];
      assert (xs + ys)[|xs + ys| - 1] == ys[n];
      KeptPartsAppend(xs, ys[..n]);
    }
  }

  /**
   * `Path(dir + "/" + n).name == n` for a plain file or directory name `n`:
   * the name parsers only ever see the final component.
   */
  lemma NameOfChild(dir: string, n: string)
    requires '/' !in n && IsKeptPart(n)
    ensures Name(dir + "/" + n) == n
  {
    assert dir + "/" + n == dir + ['/'] + n;
    SplitAround(dir, '/', n);
    SplitNoSeparator(n, '/');
    KeptPartsAppend(Split(dir, '/'), [n]);
    assert KeptParts([n]) == KeptParts([]) + [n];
  }

  /** The name of a path is a single component: it never contains `/`. */
  lemma NameHasNoSeparator(p: string)
    ensures '/' !in Name(p)
  {
    var parts := Split(p, '/');
    SplitFieldsHaveNoSeparator(p, '/');
    KeptPartsSubset(parts);
    var kept := Parts(p);
    if kept != [] {
      assert kept[|kept| - 1] in kept;
      assert Name(p) in parts;
      var k :| 0 <= k < |parts| && parts[k] == Name(p);
    }
  }

  lemma {:induction false} SplitFieldsHaveNoSeparator(s: string, c: char)
    ensures forall i :: 0 <= i < |Split(s, c)| ==> c !in Split(s, c)[i]
    decreases |s|
  {
    if s != [] {
      SplitFieldsHaveNoSeparator(s[1..], c);
    }
  }

  lemma {:induction false} KeptPartsSubset(parts: seq<string>)
    ensures forall x :: x in KeptParts(parts) ==> x in parts
    decreases |parts|
  {
    if parts != [] {
      KeptPartsSubset(parts[..|parts| - 1]);
    }
  }

  /** Index of the last `c` in `s`, or -1 (`str.rfind`). */
  function RFind(s: string, c: char): (i: int)
    ensures -1 <= i < |s|
    ensures i >= 0 ==> s[i] == c
    ensures forall k :: i < k < |s| ==> s[k] != c
    decreases |s|
  {
    if s == [] then -1
    else if s[|s| - 1] == c then |s| - 1
    else RFind(s[..|s| - 1], c)
  }

  /**
   * `PurePath.suffix` of a final component: from its last `.` to the end, when
   * that dot is neither the first nor the last character; "" otherwise.
   */
  function Suffix(name: string): (r: string)
    ensures r == "" || (2 <= |r| < |name| && r == name[|name| - |r|..] && r[0] == '.' && '.' !in r[1..])
    ensures r == "" <==> forall i :: 0 < i < |name| - 1 && name[i] == '.' ==> exists k :: i < k < |name| && name[k] == '.'
  {
    var i := RFind(name, '.');
    if 0 < i < |name| - 1 then
      name[i..]
    else
      ""
  }

  /** The gate in front of every input file: its lower-cased suffix is a listed format. */
  predicate IsSupportedFormat(path: string, supportedFormats: seq<string>) {
    LowerStr(Suffix(Name(path))) in supportedFormats
  }
}
