/**
 * The term-replacement table: a Python dict from pattern to correction. A dict
 * remembers insertion order, and post-processing walks it in that order, so
 * the table is a sequence of entries whose patterns are pairwise distinct.
 * Assigning to a present key keeps its position; a new key goes to the end.
 */
module TermTable {
  import opened Wrappers

  datatype Entry = Entry(pattern: string, correct: string)

  /** No pattern occurs twice, as in every dict. */
  predicate IsTable(t: seq<Entry>) {
    forall i, j :: 0 <= i < j < |t| ==> t[i].pattern != t[j].pattern
  }

  /** The keys in iteration order. */
  function Patterns(t: seq<Entry>): (r: seq<string>)
    ensures |r| == |t| && forall i :: 0 <= i < |t| ==> r[i] == t[i].pattern
  {
    seq(|t|, i requires 0 <= i < |t| => t[i].pattern)
  }

  /** Position of the first entry for `k`, or `|t|` when there is none. */
  function Find(t: seq<Entry>, k: string): (i: nat)
    ensures i <= |t|
    ensures i < |t| ==> t[i].pattern == k
    ensures forall j :: 0 <= j < i ==> t[j].pattern != k
    decreases |t|
  {
    if t == [] then 0
    else if t[0].pattern == k then 0
    else 1 + Find(t[1..], k)
  }

  /** Any index with Find's two properties is Find's answer. */
  lemma FindIs(t: seq<Entry>, k: string, i: nat)
    requires i <= |t|
    requires i < |t| ==> t[i].pattern == k
    requires forall j :: 0 <= j < i ==> t[j].pattern != k
    ensures Find(t, k) == i
  {
  }

  /** `t.get(k)`: the correction stored for `k`. */
  function Get(t: seq<Entry>, k: string): Option<string> {
    var i := Find(t, k);
    if i < |t| then Some(t[i].correct) else None
  }

  /** A key has a value exactly when it is one of the table's patterns. */
  lemma GetSomeIff(t: seq<Entry>, k: string)
    ensures Get(t, k).Some? <==> k in Patterns(t)
  {
    if k in Patterns(t) {
      var j :| 0 <= j < |t| && Patterns(t)[j] == k;
    }
  }

  /** `t[k] = v` on a dict. */
  function Put(t: seq<Entry>, k: string, v: string): (r: seq<Entry>)
    ensures Get(r, k) == Some(v)
    ensures forall j :: j != k ==> Get(r, j) == Get(t, j)
    ensures k in Patterns(t) ==> Patterns(r) == Patterns(t)
    ensures k !in Patterns(t) ==> r == t + [Entry(k, v)]
    ensures IsTable(t) ==> IsTable(r)
  {
    var i := Find(t, k);
    if i < |t| then
      var r := t[i := Entry(k, v)];
      assert Patterns(r) == Patterns(t);
      FindIs(r, k, i);
      forall j | j != k ensures Get(r, j) == Get(t, j) {
        FindIs(r, j, Find(t, j));
      }
      r
    else
      var r := t + [Entry(k, v)];
      assert forall j :: 0 <= j < |t| ==> Patterns(t)[j] != k;
      FindIs(r, k, |t|);
      forall j | j != k ensures Get(r, j) == Get(t, j) {
        var f := Find(t, j);
        if f < |t| { FindIs(r, j, f); } else { FindIs(r, j, |t| + 1); }
      }
      r
  }

  /** `t.update(ws)`: assign every entry of `ws`, in order. */
  function PutAll(t: seq<Entry>, ws: seq<Entry>): seq<Entry>
    decreases |ws|
  {
    if ws == [] then t else PutAll(Put(t, ws[0].pattern, ws[0].correct), ws[1..])
  }

  /** The value of the last entry for `k` in `ws`, if any. */
  function LastWrite(ws: seq<Entry>, k: string): Option<string>
    decreases |ws|
  {
    if ws == [] then None
    else if ws[|ws| - 1].pattern == k then Some(ws[|ws| - 1].correct)
    else LastWrite(ws[..|ws| - 1], k)
  }

  /** Two updates in a row are one update with both sequences of writes. */
  lemma {:induction false} PutAllConcat(t: seq<Entry>, a: seq<Entry>, b: seq<Entry>)
    ensures PutAll(t, a + b) == PutAll(PutAll(t, a), b)
    decreases |a|
  {
    if a != [] {
      assert (a + b)[0] == a[0];
      assert (a + b)[1..] == a[1..] + b;
      PutAllConcat(Put(t, a[0].pattern, a[0].correct), a[1..], b);
    } else {
      assert a + b == b;
    }
  }

  /** Last writer wins: after an update, `k` maps to its last write, or to what it had. */
  lemma {:induction false} PutAllGet(t: seq<Entry>, ws: seq<Entry>, k: string)
    ensures Get(PutAll(t, ws), k) == if LastWrite(ws, k).Some? then LastWrite(ws, k) else Get(t, k)
    decreases |ws|
  {
    if ws != [] {
      var n := |ws| - 1;
      assert ws == ws[..n] + [ws[n]];
      PutAllConcat(t, ws[..n], [ws[n]]);
      PutAllGet(t, ws[..n], k);
      var mid := PutAll(t, ws[..n]);
      assert PutAll(mid, [ws[n]]) == Put(mid, ws[n].pattern, ws[n].correct);
    }
  }

  /** Updating a table keeps it a table. */
  lemma {:induction false} PutAllIsTable(t: seq<Entry>, ws: seq<Entry>)
    requires IsTable(t)
    ensures IsTable(PutAll(t, ws))
    decreases |ws|
  {
    if ws != [] {
      PutAllIsTable(Put(t, ws[0].pattern, ws[0].correct), ws[1..]);
    }
  }

  /** In a table each key is written once, so its last write is its value. */
  lemma {:induction false} LastWriteOfTable(m: seq<Entry>, k: string)
    requires IsTable(m)
    ensures LastWrite(m, k) == Get(m, k)
    decreases |m|
  {
    if m != [] {
      var n := |m| - 1;
      var init := m[..n];
      LastWriteOfTable(init, k);
      if m[n].pattern == k {
        FindIs(m, k, n);
      } else {
        var f := Find(init, k);
        if f < |init| { FindIs(m, k, f); } else { FindIs(m, k, |m|); }
      }
    }
  }
}
