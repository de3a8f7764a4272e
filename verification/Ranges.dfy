/** Printing a bit field: maximal runs of consecutive values, joined by commas. */
module Ranges {
  import opened Messages

  const UINT64: nat := 0x1_0000_0000_0000_0000

  /** A run is a single value or a first and a last value. */
  datatype Run = Single(lo: nat) | Span(lo: nat, hi: nat) {
    function Last(): nat {
      if Single? then lo else hi
    }

    predicate Ok() {
      Span? ==> lo < hi
    }
  }

  ghost predicate Increasing(l: seq<nat>) {
    forall i, j :: 0 <= i < j < |l| ==> l[i] < l[j]
  }

  /** The values from `lo` to `hi`. */
  function Values(lo: nat, hi: nat): (r: seq<nat>)
    ensures |r| == if lo <= hi then hi - lo + 1 else 0
    ensures forall k :: 0 <= k < |r| ==> r[k] == lo + k
  {
    if lo <= hi then seq(hi - lo + 1, k => lo + k) else []
  }

  function Expand(runs: seq<Run>): seq<nat> {
    if runs == [] then []
    else Values(runs[0].lo, runs[0].Last()) + Expand(runs[1..])
  }

  /** Runs are well formed and separated by at least one missing value. */
  ghost predicate Canonical(runs: seq<Run>) {
    runs != [] ==>
      && runs[0].Ok() && Canonical(runs[1..])
      && (|runs| > 1 ==> runs[0].Last() + 1 < runs[1].lo)
  }

  lemma Assoc(a: seq<nat>, b: seq<nat>, c: seq<nat>)
    ensures a + (b + c) == a + b + c
  {
  }

  lemma {:induction false} ExpandSnoc(runs: seq<Run>, r: Run)
    ensures Expand(runs + [r]) == Expand(runs) + Values(r.lo, r.Last())
  {
    if runs == [] {
      assert runs + [r] == [r] && [r][1..] == [];
    } else {
      ExpandSnoc(runs[1..], r);
      assert (runs + [r])[1..] == runs[1..] + [r] && (runs + [r])[0] == runs[0];
      Assoc(Values(runs[0].lo, runs[0].Last()), Expand(runs[1..]), Values(r.lo, r.Last()));
    }
  }

  lemma {:induction false} CanonicalSnoc(runs: seq<Run>, r: Run)
    requires Canonical(runs) && r.Ok()
    requires runs != [] ==> runs[|runs| - 1].Last() + 1 < r.lo
    ensures Canonical(runs + [r])
  {
    if runs == [] {
      assert (runs + [r])[1..] == [];
    } else {
      CanonicalSnoc(runs[1..], r);
      assert (runs + [r])[1..] == runs[1..] + [r];
    }
  }

  /** The inner loop: the end of the run that begins at `start`. */
  method RunEnd(list: seq<nat>, start: nat) returns (end: nat)
    requires Increasing(list) && (forall v :: v in list ==> v < UINT64) && start < |list|
    ensures start < end <= |list|
    ensures list[start..end] == Values(list[start], list[end - 1])
    ensures end < |list| ==> list[end - 1] + 1 < list[end]
  {
    var curr := list[start];
    end := start + 1;
    while end < |list| && (curr + 1) % UINT64 == list[end]
      invariant start < end <= |list| && curr == list[end - 1]
      invariant curr == list[start] + (end - 1 - start)
      invariant forall k :: start <= k < end ==> list[k] == list[start] + (k - start)
    {
      assert list[end] in list;
      curr := list[end];
      end := end + 1;
    }
    if end < |list| {
      assert list[end] in list;
    }
  }

  /** Merging: the runs expand to the list again and are maximal. */
  method Merge(list: seq<nat>) returns (res: seq<Run>)
    requires Increasing(list) && forall v :: v in list ==> v < UINT64
    ensures Canonical(res) && Expand(res) == list
  {
    res := [];
    var start := 0;
    while start < |list|
      invariant 0 <= start <= |list|
      invariant Canonical(res) && Expand(res) == list[..start]
      invariant res != [] && start < |list| ==> res[|res| - 1].Last() + 1 < list[start]
    {
      var end := RunEnd(list, start);
      var run := if start + 1 < end then Span(list[start], list[end - 1]) else Single(list[start]);
      ExpandSnoc(res, run);
      CanonicalSnoc(res, run);
      assert list[..end] == list[..start] + list[start..end];
      res := res + [run];
      start := end;
    }
    assert list[..start] == list;
  }

  // ---- The canonical form is unique -----------------------------------------------------------------------

  function Length(r: Run): nat
    requires r.Ok()
  {
    r.Last() - r.lo + 1
  }

  /** The first run of a canonical list reaches exactly as far as the values stay consecutive. */
  lemma FirstRun(runs: seq<Run>)
    requires Canonical(runs) && runs != []
    ensures var l, n := Expand(runs), Length(runs[0]);
            && |l| >= n && (forall k :: 0 <= k < n ==> l[k] == runs[0].lo + k)
            && (|l| > n ==> l[n] > runs[0].Last() + 1)
            && l[n..] == Expand(runs[1..])
  {
    var rest := runs[1..];
    if rest != [] {
      assert Expand(rest)[0] == rest[0].lo;
    }
  }

  lemma {:induction false} CanonicalUnique(runs: seq<Run>, runs': seq<Run>)
    requires Canonical(runs) && Canonical(runs') && Expand(runs) == Expand(runs')
    ensures runs == runs'
  {
    if runs != [] {
      FirstRun(runs);
    }
    if runs' != [] {
      FirstRun(runs');
    }
    if runs != [] && runs' != [] {
      SameFirst(runs, runs');
      CanonicalUnique(runs[1..], runs'[1..]);
      assert runs == [runs[0]] + runs[1..] && runs' == [runs'[0]] + runs'[1..];
    }
  }

  lemma SameFirst(runs: seq<Run>, runs': seq<Run>)
    requires Canonical(runs) && Canonical(runs') && runs != [] && runs' != [] && Expand(runs) == Expand(runs')
    ensures runs[0] == runs'[0] && Expand(runs[1..]) == Expand(runs'[1..])
  {
    FirstRun(runs);
    FirstRun(runs');
    var l, n, m := Expand(runs), Length(runs[0]), Length(runs'[0]);
    assert l[0] == runs[0].lo == runs'[0].lo;
    if n < m {
      assert false;
    } else if m < n {
      assert false;
    }
  }

  // ---- Printing ---------------------------------------------------------------------------------------------

  function DigitChar(d: nat): char
    requires d < 10
  {
    ['0', '1', '2', '3', '4', '5', '6', '7', '8', '9'][d]
  }

  predicate IsDigit(c: char) {
    '0' <= c <= '9'
  }

  ghost predicate AllDigits(s: string) {
    forall k :: 0 <= k < |s| ==> IsDigit(s[k])
  }

  /** The number a string of digits stands for, in base ten. */
  ghost function ReadNumber(s: string): nat
    requires AllDigits(s)
  {
    if s == "" then 0 else 10 * ReadNumber(s[..|s| - 1]) + (s[|s| - 1] as int - '0' as int)
  }

  /** Decimal notation: digits that read back as the number, without a leading zero. */
  function Decimal(n: nat): (s: string)
    ensures |s| > 0 && AllDigits(s) && ReadNumber(s) == n
    ensures |s| > 1 ==> s[0] != '0'
  {
    if n < 10 then
      assert [DigitChar(n)][..0] == "";
      [DigitChar(n)]
    else
      var front := Decimal(n / 10);
      assert (front + [DigitChar(n % 10)])[..|front|] == front;
      assert |front| == 1 ==> front[..0] == "";
      front + [DigitChar(n % 10)]
  }

  function RunText(r: Run): string {
    if r.Span? then Decimal(r.lo) + "-" + Decimal(r.hi) else Decimal(r.lo)
  }

  /** All runs joined by commas. */
  function Text(runs: seq<Run>): string {
    if runs == [] then ""
    else if |runs| == 1 then RunText(runs[0])
    else RunText(runs[0]) + ", " + Text(runs[1..])
  }

  // ---- Reading the printed form -----------------------------------------------------------------------------

  /** The number of leading digits. */
  ghost function DigitCount(s: string): (n: nat)
    ensures n <= |s| && AllDigits(s[..n]) && (n < |s| ==> !IsDigit(s[n]))
  {
    if s == "" || !IsDigit(s[0]) then 0
    else
      var n := DigitCount(s[1..]);
      assert forall k :: 0 < k <= n ==> s[k] == s[1..][k - 1];
      1 + n
  }

  /** A run at the front of the text, and what follows it: a number, or two numbers with a dash between. */
  ghost function ReadRun(s: string): (r: (Run, string))
    ensures |r.1| <= |s|
  {
    var n := DigitCount(s);
    var lo, rest := ReadNumber(s[..n]), s[n..];
    if rest != "" && rest[0] == '-' then
      var m := DigitCount(rest[1..]);
      (Span(lo, ReadNumber(rest[1..][..m])), rest[1..][m..])
    else (Single(lo), rest)
  }

  /** Reading a text: runs separated by a comma and a blank, each a number or two numbers with a dash between. */
  ghost function Read(s: string): Option<seq<Run>>
    decreases |s|
  {
    if s == "" then Some([])
    else
      var (run, rest) := ReadRun(s);
      if rest == "" then Some([run])
      else if |rest| > 2 && rest[..2] == ", " then
        var tail := Read(rest[2..]);
        if tail.Some? then Some([run] + tail.value) else None
      else None
  }

  /** What may follow a number: nothing, a dash or a comma. */
  predicate Stops(s: string) {
    s == "" || !IsDigit(s[0])
  }

  lemma {:induction false} DigitsEnd(d: string, rest: string)
    requires AllDigits(d) && Stops(rest)
    ensures DigitCount(d + rest) == |d| && (d + rest)[..|d|] == d && (d + rest)[|d|..] == rest
  {
    var n := DigitCount(d + rest);
    assert forall k :: 0 <= k < |d| ==> (d + rest)[k] == d[k];
    assert rest != "" ==> (d + rest)[|d|] == rest[0];
    assert forall k :: 0 <= k < n ==> (d + rest)[..n][k] == (d + rest)[k];
  }

  lemma SingleReads(d: string, rest: string)
    requires AllDigits(d) && (rest == "" || rest[0] == ',')
    ensures ReadRun(d + rest) == (Single(ReadNumber(d)), rest)
  {
    DigitsEnd(d, rest);
  }

  lemma SpanReads(d: string, h: string, rest: string)
    requires AllDigits(d) && AllDigits(h) && (rest == "" || rest[0] == ',')
    ensures ReadRun(d + "-" + h + rest) == (Span(ReadNumber(d), ReadNumber(h)), rest)
  {
    var after := "-" + (h + rest);
    assert d + "-" + h + rest == d + after;
    DigitsEnd(d, after);
    assert after[1..] == h + rest;
    DigitsEnd(h, rest);
  }

  /** A printed run reads back as itself, whatever follows it. */
  lemma RunReads(r: Run, rest: string)
    requires rest == "" || rest[0] == ','
    ensures ReadRun(RunText(r) + rest) == (r, rest)
  {
    if r.Span? {
      SpanReads(Decimal(r.lo), Decimal(r.hi), rest);
    } else {
      SingleReads(Decimal(r.lo), rest);
    }
  }

  lemma Regroup(a: string, b: string, c: string)
    ensures a + b + c == a + (b + c)
  {
  }

  lemma ReadLast(t: string, run: Run)
    requires t != "" && ReadRun(t) == (run, "")
    ensures Read(t) == Some([run])
  {
  }

  lemma ReadMore(t: string, run: Run, tail: string, runs: seq<Run>)
    requires t != "" && tail != "" && ReadRun(t + (", " + tail)) == (run, ", " + tail) && Read(tail) == Some(runs)
    ensures Read(t + (", " + tail)) == Some([run] + runs)
  {
    var rest := ", " + tail;
    assert rest[..2] == ", " && rest[2..] == tail;
  }

  /** Printed runs read back as they were. */
  lemma {:induction false} TextReads(runs: seq<Run>)
    ensures Read(Text(runs)) == Some(runs)
    ensures runs != [] ==> Text(runs) != ""
  {
    if runs != [] {
      var t := RunText(runs[0]);
      if |runs| == 1 {
        RunReads(runs[0], "");
        assert t + "" == t && runs == [runs[0]];
        ReadLast(t, runs[0]);
      } else {
        var tail := Text(runs[1..]);
        TextReads(runs[1..]);
        RunReads(runs[0], ", " + tail);
        Regroup(t, ", ", tail);
        ReadMore(t, runs[0], tail, runs[1..]);
        assert runs == [runs[0]] + runs[1..];
      }
    }
  }

  lemma TextFrom(runs: seq<Run>, k: nat)
    requires 0 < k <= |runs|
    ensures Text(runs[k - 1..]) == RunText(runs[k - 1]) + (if k < |runs| then ", " else "") + Text(runs[k..])
  {
    var rest := runs[k - 1..];
    assert rest[0] == runs[k - 1] && rest[1..] == runs[k..];
    assert k == |runs| ==> runs[k..] == [] && RunText(runs[k - 1]) + "" + "" == RunText(runs[k - 1]);
  }

  lemma Appended(front: string, run: string, sep: string, rest: string)
    ensures front + run + sep + rest == front + (run + sep + rest)
  {
  }

  /** Writing one more run, and a separator unless it is the last, leaves the rest to be written. */
  lemma WriteRun(s: string, runs: seq<Run>, k: nat)
    requires 0 < k <= |runs| && s + Text(runs[k - 1..]) == Text(runs)
    ensures s + RunText(runs[k - 1]) + (if k < |runs| then ", " else "") + Text(runs[k..]) == Text(runs)
  {
    TextFrom(runs, k);
    Appended(s, RunText(runs[k - 1]), if k < |runs| then ", " else "", Text(runs[k..]));
  }

  method PrintRuns(runs: seq<Run>) returns (s: string)
    ensures s == Text(runs)
  {
    s := "";
    assert runs[0..] == runs;
    for i := 0 to |runs|
      invariant s + Text(runs[i..]) == Text(runs)
    {
      WriteRun(s, runs, i + 1);
      s := s + RunText(runs[i]);
      if i < |runs| - 1 {
        s := s + ", ";
      } else {
        assert s + "" == s;
      }
    }
    assert runs[|runs|..] == [];
  }

  /** `s` is the text of the maximal runs of the list. */
  ghost predicate Prints(list: seq<nat>, s: string) {
    exists runs :: Canonical(runs) && Expand(runs) == list && s == Text(runs)
  }

  /** The text printed for a list reads back as its maximal runs. */
  method ConvertBitFieldToString(list: seq<nat>) returns (s: string)
    requires Increasing(list) && forall v :: v in list ==> v < UINT64
    ensures Prints(list, s)
    ensures Read(s).Some? && Canonical(Read(s).value) && Expand(Read(s).value) == list
  {
    if |list| == 0 {
      s := "";
      assert Canonical([]) && Expand([]) == list && s == Text([]);
      return;
    }
    var mergeRes := Merge(list);
    s := PrintRuns(mergeRes);
    TextReads(mergeRes);
  }

  /** The printed form determines the list, and the list its printed form. */
  lemma PrintedInjective(list: seq<nat>, s: string, list': seq<nat>, s': string)
    requires Prints(list, s) && Prints(list', s')
    ensures s == s' <==> list == list'
  {
    var runs :| Canonical(runs) && Expand(runs) == list && s == Text(runs);
    var runs' :| Canonical(runs') && Expand(runs') == list' && s' == Text(runs');
    TextReads(runs);
    TextReads(runs');
    if list == list' {
      CanonicalUnique(runs, runs');
    }
  }
}
