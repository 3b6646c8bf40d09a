/** Line-coverage accounting of goc_utils.py, over the records parsed from a profile. */
module Coverage {
  import opened Sets

  datatype Record = Record(path: string, start: int, end: int, count: nat) {
    function Low(): int { if end < start then end else start }
    function High(): int { if end < start then start else end }
  }

  type Line = (string, int)

  predicate OccursAt(path: string, pattern: string, i: nat) {
    i + |pattern| <= |path| && path[i..i + |pattern|] == pattern
  }

  predicate Contains(path: string, pattern: string) { exists i | 0 <= i <= |path| :: OccursAt(path, pattern, i) }

  /** No patterns, no filter. */
  predicate Included(patterns: seq<string>, path: string) {
    patterns == [] || exists k | 0 <= k < |patterns| :: Contains(path, patterns[k])
  }

  /** The lines that the included records span. */
  function Spanned(records: seq<Record>, patterns: seq<string>): set<Line> {
    set r, l | r in records && Included(patterns, r.path) && r.Low() <= l <= r.High() :: (r.path, l)
  }

  /** The lines of the records with a positive count. */
  function Covered(records: seq<Record>, patterns: seq<string>): set<Line> {
    Spanned(Executed(records), patterns)
  }

  function Executed(records: seq<Record>): (r: seq<Record>)
    ensures forall x :: x in r <==> x in records && x.count > 0
  {
    if records == [] then []
    else Executed(records[..|records| - 1]) + if records[|records| - 1].count > 0 then [records[|records| - 1]] else []
  }

  // ------------------------------------------------------------------------- what is promised

  predicate Splits(path: string, before: string, pattern: string, after: string) { path == before + pattern + after }

  /** A file counts when there are no patterns, or one of them is a part of its path. */
  ghost predicate Counts(patterns: seq<string>, path: string) {
    patterns == [] || exists pattern, before, after :: pattern in patterns && Splits(path, before, pattern, after)
  }

  lemma IncludedIff(patterns: seq<string>, path: string)
    ensures Included(patterns, path) <==> Counts(patterns, path)
  {
    if k, i :| 0 <= k < |patterns| && 0 <= i <= |path| && OccursAt(path, patterns[k], i) {
      assert patterns[k] in patterns && Splits(path, path[..i], patterns[k], path[i + |patterns[k]|..]);
    }
    if pattern, before, after :| pattern in patterns && Splits(path, before, pattern, after) {
      var k :| 0 <= k < |patterns| && patterns[k] == pattern;
      assert OccursAt(path, patterns[k], |before|);
      assert Contains(path, patterns[k]);
    }
  }

  /** Between the two ends of a record, whichever comes first. */
  predicate Between(r: Record, line: int) { r.start <= line <= r.end || r.end <= line <= r.start }

  /** A line is spanned, and covered, exactly when a record of its file says so. */
  lemma LineIff(records: seq<Record>, patterns: seq<string>, path: string, line: int)
    ensures (path, line) in Spanned(records, patterns)
            <==> Counts(patterns, path) && exists r | r in records :: r.path == path && Between(r, line)
    ensures (path, line) in Covered(records, patterns)
            <==> Counts(patterns, path) && exists r | r in records :: r.path == path && Between(r, line) && r.count > 0
  {
    IncludedIff(patterns, path);
    assert forall r: Record :: r.Low() <= line <= r.High() <==> Between(r, line);
  }

  /** Covered lines are among the spanned ones. */
  lemma CoveredIsSpanned(records: seq<Record>, patterns: seq<string>)
    ensures Covered(records, patterns) <= Spanned(records, patterns)
    ensures |Covered(records, patterns)| <= |Spanned(records, patterns)|
  {
    SubsetSize(Covered(records, patterns), Spanned(records, patterns));
  }

  /** Neither the order nor the repetition of records matters. */
  lemma OnlyMembersMatter(a: seq<Record>, b: seq<Record>, patterns: seq<string>)
    requires forall r :: r in a <==> r in b
    ensures Spanned(a, patterns) == Spanned(b, patterns) && Covered(a, patterns) == Covered(b, patterns)
  {
    assert forall r :: r in Executed(a) <==> r in Executed(b);
  }

  /** More records never lower either number. */
  lemma MoreRecords(a: seq<Record>, b: seq<Record>, patterns: seq<string>)
    ensures |Spanned(a, patterns)| <= |Spanned(a + b, patterns)|
    ensures |Covered(a, patterns)| <= |Covered(a + b, patterns)|
  {
    SubsetSize(Spanned(a, patterns), Spanned(a + b, patterns));
    assert forall r | r in Executed(a) :: r in Executed(a + b);
    SubsetSize(Covered(a, patterns), Covered(a + b, patterns));
  }

  /** A line that some record counts stays covered when another record for it has count 0. */
  lemma ZeroCountsKeep(records: seq<Record>, r: Record, patterns: seq<string>)
    requires r.count == 0
    ensures Covered(records + [r], patterns) == Covered(records, patterns)
  {
    assert forall x :: x in Executed(records + [r]) <==> x in Executed(records);
  }

  // ------------------------------------------------------------------------- the computation

  type ByFile<T> = map<string, set<T>>

  function LinesOf<T>(m: ByFile<T>, path: string): set<T> { if path in m then m[path] else {} }

  /** The dictionary holds exactly these lines. */
  ghost predicate Holds<T(!new)>(m: ByFile<T>, lines: set<(string, T)>) {
    forall p, l :: l in LinesOf(m, p) <==> (p, l) in lines
  }

  lemma SpannedSnoc(records: seq<Record>, r: Record, patterns: seq<string>, m: ByFile<int>)
    requires Holds(m, Spanned(records, patterns))
    ensures Holds(if Included(patterns, r.path)
                  then m[r.path := LinesOf(m, r.path) + Interval(r.Low() - 1, r.High())] else m,
                  Spanned(records + [r], patterns))
  {
    var now :=
      if Included(patterns, r.path) then m[r.path := LinesOf(m, r.path) + Interval(r.Low() - 1, r.High())] else m;
    forall p, l ensures l in LinesOf(now, p) <==> (p, l) in Spanned(records + [r], patterns) {
      assert l in LinesOf(m, p) <==> (p, l) in Spanned(records, patterns);
      assert forall x :: x in records + [r] <==> x in records || x == r;
    }
  }

  method ComputeLineCoverage(records: seq<Record>, patterns: seq<string>)
    returns (covered: nat, total: nat, percent: real)
    ensures total == |Spanned(records, patterns)| && covered == |Covered(records, patterns)|
    ensures percent == if total == 0 then 0.0 else covered as real / total as real * 100.0
  {
    var totalByFile, coveredByFile := Collect(records, patterns);
    total := Sum(totalByFile, totalByFile.Keys);
    covered := Sum(coveredByFile, totalByFile.Keys);
    HeldSize(totalByFile, totalByFile.Keys, Spanned(records, patterns));
    HeldSize(coveredByFile, totalByFile.Keys, Covered(records, patterns));
    percent := if total == 0 then 0.0 else covered as real / total as real * 100.0;
  }

  method Collect(records: seq<Record>, patterns: seq<string>)
    returns (totalByFile: ByFile<int>, coveredByFile: ByFile<int>)
    ensures Holds(totalByFile, Spanned(records, patterns)) && Holds(coveredByFile, Covered(records, patterns))
    ensures totalByFile.Keys == coveredByFile.Keys
  {
    totalByFile, coveredByFile := map[], map[];
    for k := 0 to |records|
      invariant Holds(totalByFile, Spanned(records[..k], patterns))
        && Holds(coveredByFile, Covered(records[..k], patterns))
      invariant totalByFile.Keys == coveredByFile.Keys
    {
      var r := records[k];
      assert records[..k + 1] == records[..k] + [r];
      CollectSnoc(records[..k], r, patterns, totalByFile, coveredByFile);
      if Included(patterns, r.path) {
        var lines, hits := AddRecord(LinesOf(totalByFile, r.path), LinesOf(coveredByFile, r.path), r);
        totalByFile := totalByFile[r.path := lines];
        coveredByFile := coveredByFile[r.path := hits];
      }
    }
    assert records[..|records|] == records;
  }

  lemma CollectSnoc(records: seq<Record>, r: Record, patterns: seq<string>, total: ByFile<int>, covered: ByFile<int>)
    requires Holds(total, Spanned(records, patterns)) && Holds(covered, Covered(records, patterns))
    ensures var lines := Interval(r.Low() - 1, r.High());
            if !Included(patterns, r.path) then
              Holds(total, Spanned(records + [r], patterns)) && Holds(covered, Covered(records + [r], patterns))
            else
              && Holds(total[r.path := LinesOf(total, r.path) + lines], Spanned(records + [r], patterns))
              && Holds(covered[r.path := LinesOf(covered, r.path) + if r.count > 0 then lines else {}],
                       Covered(records + [r], patterns))
  {
    SpannedSnoc(records, r, patterns, total);
    assert (records + [r])[..|records|] == records;
    if r.count > 0 {
      SpannedSnoc(Executed(records), r, patterns, covered);
    } else {
      ZeroCountsKeep(records, r, patterns);
      var now := covered[r.path := LinesOf(covered, r.path) + {}];
      assert forall p :: LinesOf(now, p) == LinesOf(covered, p);
    }
  }

  /** The inner loop: every line of the span, and every one as hit when the count is positive. */
  method AddRecord(totalSet: set<int>, coveredSet: set<int>, r: Record) returns (lines: set<int>, hits: set<int>)
    ensures lines == totalSet + Interval(r.Low() - 1, r.High())
    ensures hits == coveredSet + if r.count > 0 then Interval(r.Low() - 1, r.High()) else {}
  {
    var low, high := r.start, r.end;
    if high < low { low, high := high, low; }
    lines, hits := totalSet, coveredSet;
    for line := low to high + 1
      invariant lines == totalSet + Interval(low - 1, line - 1)
      invariant hits == coveredSet + if r.count > 0 then Interval(low - 1, line - 1) else {}
    {
      lines := lines + {line};
      if r.count > 0 { hits := hits + {line}; }
    }
  }

  // -------------------------------------------------------------- sums of sizes are set sizes

  function Tagged<T>(path: string, lines: set<T>): set<(string, T)> { set l | l in lines :: (path, l) }

  lemma {:induction false} TaggedSize<T>(path: string, lines: set<T>)
    ensures |Tagged(path, lines)| == |lines|
  {
    if lines != {} {
      var l :| l in lines;
      TaggedSize(path, lines - {l});
      assert Tagged(path, lines) == Tagged(path, lines - {l}) + {(path, l)};
    }
  }

  function Flat<T>(m: ByFile<T>, keys: set<string>): set<(string, T)> {
    set p, l | p in keys && l in LinesOf(m, p) :: (p, l)
  }

  method Sum<T>(m: ByFile<T>, keys: set<string>) returns (n: nat)
    ensures n == |Flat(m, keys)|
  {
    n := 0;
    var rest := keys;
    while rest != {}
      invariant rest <= keys && n == |Flat(m, keys - rest)|
      decreases |rest|
    {
      var p :| p in rest;
      FlatStep(m, keys - rest, p);
      assert keys - (rest - {p}) == (keys - rest) + {p};
      n := n + |LinesOf(m, p)|;
      rest := rest - {p};
    }
    assert keys - {} == keys;
  }

  lemma FlatStep<T>(m: ByFile<T>, done: set<string>, p: string)
    requires p !in done
    ensures |Flat(m, done + {p})| == |Flat(m, done)| + |LinesOf(m, p)|
  {
    TaggedSize(p, LinesOf(m, p));
    assert Flat(m, done + {p}) == Flat(m, done) + Tagged(p, LinesOf(m, p));
    assert Flat(m, done) !! Tagged(p, LinesOf(m, p));
  }

  lemma HeldSize<T(!new)>(m: ByFile<T>, keys: set<string>, lines: set<(string, T)>)
    requires Holds(m, lines) && keys == m.Keys
    ensures |Flat(m, keys)| == |lines|
  {
    forall x ensures x in Flat(m, keys) <==> x in lines {
      assert x == (x.0, x.1);
      assert x.1 in LinesOf(m, x.0) <==> (x.0, x.1) in lines;
    }
    assert Flat(m, keys) == lines;
  }
}
