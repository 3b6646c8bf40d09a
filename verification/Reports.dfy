/** Deduplicated bug reports: BcbOracle.report of bcfuzzer/oracle.py. */
module Reports {
  import opened Results
  import opened Text
  import opened Values

  /** What a failure, or the metadata of a placement, records besides. */
  type Record = map<string, Value>

  datatype Failure = Failure(category: string, signal: string, node: int, detail: Record)

  /** A mutation carried out in the round. */
  datatype Op = Op(item: string, before: Value, after: Value)

  /** What a failure is grouped by. */
  datatype Group = Group(signal: string, node: int)

  /** One call of report. */
  datatype Call = Call(failure: Failure, round: int, placement: Record, ops: seq<Op>) {
    function Key(): Group { Group(failure.signal, failure.node) }
  }

  /** The signals that SIGNAL_LIBRARY calls critical; every other one is a warning. */
  const CRITICAL: set<string> := {
    "process_death", "durable_stall", "geth_gaslimit_collapse", "fisco_bad_signature_accepted",
    "fisco_verify_sender_failed_storm", "chainmaker_verifier_panic", "chainmaker_txcount_violation",
    "chainmaker_nilpayload_panic", "aptos_safety_rules_process_failure"}

  function Severity(signal: string): string { if signal in CRITICAL then "critical" else "warning" }

  /** The severities of SIGNAL_LIBRARY. */
  const SIGNAL_LIBRARY: map<string, string> := map[
    "process_death" := "critical", "durable_stall" := "critical", "fisco_view_change_storm" := "warning",
    "geth_gaslimit_collapse" := "critical", "geth_replacement_rejected_old_finalized" := "warning",
    "fisco_consensus_timeout_growth" := "warning", "fisco_bad_signature_accepted" := "critical",
    "fisco_verify_sender_failed_storm" := "critical", "fisco_expired_tx_accepted" := "warning",
    "fisco_block_limit_1_pending_growth" := "warning", "chainmaker_verifier_panic" := "critical",
    "chainmaker_txcount_violation" := "critical", "chainmaker_nilpayload_panic" := "critical",
    "aptos_timeout_zero_stall" := "warning", "aptos_sync_only_stall" := "warning",
    "aptos_safety_rules_process_failure" := "critical"]

  /** A signal that the library does not know is a warning. */
  lemma SeverityIs(signal: string)
    ensures Severity(signal) == if signal in SIGNAL_LIBRARY then SIGNAL_LIBRARY[signal] else "warning"
  {
  }

  function Signature(target: string, g: Group): string { target + ":" + g.signal + ":" + Show(g.node) }

  /** Different groups have different signatures, whatever the signal's text. */
  lemma SignatureInjective(target: string, g: Group, h: Group)
    requires Signature(target, g) == Signature(target, h)
    ensures g == h
  {
    ShowChars(g.node);
    ShowChars(h.node);
    var a, b := target + ":" + g.signal, target + ":" + h.signal;
    LastPart(':', a, Show(g.node), b, Show(h.node));
    assert a[|target| + 1..] == g.signal && b[|target| + 1..] == h.signal;
    ShowInjective(g.node, h.node);
  }

  function Zeros(n: nat): string { if n == 0 then "" else "0" + Zeros(n - 1) }

  /** f"{n:03d}" */
  function Padded(n: nat): string {
    var s := ShowNat(n);
    Zeros(if |s| < 3 then 3 - |s| else 0) + s
  }

  function BugId(n: nat): string { "bcfuzzer-" + Padded(n) }

  lemma {:induction false} ZerosValue(n: nat, s: string)
    ensures DigitsValue(Zeros(n) + s) == DigitsValue(s)
    decreases n + |s|
  {
    var t := Zeros(n) + s;
    if s != "" {
      assert t[..|t| - 1] == Zeros(n) + s[..|s| - 1];
      ZerosValue(n, s[..|s| - 1]);
    } else if n > 0 {
      assert t == Zeros(n);
      ZerosEnd(n);
      ZerosValue(n - 1, "");
      assert Zeros(n - 1) + "" == Zeros(n - 1);
    }
  }

  lemma {:induction false} ZerosEnd(n: nat)
    requires n > 0
    ensures Zeros(n) == Zeros(n - 1) + "0"
  {
    if n > 1 { ZerosEnd(n - 1); }
  }

  lemma BugIdInjective(m: nat, n: nat)
    requires BugId(m) == BugId(n)
    ensures m == n
  {
    assert BugId(m)[|"bcfuzzer-"|..] == Padded(m) && BugId(n)[|"bcfuzzer-"|..] == Padded(n);
    PaddedValue(m);
    PaddedValue(n);
  }

  /** At least three digits, no more than needed, and the number they stand for. */
  lemma PaddedValue(n: nat)
    ensures DigitsValue(Padded(n)) == n
    ensures |Padded(n)| >= 3 && (|Padded(n)| > 3 ==> Padded(n) == ShowNat(n))
  {
    var s := ShowNat(n);
    var pad := if |s| < 3 then 3 - |s| else 0;
    assert Padded(n) == Zeros(pad) + s;
    ZerosLength(pad);
    assert pad == 0 ==> Zeros(pad) + s == s;
    ZerosBefore(n, pad, s);
  }

  lemma {:induction false} ZerosLength(n: nat)
    ensures |Zeros(n)| == n
  {
    if n > 0 { ZerosLength(n - 1); }
  }

  lemma ZerosBefore(n: nat, pad: nat, s: string)
    requires s == ShowNat(n)
    ensures DigitsValue(Zeros(pad) + s) == n
  {
    ZerosValue(pad, s);
    ShowNatValue(n);
  }

  // --------------------------------------------------------------------- the group-by

  /** The groups of the calls, in order of first occurrence. */
  function Groups(calls: seq<Call>): (r: seq<Group>)
    ensures forall i, j | 0 <= i < j < |r| :: r[i] != r[j]
  {
    if calls == [] then []
    else
      var before, g := Groups(calls[..|calls| - 1]), calls[|calls| - 1].Key();
      if g in before then before else before + [g]
  }

  lemma {:induction false} GroupsIff(calls: seq<Call>, g: Group)
    ensures g in Groups(calls) <==> exists c | c in calls :: c.Key() == g
  {
    if calls != [] {
      assert calls == calls[..|calls| - 1] + [calls[|calls| - 1]];
      GroupsIff(calls[..|calls| - 1], g);
    }
  }

  function Occurrences(calls: seq<Call>, g: Group): nat {
    if calls == [] then 0
    else Occurrences(calls[..|calls| - 1], g) + if calls[|calls| - 1].Key() == g then 1 else 0
  }

  function FirstCall(calls: seq<Call>, g: Group): Option<Call> {
    if calls == [] then None
    else if calls[0].Key() == g then Some(calls[0])
    else FirstCall(calls[1..], g)
  }

  function LastCall(calls: seq<Call>, g: Group): Option<Call> {
    if calls == [] then None
    else if calls[|calls| - 1].Key() == g then Some(calls[|calls| - 1])
    else LastCall(calls[..|calls| - 1], g)
  }

  lemma {:induction false} FirstCallSnoc(calls: seq<Call>, c: Call, g: Group)
    ensures FirstCall(calls + [c], g)
            == if FirstCall(calls, g).Some? then FirstCall(calls, g) else if c.Key() == g then Some(c) else None
  {
    if calls == [] {
      assert calls + [c] == [c];
    } else {
      assert (calls + [c])[1..] == calls[1..] + [c];
      FirstCallSnoc(calls[1..], c, g);
    }
  }

  lemma {:induction false} FirstCallIff(calls: seq<Call>, g: Group)
    ensures FirstCall(calls, g).Some? <==> exists c | c in calls :: c.Key() == g
  {
    if calls != [] {
      assert calls == [calls[0]] + calls[1..];
      FirstCallIff(calls[1..], g);
    }
  }

  /** One more call leaves the groups there were, and counts for its own group. */
  lemma CallSnoc(calls: seq<Call>, c: Call, k: nat)
    requires k < |Groups(calls)|
    ensures var g, now := Groups(calls)[k], calls + [c];
            && k < |Groups(now)| && Groups(now)[k] == g
            && FirstCall(calls, g).Some? && FirstCall(now, g) == FirstCall(calls, g)
            && Occurrences(now, g) == Occurrences(calls, g) + (if c.Key() == g then 1 else 0)
            && LastCall(now, g) == if c.Key() == g then Some(c) else LastCall(calls, g)
  {
    assert (calls + [c])[..|calls|] == calls;
    GroupsIff(calls, Groups(calls)[k]);
    FirstCallIff(calls, Groups(calls)[k]);
    FirstCallSnoc(calls, c, Groups(calls)[k]);
  }

  /** A call of a group there is opens none. */
  lemma KnownGroup(calls: seq<Call>, c: Call, n: nat)
    requires n < |Groups(calls)| && Groups(calls)[n] == c.Key()
    ensures Groups(calls + [c]) == Groups(calls)
  {
    assert (calls + [c])[..|calls|] == calls;
  }

  /** The first call of a group opens it. */
  lemma FirstOfGroup(calls: seq<Call>, c: Call)
    requires c.Key() !in Groups(calls)
    ensures var g, now := c.Key(), calls + [c];
            && Groups(now) == Groups(calls) + [g] && FirstCall(now, g) == Some(c) && LastCall(now, g) == Some(c)
            && Occurrences(now, g) == 1
  {
    assert (calls + [c])[..|calls|] == calls;
    GroupsIff(calls, c.Key());
    Unseen(calls, c.Key());
    FirstCallIff(calls, c.Key());
    FirstCallSnoc(calls, c, c.Key());
  }

  function Total(calls: seq<Call>, groups: seq<Group>): nat {
    if groups == [] then 0 else Occurrences(calls, groups[0]) + Total(calls, groups[1..])
  }

  /** Every call is counted in exactly one group. */
  lemma {:induction false} OccurrencesAddUp(calls: seq<Call>)
    ensures Total(calls, Groups(calls)) == |calls|
  {
    if calls == [] {
    } else {
      var before, c := calls[..|calls| - 1], calls[|calls| - 1];
      OccurrencesAddUp(before);
      var groups := Groups(before);
      if c.Key() in groups {
        var i :| 0 <= i < |groups| && groups[i] == c.Key();
        OneMore(calls, groups, i);
      } else {
        GroupsIff(before, c.Key());
        Unseen(before, c.Key());
        TotalSame(calls, groups);
        TotalSnoc(calls, groups, c.Key());
      }
    }
  }

  lemma {:induction false} Unseen(calls: seq<Call>, g: Group)
    requires forall c | c in calls :: c.Key() != g
    ensures Occurrences(calls, g) == 0
  {
    if calls != [] { Unseen(calls[..|calls| - 1], g); }
  }

  lemma {:induction false} TotalSame(calls: seq<Call>, groups: seq<Group>)
    requires calls != [] && calls[|calls| - 1].Key() !in groups
    ensures Total(calls, groups) == Total(calls[..|calls| - 1], groups)
  {
    if groups != [] { TotalSame(calls, groups[1..]); }
  }

  lemma {:induction false} TotalSnoc(calls: seq<Call>, groups: seq<Group>, g: Group)
    ensures Total(calls, groups + [g]) == Total(calls, groups) + Occurrences(calls, g)
  {
    if groups == [] {
      assert groups + [g] == [g];
      assert [g][1..] == [];
    } else {
      assert (groups + [g])[1..] == groups[1..] + [g];
      TotalSnoc(calls, groups[1..], g);
    }
  }

  lemma {:induction false} OneMore(calls: seq<Call>, groups: seq<Group>, i: nat)
    requires calls != [] && i < |groups| && groups[i] == calls[|calls| - 1].Key()
    requires forall j, k | 0 <= j < k < |groups| :: groups[j] != groups[k]
    ensures Total(calls, groups) == Total(calls[..|calls| - 1], groups) + 1
  {
    if i == 0 {
      assert forall j | 0 < j < |groups| :: groups[j] != groups[0];
      TotalSame(calls, groups[1..]);
    } else {
      OneMore(calls, groups[1..], i - 1);
    }
  }

  // ------------------------------------------------------------------ list and index

  /** A report is shared by the list and the index; repeats update it in place. */
  /** What a report holds. */
  datatype Content = Content(
    bugId: string, first: Call, severity: string, signature: string, occurrences: nat, lastRound: int)

  /** What a repeat changes in the report of its group. */
  function Repeated(held: Content, round: int): Content {
    held.(occurrences := held.occurrences + 1, lastRound := round)
  }

  class BugReport {
    const bugId: string
    const first: Call
    const severity: string
    const signature: string
    var occurrences: nat
    var lastRound: int

    constructor (bugId: string, first: Call, severity: string, signature: string)
      ensures this.bugId == bugId && this.first == first && this.severity == severity && this.signature == signature
      ensures occurrences == 1 && lastRound == first.round
    {
      this.bugId, this.first, this.severity, this.signature := bugId, first, severity, signature;
      occurrences, lastRound := 1, first.round;
    }

    function Holds(): Content
      reads this
    {
      Content(bugId, first, severity, signature, occurrences, lastRound)
    }

    method Again(round: int)
      modifies this
      ensures Holds() == Repeated(old(Holds()), round)
    {
      occurrences, lastRound := occurrences + 1, round;
    }
  }

  type Sign = Group -> string

  ghost predicate Injective(sign: Sign) { forall g, h :: sign(g) == sign(h) ==> g == h }

  /** The index maps the signatures of the groups, and nothing else, to their reports. */
  ghost predicate Indexed(sign: Sign, groups: seq<Group>, reports: seq<BugReport>, index: map<string, BugReport>) {
    && |groups| == |reports|
    && (forall s | s in index :: exists k :: 0 <= k < |groups| && s == sign(groups[k]))
    && (forall k | 0 <= k < |groups| :: sign(groups[k]) in index && index[sign(groups[k])] == reports[k])
  }

  lemma IndexedSnoc(sign: Sign, groups: seq<Group>, reports: seq<BugReport>, index: map<string, BugReport>,
                    g: Group, report: BugReport)
    requires Indexed(sign, groups, reports, index) && sign(g) !in index
    ensures Indexed(sign, groups + [g], reports + [report], index[sign(g) := report])
  {
    var now, index' := groups + [g], index[sign(g) := report];
    forall s | s in index' ensures exists k :: 0 <= k < |now| && s == sign(now[k]) {
      if s != sign(g) {
        var k :| 0 <= k < |groups| && s == sign(groups[k]);
        assert s == sign(now[k]);
      } else {
        assert s == sign(now[|groups|]);
      }
    }
  }

  /** A signature is in the index exactly when its group is there; its report stands at the place of the group. */
  lemma IndexedIff(sign: Sign, groups: seq<Group>, reports: seq<BugReport>, index: map<string, BugReport>, g: Group)
    returns (n: nat)
    requires Indexed(sign, groups, reports, index) && Injective(sign)
    ensures sign(g) in index <==> g in groups
    ensures sign(g) in index ==> n < |groups| && groups[n] == g && reports[n] == index[sign(g)]
  {
    n := 0;
    if sign(g) in index {
      n :| n < |groups| && sign(g) == sign(groups[n]);
    }
  }

  ghost function HeldBy(reports: seq<BugReport>): (held: seq<Content>)
    reads reports
    ensures |held| == |reports| && forall k | 0 <= k < |held| :: held[k] == reports[k].Holds()
  {
    if reports == [] then [] else HeldBy(reports[..|reports| - 1]) + [reports[|reports| - 1].Holds()]
  }

  class ReportBook {
    const target: string
    const sign: Sign
    const idOf: nat -> string
    const severityOf: string -> string
    var reports: seq<BugReport>
    var bySignature: map<string, BugReport>
    ghost var calls: seq<Call>

    /** Report k is the k-th group of the calls made so far, and the index holds the very same objects. */
    ghost predicate Valid()
      reads this, reports
    {
      && Injective(sign)
      && |reports| == |Groups(calls)|
      && Described(reports, calls)
      && Indexed(sign, Groups(calls), reports, bySignature)
    }

    ghost predicate Described(reports: seq<BugReport>, calls: seq<Call>)
      reads reports
    {
      && (forall i, j | 0 <= i < j < |reports| :: reports[i] != reports[j])
      && (forall k | 0 <= k < |reports| :: DescribedBy(reports[k], k, calls))
    }

    lemma DescribedSnoc(reports: seq<BugReport>, calls: seq<Call>, report: BugReport)
      requires Described(reports, calls) && DescribedBy(report, |reports|, calls) && report !in reports
      ensures Described(reports + [report], calls)
    {
    }

    ghost predicate DescribedBy(r: BugReport, k: nat, calls: seq<Call>)
      reads r
    {
      Describes(r.Holds(), k, calls)
    }

    ghost predicate Describes(held: Content, k: nat, calls: seq<Call>) {
      && k < |Groups(calls)|
      && var g := Groups(calls)[k];
      && held.bugId == idOf(k) && held.signature == sign(g) && held.severity == severityOf(g.signal)
      && FirstCall(calls, g) == Some(held.first)
      && held.occurrences == Occurrences(calls, g)
      && LastCall(calls, g).Some? && held.lastRound == LastCall(calls, g).value.round
    }

    lemma StillDescribes(held: Content, k: nat, calls: seq<Call>, c: Call)
      requires Describes(held, k, calls)
      ensures Describes(if Groups(calls)[k] == c.Key() then Repeated(held, c.round) else held, k, calls + [c])
    {
      CallSnoc(calls, c, k);
    }

    constructor (target: string)
      ensures Valid() && this.target == target && reports == [] && calls == []
      ensures forall g :: sign(g) == Signature(target, g)
      ensures (forall n :: idOf(n) == BugId(n)) && forall s :: severityOf(s) == Severity(s)
    {
      this.target := target;
      sign := g => Signature(target, g);
      idOf, severityOf := BugId, Severity;
      reports, bySignature, calls := [], map[], [];
      new;
      forall g, h | sign(g) == sign(h) ensures g == h { SignatureInjective(target, g, h); }
    }

    /** A new report for a group not seen before; otherwise the group's report is brought up to date. */
    method Report(c: Call) returns (report: BugReport?)
      requires Valid()
      modifies this, reports
      ensures Valid() && calls == old(calls) + [c]
      ensures report == null <==> c.Key() in Groups(old(calls))
      ensures report == null ==> reports == old(reports)
      ensures report != null ==> fresh(report) && reports == old(reports) + [report]
    {
      var signature := sign(c.Key());
      ghost var n := IndexedIff(sign, Groups(calls), reports, bySignature, c.Key());
      if signature in bySignature {
        Repeat(bySignature[signature], c.round, c, n);
        report := null;
      } else {
        report := Add(signature, c);
      }
    }

    method Repeat(existing: BugReport, round: int, ghost c: Call, ghost n: nat)
      requires Described(reports, calls) && |reports| == |Groups(calls)|
      requires n < |reports| && reports[n] == existing && Groups(calls)[n] == c.Key() && c.round == round
      modifies this`calls, existing
      ensures Described(reports, calls) && Groups(calls) == old(Groups(calls)) && calls == old(calls) + [c]
    {
      ghost var before, was := calls, HeldBy(reports);
      KnownGroup(calls, c, n);
      existing.Again(round);
      calls := calls + [c];
      AgainDescribed(was, before, c, n);
    }

    /** After a report of a group was brought up to date for one more call, the reports describe that call too. */
    lemma AgainDescribed(was: seq<Content>, before: seq<Call>, c: Call, n: nat)
      requires |was| == |reports| == |Groups(before)| && n < |reports| && Groups(before)[n] == c.Key()
      requires forall i, j | 0 <= i < j < |reports| :: reports[i] != reports[j]
      requires forall k | 0 <= k < |was| :: Describes(was[k], k, before)
      requires forall k | 0 <= k < |was| :: reports[k].Holds() == if k == n then Repeated(was[k], c.round) else was[k]
      ensures Described(reports, before + [c])
    {
      forall k | 0 <= k < |reports| ensures DescribedBy(reports[k], k, before + [c]) {
        StillDescribes(was[k], k, before, c);
        assert k != n ==> Groups(before)[k] != c.Key();
      }
    }

    lemma OthersDescribed(c: Call)
      requires Described(reports, calls) && |reports| == |Groups(calls)| && c.Key() !in Groups(calls)
      ensures Described(reports, calls + [c])
    {
      forall k | 0 <= k < |reports| ensures DescribedBy(reports[k], k, calls + [c]) {
        assert DescribedBy(reports[k], k, calls);
        StillDescribes(reports[k].Holds(), k, calls, c);
        assert Groups(calls)[k] in Groups(calls);
      }
    }

    method Add(signature: string, c: Call) returns (report: BugReport)
      requires Described(reports, calls) && |reports| == |Groups(calls)| && c.Key() !in Groups(calls)
      requires Indexed(sign, Groups(calls), reports, bySignature) && signature == sign(c.Key())
               && signature !in bySignature
      modifies this
      ensures Described(reports, calls) && |reports| == |Groups(calls)| && calls == old(calls) + [c]
      ensures Indexed(sign, Groups(calls), reports, bySignature)
      ensures fresh(report) && reports == old(reports) + [report]
    {
      OthersDescribed(c);
      FirstOfGroup(calls, c);
      report := new BugReport(idOf(|reports|), c, severityOf(c.failure.signal), signature);
      DescribedSnoc(reports, calls + [c], report);
      IndexedSnoc(sign, Groups(calls), reports, bySignature, c.Key(), report);
      calls := calls + [c];
      reports := reports + [report];
      bySignature := bySignature[signature := report];
    }
  }

  /** The occurrences of the reports add up to the calls, and no two reports share a bug id or a signature. */
  lemma BookAddsUp(book: ReportBook)
    requires book.Valid() && forall n :: book.idOf(n) == BugId(n)
    ensures Total(book.calls, Groups(book.calls)) == |book.calls|
    ensures forall i, j | 0 <= i < j < |book.reports| ::
              book.reports[i].bugId != book.reports[j].bugId && book.reports[i].signature != book.reports[j].signature
  {
    OccurrencesAddUp(book.calls);
    forall i, j | 0 <= i < j < |book.reports|
      ensures book.reports[i].bugId != book.reports[j].bugId && book.reports[i].signature != book.reports[j].signature
    {
      assert book.DescribedBy(book.reports[i], i, book.calls) && book.DescribedBy(book.reports[j], j, book.calls);
      if BugId(i) == BugId(j) { BugIdInjective(i, j); }
    }
  }
}
