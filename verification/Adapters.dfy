/**
 * The geth and fisco campaign adapters: scheduled values are written into a copy of the
 * base configuration, then everything else is clamped into its live-admissible domain.
 */
module Adapters {
  import opened Results
  import opened Text
  import opened ConfigLines
  import opened LineFormat
  import opened LineEditor
  import opened LineSweep
  import opened Sanitizer
  import opened CleanedValues
  import opened ConfigFiles
  import opened EditedFiles
  import opened Leaves
  import opened Values

  const GETH_MINER: Rules := map[
    ("Eth.Miner", "GasCeil") := Bounded(21_000, 100_000_000, 30_000_000),
    ("Eth.Miner", "GasPrice") := Bounded(0, 1_000_000_000_000, 1_000_000),
    ("Eth.Miner", "Recommit") := Bounded(100_000_000, 600_000_000_000, 2_000_000_000)]

  const GETH_TXPOOL: Rules := map[
    ("Eth.TxPool", "PriceLimit") := Bounded(0, 1_000_000_000, 1),
    ("Eth.TxPool", "PriceBump") := Bounded(0, 1_000, 10),
    ("Eth.TxPool", "GlobalSlots") := Bounded(1, 1_000_000, 2048),
    ("Eth.TxPool", "GlobalQueue") := Bounded(1, 1_000_000, 1024),
    ("Eth.TxPool", "Lifetime") := Bounded(1_000_000_000, 604_800_000_000_000, 10_800_000_000_000)]

  const GETH_BLOBPOOL: Rules := map[
    ("Eth.BlobPool", "Datacap") := Bounded(1024, 1_099_511_627_776, 1_073_741_824),
    ("Eth.BlobPool", "PriceBump") := Bounded(0, 1_000, 100),
    ("Eth.BlobPool", "Datadir") := Quoted(QUOTED_BLOBPOOL)]

  const QUOTED_BLOBPOOL := "\"blobpool\""

  const GETH_RULES: Rules := GETH_MINER + GETH_TXPOOL + GETH_BLOBPOOL

  const FISCO_NUMBERS: Rules := map[
    ("txpool", "limit") := Bounded(1, 1_000_000, 8000),
    ("txpool", "notify_worker_num") := Bounded(1, 256, 2),
    ("txpool", "txs_expiration_time") := Bounded(1, 86_400, 300),
    ("sync", "tree_width") := Bounded(1, 256, 2),
    ("tx", "gas_limit") := Bounded(21_000, 10_000_000_000, 3_000_000_000)]

  const FISCO_SWITCHES: Rules := map[
    ("txpool", "enable_txs_from_free_node") := Boolean(false),
    ("sync", "send_txs_by_tree") := Boolean(true),
    ("sync", "sync_block_by_tree") := Boolean(true),
    ("executor", "enable_dag") := Boolean(true),
    ("executor", "baseline_scheduler") := Boolean(false),
    ("executor", "baseline_scheduler_parallel") := Boolean(false)]

  const FISCO_RULES: Rules := FISCO_NUMBERS + FISCO_SWITCHES

  /** A value that is no number is replaced by one in bounds. */
  predicate DefaultsFit(rules: Rules) {
    forall sk | sk in rules :: var r := rules[sk]; r.Bounded? ==> r.low <= r.default <= r.high
  }

  lemma GethTableSound()
    ensures SoundRules(GETH_RULES) && DefaultsFit(GETH_RULES)
  {
    MinerSound();
    TxPoolSound();
    BlobPoolSound();
  }

  lemma MinerSound() ensures SoundRules(GETH_MINER) && DefaultsFit(GETH_MINER) {}
  lemma TxPoolSound() ensures SoundRules(GETH_TXPOOL) && DefaultsFit(GETH_TXPOOL) {}

  lemma BlobPoolSound()
    ensures SoundRules(GETH_BLOBPOOL) && DefaultsFit(GETH_BLOBPOOL)
  {
    QuotedBlobPool();
  }

  lemma QuotedBlobPool() ensures SoundRule(Quoted(QUOTED_BLOBPOOL)) {}

  lemma FiscoTableSound()
    ensures SoundRules(FISCO_RULES) && DefaultsFit(FISCO_RULES)
  {
    NumbersSound();
    SwitchesSound();
  }

  lemma NumbersSound() ensures SoundRules(FISCO_NUMBERS) && DefaultsFit(FISCO_NUMBERS) {}
  lemma SwitchesSound() ensures SoundRules(FISCO_SWITCHES) && DefaultsFit(FISCO_SWITCHES) {}

  // ------------------------------------------------------------------------- item paths

  /** Index of the last '.', or -1. */
  function LastDot(path: string): (i: int)
    ensures -1 <= i < |path|
  {
    if path == "" then -1 else if path[|path| - 1] == '.' then |path| - 1 else LastDot(path[..|path| - 1])
  }

  /** _split_path: the section is everything before the last dot. */
  function SplitPath(path: string): (string, string) {
    var i := LastDot(path);
    (if i < 0 then "" else path[..i], path[i + 1..])
  }

  /** The dotted path of an item; sections may be empty or hold dots, keys hold none. */
  function ItemPath(section: string, key: string): string {
    if section == "" then key else PathOf(section, key)
  }

  lemma {:induction false} LastDotOf(section: string, key: string)
    requires '.' !in key
    ensures LastDot(section + "." + key) == |section|
    ensures LastDot(key) == -1
    decreases |key|
  {
    var path := section + "." + key;
    if key != "" {
      var shorter := key[..|key| - 1];
      assert path[..|path| - 1] == section + "." + shorter;
      assert key[|key| - 1] in key;
      LastDotOf(section, shorter);
    }
  }

  /** Splitting an item's path gives its section and key. */
  lemma SplitItemPath(section: string, key: string)
    requires '.' !in key
    ensures SplitPath(ItemPath(section, key)) == (section, key)
  {
    LastDotOf(section, key);
    var path := section + "." + key;
    assert path[..|section|] == section && path[|section| + 1..] == key;
    assert key[0..] == key;
  }

  // ------------------------------------------------------------------- scheduled writes

  /** A value scheduled for the item of that section and key, rendered for the file. */
  datatype Mutation = Mutation(section: string, key: string, value: Value) {
    /** As it is written into a TOML file. */
    function Leaf(): string { FormatLeaf(value, true) }

    function Path(): string { ItemPath(section, key) }
  }

  predicate Names(m: Mutation, section: string, key: string) { m.section == section && m.key == key }

  /** Mutations of items the catalog does not know are skipped. */
  function Scheduled(muts: seq<Mutation>, catalog: set<string>): (r: seq<Mutation>)
    ensures forall m | m in r :: m in muts && m.Path() in catalog
  {
    if muts == [] then []
    else
      var m := muts[|muts| - 1];
      Scheduled(muts[..|muts| - 1], catalog) + if m.Path() in catalog then [m] else []
  }

  function WriteAll(lines: seq<string>, muts: seq<Mutation>): seq<string> {
    if muts == [] then lines
    else
      var m := muts[|muts| - 1];
      Edited(WriteAll(lines, muts[..|muts| - 1]), m.section, m.key, m.Leaf())
  }

  /** The value of the last mutation of that name. */
  function LastLeaf(muts: seq<Mutation>, section: string, key: string): Option<string> {
    if muts == [] then None
    else if Names(muts[|muts| - 1], section, key) then Some(muts[|muts| - 1].Leaf())
    else LastLeaf(muts[..|muts| - 1], section, key)
  }

  /** Every scheduled name is a key the line format knows, with a place in the base file. */
  ghost predicate Writable(lines: seq<string>, muts: seq<Mutation>) {
    forall m | m in muts :: ValidKey(m.key) && Stable(Kinds(lines), m.section, m.key)
  }

  lemma {:induction false} StableThroughout(lines: seq<string>, muts: seq<Mutation>, section: string, key: string)
    requires Writable(lines, muts) && Stable(Kinds(lines), section, key)
    ensures Stable(Kinds(WriteAll(lines, muts)), section, key)
    decreases |muts|
  {
    if muts != [] {
      var m, before := muts[|muts| - 1], muts[..|muts| - 1];
      assert m in muts;
      StableThroughout(lines, before, section, key);
      StableThroughout(lines, before, m.section, m.key);
      var k := EditedKinds(WriteAll(lines, before), m.section, m.key, m.Leaf());
      StableKept(Kinds(WriteAll(lines, before)), m.section, k, section, key);
    }
  }

  lemma WrittenStep(base: seq<string>, m: Mutation, section: string, key: string)
    requires ValidKey(m.key)
    ensures Stable(Kinds(base), m.section, m.key) ==>
              Lookup(Settings(Edited(base, m.section, m.key, m.Leaf())), section, key)
              == if Names(m, section, key) then Some(Strip(m.Leaf())) else Lookup(Settings(base), section, key)
  {
    var s, k := m.section, m.key;
    if Stable(Kinds(base), s, k) {
      WriteLinePlaced(base, s, k, m.Leaf());
      var put := Written(s, k, Strip(m.Leaf()));
      if Names(m, section, key) {
        PutThenGet(Settings(base), Settings(Edited(base, s, k, m.Leaf())), put);
      } else {
        PutKeepsOthers(Settings(base), Settings(Edited(base, s, k, m.Leaf())), put, section, key);
      }
    }
  }

  /** After all the writes a scheduled name reads as its last value, and every other name as in the base file. */
  lemma {:induction false} WrittenValues(lines: seq<string>, muts: seq<Mutation>, section: string, key: string)
    requires Writable(lines, muts)
    ensures Lookup(Settings(WriteAll(lines, muts)), section, key)
            == match LastLeaf(muts, section, key)
               case Some(leaf) => Some(Strip(leaf))
               case None => Lookup(Settings(lines), section, key)
    decreases |muts|
  {
    if muts != [] {
      var m, before := muts[|muts| - 1], muts[..|muts| - 1];
      assert m in muts;
      StableThroughout(lines, before, m.section, m.key);
      WrittenStep(WriteAll(lines, before), m, section, key);
      WrittenValues(lines, before, section, key);
    }
  }

  function Paths(muts: seq<Mutation>): set<string> { set m | m in muts :: m.Path() }

  /** What the one rule that exemption does not switch off would replace: a value that is not in quotes. */
  predicate Survives(rules: Rules, section: string, key: string, value: string) {
    (section, key) in rules && rules[(section, key)].Quoted? ==> InQuotes(value)
  }

  /**
   * A scheduled name reads, after the sanitizer too, as the last value scheduled for it, exactly when
   * that survives.
   */
  lemma ScheduledReadsBack(lines: seq<string>, muts: seq<Mutation>, c: Config, m: Mutation)
    requires Sound(c) && Writable(lines, muts) && Paths(muts) <= c.exempt && m in muts
    ensures var s, k := m.section, m.key;
            && LastLeaf(muts, s, k).Some?
            && var value := Strip(LastLeaf(muts, s, k).value);
            Lookup(Settings(Cleaned(FixOf(c), WriteAll(lines, muts))), s, k) == Some(value)
            <==> Survives(c.rules, s, k, value)
  {
    LastLeafExists(muts, m);
    WrittenValues(lines, muts, m.section, m.key);
    SanitizedLookup(c, WriteAll(lines, muts), m.section, m.key);
    assert m.Path() in Paths(muts);
    FixedSurvives(c, m.section, m.key, LastLeaf(muts, m.section, m.key).value);
  }

  lemma FixedSurvives(c: Config, section: string, key: string, leaf: string)
    requires Sound(c) && ItemPath(section, key) in c.exempt
    ensures Fixed(c, section, key, Strip(leaf)).GetOr(Strip(leaf)) == Strip(leaf)
            <==> Survives(c.rules, section, key, Strip(leaf))
  {
    if (section, key) in c.rules {
      assert (section, key).0 != "";
      TrimmedIsFixed(Strip(leaf));
      assert SoundRule(c.rules[(section, key)]);
    }
  }

  /** A name that is not scheduled reads as in the base file, cleaned if it is ruled and not exempt. */
  lemma UnscheduledReads(lines: seq<string>, muts: seq<Mutation>, c: Config, section: string, key: string)
    requires Sound(c) && Writable(lines, muts) && LastLeaf(muts, section, key).None?
    ensures Lookup(Settings(Cleaned(FixOf(c), WriteAll(lines, muts))), section, key)
            == match Lookup(Settings(lines), section, key)
               case None => None
               case Some(value) => Some(Fixed(c, section, key, value).GetOr(value))
  {
    WrittenValues(lines, muts, section, key);
    SanitizedLookup(c, WriteAll(lines, muts), section, key);
  }

  /** So a name in the base file that is not scheduled is delivered as its cleaned value, or as it was. */
  lemma UnscheduledBecomes(lines: seq<string>, muts: seq<Mutation>, c: Config, section: string, key: string)
    requires Sound(c) && Writable(lines, muts) && LastLeaf(muts, section, key).None?
    ensures NameBecomes(c, section, key, Lookup(Settings(lines), section, key),
                        Lookup(Settings(Cleaned(FixOf(c), WriteAll(lines, muts))), section, key))
  {
    UnscheduledReads(lines, muts, c, section, key);
    if Lookup(Settings(lines), section, key).Some? {
      FixedBecomes(c, section, key, Lookup(Settings(lines), section, key).value);
    }
  }

  lemma {:induction false} LastLeafExists(muts: seq<Mutation>, m: Mutation)
    requires m in muts
    ensures LastLeaf(muts, m.section, m.key).Some?
    decreases |muts|
  {
    if muts[|muts| - 1] != m {
      LastLeafExists(muts[..|muts| - 1], m);
    }
  }

  /** The lines that apply_mutations makes of the base lines. */
  function Delivered(lines: seq<string>, muts: seq<Mutation>, catalog: set<string>, c: Config): seq<string> {
    Cleaned(FixOf(c), WriteAll(lines, Scheduled(muts, catalog)))
  }

  lemma DeliversOne(lines: seq<string>, m: Mutation, catalog: set<string>, c: Config)
    requires m.Path() in catalog
    ensures Delivered(lines, [m], catalog, c) == Cleaned(FixOf(c), Edited(lines, m.section, m.key, m.Leaf()))
  {
    assert [m][..0] == [] && Scheduled([], catalog) == [] && Scheduled([m], catalog) == [] + [m] == [m];
    assert WriteAll(lines, []) == lines;
  }

  /** What a single scheduled value reads as in the end: the value written, cleaned by the one rule that is left. */
  lemma OneReads(lines: seq<string>, m: Mutation, catalog: set<string>, c: Config)
    requires Sound(c) && m.Path() in c.exempt && m.Path() in catalog
    ensures Lookup(Settings(Delivered(lines, [m], catalog, c)), m.section, m.key)
            == match Lookup(Settings(Edited(lines, m.section, m.key, m.Leaf())), m.section, m.key)
               case None => None
               case Some(value) => Some(Fixed(c, m.section, m.key, value).GetOr(value))
  {
    DeliversOne(lines, m, catalog, c);
    SanitizedLookup(c, Edited(lines, m.section, m.key, m.Leaf()), m.section, m.key);
  }

  ghost predicate OneReadsBack(lines: seq<string>, m: Mutation, catalog: set<string>, c: Config) {
    Lookup(Settings(Delivered(lines, [m], catalog, c)), m.section, m.key) == Some(Strip(m.Leaf()))
  }

  /**
   * End to end for the one mutation a node is given: every value that survives the sanitizer
   * reads back exactly when the name can be placed in the file.
   */
  lemma OneReadsBackIff(lines: seq<string>, section: string, key: string, catalog: set<string>, c: Config)
    requires Sound(c) && ValidKey(key) && ItemPath(section, key) in c.exempt && ItemPath(section, key) in catalog
    ensures (forall v | Survives(c.rules, section, key, Strip(FormatLeaf(v, true))) ::
               OneReadsBack(lines, Mutation(section, key, v), catalog, c))
            <==> Placeable(Kinds(lines), section, key)
  {
    if Placeable(Kinds(lines), section, key) {
      forall v | Survives(c.rules, section, key, Strip(FormatLeaf(v, true)))
        ensures OneReadsBack(lines, Mutation(section, key, v), catalog, c)
      {
        PlacedReadsBack(lines, Mutation(section, key, v), catalog, c);
      }
    } else {
      QuotedSurvives(c.rules, section, key, "0");
      QuotedSurvives(c.rules, section, key, "1");
      OneOfTwo(lines, Mutation(section, key, StrV("0")), Mutation(section, key, StrV("1")), catalog, c);
    }
  }

  lemma QuotedSurvives(rules: Rules, section: string, key: string, s: string)
    ensures Survives(rules, section, key, Strip(FormatLeaf(StrV(s), true)))
  {
    QuotedText(s);
  }

  lemma OneOfTwo(lines: seq<string>, m0: Mutation, m1: Mutation, catalog: set<string>, c: Config)
    requires Sound(c) && ValidKey(m0.key) && m0.Path() in c.exempt && m0.Path() in catalog
    requires m1.section == m0.section && m1.key == m0.key && m0.value == StrV("0") && m1.value == StrV("1")
    requires !Placeable(Kinds(lines), m0.section, m0.key)
    ensures !OneReadsBack(lines, m0, catalog, c) || !OneReadsBack(lines, m1, catalog, c)
  {
    SameDelivery(lines, m0, m1, catalog, c);
    LeavesDiffer(m0, m1);
  }

  lemma LeavesDiffer(m0: Mutation, m1: Mutation)
    requires m0.value == StrV("0") && m1.value == StrV("1")
    ensures Strip(m0.Leaf()) != Strip(m1.Leaf())
  {
    QuotedText("0");
    QuotedText("1");
    QuotesDiffer();
  }

  /** Where a name cannot be placed, what it reads as in the end does not depend on the value. */
  lemma SameDelivery(lines: seq<string>, m0: Mutation, m1: Mutation, catalog: set<string>, c: Config)
    requires Sound(c) && ValidKey(m0.key) && m0.Path() in c.exempt && m0.Path() in catalog
    requires m1.section == m0.section && m1.key == m0.key && !Placeable(Kinds(lines), m0.section, m0.key)
    ensures Lookup(Settings(Delivered(lines, [m0], catalog, c)), m0.section, m0.key)
            == Lookup(Settings(Delivered(lines, [m1], catalog, c)), m0.section, m0.key)
  {
    NotPlaced(lines, m0.section, m0.key, m0.Leaf(), m1.Leaf());
    OneReads(lines, m0, catalog, c);
    OneReads(lines, m1, catalog, c);
  }

  lemma QuotesDiffer()
    ensures Quote("0") != Quote("1")
  {
    assert EscapeAll("0") == ['0'] + EscapeAll("0"[1..]) && EscapeAll("1") == ['1'] + EscapeAll("1"[1..]);
    assert Quote("0")[1] == '0' && Quote("1")[1] == '1';
  }

  lemma PlacedReadsBack(lines: seq<string>, m: Mutation, catalog: set<string>, c: Config)
    requires Sound(c) && ValidKey(m.key) && m.Path() in c.exempt && m.Path() in catalog
    requires Placeable(Kinds(lines), m.section, m.key) && Survives(c.rules, m.section, m.key, Strip(m.Leaf()))
    ensures OneReadsBack(lines, m, catalog, c)
  {
    OneReads(lines, m, catalog, c);
    WriteLinePlaced(lines, m.section, m.key, m.Leaf());
    PutThenGet(Settings(lines), Settings(Edited(lines, m.section, m.key, m.Leaf())),
               Written(m.section, m.key, Strip(m.Leaf())));
    FixedSurvives(c, m.section, m.key, m.Leaf());
  }

  // ------------------------------------------------------------------- apply_mutations

  function LinesOf(files: map<string, string>, path: string): seq<string> {
    if path in files then SplitLines(files[path]) else []
  }

  /** Names on one line; the repr of a list or dictionary is one line too. */
  predicate PlainMutation(m: Mutation) {
    OneLine(m.section) && OneLine(m.key) && (m.value.CompositeV? ==> OneLine(m.value.repr))
  }

  predicate PlainText(muts: seq<Mutation>) { forall m | m in muts :: PlainMutation(m) }

  lemma ScheduleStep(lines: seq<string>, muts: seq<Mutation>, i: nat, catalog: set<string>)
    requires i < |muts|
    ensures var m, before := muts[i], WriteAll(lines, Scheduled(muts[..i], catalog));
            WriteAll(lines, Scheduled(muts[..i + 1], catalog))
            == if m.Path() in catalog then Edited(before, m.section, m.key, m.Leaf()) else before
  {
    assert muts[..i + 1][..i] == muts[..i];
    var scheduled := Scheduled(muts[..i], catalog);
    assert (scheduled + [muts[i]])[..|scheduled|] == scheduled;
    assert scheduled + [] == scheduled;
  }

  ghost predicate OthersKept(before: map<string, string>, after: map<string, string>, path: string) {
    forall p | p != path :: Content(after, p) == Content(before, p)
  }

  /** Rewrites one file in its domain and reports how many lines changed. */
  method SanitizeFile(disk: Disk, path: string, c: Config) returns (changed: nat)
    requires Sound(c) && path in disk.files
    modifies disk
    ensures path in disk.files && OthersKept(old(disk.files), disk.files, path)
    ensures LinesOf(disk.files, path) == Cleaned(FixOf(c), LinesOf(old(disk.files), path))
    ensures changed == Differences(LinesOf(old(disk.files), path), LinesOf(disk.files, path))
  {
    var lines := SplitLines(disk.files[path]);
    var r;
    r, changed := SanitizeLines(c, lines);
    if changed > 0 {
      FixTidy(c);
      SweptOneLine(FixOf(c), lines);
      SplitJoin(r);
      disk.files := disk.files[path := JoinLines(r)];
    }
  }

  /** One scheduled mutation, written through the editor. */
  method WriteScheduled(editor: ConfigEditor, target: string, m: Mutation)
    requires editor.Valid() && target in editor.disk.files && PlainMutation(m)
    modifies editor, editor.disk
    ensures editor.Valid() && target in editor.disk.files
    ensures LinesOf(editor.disk.files, target)
            == Edited(LinesOf(old(editor.disk.files), target), m.section, m.key, m.Leaf())
    ensures OthersKept(old(editor.disk.files), editor.disk.files, target)
  {
    TomlLeafOneLine(m.value);
    EditedText(SplitLines(editor.disk.files[target]), m.section, m.key, m.Leaf());
    var _ := editor.ReadValue(target, m.section, m.key);
    var _ := editor.WriteValue(target, m.section, m.key, m.Leaf());
  }

  /** GethAdapter.apply_mutations: false when the base file is missing, which raises. */
  method ApplyMutations(disk: Disk, base: string, target: string, muts: seq<Mutation>, catalog: set<string>, c: Config)
    returns (ok: bool)
    requires Sound(c) && PlainText(muts)
    modifies disk
    ensures ok <==> target in old(disk.files) || base in old(disk.files)
    ensures ok ==> LinesOf(disk.files, target)
                   == Delivered(LinesOf(old(disk.files), if target in old(disk.files) then target else base),
                                muts, catalog, c)
    ensures ok ==> var from := if target in old(disk.files) then target else base;
                   AllBecome(c, Settings(WriteAll(LinesOf(old(disk.files), from), Scheduled(muts, catalog))),
                             Settings(LinesOf(disk.files, target)))
    ensures OthersKept(old(disk.files), disk.files, target)
  {
    if target !in disk.files {
      if base !in disk.files { return false; }
      disk.files := disk.files[target := disk.files[base]];
    }
    WriteSchedule(disk, target, muts, catalog);
    SanitizedBecomes(c, LinesOf(disk.files, target));
    var _ := SanitizeFile(disk, target, c);
    ok := true;
  }

  method WriteSchedule(disk: Disk, target: string, muts: seq<Mutation>, catalog: set<string>)
    requires target in disk.files && PlainText(muts)
    modifies disk
    ensures target in disk.files && OthersKept(old(disk.files), disk.files, target)
    ensures LinesOf(disk.files, target) == WriteAll(LinesOf(old(disk.files), target), Scheduled(muts, catalog))
  {
    ghost var start := LinesOf(disk.files, target);
    var editor := new ConfigEditor(disk);
    for i := 0 to |muts|
      invariant fresh(editor) && editor.Valid() && editor.disk == disk
      invariant target in disk.files && OthersKept(old(disk.files), disk.files, target)
      invariant LinesOf(disk.files, target) == WriteAll(start, Scheduled(muts[..i], catalog))
    {
      ScheduleStep(start, muts, i, catalog);
      if muts[i].Path() in catalog {
        WriteScheduled(editor, target, muts[i]);
      }
    }
    assert muts[..|muts|] == muts;
  }

  /** One file of the node; it is written back when anything has changed so far, in this file or an earlier one. */
  method SanitizeStep(disk: Disk, path: string, c: Config, before: nat) returns (changed: nat)
    requires Sound(c)
    modifies disk
    ensures OthersKept(old(disk.files), disk.files, path)
    ensures SettingsFixed(old(disk.files), disk.files, path, FixOf(c))
    ensures changed == before + Pending(old(disk.files), path, FixOf(c))
    ensures changed == 0 ==> disk.files == old(disk.files)
  {
    FixTidy(c);
    changed := before;
    if path in disk.files {
      var lines := SplitLines(disk.files[path]);
      var r, n := SanitizeLines(c, lines);
      changed := before + n;
      SweptSettings(FixOf(c), lines);
      if changed > 0 {
        SweptOneLine(FixOf(c), lines);
        SplitJoin(r);
        NoSettings(r);
        disk.files := disk.files[path := JoinLines(r)];
      }
    }
  }

  /** Lines of a file that the sanitizer would change. */
  function Pending(files: map<string, string>, path: string, fix: Fix): nat {
    Differences(LinesOf(files, path), Cleaned(fix, LinesOf(files, path)))
  }

  ghost predicate SettingsFixed(before: map<string, string>, after: map<string, string>, path: string, fix: Fix) {
    Settings(LinesOf(after, path)) == FixSettings(fix, Settings(LinesOf(before, path)))
  }

  /** What every name of a file reads as, from what it read as before. */
  ghost predicate FileBecomes(before: map<string, string>, after: map<string, string>, path: string, c: Config) {
    AllBecome(c, Settings(LinesOf(before, path)), Settings(LinesOf(after, path)))
  }

  /** FiscoAdapter.sanitize_with_exempt: config.ini, then config.genesis, and one count. */
  method SanitizeNode(disk: Disk, ini: string, genesis: string, c: Config) returns (changed: nat)
    requires Sound(c) && ini != genesis
    modifies disk
    ensures forall p | p != ini && p != genesis :: Content(disk.files, p) == Content(old(disk.files), p)
    ensures SettingsFixed(old(disk.files), disk.files, ini, FixOf(c))
    ensures SettingsFixed(old(disk.files), disk.files, genesis, FixOf(c))
    ensures FileBecomes(old(disk.files), disk.files, ini, c) && FileBecomes(old(disk.files), disk.files, genesis, c)
    ensures changed == Pending(old(disk.files), ini, FixOf(c)) + Pending(old(disk.files), genesis, FixOf(c))
    ensures changed == 0 ==> disk.files == old(disk.files)
  {
    changed := SanitizeStep(disk, ini, c, 0);
    label between:
    KeptLines(old(disk.files), disk.files, ini, genesis);
    changed := SanitizeStep(disk, genesis, c, changed);
    KeptLines(old@between(disk.files), disk.files, genesis, ini);
    SettingsBecome(c, Settings(LinesOf(old(disk.files), ini)));
    SettingsBecome(c, Settings(LinesOf(old(disk.files), genesis)));
  }

  lemma KeptLines(before: map<string, string>, after: map<string, string>, path: string, p: string)
    requires OthersKept(before, after, path) && p != path
    ensures LinesOf(after, p) == LinesOf(before, p)
  {
    assert Content(after, p) == Content(before, p);
  }

  lemma NoSettings(r: seq<string>)
    ensures r == [] ==> Settings(r) == Settings([""])
  {
    assert Kinds([""]) == [Classify("")];
    assert Classify("") == Plain;
    assert View("", [Plain]) == [] + View("", []);
  }
}
