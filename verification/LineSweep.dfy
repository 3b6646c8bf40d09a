/**
 * The loop shared by the sanitizers: over the entries of a file, in order, rewriting the
 * line of each one that a fix applies to.
 */
module LineSweep {
  import opened Results
  import opened Text
  import opened ConfigLines
  import opened LineFormat

  /** The value an entry should have, by its section, key and present value; None to leave it alone. */
  type Fix = (string, string, string) -> Option<string>

  ghost predicate TidyAt(fix: Fix, section: string, key: string, value: string) {
    match fix(section, key, value)
    case None => true
    case Some(v) =>
      && section != key && v != "" && Trimmed(v) && fix(section, key, v) == Some(v)
      && (OneLine(value) ==> OneLine(v))
  }

  /**
   * Fixed values are trimmed one-line texts that need no further fix, and no fix is for a bare `key:`
   * that opens its section.
   */
  ghost predicate Tidy(fix: Fix) { forall section, key, value :: TidyAt(fix, section, key, value) }

  function FixKind(fix: Fix, section: string, k: Kind): Kind {
    if !k.Entry? then k
    else
      match fix(section, k.key, Strip(k.raw))
      case None => k
      case Some(v) => k.(raw := v)
  }

  function FixKinds(fix: Fix, section: string, ks: seq<Kind>): (r: seq<Kind>)
    ensures |r| == |ks|
    decreases |ks|
  {
    if ks == [] then []
    else
      var here := After(section, ks[0]);
      [FixKind(fix, here, ks[0])] + FixKinds(fix, here, ks[1..])
  }

  function FixSetting(fix: Fix, s: Setting): Setting {
    s.(value := fix(s.section, s.key, s.value).GetOr(s.value))
  }

  function FixSettings(fix: Fix, v: seq<Setting>): (r: seq<Setting>)
    ensures |r| == |v|
    ensures forall i | 0 <= i < |v| :: r[i] == FixSetting(fix, v[i])
  {
    if v == [] then [] else [FixSetting(fix, v[0])] + FixSettings(fix, v[1..])
  }

  lemma FixOne(fix: Fix, section: string, k: Kind)
    requires Tidy(fix)
    ensures var k' := FixKind(fix, After(section, k), k);
            && After(section, k') == After(section, k)
            && One(section, k') == FixSettings(fix, One(section, k))
            && FixKind(fix, After(section, k), k') == k'
  {
    if k.Entry? {
      assert TidyAt(fix, After(section, k), k.key, Strip(k.raw));
      match fix(After(section, k), k.key, Strip(k.raw))
      case None =>
      case Some(v) => TrimmedIsFixed(v);
    }
  }

  lemma FixSettingsConcat(fix: Fix, a: seq<Setting>, b: seq<Setting>)
    ensures FixSettings(fix, a + b) == FixSettings(fix, a) + FixSettings(fix, b)
  {
  }

  /** Seen through the view, a sweep fixes the value of every setting it applies to and nothing else. */
  lemma {:induction false} SweptView(fix: Fix, section: string, ks: seq<Kind>)
    requires Tidy(fix)
    ensures View(section, FixKinds(fix, section, ks)) == FixSettings(fix, View(section, ks))
    decreases |ks|
  {
    if ks != [] {
      var here := After(section, ks[0]);
      FixOne(fix, section, ks[0]);
      SweptView(fix, here, ks[1..]);
      FixSettingsConcat(fix, One(section, ks[0]), View(here, ks[1..]));
      assert FixKinds(fix, section, ks)[1..] == FixKinds(fix, here, ks[1..]);
    }
  }

  lemma {:induction false} FixKindsAt(fix: Fix, section: string, ks: seq<Kind>, n: nat)
    requires n < |ks|
    ensures FixKinds(fix, section, ks)[n] == FixKind(fix, End(section, ks[..n + 1]), ks[n])
    decreases |ks|
  {
    assert ks[..n + 1][0] == ks[0] && ks[..n + 1][1..] == ks[1..][..n];
    if n > 0 {
      FixKindsAt(fix, After(section, ks[0]), ks[1..], n - 1);
    }
  }

  lemma {:induction false} SectionsKept(fix: Fix, section: string, ks: seq<Kind>, n: nat)
    requires Tidy(fix) && n <= |ks|
    ensures End(section, FixKinds(fix, section, ks)[..n]) == End(section, ks[..n])
    decreases |ks|
  {
    if n > 0 {
      var r := FixKinds(fix, section, ks);
      var here := After(section, ks[0]);
      FixOne(fix, section, ks[0]);
      SectionsKept(fix, here, ks[1..], n - 1);
      assert ks[..n][1..] == ks[1..][..n - 1];
      assert r[..n][1..] == FixKinds(fix, here, ks[1..])[..n - 1];
    }
  }

  // ------------------------------------------------------------------------------- lines

  function FixLine(fix: Fix, section: string, line: string): string {
    var k := Classify(line);
    if !k.Entry? then line
    else
      match fix(section, k.key, Strip(k.raw))
      case None => line
      case Some(v) => Render(k.indent, k.key, k.sep, v)
  }

  function SectionOn(lines: seq<string>, n: nat): string
    requires n < |lines|
  {
    End("", Kinds(lines)[..n + 1])
  }

  function Cleaned(fix: Fix, lines: seq<string>): (r: seq<string>)
    ensures |r| == |lines|
  {
    seq(|lines|, n requires 0 <= n < |lines| => FixLine(fix, SectionOn(lines, n), lines[n]))
  }

  lemma RenderTrimmed(indent: string, key: string, sep: char, value: string)
    requires AllBlank(indent) && ValidKey(key) && sep in {'=', ':'} && Trimmed(value)
    ensures Classify(Render(indent, key, sep, value)) == Entry(indent, key, sep, value)
  {
    ClassifyRender(indent, key, sep, value);
    TrimmedDropsNone(value);
  }

  lemma TrimmedDropsNone(value: string)
    requires Trimmed(value)
    ensures DropBlanks(value) == value
  {
    assert Span(value, IsBlank) == 0 by { assert value != "" ==> !IsBlank(value[0]); }
  }

  lemma FixLineKind(fix: Fix, section: string, line: string)
    requires Tidy(fix)
    ensures Classify(FixLine(fix, section, line)) == FixKind(fix, section, Classify(line))
    ensures FixLine(fix, section, FixLine(fix, section, line)) == FixLine(fix, section, line)
  {
    var k := Classify(line);
    if k.Entry? {
      assert TidyAt(fix, section, k.key, Strip(k.raw));
      match fix(section, k.key, Strip(k.raw))
      case None =>
      case Some(v) =>
        RenderTrimmed(k.indent, k.key, k.sep, v);
        TrimmedIsFixed(v);
    }
  }

  lemma SweptKinds(fix: Fix, lines: seq<string>)
    requires Tidy(fix)
    ensures Kinds(Cleaned(fix, lines)) == FixKinds(fix, "", Kinds(lines))
  {
    var a, b := Kinds(Cleaned(fix, lines)), FixKinds(fix, "", Kinds(lines));
    forall n | 0 <= n < |lines| ensures a[n] == b[n] {
      FixKindsAt(fix, "", Kinds(lines), n);
      FixLineKind(fix, SectionOn(lines, n), lines[n]);
      EachAt(Classify, lines, n);
      EachAt(Classify, Cleaned(fix, lines), n);
    }
  }

  /** The settings of a swept file: the same ones in the same order, with the fixed values. */
  lemma SweptSettings(fix: Fix, lines: seq<string>)
    requires Tidy(fix)
    ensures Settings(Cleaned(fix, lines)) == FixSettings(fix, Settings(lines))
  {
    SweptKinds(fix, lines);
    SweptView(fix, "", Kinds(lines));
  }

  /** Line by line: an entry with a fix is rendered anew with it, in its place, and every other line stays. */
  lemma SweptLines(fix: Fix, lines: seq<string>, n: nat)
    requires n < |lines|
    ensures var k, after := Classify(lines[n]), Cleaned(fix, lines);
            && |after| == |lines|
            && (!k.Entry? ==> after[n] == lines[n])
            && (k.Entry? ==> match fix(SectionOn(lines, n), k.key, Strip(k.raw))
                             case None => after[n] == lines[n]
                             case Some(v) => after[n] == k.indent + k.key + " " + [k.sep] + " " + v)
  {
    var k := Classify(lines[n]);
    if k.Entry? { FixedText(fix, SectionOn(lines, n), lines[n], k); }
  }

  lemma FixedText(fix: Fix, section: string, line: string, k: Kind)
    requires k == Classify(line) && k.Entry?
    ensures match fix(section, k.key, Strip(k.raw))
            case None => FixLine(fix, section, line) == line
            case Some(v) => FixLine(fix, section, line) == k.indent + k.key + " " + [k.sep] + " " + v
  {
    match fix(section, k.key, Strip(k.raw))
    case None =>
    case Some(v) => RenderText(k.indent, k.key, k.sep, v);
  }

  lemma SweptFirst(fix: Fix, v: seq<Setting>, section: string, key: string)
    ensures First(FixSettings(fix, v), section, key)
            == match First(v, section, key)
               case Some(s) => Some(FixSetting(fix, s))
               case None => None
  {
    IndexIsFirst(FixSettings(fix, v), section, key, IndexOf(v, section, key));
  }

  /** A second sweep finds every line as it would write it. */
  lemma SweepIdempotent(fix: Fix, lines: seq<string>)
    requires Tidy(fix)
    ensures Cleaned(fix, Cleaned(fix, lines)) == Cleaned(fix, lines)
  {
    SweptKinds(fix, lines);
    forall n | 0 <= n < |lines|
      ensures Cleaned(fix, Cleaned(fix, lines))[n] == Cleaned(fix, lines)[n]
    {
      SectionsKept(fix, "", Kinds(lines), n + 1);
      FixLineKind(fix, SectionOn(lines, n), lines[n]);
    }
  }

  lemma SweptOneLine(fix: Fix, lines: seq<string>)
    requires Tidy(fix) && AllOneLine(lines)
    ensures AllOneLine(Cleaned(fix, lines))
  {
    var r := Cleaned(fix, lines);
    forall n | 0 <= n < |lines| ensures OneLine(r[n]) {
      var k := Classify(lines[n]);
      assert lines[n] in lines;
      if k.Entry? {
        assert TidyAt(fix, SectionOn(lines, n), k.key, Strip(k.raw));
        match fix(SectionOn(lines, n), k.key, Strip(k.raw))
        case None =>
        case Some(v) =>
          PartsOneLine(lines[n]);
          StripOneLine(k.raw);
          OneLineRender(k.indent, k.key, k.sep, v);
      }
    }
  }

  // ---------------------------------------------------------------------------- the loop

  /** Number of positions at which two texts of the same length differ. */
  function Differences(a: seq<string>, b: seq<string>): (n: nat)
    requires |a| == |b|
    ensures n == 0 <==> a == b
  {
    if a == [] then 0
    else
      assert a == [a[0]] + a[1..] && b == [b[0]] + b[1..];
      (if a[0] == b[0] then 0 else 1) + Differences(a[1..], b[1..])
  }

  lemma {:induction false} DifferencesUpdate(a: seq<string>, b: seq<string>, n: nat, x: string)
    requires |a| == |b| && n < |b| && a[n] == b[n] && x != b[n]
    ensures Differences(a, b[n := x]) == Differences(a, b) + 1
  {
    if n > 0 {
      assert b[n := x][1..] == b[1..][n - 1 := x];
      DifferencesUpdate(a[1..], b[1..], n - 1, x);
    } else {
      assert b[n := x][1..] == b[1..];
    }
  }

  /** Every entry is an item. */
  lemma {:induction false} EntryHasItem(ks: seq<Kind>, n: nat) returns (j: nat)
    requires n < |ks| && ks[n].Entry?
    ensures j < |Items(ks)| && Items(ks)[j].line == n
  {
    var last := |ks| - 1;
    if n == last {
      j := |Items(ks[..last])|;
    } else {
      j := EntryHasItem(ks[..last], n);
    }
  }

  lemma PrefixOfPrefix(ks: seq<Kind>, last: nat, n: nat)
    requires n < last <= |ks|
    ensures ks[..last][n] == ks[n] && ks[..last][..n + 1] == ks[..n + 1]
  {
  }

  lemma {:induction false} ItemIsEntry(ks: seq<Kind>, j: nat)
    requires j < |Items(ks)|
    ensures var item := Items(ks)[j];
            item.line < |ks| && OneItem(item.line, ks[item.line], End("", ks[..item.line + 1])) == [item]
  {
    var last := |ks| - 1;
    var before := Items(ks[..last]);
    assert ks[..last + 1] == ks;
    ItemsStep(ks, last);
    if j < |before| {
      ItemIsEntry(ks[..last], j);
      PrefixOfPrefix(ks, last, before[j].line);
    }
  }

  predicate Reached(items: seq<Item>, i: nat, n: nat)
    requires i <= |items|
  {
    exists j :: 0 <= j < i && items[j].line == n
  }

  /** After `i` entries, their lines are as in `goal` and the others as in `lines`. */
  ghost predicate Progress(goal: seq<string>, lines: seq<string>, r: seq<string>, items: seq<Item>, i: nat) {
    && i <= |items| && |r| == |lines| == |goal|
    && forall n | 0 <= n < |lines| :: r[n] == if Reached(items, i, n) then goal[n] else lines[n]
  }

  lemma ProgressStep(goal: seq<string>, lines: seq<string>, r: seq<string>, items: seq<Item>, i: nat)
    requires i < |items| && items[i].line < |lines| && Progress(goal, lines, r, items, i)
    requires forall j, m | 0 <= j < m < |items| :: items[j].line < items[m].line
    ensures r[items[i].line] == lines[items[i].line]
    ensures Progress(goal, lines, r[items[i].line := goal[items[i].line]], items, i + 1)
  {
    forall n | 0 <= n < |lines|
      ensures Reached(items, i + 1, n) <==> Reached(items, i, n) || n == items[i].line
    {
      if n == items[i].line { assert items[i].line == n; }
    }
  }

  /** What `goal` holds on the line of an item: the item's fix, or the line as it was. */
  ghost predicate Wanted(fix: Fix, lines: seq<string>, goal: seq<string>, item: Item)
    requires |goal| == |lines|
  {
    && item.line < |lines|
    && goal[item.line] == match fix(item.section, item.key, item.value)
                          case None => lines[item.line]
                          case Some(v) => Render(item.indent, item.key, item.sep, v)
  }

  lemma ItemsWanted(fix: Fix, lines: seq<string>)
    ensures forall j | 0 <= j < |Items(Kinds(lines))| :: Wanted(fix, lines, Cleaned(fix, lines), Items(Kinds(lines))[j])
  {
    forall j | 0 <= j < |Items(Kinds(lines))| ensures Wanted(fix, lines, Cleaned(fix, lines), Items(Kinds(lines))[j]) {
      ItemWanted(fix, lines, j);
    }
  }

  lemma ItemWanted(fix: Fix, lines: seq<string>, j: nat)
    requires j < |Items(Kinds(lines))|
    ensures Wanted(fix, lines, Cleaned(fix, lines), Items(Kinds(lines))[j])
  {
    var item := Items(Kinds(lines))[j];
    ItemIsEntry(Kinds(lines), j);
    EachAt(Classify, lines, item.line);
    FixedItem(fix, SectionOn(lines, item.line), lines[item.line], item);
  }

  lemma FixedItem(fix: Fix, section: string, line: string, item: Item)
    requires OneItem(item.line, Classify(line), section) == [item]
    ensures FixLine(fix, section, line) == match fix(item.section, item.key, item.value)
                                           case None => line
                                           case Some(v) => Render(item.indent, item.key, item.sep, v)
  {
    var k := Classify(line);
    assert k.Entry? && [item][0] == Item(item.line, k.indent, k.key, k.sep, Strip(k.raw), section);
  }

  lemma ProgressDone(fix: Fix, lines: seq<string>, r: seq<string>)
    requires Progress(Cleaned(fix, lines), lines, r, Items(Kinds(lines)), |Items(Kinds(lines))|)
    ensures r == Cleaned(fix, lines)
  {
    forall n | 0 <= n < |lines| ensures r[n] == Cleaned(fix, lines)[n] {
      EachAt(Classify, lines, n);
      if Kinds(lines)[n].Entry? {
        var j := EntryHasItem(Kinds(lines), n);
        assert Reached(Items(Kinds(lines)), |Items(Kinds(lines))|, n);
      }
    }
  }

  method SweepItems(fix: Fix, lines: seq<string>, items: seq<Item>, ghost goal: seq<string>)
    returns (r: seq<string>, changed: nat)
    requires |goal| == |lines| && forall j | 0 <= j < |items| :: Wanted(fix, lines, goal, items[j])
    requires forall j, m | 0 <= j < m < |items| :: items[j].line < items[m].line
    ensures Progress(goal, lines, r, items, |items|)
    ensures changed == Differences(lines, r)
  {
    r, changed := lines, 0;
    for i := 0 to |items|
      invariant Progress(goal, lines, r, items, i)
      invariant changed == Differences(lines, r)
    {
      assert Wanted(fix, lines, goal, items[i]);
      ProgressStep(goal, lines, r, items, i);
      var more;
      r, more := SweepItem(fix, lines, r, items[i], goal);
      changed := changed + more;
    }
  }

  /** The rendered fix of an entry, when it has one and it is not the line already. */
  method SweepItem(fix: Fix, lines: seq<string>, before: seq<string>, entry: Item, ghost goal: seq<string>)
    returns (r: seq<string>, changed: nat)
    requires |goal| == |lines| == |before| && Wanted(fix, lines, goal, entry)
    requires before[entry.line] == lines[entry.line]
    ensures r == before[entry.line := goal[entry.line]]
    ensures Differences(lines, r) == Differences(lines, before) + changed
  {
    r, changed := before, 0;
    var value := fix(entry.section, entry.key, entry.value);
    if value.Some? {
      var line := Render(entry.indent, entry.key, entry.sep, value.value);
      if before[entry.line] != line {
        DifferencesUpdate(lines, before, entry.line, line);
        r, changed := before[entry.line := line], 1;
      }
    }
  }

  method Sweep(fix: Fix, lines: seq<string>) returns (r: seq<string>, changed: nat)
    ensures r == Cleaned(fix, lines)
    ensures changed == Differences(lines, r)
  {
    var items := ParseLines(lines);
    ItemsMatchView(Kinds(lines));
    ItemsWanted(fix, lines);
    r, changed := SweepItems(fix, lines, items, Cleaned(fix, lines));
    ProgressDone(fix, lines, r);
  }
}
