/** ConfigEditor's line-by-line edits of TOML and INI files (bcfuzzer/mutator.py). */
module LineEditor {
  import opened Results
  import opened Text
  import opened ConfigLines
  import opened LineFormat

  function Edited(lines: seq<string>, section: string, key: string, leaf: string): (r: seq<string>)
    ensures r != []
  {
    var ks := Kinds(lines);
    match Target(ks, section, key)
    case Some(n) => lines[n := Render(ks[n].indent, key, '=', leaf)]
    case None =>
      if Header(section) in ks then Insert(lines, Slot(ks, section), Render("", key, '=', leaf))
      else lines + ["", HeaderLine(section), Render("", key, '=', leaf)]
  }

  /** Line by line: an entry of the key is rendered anew, or a line is put in, or a section follows at the end. */
  lemma LinesKept(lines: seq<string>, section: string, key: string, leaf: string)
    ensures var after, ks := Edited(lines, section, key, leaf), Kinds(lines);
            if Lookup(Settings(lines), section, key).Some? then Rerenders(ks, lines, after, key, leaf)
            else if Header(section) in ks then PutsIn(lines, after, key + " = " + leaf)
            else after == lines + ["", "[" + section + "]", key + " = " + leaf]
  {
    var ks := Kinds(lines);
    AssignmentText("", key, leaf);
    match Target(ks, section, key) {
      case Some(n) =>
        AssignmentText(ks[n].indent, key, leaf);
        assert Replaces(lines, Edited(lines, section, key, leaf), n, ks[n].indent + key + " = " + leaf);
      case None =>
        if Header(section) in ks { InsertPutsIn(lines, Slot(ks, section), Render("", key, '=', leaf)); }
    }
  }

  predicate Rerenders(ks: seq<Kind>, lines: seq<string>, after: seq<string>, key: string, leaf: string) {
    exists i | 0 <= i < |ks| ::
      ks[i].Entry? && ks[i].key == key && Replaces(lines, after, i, ks[i].indent + key + " = " + leaf)
  }

  lemma AssignmentText(indent: string, key: string, leaf: string)
    ensures Render(indent, key, '=', leaf) == indent + key + " = " + leaf
    ensures indent == "" ==> Render(indent, key, '=', leaf) == key + " = " + leaf
  {
  }

  method FindTarget(items: seq<Item>, section: string, key: string) returns (target: Option<Item>)
    ensures var j := FirstItem(items, section, key);
            target == if j < |items| then Some(items[j]) else None
  {
    for j := 0 to |items|
      invariant j <= FirstItem(items, section, key)
    {
      if items[j].section == section && items[j].key == key { return Some(items[j]); }
    }
    target := None;
  }

  lemma TargetValue(ks: seq<Kind>, section: string, key: string)
    ensures var items := Items(ks);
            var j := FirstItem(items, section, key);
            Lookup(View("", ks), section, key) == if j < |items| then Some(items[j].value) else None
  {
    ItemsMatchView(ks);
    IndexIsFirst(View("", ks), section, key, FirstItem(Items(ks), section, key));
  }

  method ReadValue(lines: seq<string>, section: string, key: string) returns (value: Option<string>)
    ensures value == Lookup(Settings(lines), section, key)
  {
    var items := ParseLines(lines);
    var entry := FindTarget(items, section, key);
    TargetValue(Kinds(lines), section, key);
    value := if entry.Some? then Some(entry.value.value) else None;
  }

  method FindSlot(items: seq<Item>, section: string, default: nat) returns (at: nat)
    ensures at == InsertAt(items, section, default)
  {
    at := default;
    for i := 0 to |items|
      invariant at == InsertAt(items[..i], section, default)
    {
      assert items[..i + 1][..i] == items[..i];
      if items[i].section == section { at := items[i].line + 1; }
    }
    assert items[..|items|] == items;
  }

  predicate IsHeaderLine(line: string, section: string)
    ensures IsHeaderLine(line, section) <==> Classify(line) == Header(section)
  {
    HeaderIff(line, section);
    Strip(line) == HeaderLine(section)
  }

  method FindHeader(lines: seq<string>, section: string) returns (found: bool)
    ensures found <==> Header(section) in Kinds(lines)
  {
    found := exists line | line in lines :: IsHeaderLine(line, section);
    EachMembers(Classify, lines);
  }

  method WriteLine(lines: seq<string>, section: string, key: string, leaf: string) returns (r: seq<string>)
    ensures r == Edited(lines, section, key, leaf)
  {
    ghost var ks := Kinds(lines);
    var items := ParseLines(lines);
    var target := FindTarget(items, section, key);
    ItemsMatchView(ks);
    var line := Render(if target.Some? then target.value.indent else "", key, '=', leaf);
    if target.Some? {
      r := lines[target.value.line := line];
    } else {
      var at := FindSlot(items, section, |lines|);
      InsertAtBound(ks, section);
      var found := FindHeader(lines, section);
      r := lines;
      if !found {
        r := r + ["", HeaderLine(section)];
        at := |r|;
      }
      r := Insert(r, at, line);
      InsertLast(lines, "", HeaderLine(section), line);
    }
  }

  lemma InsertLast(s: seq<string>, a: string, b: string, x: string)
    ensures Insert(s + [a, b], |s + [a, b]|, x) == s + [a, b, x]
  {
  }

  // ----------------------------------------------------------------- the put/get law

  predicate Assignment(k: Kind, key: string, leaf: string) {
    k.Entry? && k.key == key && !Opens(k) && Strip(k.raw) == Strip(leaf)
  }

  lemma RenderedEntry(indent: string, key: string, leaf: string)
    requires AllBlank(indent) && ValidKey(key)
    ensures Assignment(Classify(Render(indent, key, '=', leaf)), key, leaf)
  {
    ClassifyRender(indent, key, '=', leaf);
    DropBlanksStrips(leaf);
  }

  lemma KindsAppend(lines: seq<string>, a: string, b: string, c: string)
    ensures Kinds(lines + [a, b, c]) == Kinds(lines) + [Classify(a), Classify(b), Classify(c)]
  {
    EachConcat(Classify, lines, [a, b, c]);
    EachIsMap(Classify, [a, b, c]);
    assert Each(Classify, [a, b, c]) == [Classify(a), Classify(b), Classify(c)];
  }

  lemma HeaderKinds(section: string)
    ensures Classify("") == Plain && Classify(HeaderLine(section)) == Header(section)
  {
    TrimmedIsFixed(HeaderLine(section));
    HeaderIff(HeaderLine(section), section);
  }

  /** The text edit is the kind edit with an entry that carries the value. */
  lemma EditedKinds(lines: seq<string>, section: string, key: string, leaf: string) returns (k: Kind)
    requires ValidKey(key)
    ensures Assignment(k, key, leaf)
    ensures Kinds(Edited(lines, section, key, leaf)) == EditKinds(Kinds(lines), section, k)
  {
    var ks := Kinds(lines);
    match Target(ks, section, key) {
      case Some(n) =>
        var line := Render(ks[n].indent, key, '=', leaf);
        EachAt(Classify, lines, n);
        RenderedEntry(ks[n].indent, key, leaf);
        EachEdits(Classify, lines, n, line);
        k := Classify(line);
      case None =>
        var line := Render("", key, '=', leaf);
        RenderedEntry("", key, leaf);
        k := Classify(line);
        if Header(section) in ks {
          EachEdits(Classify, lines, Slot(ks, section), line);
        } else {
          HeaderKinds(section);
          KindsAppend(lines, "", HeaderLine(section), line);
        }
    }
  }

  /** A placed write puts the trimmed value under its name and leaves every other setting, in its order. */
  lemma WriteLinePlaced(lines: seq<string>, section: string, key: string, leaf: string)
    requires ValidKey(key) && Placeable(Kinds(lines), section, key)
    ensures Put(Settings(lines), Settings(Edited(lines, section, key, leaf)), Written(section, key, Strip(leaf)))
  {
    var k := EditedKinds(lines, section, key, leaf);
    WritePlaced(Kinds(lines), section, k);
  }

  /** Elsewhere any two values read as the same. */
  lemma NotPlaced(lines: seq<string>, section: string, key: string, a: string, b: string)
    requires ValidKey(key)
    ensures Placeable(Kinds(lines), section, key)
            || Lookup(Settings(Edited(lines, section, key, a)), section, key)
               == Lookup(Settings(Edited(lines, section, key, b)), section, key)
  {
    if !Placeable(Kinds(lines), section, key) {
      var k0 := EditedKinds(lines, section, key, a);
      var k1 := EditedKinds(lines, section, key, b);
      Misplaced(Kinds(lines), section, k0);
      Misplaced(Kinds(lines), section, k1);
    }
  }
}
