/**
 * The put/get law on the text of a file: _write_line joins the lines it has edited, and
 * read_value splits the text again (bcfuzzer/mutator.py).
 */
module EditedFiles {
  import opened Results
  import opened Text
  import opened ConfigLines
  import opened LineFormat
  import opened LineEditor

  /** What _write_line leaves in the file. */
  function Rewritten(text: string, section: string, key: string, leaf: string): string {
    JoinLines(Edited(SplitLines(text), section, key, leaf))
  }

  /** What read_value finds in it. */
  function ReadBack(text: string, section: string, key: string): Option<string> {
    Lookup(Settings(SplitLines(text)), section, key)
  }

  // ---------------------------------------------------------------- where the entry comes to lie

  /** An entry with no earlier setting of its name, in its section, is what is read, whatever follows. */
  lemma EntryReads(pre: seq<Kind>, k: Kind, more: seq<Kind>, section: string)
    requires k.Entry? && !Opens(k) && End("", pre) == section
    requires IndexOf(View("", pre), section, k.key) == |View("", pre)|
    ensures Lookup(View("", pre + ([k] + more)), section, k.key) == Some(Strip(k.raw))
  {
    EntryView(pre, k, more);
    FoundHere(View("", pre), Written(section, k.key, Strip(k.raw)), View(section, more));
  }

  lemma FoundHere(v: seq<Setting>, s: Setting, w: seq<Setting>)
    requires IndexOf(v, s.section, s.key) == |v|
    ensures Lookup((v + [s]) + w, s.section, s.key) == Some(s.value)
  {
    IndexIsFirst((v + [s]) + w, s.section, s.key, |v|);
  }

  lemma NoneInPrefix(v: seq<Setting>, n: nat, section: string, key: string)
    requires n <= IndexOf(v, section, key)
    ensures IndexOf(v[..n], section, key) == n
  {
    IndexIsFirst(v[..n], section, key, n);
  }

  /** They end in the section of the write and hold no setting of its name. */
  ghost predicate Leads(pre: seq<Kind>, section: string, key: string) {
    End("", pre) == section && IndexOf(View("", pre), section, key) == |View("", pre)|
  }

  lemma TargetLeads(ks: seq<Kind>, section: string, key: string, n: nat)
    requires Target(ks, section, key) == Some(n) && Placeable(ks, section, key)
    ensures Leads(ks[..n], section, key)
  {
    SettingOfEntry(ks, n);
    NoneInPrefix(View("", ks), |View("", ks[..n])|, section, key);
  }

  lemma SlotLeads(ks: seq<Kind>, section: string, key: string)
    requires Target(ks, section, key) == None && Placeable(ks, section, key) && Header(section) in ks
    ensures Leads(ks[..Slot(ks, section)], section, key)
  {
    SectionAtSlot(ks, section);
    NoneEarlier(ks, Slot(ks, section), section, key);
  }

  lemma NoneEarlier(ks: seq<Kind>, n: nat, section: string, key: string)
    requires n <= |ks| && Target(ks, section, key) == None
    ensures IndexOf(View("", ks[..n]), section, key) == |View("", ks[..n])|
  {
    ViewPrefix(ks, n);
    NoneInPrefix(View("", ks), |View("", ks[..n])|, section, key);
  }

  lemma ViewPrefix(ks: seq<Kind>, n: nat)
    requires n <= |ks|
    ensures View("", ks[..n]) <= View("", ks)
  {
    assert ks == ks[..n] + ks[n..];
    ViewConcat("", ks[..n], ks[n..]);
  }

  lemma SectionLeads(ks: seq<Kind>, section: string, key: string)
    requires Target(ks, section, key) == None
    ensures Leads(ks + [Plain, Header(section)], section, key)
  {
    assert ks + [Plain, Header(section)] == ks + [Plain] + [Header(section)];
    ViewSnoc("", ks, Plain);
    ViewSnoc("", ks + [Plain], Header(section));
    assert View("", ks) + [] + [] == View("", ks);
  }

  lemma EachPrefix(lines: seq<string>, n: nat)
    requires n <= |lines|
    ensures Kinds(lines[..n]) == Kinds(lines)[..n]
  {
    assert lines == lines[..n] + lines[n..];
    EachConcat(Classify, lines[..n], lines[n..]);
  }

  // ------------------------------------------------------------------------------- the law

  lemma FirstLineRender(indent: string, key: string, leaf: string)
    requires AllBlank(indent) && ValidKey(key)
    ensures FirstLine(Render(indent, key, '=', leaf)) == Render(indent, key, '=', FirstLine(leaf))
  {
    var front := indent + (key + " = ");
    assert forall c | c in front :: c in indent || c in key || c in " = ";
    assert forall s :: Render(indent, key, '=', s) == front + s;
    FirstLineOf(front, leaf);
  }

  lemma LineReads(pre: seq<string>, indent: string, section: string, key: string, leaf: string, more: seq<string>)
    requires AllBlank(indent) && ValidKey(key) && Leads(Kinds(pre), section, key)
    ensures Lookup(Settings(pre + ([Render(indent, key, '=', leaf)] + more)), section, key) == Some(Strip(leaf))
  {
    var line := Render(indent, key, '=', leaf);
    RenderedEntry(indent, key, leaf);
    EachConcat(Classify, pre, [line] + more);
    assert ([line] + more)[1..] == more;
    EntryReads(Kinds(pre), Classify(line), Kinds(more), section);
  }

  /** A rendered line between others, joined and split again. */
  lemma WrittenReads(pre: seq<string>, indent: string, post: seq<string>, section: string, key: string, leaf: string)
    requires AllOneLine(pre) && AllBlank(indent) && ValidKey(key) && Leads(Kinds(pre), section, key)
    ensures ReadBack(JoinLines(pre + ([Render(indent, key, '=', leaf)] + post)), section, key)
            == Some(Strip(FirstLine(leaf)))
  {
    var more := SplitAround(pre, Render(indent, key, '=', leaf), post);
    FirstLineRender(indent, key, leaf);
    LineReads(pre, indent, section, key, FirstLine(leaf), more);
  }

  lemma ReplacedReads(lines: seq<string>, section: string, key: string, leaf: string, n: nat)
    requires AllOneLine(lines) && ValidKey(key) && Placeable(Kinds(lines), section, key)
    requires Target(Kinds(lines), section, key) == Some(n)
    ensures ReadBack(JoinLines(Edited(lines, section, key, leaf)), section, key) == Some(Strip(FirstLine(leaf)))
  {
    var indent := Kinds(lines)[n].indent;
    IndentBlank(lines, n);
    EachPrefix(lines, n);
    TargetLeads(Kinds(lines), section, key, n);
    UpdateAround(lines, n, Render(indent, key, '=', leaf));
    WrittenReads(lines[..n], indent, lines[n + 1..], section, key, leaf);
  }

  lemma IndentBlank(lines: seq<string>, n: nat)
    requires n < |lines|
    ensures Kinds(lines)[n].Entry? ==> AllBlank(Kinds(lines)[n].indent)
  {
    EachAt(Classify, lines, n);
  }

  lemma UpdateAround(lines: seq<string>, n: nat, line: string)
    requires n < |lines|
    ensures lines[n := line] == lines[..n] + ([line] + lines[n + 1..])
  {
  }

  lemma InsertedReads(lines: seq<string>, section: string, key: string, leaf: string)
    requires AllOneLine(lines) && ValidKey(key) && Placeable(Kinds(lines), section, key)
    requires Target(Kinds(lines), section, key) == None && Header(section) in Kinds(lines)
    ensures ReadBack(JoinLines(Edited(lines, section, key, leaf)), section, key) == Some(Strip(FirstLine(leaf)))
  {
    var at, line := Slot(Kinds(lines), section), Render("", key, '=', leaf);
    EachPrefix(lines, at);
    SlotLeads(Kinds(lines), section, key);
    InsertAround(lines, at, line);
    WrittenReads(lines[..at], "", lines[at..], section, key, leaf);
  }

  lemma InsertAround(lines: seq<string>, at: nat, line: string)
    requires at <= |lines|
    ensures Insert(lines, at, line) == lines[..at] + ([line] + lines[at..])
  {
  }

  lemma AppendedReads(lines: seq<string>, section: string, key: string, leaf: string)
    requires AllOneLine(lines) && ValidKey(key) && OneLine(section)
    requires Target(Kinds(lines), section, key) == None && Header(section) !in Kinds(lines)
    ensures ReadBack(JoinLines(Edited(lines, section, key, leaf)), section, key) == Some(Strip(FirstLine(leaf)))
  {
    var h, line := HeaderLine(section), Render("", key, '=', leaf);
    HeaderOneLine(lines, section);
    HeaderAppended(lines, section);
    SectionLeads(Kinds(lines), section, key);
    assert lines + ["", h, line] == (lines + ["", h]) + ([line] + []);
    WrittenReads(lines + ["", h], "", [], section, key, leaf);
  }

  lemma HeaderOneLine(lines: seq<string>, section: string)
    requires AllOneLine(lines) && OneLine(section)
    ensures AllOneLine(lines + ["", HeaderLine(section)])
  {
    OneLineHeader(section);
    assert forall l | l in lines + ["", HeaderLine(section)] :: l in lines || l == "" || l == HeaderLine(section);
  }

  lemma HeaderAppended(lines: seq<string>, section: string)
    ensures Kinds(lines + ["", HeaderLine(section)]) == Kinds(lines) + [Plain, Header(section)]
  {
    var more := ["", HeaderLine(section)];
    HeaderKinds(section);
    EachConcat(Classify, lines, more);
    EachIsMap(Classify, more);
    assert Each(Classify, more) == [Classify(""), Classify(HeaderLine(section))];
  }

  /** A placed write of any value is read back as the value's first line, trimmed. */
  lemma ReadsFirstLine(text: string, section: string, key: string, leaf: string)
    requires ValidKey(key) && OneLine(section) && Placeable(Kinds(SplitLines(text)), section, key)
    ensures ReadBack(Rewritten(text, section, key, leaf), section, key) == Some(Strip(FirstLine(leaf)))
  {
    var lines := SplitLines(text);
    match Target(Kinds(lines), section, key) {
      case Some(n) => ReplacedReads(lines, section, key, leaf, n);
      case None =>
        if Header(section) in Kinds(lines) {
          InsertedReads(lines, section, key, leaf);
        } else {
          AppendedReads(lines, section, key, leaf);
        }
    }
  }

  /** So a value is read back, trimmed, exactly when no line break in it is followed by anything but space. */
  lemma ReadsBackIff(text: string, section: string, key: string, leaf: string)
    requires ValidKey(key) && OneLine(section) && Placeable(Kinds(SplitLines(text)), section, key)
    ensures ReadBack(Rewritten(text, section, key, leaf), section, key) == Some(Strip(leaf)) <==> OneLine(RStrip(leaf))
  {
    ReadsFirstLine(text, section, key, leaf);
    FirstLineStrips(leaf);
  }

  /** No setting of a text lies in a section whose name holds a line break. */
  lemma SectionsOneLine(section: string, ks: seq<Kind>)
    requires OneLine(section) && forall k | k in ks :: (k.Header? ==> OneLine(k.name)) && (k.Entry? ==> OneLine(k.key))
    ensures forall s | s in View(section, ks) :: OneLine(s.section)
    decreases |ks|
  {
    if ks != [] {
      assert ks[0] in ks;
      SectionsOneLine(After(section, ks[0]), ks[1..]);
      assert forall s | s in View(section, ks) :: s in One(section, ks[0]) || s in View(After(section, ks[0]), ks[1..]);
    }
  }

  lemma KindOneLine(line: string)
    requires OneLine(line)
    ensures var k := Classify(line); (k.Header? ==> OneLine(k.name)) && (k.Entry? ==> OneLine(k.key))
  {
    StripOneLine(line);
    var s := Strip(line);
    if Bracketed(s) {
      assert forall c | c in s[1..|s| - 1] :: c in s;
    } else {
      PartsOneLine(line);
    }
  }

  lemma BrokenSectionReads(text: string, section: string, key: string)
    requires !OneLine(section)
    ensures ReadBack(text, section, key) == None
  {
    var lines := SplitLines(text);
    EachMembers(Classify, lines);
    forall k | k in Kinds(lines) ensures (k.Header? ==> OneLine(k.name)) && (k.Entry? ==> OneLine(k.key)) {
      var line :| line in lines && Classify(line) == k;
      KindOneLine(line);
    }
    SectionsOneLine("", Kinds(lines));
    var v := Settings(lines);
    assert forall i | 0 <= i < |v| :: v[i] in v;
    IndexIsFirst(v, section, key, |v|);
  }

  /** On the text of a file, put then get holds for every one-line value exactly where the write is placed. */
  lemma FilePutGetIff(text: string, section: string, key: string)
    requires ValidKey(key)
    ensures (forall leaf | OneLine(leaf) ::
            ReadBack(Rewritten(text, section, key, leaf), section, key) == Some(Strip(leaf)))
            <==> OneLine(section) && Placeable(Kinds(SplitLines(text)), section, key)
  {
    if !OneLine(section) {
      BrokenSectionReads(Rewritten(text, section, key, ""), section, key);
    } else if Placeable(Kinds(SplitLines(text)), section, key) {
      forall leaf | OneLine(leaf)
        ensures ReadBack(Rewritten(text, section, key, leaf), section, key) == Some(Strip(leaf))
      {
        PlacedFileReads(text, section, key, leaf);
      }
    } else {
      TwoLeaves();
      SameRead(text, section, key, "0", "1");
    }
  }

  lemma PlacedFileReads(text: string, section: string, key: string, leaf: string)
    requires ValidKey(key) && OneLine(section) && OneLine(leaf) && Placeable(Kinds(SplitLines(text)), section, key)
    ensures ReadBack(Rewritten(text, section, key, leaf), section, key) == Some(Strip(leaf))
  {
    ReadsFirstLine(text, section, key, leaf);
    assert FirstLine(leaf) == leaf;
  }

  lemma TwoLeaves()
    ensures OneLine("0") && OneLine("1") && Strip("0") != Strip("1")
  {
    TrimmedIsFixed("0");
    TrimmedIsFixed("1");
  }

  /** Where a write cannot be placed, what is read back does not depend on the value. */
  lemma SameRead(text: string, section: string, key: string, a: string, b: string)
    requires ValidKey(key) && OneLine(section) && !Placeable(Kinds(SplitLines(text)), section, key)
    requires OneLine(a) && OneLine(b)
    ensures ReadBack(Rewritten(text, section, key, a), section, key)
            == ReadBack(Rewritten(text, section, key, b), section, key)
  {
    NotPlaced(SplitLines(text), section, key, a, b);
    RewrittenLines(text, section, key, a);
    RewrittenLines(text, section, key, b);
  }

  /** One-line parts come back as the lines that were written, so every other setting keeps its place too. */
  lemma RewrittenLines(text: string, section: string, key: string, leaf: string)
    requires ValidKey(key) && OneLine(section) && OneLine(leaf)
    ensures SplitLines(Rewritten(text, section, key, leaf)) == Edited(SplitLines(text), section, key, leaf)
  {
    assert forall c | c in key :: IsKeyChar(c);
    EditedText(SplitLines(text), section, key, leaf);
  }

  /** A placed write of a one-line value leaves every other setting of the file, with its value and in its order. */
  lemma FilePut(text: string, section: string, key: string, leaf: string)
    requires ValidKey(key) && OneLine(section) && OneLine(leaf) && Placeable(Kinds(SplitLines(text)), section, key)
    ensures Put(Settings(SplitLines(text)), Settings(SplitLines(Rewritten(text, section, key, leaf))),
                Written(section, key, Strip(leaf)))
  {
    RewrittenLines(text, section, key, leaf);
    WriteLinePlaced(SplitLines(text), section, key, leaf);
  }

  /** An edit of whole lines with one-line parts reads back from the text as the lines it wrote. */
  lemma EditedText(lines: seq<string>, section: string, key: string, leaf: string)
    requires AllOneLine(lines) && OneLine(section) && OneLine(key) && OneLine(leaf)
    ensures SplitLines(JoinLines(Edited(lines, section, key, leaf))) == Edited(lines, section, key, leaf)
  {
    var ks := Kinds(lines);
    OneLineHeader(section);
    match Target(ks, section, key) {
      case Some(n) =>
        EachAt(Classify, lines, n);
        OneLineRender(ks[n].indent, key, '=', leaf);
        OneLineEdits(lines, n, "", HeaderLine(section), Render(ks[n].indent, key, '=', leaf));
      case None =>
        OneLineRender("", key, '=', leaf);
        OneLineEdits(lines, Slot(ks, section), "", HeaderLine(section), Render("", key, '=', leaf));
    }
    SplitJoin(Edited(lines, section, key, leaf));
  }
}
