/** set_toml_scalar and the toml branch of apply_patches (targets.py). */
module TomlPatches {
  import opened Results
  import opened Text
  import opened ConfigLines
  import opened LineFormat

  // ------------------------------------------------------------------ how a line is read

  predicate NotEquals(c: char) { c != '=' }

  /** A header, or `key = value` cut at the first '='. */
  function TomlKind(line: string): Kind {
    var s := Strip(line);
    if Bracketed(s) then Header(s[1..|s| - 1])
    else
      var i := Span(line, NotEquals);
      if i == |line| then Plain else Entry("", Strip(line[..i]), '=', line[i + 1..])
  }

  function TomlKinds(lines: seq<string>): seq<Kind> { Each(TomlKind, lines) }
  function TomlSettings(lines: seq<string>): seq<Setting> { View("", TomlKinds(lines)) }

  /** Keys for which the pattern `^\s*key\s*=` says no more than that the line's key is this one. */
  predicate PlainKey(key: string) {
    key != "" && key[0] != '[' && forall c | c in key :: !IsSpace(c) && c != '='
  }

  /** The pattern as it is written. */
  predicate Matches(line: string, key: string) {
    var r := LStrip(line);
    key <= r && var t := LStrip(r[|key|..]); t != "" && t[0] == '='
  }

  function Parts(pre: string, key: string, post: string, raw: string): string {
    pre + (key + (post + ("=" + raw)))
  }

  lemma PartsCut(pre: string, key: string, post: string, raw: string)
    ensures Parts(pre, key, post, raw) == (pre + (key + post)) + ("=" + raw)
  {
  }

  /** A line cut at its first '=', from its parts. */
  lemma CutAtEquals(pre: string, key: string, post: string, raw: string)
    requires AllSpace(pre) && AllSpace(post) && PlainKey(key)
    ensures var line, front := Parts(pre, key, post, raw), pre + (key + post);
            Span(line, NotEquals) == |front| && line[..|front|] == front && line[|front| + 1..] == raw
  {
    var front := pre + (key + post);
    PartsCut(pre, key, post, raw);
    forall c | c in front ensures NotEquals(c) {
      assert c in pre || c in key || c in post;
    }
    SpanOf(front, "=" + raw, NotEquals);
  }

  lemma LineOfMatch(line: string, key: string) returns (pre: string, post: string, raw: string)
    requires Matches(line, key)
    ensures AllSpace(pre) && AllSpace(post) && line == Parts(pre, key, post, raw)
  {
    pre := LStripSplits(line);
    var r := LStrip(line);
    var u := r[|key|..];
    PrefixRest(r, key);
    post := LStripSplits(u);
    raw := LStrip(u)[1..];
    PrefixRest(LStrip(u), "=");
    FromParts(line, pre, r, key, u, post, raw);
  }

  lemma PrefixRest(s: string, prefix: string)
    requires prefix <= s
    ensures s == prefix + s[|prefix|..]
  {
  }

  lemma FromParts(line: string, pre: string, r: string, key: string, u: string, post: string, raw: string)
    requires line == pre + r && r == key + u && u == post + ("=" + raw)
    ensures line == Parts(pre, key, post, raw)
  {
  }

  lemma MatchOfParts(pre: string, key: string, post: string, raw: string)
    requires AllSpace(pre) && AllSpace(post) && PlainKey(key)
    ensures Matches(Parts(pre, key, post, raw), key)
  {
    var tail := post + ("=" + raw);
    LStripPrefix(pre, key + tail);
    assert key[0] in key;
    assert LStrip(key + tail) == key + tail;
    assert (key + tail)[|key|..] == tail;
    LStripPrefix(post, "=" + raw);
  }

  lemma MatchReads(line: string, key: string)
    requires PlainKey(key) && Matches(line, key)
    ensures var i := Span(line, NotEquals); i < |line| && Strip(line[..i]) == key
  {
    var pre, post, raw := LineOfMatch(line, key);
    CutAtEquals(pre, key, post, raw);
    assert key[0] in key && key[|key| - 1] in key;
    StripBetween(pre, key, post);
  }

  lemma ReadMatches(line: string, key: string)
    requires PlainKey(key) && var i := Span(line, NotEquals); i < |line| && Strip(line[..i]) == key
    ensures Matches(line, key)
  {
    var i := Span(line, NotEquals);
    var pre, post := StrippedParts(line[..i]);
    LineCut(line);
    MatchOfCut(line, line[..i], pre, key, post, line[i + 1..]);
  }

  lemma LineCut(line: string)
    requires Span(line, NotEquals) < |line|
    ensures var i := Span(line, NotEquals); line == line[..i] + ("=" + line[i + 1..])
  {
    var i := Span(line, NotEquals);
    assert !NotEquals(line[i]);
    CutAt(line, i);
  }

  lemma CutAt(line: string, i: nat)
    requires i < |line| && line[i] == '='
    ensures line == line[..i] + ("=" + line[i + 1..])
  {
  }

  lemma MatchOfCut(line: string, front: string, pre: string, key: string, post: string, raw: string)
    requires AllSpace(pre) && AllSpace(post) && PlainKey(key)
    requires line == front + ("=" + raw) && front == pre + (key + post)
    ensures Matches(line, key)
  {
    PartsCut(pre, key, post, raw);
    MatchOfParts(pre, key, post, raw);
  }

  /** On a line that is no header the pattern for a plain key finds exactly the lines read under that key. */
  lemma MatchIff(line: string, key: string)
    requires PlainKey(key) && !Bracketed(Strip(line))
    ensures Matches(line, key) <==> TomlKind(line).Entry? && TomlKind(line).key == key
  {
    if Matches(line, key) { MatchReads(line, key); }
    if TomlKind(line).Entry? && TomlKind(line).key == key { ReadMatches(line, key); }
  }

  function TomlLine(key: string, leaf: string): string { key + (" " + ("= " + leaf)) }

  lemma TomlLineKind(key: string, leaf: string)
    requires PlainKey(key)
    ensures TomlKind(TomlLine(key, leaf)) == Entry("", key, '=', " " + leaf)
    ensures Strip(" " + leaf) == Strip(leaf)
  {
    var line := TomlLine(key, leaf);
    assert key[0] in key;
    StripKeepsFirst(line);
    assert line == Parts("", key, " ", " " + leaf);
    CutAtEquals("", key, " ", " " + leaf);
    StripBetween("", key, " ");
    assert "" + (key + " ") == line[..|key| + 1];
    StripPrefix(" ", leaf);
  }

  // ---------------------------------------------------------------------- where it writes

  /** The header line at which the section was last left, among the first n lines. */
  function LeftAt(ks: seq<Kind>, section: string, n: nat): (i: Option<nat>)
    requires n <= |ks|
    ensures i.Some? ==> i.value < n && End("", ks[..i.value]) == section
  {
    if n == 0 then None
    else if ks[n - 1].Header? && End("", ks[..n - 1]) == section then Some(n - 1)
    else LeftAt(ks, section, n - 1)
  }

  function TomlSlot(ks: seq<Kind>, section: string): (at: nat)
    ensures at <= |ks|
  {
    LeftAt(ks, section, |ks|).GetOr(|ks|)
  }

  /** A section never left is still open, once its header has been seen. */
  lemma {:induction false} NeverLeft(ks: seq<Kind>, section: string, n: nat)
    requires n <= |ks| && LeftAt(ks, section, n).None? && Header(section) in ks[..n]
    requires forall k | k in ks :: !Opens(k)
    ensures End("", ks[..n]) == section
  {
    var k := ks[n - 1];
    assert ks[..n] == ks[..n - 1] + [k];
    ViewSnoc("", ks[..n - 1], k);
    if k != Header(section) {
      assert Header(section) in ks[..n - 1];
      assert k in ks;
      NeverLeft(ks, section, n - 1);
    }
  }

  lemma SlotInSection(ks: seq<Kind>, section: string)
    requires Header(section) in ks && forall k | k in ks :: !Opens(k)
    ensures End("", ks[..TomlSlot(ks, section)]) == section
  {
    assert ks[..|ks|] == ks;
    if LeftAt(ks, section, |ks|).None? { NeverLeft(ks, section, |ks|); }
  }

  function NewSection(ks: seq<Kind>, blank: bool, section: string, k: Kind): seq<Kind> {
    ks + (if blank then [Plain] else []) + [Header(section), k]
  }

  function TomlEditKinds(ks: seq<Kind>, blank: bool, section: string, k: Kind): seq<Kind>
    requires k.Entry?
  {
    match Target(ks, section, k.key)
    case Some(n) => ks[n := k]
    case None =>
      if Header(section) in ks then Insert(ks, TomlSlot(ks, section), k) else NewSection(ks, blank, section, k)
  }

  lemma NewSectionView(ks: seq<Kind>, blank: bool, section: string, k: Kind)
    requires k.Entry? && !Opens(k)
    ensures View("", NewSection(ks, blank, section, k)) == View("", ks) + [Written(section, k.key, Strip(k.raw))]
  {
    var start := if blank then ks + [Plain] else ks;
    assert NewSection(ks, blank, section, k) == start + [Header(section)] + [k];
    ViewSnoc("", ks, Plain);
    ViewSnoc("", start, Header(section));
    ViewSnoc("", start + [Header(section)], k);
  }

  /** A toml write is always in place. */
  lemma TomlPut(ks: seq<Kind>, blank: bool, section: string, k: Kind)
    requires k.Entry? && !Opens(k) && forall x | x in ks :: !Opens(x)
    ensures Put(View("", ks), View("", TomlEditKinds(ks, blank, section, k)), Written(section, k.key, Strip(k.raw)))
  {
    var v := View("", ks);
    var s := Written(section, k.key, Strip(k.raw));
    match Target(ks, section, k.key) {
      case Some(n) =>
        SettingOfEntry(ks, n);
        ReplaceEntry(ks, n, k);
      case None =>
        if Header(section) in ks {
          SlotInSection(ks, section);
          InsertEntry(ks, TomlSlot(ks, section), k);
          PutAt(v, View("", TomlEditKinds(ks, blank, section, k)), |View("", ks[..TomlSlot(ks, section)])|, s);
        } else {
          NewSectionView(ks, blank, section, k);
          assert v[..|v|] == v && v[|v|..] == [];
          PutAt(v, View("", TomlEditKinds(ks, blank, section, k)), |v|, s);
        }
    }
  }

  // ------------------------------------------------------------------------- idempotence

  /** Two entry lines have different positions among the settings. */
  lemma EntryLineUnique(ks: seq<Kind>, n: nat, m: nat)
    requires n < m < |ks| && ks[n].Entry?
    ensures |View("", ks[..n])| < |View("", ks[..m])|
  {
    assert ks[..m] == ks[..n] + ks[n..m];
    ViewConcat("", ks[..n], ks[n..m]);
    assert ks[n..m][0] == ks[n];
  }

  lemma TargetIs(ks: seq<Kind>, at: nat, section: string, k: Kind)
    requires at < |ks| && ks[at] == k && k.Entry?
    requires IndexOf(View("", ks), section, k.key) == |View("", ks[..at])|
    ensures Target(ks, section, k.key) == Some(at)
  {
    SettingOfEntry(ks, at);
    var n := Target(ks, section, k.key).value;
    if n < at { EntryLineUnique(ks, n, at); }
    if at < n { EntryLineUnique(ks, at, n); }
  }

  /** Where the entry stands after a write. */
  function TomlPlace(ks: seq<Kind>, blank: bool, section: string, key: string): nat {
    match Target(ks, section, key)
    case Some(n) => n
    case None => if Header(section) in ks then TomlSlot(ks, section) else |ks| + (if blank then 2 else 1)
  }

  lemma ReplacedIndex(ks: seq<Kind>, n: nat, section: string, k: Kind)
    requires k.Entry? && !Opens(k) && Target(ks, section, k.key) == Some(n) && !Opens(ks[n])
    ensures IndexOf(View("", ks[n := k]), section, k.key) == |View("", ks[n := k][..n])|
  {
    assert ks[n := k][..n] == ks[..n];
    SettingOfEntry(ks, n);
    ReplaceEntry(ks, n, k);
    IndexIsFirst(View("", ks[n := k]), section, k.key, |View("", ks[..n])|);
  }

  lemma InsertedIndex(ks: seq<Kind>, at: nat, section: string, k: Kind)
    requires k.Entry? && !Opens(k) && Target(ks, section, k.key).None? && at <= |ks| && End("", ks[..at]) == section
    ensures IndexOf(View("", Insert(ks, at, k)), section, k.key) == |View("", Insert(ks, at, k)[..at])|
  {
    assert Insert(ks, at, k)[..at] == ks[..at];
    InsertEntry(ks, at, k);
    IndexIsFirst(View("", Insert(ks, at, k)), section, k.key, |View("", ks[..at])|);
  }

  lemma AppendedIndex(ks: seq<Kind>, blank: bool, section: string, k: Kind)
    requires k.Entry? && !Opens(k) && Target(ks, section, k.key).None?
    ensures var r, at := NewSection(ks, blank, section, k), |ks| + (if blank then 2 else 1);
            at < |r| && r[at] == k && IndexOf(View("", r), section, k.key) == |View("", r[..at])|
  {
    var r, at := NewSection(ks, blank, section, k), |ks| + (if blank then 2 else 1);
    NewSectionView(ks, blank, section, k);
    var start := if blank then ks + [Plain] else ks;
    assert r[..at] == start + [Header(section)];
    ViewSnoc("", ks, Plain);
    ViewSnoc("", start, Header(section));
    IndexIsFirst(View("", r), section, k.key, |View("", ks)|);
  }

  /** The line a write leaves its entry on is the one a second write of that name finds. */
  lemma TomlTargetAfter(ks: seq<Kind>, blank: bool, section: string, k: Kind)
    requires k.Entry? && !Opens(k) && forall x | x in ks :: !Opens(x)
    ensures var r, at := TomlEditKinds(ks, blank, section, k), TomlPlace(ks, blank, section, k.key);
            at < |r| && r[at] == k && Target(r, section, k.key) == Some(at)
  {
    var r, at := TomlEditKinds(ks, blank, section, k), TomlPlace(ks, blank, section, k.key);
    match Target(ks, section, k.key) {
      case Some(n) => ReplacedIndex(ks, n, section, k);
      case None =>
        if Header(section) in ks {
          SlotInSection(ks, section);
          InsertedIndex(ks, at, section, k);
        } else {
          AppendedIndex(ks, blank, section, k);
        }
    }
    TargetIs(r, at, section, k);
  }

  // ------------------------------------------------------------------------------- lines

  /** A blank line goes before a new section unless the file is empty or ends in one. */
  predicate NeedsBlank(lines: seq<string>) { lines != [] && Strip(lines[|lines| - 1]) != "" }

  function TomlEdited(lines: seq<string>, section: string, key: string, leaf: string): seq<string> {
    var ks := TomlKinds(lines);
    match Target(ks, section, key)
    case Some(n) => lines[n := TomlLine(key, leaf)]
    case None =>
      if Header(section) in ks then Insert(lines, TomlSlot(ks, section), TomlLine(key, leaf))
      else lines + (if NeedsBlank(lines) then [""] else []) + [HeaderLine(section), TomlLine(key, leaf)]
  }

  /** Line by line: a line of the key is rendered anew, or a line is put in, or a section follows at the end. */
  lemma TomlLinesKept(lines: seq<string>, section: string, key: string, leaf: string)
    requires PlainKey(key)
    ensures var after, line := TomlEdited(lines, section, key, leaf), key + " = " + leaf;
            if Lookup(TomlSettings(lines), section, key).Some? then Reassigns(lines, after, key, line)
            else if Header(section) in TomlKinds(lines) then PutsIn(lines, after, line)
            else after == lines + (if lines == [] || AllSpace(lines[|lines| - 1]) then [] else [""])
                          + ["[" + section + "]", line]
  {
    TomlLineText(key, leaf);
    TargetIff(TomlKinds(lines), section, key);
    if Lookup(TomlSettings(lines), section, key).Some? {
      EditReassigns(lines, section, key, leaf);
    } else {
      EditAdds(lines, section, key, leaf);
    }
  }

  lemma EditReassigns(lines: seq<string>, section: string, key: string, leaf: string)
    requires PlainKey(key) && Target(TomlKinds(lines), section, key).Some?
    ensures Reassigns(lines, TomlEdited(lines, section, key, leaf), key, TomlLine(key, leaf))
  {
    ReassignedAt(lines, Target(TomlKinds(lines), section, key).value, key, TomlLine(key, leaf));
  }

  lemma EditAdds(lines: seq<string>, section: string, key: string, leaf: string)
    requires Target(TomlKinds(lines), section, key).None?
    ensures var after, line := TomlEdited(lines, section, key, leaf), TomlLine(key, leaf);
            if Header(section) in TomlKinds(lines) then PutsIn(lines, after, line)
            else after == lines + (if lines == [] || AllSpace(lines[|lines| - 1]) then [] else [""])
                          + ["[" + section + "]", line]
  {
    if Header(section) in TomlKinds(lines) {
      InsertPutsIn(lines, TomlSlot(TomlKinds(lines), section), TomlLine(key, leaf));
    } else {
      NewSectionLines(lines, section, TomlLine(key, leaf));
    }
  }

  lemma TomlLineText(key: string, leaf: string)
    ensures TomlLine(key, leaf) == key + " = " + leaf
  {
  }

  lemma TargetIff(ks: seq<Kind>, section: string, key: string)
    ensures Target(ks, section, key).Some? <==> Lookup(View("", ks), section, key).Some?
  {
  }

  predicate Reassigns(lines: seq<string>, after: seq<string>, key: string, line: string) {
    exists i | 0 <= i < |lines| :: Matches(lines[i], key) && Replaces(lines, after, i, line)
  }

  lemma ReassignedAt(lines: seq<string>, n: nat, key: string, line: string)
    requires PlainKey(key) && n < |lines| && TomlKinds(lines)[n].Entry? && TomlKinds(lines)[n].key == key
    ensures Reassigns(lines, lines[n := line], key, line)
  {
    EachAt(TomlKind, lines, n);
    MatchIff(lines[n], key);
    assert Replaces(lines, lines[n := line], n, line);
  }

  lemma NewSectionLines(lines: seq<string>, section: string, line: string)
    ensures lines + (if NeedsBlank(lines) then [""] else []) + [HeaderLine(section), line]
            == lines + (if lines == [] || AllSpace(lines[|lines| - 1]) then [] else [""]) + ["[" + section + "]", line]
  {
    if lines != [] { BlankIff(lines[|lines| - 1]); }
  }

  lemma TomlHeaderIff(line: string, section: string)
    ensures Strip(line) == HeaderLine(section) <==> TomlKind(line) == Header(section)
  {
    var s := Strip(line);
    assert HeaderLine(section)[1..|HeaderLine(section)| - 1] == section;
    assert Bracketed(s) ==> s == HeaderLine(s[1..|s| - 1]);
  }

  lemma TomlAppend(lines: seq<string>, blank: bool, section: string, key: string, leaf: string)
    requires PlainKey(key)
    ensures TomlKinds(lines + (if blank then [""] else []) + [HeaderLine(section), TomlLine(key, leaf)])
            == NewSection(TomlKinds(lines), blank, section, Entry("", key, '=', " " + leaf))
  {
    HeaderLineKind(section);
    TomlLineKind(key, leaf);
    EachEnd(TomlKind, lines, if blank then [""] else [], HeaderLine(section), TomlLine(key, leaf));
    assert Each(TomlKind, []) == [];
    EachSingle(TomlKind, "");
    BlankKind();
  }

  lemma HeaderLineKind(section: string)
    ensures TomlKind(HeaderLine(section)) == Header(section)
  {
    TrimmedIsFixed(HeaderLine(section));
    TomlHeaderIff(HeaderLine(section), section);
  }

  lemma BlankKind()
    ensures TomlKind("") == Plain
  {
  }

  lemma TomlEditedKinds(lines: seq<string>, section: string, key: string, leaf: string)
    requires PlainKey(key)
    ensures TomlKinds(TomlEdited(lines, section, key, leaf))
            == TomlEditKinds(TomlKinds(lines), NeedsBlank(lines), section, Entry("", key, '=', " " + leaf))
  {
    TomlLineKind(key, leaf);
    match Target(TomlKinds(lines), section, key) {
      case Some(n) => EachEdits(TomlKind, lines, n, TomlLine(key, leaf));
      case None =>
        if Header(section) in TomlKinds(lines) {
          EachEdits(TomlKind, lines, TomlSlot(TomlKinds(lines), section), TomlLine(key, leaf));
        } else {
          TomlAppend(lines, NeedsBlank(lines), section, key, leaf);
        }
    }
  }

  lemma NoOpeners(lines: seq<string>)
    ensures forall k | k in TomlKinds(lines) :: !Opens(k)
  {
    EachMembers(TomlKind, lines);
  }

  /** set_toml_scalar puts the value under its name and leaves every other setting, in its order, whatever the file. */
  lemma TomlPutLaw(lines: seq<string>, section: string, key: string, leaf: string)
    requires PlainKey(key)
    ensures Put(TomlSettings(lines), TomlSettings(TomlEdited(lines, section, key, leaf)),
                Written(section, key, Strip(leaf)))
  {
    TomlEditedKinds(lines, section, key, leaf);
    TomlLineKind(key, leaf);
    NoOpeners(lines);
    TomlPut(TomlKinds(lines), NeedsBlank(lines), section, Entry("", key, '=', " " + leaf));
  }

  /** Setting the same value twice is setting it once. */
  lemma TomlIdempotent(lines: seq<string>, section: string, key: string, leaf: string)
    requires PlainKey(key)
    ensures var once := TomlEdited(lines, section, key, leaf); TomlEdited(once, section, key, leaf) == once
  {
    TomlEditedKinds(lines, section, key, leaf);
    NoOpeners(lines);
    TomlTargetAfter(TomlKinds(lines), NeedsBlank(lines), section, Entry("", key, '=', " " + leaf));
    var at := TomlPlace(TomlKinds(lines), NeedsBlank(lines), section, key);
    LineAtPlace(lines, section, key, leaf);
    EditedInPlace(TomlEdited(lines, section, key, leaf), section, key, leaf, at);
  }

  lemma LineAtPlace(lines: seq<string>, section: string, key: string, leaf: string)
    requires PlainKey(key)
    ensures var once := TomlEdited(lines, section, key, leaf);
            var at := TomlPlace(TomlKinds(lines), NeedsBlank(lines), section, key);
            at < |once| && once[at] == TomlLine(key, leaf)
  {
    var ks, line := TomlKinds(lines), TomlLine(key, leaf);
    match Target(ks, section, key) {
      case Some(n) =>
      case None =>
        if Header(section) in ks { StandsAt(lines, TomlSlot(ks, section), line); }
    }
  }

  lemma StandsAt<T>(s: seq<T>, at: nat, x: T)
    requires at <= |s|
    ensures at < |Insert(s, at, x)| && Insert(s, at, x)[at] == x
  {
  }

  lemma EditedInPlace(lines: seq<string>, section: string, key: string, leaf: string, at: nat)
    requires Target(TomlKinds(lines), section, key) == Some(at) && at < |lines| && lines[at] == TomlLine(key, leaf)
    ensures TomlEdited(lines, section, key, leaf) == lines
  {
  }

  // ---------------------------------------------------------------------------- the loops

  /** One line of the scan: the header it is, or whether it assigns the key. */
  method ReadLine(lines: seq<string>, i: nat, key: string) returns (header: Option<string>, matches: bool)
    requires PlainKey(key) && i < |lines|
    ensures var k := TomlKinds(lines)[i];
            && !Opens(k)
            && match header
               case Some(name) => k == Header(name)
               case None => !k.Header? && (matches <==> k.Entry? && k.key == key)
  {
    EachAt(TomlKind, lines, i);
    header, matches := None, false;
    var stripped := Strip(lines[i]);
    if Bracketed(stripped) {
      header := Some(stripped[1..|stripped| - 1]);
    } else {
      MatchIff(lines[i], key);
      matches := Matches(lines[i], key);
    }
  }

  /** What the scan knows after n lines without a hit. */
  ghost predicate Scanned(ks: seq<Kind>, section: string, key: string, n: nat, current: string, insertAt: nat,
                          found: bool) {
    && n <= |ks|
    && current == End("", ks[..n])
    && insertAt == LeftAt(ks, section, n).GetOr(|ks|)
    && (found <==> Header(section) in ks[..n])
    && (Target(ks, section, key).Some? ==> n <= Target(ks, section, key).value)
  }

  lemma ScannedHeader(ks: seq<Kind>, section: string, key: string, n: nat, current: string, insertAt: nat, found: bool)
    requires n < |ks| && ks[n].Header? && Scanned(ks, section, key, n, current, insertAt, found)
    ensures Scanned(ks, section, key, n + 1, ks[n].name, if current == section then n else insertAt,
                    found || ks[n].name == section)
  {
    ItemsStep(ks, n);
    MemberStep(ks, n, Header(section));
  }

  lemma MemberStep<T>(s: seq<T>, n: nat, x: T)
    requires n < |s|
    ensures x in s[..n + 1] <==> x in s[..n] || s[n] == x
  {
    assert s[..n + 1] == s[..n] + [s[n]];
  }

  lemma ScannedOther(ks: seq<Kind>, section: string, key: string, n: nat, current: string, insertAt: nat, found: bool)
    requires n < |ks| && !ks[n].Header? && !Opens(ks[n]) && Scanned(ks, section, key, n, current, insertAt, found)
    requires !(ks[n].Entry? && ks[n].key == key && current == section)
    ensures Scanned(ks, section, key, n + 1, current, insertAt, found)
  {
    ItemsStep(ks, n);
    MemberStep(ks, n, Header(section));
    NotTarget(ks, n, section, key);
  }

  lemma ScannedHit(ks: seq<Kind>, section: string, key: string, n: nat, current: string, insertAt: nat, found: bool)
    requires n < |ks| && !Opens(ks[n]) && Scanned(ks, section, key, n, current, insertAt, found)
    requires ks[n].Entry? && ks[n].key == key && current == section
    ensures Target(ks, section, key) == Some(n)
  {
    TargetHere(ks, n, section, key);
  }

  lemma ScannedAll(ks: seq<Kind>, section: string, key: string, current: string, insertAt: nat, found: bool)
    requires Scanned(ks, section, key, |ks|, current, insertAt, found)
    ensures Target(ks, section, key) == None && insertAt == TomlSlot(ks, section) && (found <==> Header(section) in ks)
  {
    assert ks[..|ks|] == ks;
  }

  /** The scan: the line to overwrite, or else where to insert and whether the section has a header. */
  method Scan(lines: seq<string>, section: string, key: string) returns (hit: Option<nat>, insertAt: nat, found: bool)
    requires PlainKey(key)
    ensures hit == Target(TomlKinds(lines), section, key)
    ensures hit.None?
            ==> insertAt == TomlSlot(TomlKinds(lines), section) && (found <==> Header(section) in TomlKinds(lines))
  {
    var current := "";
    insertAt, found := |lines|, false;
    for i := 0 to |lines|
      invariant Scanned(TomlKinds(lines), section, key, i, current, insertAt, found)
    {
      var isHit;
      isHit, current, insertAt, found := ScanLine(lines, section, key, i, current, insertAt, found);
      if isHit { return Some(i), insertAt, found; }
    }
    ScannedAll(TomlKinds(lines), section, key, current, insertAt, found);
    hit := None;
  }

  /** One line of the scan. */
  method ScanLine(lines: seq<string>, section: string, key: string, i: nat, current: string, insertAt: nat, found: bool)
    returns (isHit: bool, current': string, insertAt': nat, found': bool)
    requires PlainKey(key) && i < |lines| && Scanned(TomlKinds(lines), section, key, i, current, insertAt, found)
    ensures isHit ==> Target(TomlKinds(lines), section, key) == Some(i)
    ensures !isHit ==> Scanned(TomlKinds(lines), section, key, i + 1, current', insertAt', found')
  {
    isHit, current', insertAt', found' := false, current, insertAt, found;
    var header, matches := ReadLine(lines, i, key);
    if header.Some? {
      ScannedHeader(TomlKinds(lines), section, key, i, current, insertAt, found);
      if current == section { insertAt' := i; }
      current' := header.value;
      found' := found || current' == section;
    } else if current == section && matches {
      ScannedHit(TomlKinds(lines), section, key, i, current, insertAt, found);
      isHit := true;
    } else {
      ScannedOther(TomlKinds(lines), section, key, i, current, insertAt, found);
    }
  }

  method SetTomlScalar(text: string, section: string, key: string, leaf: string) returns (r: string)
    requires PlainKey(key)
    ensures r == TextEdited(text, section, key, leaf)
  {
    var lines := EditLines(SplitLines(text), section, key, leaf);
    r := JoinLines(lines);
  }

  method EditLines(lines: seq<string>, section: string, key: string, leaf: string) returns (r: seq<string>)
    requires PlainKey(key)
    ensures r == TomlEdited(lines, section, key, leaf)
  {
    var hit, insertAt, found := Scan(lines, section, key);
    if hit.Some? {
      r := lines[hit.value := TomlLine(key, leaf)];
    } else if !found {
      r := lines;
      if lines != [] && Strip(lines[|lines| - 1]) != "" { r := r + [""]; }
      r := r + [HeaderLine(section), TomlLine(key, leaf)];
    } else {
      r := Insert(lines, insertAt, TomlLine(key, leaf));
    }
  }

  lemma AtOrBefore(v: seq<Setting>, j: nat, section: string, key: string)
    requires j < |v| && v[j].section == section && v[j].key == key
    ensures IndexOf(v, section, key) <= j
  {
  }

  /** The first entry of that name under that section is the target. */
  lemma TargetHere(ks: seq<Kind>, i: nat, section: string, key: string)
    requires i < |ks| && ks[i].Entry? && ks[i].key == key && End("", ks[..i]) == section && !Opens(ks[i])
    requires Target(ks, section, key).Some? ==> i <= Target(ks, section, key).value
    ensures Target(ks, section, key) == Some(i)
  {
    var j := |View("", ks[..i])|;
    SettingOfEntry(ks, i);
    AtOrBefore(View("", ks), j, section, key);
    TargetAtMost(ks, i, section, key);
  }

  lemma TargetAtMost(ks: seq<Kind>, i: nat, section: string, key: string)
    requires i < |ks| && ks[i].Entry? && Target(ks, section, key).Some?
    requires IndexOf(View("", ks), section, key) <= |View("", ks[..i])|
    ensures Target(ks, section, key).value <= i
  {
    var n := Target(ks, section, key).value;
    if i < n { EntryLineUnique(ks, i, n); }
  }

  lemma NotTarget(ks: seq<Kind>, i: nat, section: string, key: string)
    requires i < |ks| && !(ks[i].Entry? && ks[i].key == key && End("", ks[..i]) == section) && !Opens(ks[i])
    ensures Target(ks, section, key) != Some(i)
  {
    if Target(ks, section, key) == Some(i) { SettingOfEntry(ks, i); }
  }

  // -------------------------------------------------------------------------------- files

  /** The whole call: the text is split, edited and joined again. */
  function TextEdited(text: string, section: string, key: string, leaf: string): string {
    JoinLines(TomlEdited(SplitLines(text), section, key, leaf))
  }

  function TextSettings(text: string): seq<Setting> { TomlSettings(SplitLines(text)) }

  /** A path as the patches name it, and a rendered value: JSON and numerals hold no line break. */
  datatype Patch = Patch(section: string, key: string, leaf: string)

  predicate PlainPatch(p: Patch) { PlainKey(p.key) && OneLine(p.section) && OneLine(p.leaf) }

  lemma TomlLineOneLine(key: string, leaf: string)
    requires PlainKey(key) && OneLine(leaf)
    ensures OneLine(TomlLine(key, leaf))
  {
    forall c | c in TomlLine(key, leaf) ensures !IsBreak(c) { assert c in key || c == ' ' || c == '=' || c in leaf; }
  }

  lemma EditedOneLine(lines: seq<string>, section: string, key: string, leaf: string)
    requires AllOneLine(lines) && PlainKey(key) && OneLine(section) && OneLine(leaf)
    ensures AllOneLine(TomlEdited(lines, section, key, leaf)) && TomlEdited(lines, section, key, leaf) != []
  {
    var ks, h, line := TomlKinds(lines), HeaderLine(section), TomlLine(key, leaf);
    TomlLineOneLine(key, leaf);
    OneLineHeader(section);
    match Target(ks, section, key) {
      case Some(n) => OneLineEdits(lines, n, h, line, line);
      case None =>
        if Header(section) in ks {
          OneLineEdits(lines, TomlSlot(ks, section), h, line, line);
        } else {
          OneLineEdits(lines, 0, "", h, line);
          OneLineEdits(lines, 0, h, line, line);
          assert lines + [""] + [h, line] == lines + ["", h, line] && lines + [] + [h, line] == lines + [h, line];
        }
    }
  }

  /** Split again, the edited text has the edited lines. */
  lemma TextLines(text: string, p: Patch)
    requires PlainPatch(p)
    ensures SplitLines(TextEdited(text, p.section, p.key, p.leaf))
            == TomlEdited(SplitLines(text), p.section, p.key, p.leaf)
  {
    EditedOneLine(SplitLines(text), p.section, p.key, p.leaf);
    SplitJoin(TomlEdited(SplitLines(text), p.section, p.key, p.leaf));
  }

  /** On the text too, one setting is put and every other stays, in its order, whatever the file. */
  lemma TextPutLaw(text: string, p: Patch)
    requires PlainPatch(p)
    ensures Put(TextSettings(text), TextSettings(TextEdited(text, p.section, p.key, p.leaf)),
                Written(p.section, p.key, Strip(p.leaf)))
  {
    TextLines(text, p);
    TomlPutLaw(SplitLines(text), p.section, p.key, p.leaf);
  }

  /** Setting the same value twice leaves the text that setting it once left. */
  lemma TextIdempotent(text: string, p: Patch)
    requires PlainPatch(p)
    ensures var once := TextEdited(text, p.section, p.key, p.leaf); TextEdited(once, p.section, p.key, p.leaf) == once
  {
    TextLines(text, p);
    TomlIdempotent(SplitLines(text), p.section, p.key, p.leaf);
  }

  function Patched(text: string, patches: seq<Patch>): string {
    if patches == [] then text
    else
      var p := patches[|patches| - 1];
      TextEdited(Patched(text, patches[..|patches| - 1]), p.section, p.key, p.leaf)
  }

  function LastPatch(patches: seq<Patch>, section: string, key: string): Option<string> {
    if patches == [] then None
    else
      var p := patches[|patches| - 1];
      if p.section == section && p.key == key then Some(p.leaf) else LastPatch(patches[..|patches| - 1], section, key)
  }

  method ApplyPatches(text: string, patches: seq<Patch>) returns (r: string)
    requires forall p | p in patches :: PlainKey(p.key)
    ensures r == Patched(text, patches)
  {
    r := text;
    for i := 0 to |patches|
      invariant r == Patched(text, patches[..i])
    {
      assert patches[..i + 1][..i] == patches[..i];
      r := SetTomlScalar(r, patches[i].section, patches[i].key, patches[i].leaf);
    }
    assert patches[..|patches|] == patches;
  }

  /** After all the patches a patched name reads as its last patch, and every other name as before. */
  lemma {:induction false} PatchedReads(text: string, patches: seq<Patch>, section: string, key: string)
    requires forall p | p in patches :: PlainPatch(p)
    ensures Lookup(TextSettings(Patched(text, patches)), section, key)
            == match LastPatch(patches, section, key)
               case Some(leaf) => Some(Strip(leaf))
               case None => Lookup(TextSettings(text), section, key)
    decreases |patches|
  {
    if patches != [] {
      var p, before := patches[|patches| - 1], patches[..|patches| - 1];
      assert p in patches;
      PatchedReads(text, before, section, key);
      PatchStep(Patched(text, before), p, section, key);
    }
  }

  lemma PatchStep(base: string, p: Patch, section: string, key: string)
    requires PlainPatch(p)
    ensures Lookup(TextSettings(TextEdited(base, p.section, p.key, p.leaf)), section, key)
            == if p.section == section && p.key == key then Some(Strip(p.leaf))
               else Lookup(TextSettings(base), section, key)
  {
    TextPutLaw(base, p);
    var v, w := TextSettings(base), TextSettings(TextEdited(base, p.section, p.key, p.leaf));
    var put := Written(p.section, p.key, Strip(p.leaf));
    if p.section == section && p.key == key { PutThenGet(v, w, put); } else { PutKeepsOthers(v, w, put, section, key); }
  }
}
