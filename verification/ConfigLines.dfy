/**
 * How the line-oriented editors read a configuration: one kind per line, and the sections
 * that follow from them (config_mutators.py, parse_lines). A document's meaning is its
 * View: the settings in order, each with the section it falls in.
 */
module ConfigLines {
  import opened Results
  import opened Text

  datatype Kind =
    | Plain
    | Header(name: string)
    | Entry(indent: string, key: string, sep: char, raw: string)

  /** A `key:` line with nothing after it starts the section of that name. */
  predicate Opens(k: Kind) { k.Entry? && k.sep == ':' && k.raw == "" }

  function After(section: string, k: Kind): string {
    match k
    case Header(name) => name
    case Entry(_, key, _, _) => if Opens(k) then key else section
    case Plain => section
  }

  /** The section open after all the lines. */
  function End(section: string, ks: seq<Kind>): string
    decreases |ks|
  {
    if ks == [] then section else End(After(section, ks[0]), ks[1..])
  }

  /** `outer` is the section open just before the line. */
  datatype Setting = Setting(section: string, key: string, value: string, opens: bool, outer: string)

  function One(section: string, k: Kind): seq<Setting> {
    if k.Entry? then [Setting(After(section, k), k.key, Strip(k.raw), Opens(k), section)] else []
  }

  function View(section: string, ks: seq<Kind>): seq<Setting>
    decreases |ks|
  {
    if ks == [] then [] else One(section, ks[0]) + View(After(section, ks[0]), ks[1..])
  }

  /** Position of the first setting of that name, or |v|. */
  function IndexOf(v: seq<Setting>, section: string, key: string): (j: nat)
    ensures j <= |v|
    ensures j < |v| ==> v[j].section == section && v[j].key == key
    ensures forall i | 0 <= i < j :: !(v[i].section == section && v[i].key == key)
  {
    FirstWhere(v, (s: Setting) => s.section == section && s.key == key)
  }

  function First(v: seq<Setting>, section: string, key: string): Option<Setting> {
    var j := IndexOf(v, section, key);
    if j < |v| then Some(v[j]) else None
  }

  /** What a reader that stops at the first match sees. */
  function Lookup(v: seq<Setting>, section: string, key: string): Option<string> {
    match First(v, section, key)
    case Some(s) => Some(s.value)
    case None => None
  }

  lemma IndexIsFirst(v: seq<Setting>, section: string, key: string, j: nat)
    requires j <= |v|
    requires j < |v| ==> v[j].section == section && v[j].key == key
    requires forall i | 0 <= i < j :: !(v[i].section == section && v[i].key == key)
    ensures IndexOf(v, section, key) == j
  {
  }

  lemma {:induction false} ViewConcat(section: string, a: seq<Kind>, b: seq<Kind>)
    ensures View(section, a + b) == View(section, a) + View(End(section, a), b)
    ensures End(section, a + b) == End(End(section, a), b)
    decreases |a|
  {
    if a == [] {
      assert a + b == b;
    } else {
      var next := After(section, a[0]);
      ViewConcat(next, a[1..], b);
      ConsConcat(section, a, b);
      Regroup(One(section, a[0]), View(next, a[1..]), View(End(next, a[1..]), b));
    }
  }

  lemma Regroup<T>(a: seq<T>, b: seq<T>, c: seq<T>)
    ensures a + (b + c) == (a + b) + c
  {
  }

  lemma ConsConcat(section: string, a: seq<Kind>, b: seq<Kind>)
    requires a != []
    ensures View(section, a + b) == One(section, a[0]) + View(After(section, a[0]), a[1..] + b)
    ensures End(section, a + b) == End(After(section, a[0]), a[1..] + b)
  {
    assert (a + b)[1..] == a[1..] + b;
  }

  lemma ViewSplit(section: string, ks: seq<Kind>, n: nat)
    requires n < |ks|
    ensures View(section, ks) == View(section, ks[..n]) + One(End(section, ks[..n]), ks[n])
                                 + View(After(End(section, ks[..n]), ks[n]), ks[n + 1..])
    ensures End(section, ks) == End(After(End(section, ks[..n]), ks[n]), ks[n + 1..])
  {
    assert ks == ks[..n] + ks[n..];
    assert ks[n..][0] == ks[n] && ks[n..][1..] == ks[n + 1..];
    ViewConcat(section, ks[..n], ks[n..]);
  }

  lemma ViewSnoc(section: string, ks: seq<Kind>, k: Kind)
    ensures View(section, ks + [k]) == View(section, ks) + One(End(section, ks), k)
    ensures End(section, ks + [k]) == After(End(section, ks), k)
  {
    ViewConcat(section, ks, [k]);
    assert View(End(section, ks), [k]) == One(End(section, ks), k) + [];
  }

  // -------------------------------------------------------- edits seen through the view

  /** The view around one line. */
  lemma ViewUpdate(ks: seq<Kind>, n: nat, k: Kind)
    requires n < |ks| && After(End("", ks[..n]), k) == After(End("", ks[..n]), ks[n])
    ensures View("", ks[n := k]) == View("", ks[..n]) + One(End("", ks[..n]), k)
                                   + View(After(End("", ks[..n]), ks[n]), ks[n + 1..])
    ensures End("", ks[n := k]) == End("", ks)
  {
    ViewSplit("", ks, n);
    ViewSplit("", ks[n := k], n);
    assert ks[n := k][..n] == ks[..n] && ks[n := k][n + 1..] == ks[n + 1..];
  }

  /** Putting an entry that opens no section in place of one that opens none, or reopens its own. */
  lemma ReplaceEntry(ks: seq<Kind>, n: nat, k: Kind)
    requires n < |ks| && ks[n].Entry? && k.Entry? && !Opens(k)
    requires Opens(ks[n]) ==> End("", ks[..n]) == ks[n].key
    ensures var v, j := View("", ks), |View("", ks[..n])|;
            && j < |v| && v[j].section == v[j].outer == End("", ks[..n])
            && View("", ks[n := k]) == v[j := Setting(v[j].outer, k.key, Strip(k.raw), false, v[j].outer)]
    ensures End("", ks[n := k]) == End("", ks)
  {
    ViewSplit("", ks, n);
    ViewUpdate(ks, n, k);
    var a, b := View("", ks[..n]), View(After(End("", ks[..n]), ks[n]), ks[n + 1..]);
    UpdateMiddle(a, One(End("", ks[..n]), ks[n])[0], One(End("", ks[..n]), k)[0], b);
  }

  lemma UpdateMiddle<T>(a: seq<T>, x: T, y: T, b: seq<T>)
    ensures (a + [x] + b)[|a| := y] == a + [y] + b && (a + [x] + b)[|a|] == x
  {
  }

  /** Putting in an entry that opens no section adds its setting and changes no other. */
  lemma InsertEntry(ks: seq<Kind>, at: nat, k: Kind)
    requires at <= |ks| && k.Entry? && !Opens(k)
    ensures var v, j := View("", ks), |View("", ks[..at])|;
            && j <= |v|
            && View("", ks[..at] + [k] + ks[at..])
               == v[..j] + [Setting(End("", ks[..at]), k.key, Strip(k.raw), false, End("", ks[..at]))] + v[j..]
    ensures End("", ks[..at] + [k] + ks[at..]) == End("", ks)
  {
    assert ks == ks[..at] + ks[at..];
    assert ks[..at] + [k] + ks[at..] == (ks[..at] + [k]) + ks[at..];
    ViewConcat("", ks[..at], ks[at..]);
    ViewSnoc("", ks[..at], k);
    ViewConcat("", ks[..at] + [k], ks[at..]);
  }

  // ------------------------------------------------------------- settings by line number

  datatype Item = Item(line: nat, indent: string, key: string, sep: char, value: string, section: string)

  function Items(ks: seq<Kind>): seq<Item> {
    if ks == [] then []
    else var n := |ks| - 1; Items(ks[..n]) + OneItem(n, ks[n], After(End("", ks[..n]), ks[n]))
  }

  function OneItem(line: nat, k: Kind, section: string): seq<Item> {
    if k.Entry? then [Item(line, k.indent, k.key, k.sep, Strip(k.raw), section)] else []
  }

  lemma ItemsStep(ks: seq<Kind>, n: nat)
    requires n < |ks|
    ensures End("", ks[..n + 1]) == After(End("", ks[..n]), ks[n])
    ensures Items(ks[..n + 1]) == Items(ks[..n]) + OneItem(n, ks[n], End("", ks[..n + 1]))
  {
    assert ks[..n + 1] == ks[..n] + [ks[n]];
    ViewSnoc("", ks[..n], ks[n]);
  }

  /** The items are the settings of the view, each with the line it came from. */
  lemma {:induction false} ItemsMatchView(ks: seq<Kind>)
    ensures var items, v := Items(ks), View("", ks);
            && |items| == |v|
            && (forall j | 0 <= j < |items| ::
                  && items[j].line < |ks| && ks[items[j].line].Entry?
                  && items[j].section == v[j].section && items[j].key == v[j].key && items[j].value == v[j].value
                  && items[j].indent == ks[items[j].line].indent && items[j].sep == ks[items[j].line].sep
                  && items[j].key == ks[items[j].line].key
                  && |View("", ks[..items[j].line])| == j)
            && (forall i, j | 0 <= i < j < |items| :: items[i].line < items[j].line)
  {
    if ks != [] {
      var n := |ks| - 1;
      assert ks == ks[..n] + [ks[n]];
      ItemsMatchView(ks[..n]);
      ViewSnoc("", ks[..n], ks[n]);
      assert forall m | 0 <= m <= n :: ks[..n][..m] == ks[..m];
    }
  }

  // ----------------------------------------------------------------------------- writes

  function FirstItem(items: seq<Item>, section: string, key: string): (j: nat)
    ensures j <= |items|
    ensures j < |items| ==> items[j].section == section && items[j].key == key
    ensures forall i | 0 <= i < j :: !(items[i].section == section && items[i].key == key)
  {
    FirstWhere(items, (i: Item) => i.section == section && i.key == key)
  }

  /** Just after the last line of `items` that belongs to the section; `default` when none does. */
  function InsertAt(items: seq<Item>, section: string, default: nat): nat {
    if items == [] then default
    else if items[|items| - 1].section == section then items[|items| - 1].line + 1
    else InsertAt(items[..|items| - 1], section, default)
  }

  /** The line of the first setting of that name, if any. */
  function Target(ks: seq<Kind>, section: string, key: string): (n: Option<nat>)
    ensures n.Some? <==> IndexOf(View("", ks), section, key) < |View("", ks)|
    ensures n.Some? ==> n.value < |ks| && ks[n.value].Entry? && ks[n.value].key == key
    ensures n.Some? ==> |View("", ks[..n.value])| == IndexOf(View("", ks), section, key)
  {
    var items := Items(ks);
    var j := FirstItem(items, section, key);
    ItemsMatchView(ks);
    IndexIsFirst(View("", ks), section, key, j);
    if j < |items| then Some(items[j].line) else None
  }

  function Slot(ks: seq<Kind>, section: string): (at: nat)
    ensures at <= |ks|
  {
    InsertAtBound(ks, section);
    InsertAt(Items(ks), section, |ks|)
  }

  predicate HasSetting(v: seq<Setting>, section: string) { exists s | s in v :: s.section == section }

  function Insert<T>(s: seq<T>, at: nat, x: T): seq<T>
    requires at <= |s|
  {
    s[..at] + [x] + s[at..]
  }

  /** What ConfigEditor does to the lines of a file, by their kinds. */
  function EditKinds(ks: seq<Kind>, section: string, k: Kind): seq<Kind>
    requires k.Entry?
  {
    match Target(ks, section, k.key)
    case Some(n) => ks[n := k]
    case None => if Header(section) in ks then Insert(ks, Slot(ks, section), k) else ks + [Plain, Header(section), k]
  }

  lemma {:induction false} InsertAtFrom(items: seq<Item>, section: string, default: nat) returns (j: nat)
    ensures j <= |items|
    ensures forall i | j <= i < |items| :: items[i].section != section
    ensures j == 0 ==> InsertAt(items, section, default) == default
    ensures j > 0 ==> items[j - 1].section == section && InsertAt(items, section, default) == items[j - 1].line + 1
  {
    if items == [] || items[|items| - 1].section == section {
      j := |items|;
    } else {
      j := InsertAtFrom(items[..|items| - 1], section, default);
    }
  }

  lemma InsertAtBound(ks: seq<Kind>, section: string)
    ensures InsertAt(Items(ks), section, |ks|) <= |ks|
  {
    ItemsMatchView(ks);
    var j := InsertAtFrom(Items(ks), section, |ks|);
  }

  /**
   * Where a write reaches the setting it names: on the line that already holds it, unless
   * that line is a bare `key:` that opens the very section it is read in; otherwise in a
   * section that has a setting, has no header yet, or is open at the end of the file.
   */
  predicate Placeable(ks: seq<Kind>, section: string, key: string) {
    var v := View("", ks);
    var j := IndexOf(v, section, key);
    if j < |v| then v[j].opens ==> v[j].outer == section
    else HasSetting(v, section) || Header(section) !in ks || End("", ks) == section
  }

  function Written(section: string, key: string, value: string): Setting {
    Setting(section, key, value, false, section)
  }

  /** The setting takes the place of one of the same name, or comes in at some position; the others stay, in order. */
  ghost predicate Put(v: seq<Setting>, w: seq<Setting>, s: Setting) {
    var j := IndexOf(v, s.section, s.key);
    if j < |v| then w == v[j := s] else exists p | 0 <= p <= |v| :: w == v[..p] + [s] + v[p..]
  }

  lemma SettingOfEntry(ks: seq<Kind>, n: nat)
    requires n < |ks| && ks[n].Entry?
    ensures var v, j := View("", ks), |View("", ks[..n])|;
            && j < |v| && View("", ks[..n]) == v[..j] && v[j] == One(End("", ks[..n]), ks[n])[0]
            && v[j + 1..] == View(v[j].section, ks[n + 1..])
  {
    ViewSplit("", ks, n);
  }

  /** The section open where a line is inserted: the one asked for if it has a setting, else the last of the file. */
  lemma SectionAtSlot(ks: seq<Kind>, section: string)
    ensures End("", ks[..Slot(ks, section)]) == if HasSetting(View("", ks), section) then section else End("", ks)
  {
    assert ks[..|ks|] == ks;
    var j := InsertAtFrom(Items(ks), section, |ks|);
    if j == 0 { SectionEmpty(ks, section); } else { SectionHas(ks, section, j - 1); }
  }

  lemma SectionEmpty(ks: seq<Kind>, section: string)
    requires forall i | 0 <= i < |Items(ks)| :: Items(ks)[i].section != section
    ensures !HasSetting(View("", ks), section)
  {
    ItemsMatchView(ks);
  }

  lemma SectionHas(ks: seq<Kind>, section: string, j: nat)
    requires j < |Items(ks)| && Items(ks)[j].section == section
    ensures HasSetting(View("", ks), section) && Items(ks)[j].line < |ks|
            && End("", ks[..Items(ks)[j].line + 1]) == section
  {
    ItemsMatchView(ks);
    assert View("", ks)[j] in View("", ks);
    SectionAfter(ks, Items(ks)[j].line);
  }

  lemma SectionAfter(ks: seq<Kind>, n: nat)
    requires n < |ks| && ks[n].Entry?
    ensures |View("", ks[..n])| < |View("", ks)| && End("", ks[..n + 1]) == View("", ks)[|View("", ks[..n])|].section
  {
    ItemsStep(ks, n);
    SettingOfEntry(ks, n);
  }

  lemma PutAt(v: seq<Setting>, w: seq<Setting>, p: nat, s: Setting)
    requires p <= |v| && IndexOf(v, s.section, s.key) == |v| && w == v[..p] + [s] + v[p..]
    ensures Put(v, w, s)
  {
  }

  lemma AppendSection(ks: seq<Kind>, section: string, k: Kind)
    requires k.Entry? && !Opens(k)
    ensures View("", ks + [Plain, Header(section), k]) == View("", ks) + [Written(section, k.key, Strip(k.raw))]
    ensures End("", ks + [Plain, Header(section), k]) == section
  {
    assert ks + [Plain, Header(section), k] == ks + [Plain] + [Header(section)] + [k];
    ViewSnoc("", ks, Plain);
    ViewSnoc("", ks + [Plain], Header(section));
    ViewSnoc("", ks + [Plain] + [Header(section)], k);
  }

  /** A placed write puts the value under its name and leaves every other setting, in its order. */
  lemma WritePlaced(ks: seq<Kind>, section: string, k: Kind)
    requires k.Entry? && !Opens(k) && Placeable(ks, section, k.key)
    ensures Put(View("", ks), View("", EditKinds(ks, section, k)), Written(section, k.key, Strip(k.raw)))
  {
    var v := View("", ks);
    var s := Written(section, k.key, Strip(k.raw));
    match Target(ks, section, k.key) {
      case Some(n) =>
        SettingOfEntry(ks, n);
        ReplaceEntry(ks, n, k);
      case None =>
        if Header(section) in ks {
          SectionAtSlot(ks, section);
          InsertEntry(ks, Slot(ks, section), k);
          PutAt(v, View("", EditKinds(ks, section, k)), |View("", ks[..Slot(ks, section)])|, s);
        } else {
          AppendSection(ks, section, k);
          assert v[..|v|] == v && v[|v|..] == [];
          PutAt(v, View("", EditKinds(ks, section, k)), |v|, s);
        }
    }
  }

  lemma PutThenGet(v: seq<Setting>, w: seq<Setting>, s: Setting)
    requires Put(v, w, s)
    ensures First(w, s.section, s.key) == Some(s)
  {
    var j := IndexOf(v, s.section, s.key);
    if j < |v| {
      IndexIsFirst(w, s.section, s.key, j);
    } else {
      var p :| 0 <= p <= |v| && w == v[..p] + [s] + v[p..];
      IndexIsFirst(w, s.section, s.key, p);
    }
  }

  lemma PutKeepsOthers(v: seq<Setting>, w: seq<Setting>, s: Setting, section: string, key: string)
    requires Put(v, w, s) && (section, key) != (s.section, s.key)
    ensures First(w, section, key) == First(v, section, key)
  {
    var j := IndexOf(v, s.section, s.key);
    if j < |v| {
      IndexIsFirst(w, section, key, IndexOf(v, section, key));
    } else {
      var p :| 0 <= p <= |v| && w == v[..p] + [s] + v[p..];
      OthersShift(v, p, s, section, key);
    }
  }

  lemma OthersShift(v: seq<Setting>, p: nat, s: Setting, section: string, key: string)
    requires p <= |v| && (section, key) != (s.section, s.key)
    ensures First(v[..p] + [s] + v[p..], section, key) == First(v, section, key)
  {
    var i := IndexOf(v, section, key);
    IndexIsFirst(v[..p] + [s] + v[p..], section, key, if i < p then i else i + 1);
  }

  lemma PutKeepsSections(v: seq<Setting>, w: seq<Setting>, s: Setting, section: string)
    requires Put(v, w, s) && HasSetting(v, section)
    ensures HasSetting(w, section)
  {
    var t :| t in v && t.section == section;
    var i :| 0 <= i < |v| && v[i] == t;
    var j := IndexOf(v, s.section, s.key);
    if j < |v| {
      assert w[i] in w && w[i].section == section;
    } else {
      var p :| 0 <= p <= |v| && w == v[..p] + [s] + v[p..];
      assert w[if i < p then i else i + 1] == t;
    }
  }

  lemma PutHas(v: seq<Setting>, w: seq<Setting>, s: Setting)
    requires Put(v, w, s)
    ensures HasSetting(w, s.section)
  {
    PutThenGet(v, w, s);
    assert w[IndexOf(w, s.section, s.key)] in w;
  }

  // --------------------------------------------------------------------- several writes

  /**
   * A name that is placed whatever is written elsewhere: unlike Placeable this does not
   * count on the section open at the end of the file, which an appended section changes.
   */
  predicate Stable(ks: seq<Kind>, section: string, key: string) {
    match First(View("", ks), section, key)
    case Some(s) => s.opens ==> s.outer == section
    case None => HasSetting(View("", ks), section) || Header(section) !in ks
  }

  lemma HeadersAfterEdit(ks: seq<Kind>, section: string, k: Kind, other: string)
    requires k.Entry? && other != section
    ensures Header(other) in EditKinds(ks, section, k) ==> Header(other) in ks
  {
    match Target(ks, section, k.key) {
      case Some(n) => MembersAfter(ks, n, k, Header(other));
      case None => MembersAfter(ks, Slot(ks, section), k, Header(other));
    }
  }

  lemma MembersAfter<T>(s: seq<T>, n: nat, x: T, y: T)
    requires n <= |s| && x != y
    ensures n < |s| && y in s[n := x] ==> y in s
    ensures y in Insert(s, n, x) ==> y in s
  {
  }

  lemma StableKept(ks: seq<Kind>, section: string, k: Kind, s: string, key: string)
    requires k.Entry? && !Opens(k) && Stable(ks, section, k.key) && Stable(ks, s, key)
    ensures Stable(EditKinds(ks, section, k), s, key)
  {
    var v, w, put := View("", ks), View("", EditKinds(ks, section, k)), Written(section, k.key, Strip(k.raw));
    WritePlaced(ks, section, k);
    PutHas(v, w, put);
    if (s, key) == (section, k.key) {
      PutThenGet(v, w, put);
    } else {
      PutKeepsOthers(v, w, put, s, key);
      if First(v, s, key).None? && s != section {
        if HasSetting(v, s) {
          PutKeepsSections(v, w, put, s);
        } else if Header(s) in EditKinds(ks, section, k) {
          HeadersAfterEdit(ks, section, k, s);
        }
      }
    }
  }

  /** What is read back after a write that is not placed; the value written has no say in it. */
  function ReadPastWrite(ks: seq<Kind>, section: string, key: string): Option<string> {
    match Target(ks, section, key)
    case Some(n) => Lookup(View(End("", ks[..n]), ks[n + 1..]), section, key)
    case None => None
  }

  lemma LookupPast(a: seq<Setting>, s: Setting, w: seq<Setting>, section: string, key: string)
    requires IndexOf(a, section, key) == |a| && s.section != section
    ensures Lookup((a + [s]) + w, section, key) == Lookup(w, section, key)
  {
    IndexIsFirst((a + [s]) + w, section, key, |a| + 1 + IndexOf(w, section, key));
  }

  /** The view around an entry that opens no section. */
  lemma EntryView(pre: seq<Kind>, k: Kind, more: seq<Kind>)
    requires k.Entry? && !Opens(k)
    ensures View("", pre + ([k] + more))
            == (View("", pre) + [Written(End("", pre), k.key, Strip(k.raw))]) + View(End("", pre), more)
  {
    var ks, n := pre + ([k] + more), |pre|;
    ViewSplit("", ks, n);
    assert ks[..n] == pre && ks[n] == k && ks[n + 1..] == more;
  }

  lemma NoneBefore(v: seq<Setting>, j: nat, section: string, key: string)
    requires j <= IndexOf(v, section, key)
    ensures IndexOf(v[..j], section, key) == j
  {
  }

  lemma LookupWithout(v: seq<Setting>, p: nat, s: Setting, section: string, key: string)
    requires p <= |v| && IndexOf(v, section, key) == |v| && s.section != section
    ensures Lookup(v[..p] + [s] + v[p..], section, key) == None
  {
    var w := v[..p] + [s] + v[p..];
    assert forall i | 0 <= i < |w| :: w[i] == s || w[i] in v;
    IndexIsFirst(w, section, key, |w|);
  }

  lemma OpenerOutside(ks: seq<Kind>, n: nat, section: string, key: string)
    requires !Placeable(ks, section, key) && Target(ks, section, key) == Some(n)
    ensures End("", ks[..n]) != section && IndexOf(View("", ks[..n]), section, key) == |View("", ks[..n])|
  {
    SettingOfEntry(ks, n);
    NoneBefore(View("", ks), |View("", ks[..n])|, section, key);
  }

  /** A bare `key:` replaced by a value no longer opens its section, so the value is read outside it. */
  lemma MisplacedOpener(ks: seq<Kind>, n: nat, section: string, k: Kind)
    requires n < |ks| && k.Entry? && !Opens(k)
    requires End("", ks[..n]) != section && IndexOf(View("", ks[..n]), section, k.key) == |View("", ks[..n])|
    ensures Lookup(View("", ks[n := k]), section, k.key) == Lookup(View(End("", ks[..n]), ks[n + 1..]), section, k.key)
  {
    assert ks[n := k] == ks[..n] + ([k] + ks[n + 1..]);
    ReadsPast(ks[..n], k, ks[n + 1..], section);
  }

  lemma ReadsPast(pre: seq<Kind>, k: Kind, more: seq<Kind>, section: string)
    requires k.Entry? && !Opens(k) && End("", pre) != section
             && IndexOf(View("", pre), section, k.key) == |View("", pre)|
    ensures Lookup(View("", pre + ([k] + more)), section, k.key) == Lookup(View(End("", pre), more), section, k.key)
  {
    EntryView(pre, k, more);
    LookupPast(View("", pre), Written(End("", pre), k.key, Strip(k.raw)), View(End("", pre), more), section, k.key);
  }

  /** Elsewhere the write lands under another section, whatever the value. */
  lemma Misplaced(ks: seq<Kind>, section: string, k: Kind)
    requires k.Entry? && !Opens(k) && !Placeable(ks, section, k.key)
    ensures Lookup(View("", EditKinds(ks, section, k)), section, k.key) == ReadPastWrite(ks, section, k.key)
  {
    match Target(ks, section, k.key) {
      case Some(n) =>
        OpenerOutside(ks, n, section, k.key);
        MisplacedOpener(ks, n, section, k);
      case None =>
        SectionAtSlot(ks, section);
        var at := Slot(ks, section);
        InsertEntry(ks, at, k);
        LookupWithout(View("", ks), |View("", ks[..at])|, Written(End("", ks[..at]), k.key, Strip(k.raw)),
                      section, k.key);
    }
  }
}
