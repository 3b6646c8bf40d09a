/** parse_lines of config_mutators.py: how one line of text is read, and the loop over a file. */
module LineFormat {
  import opened Text
  import opened ConfigLines

  predicate IsBlank(c: char) { c == ' ' || c == '\t' }
  predicate IsKeyStart(c: char) { 'A' <= c <= 'Z' || 'a' <= c <= 'z' || c == '_' }
  predicate IsKeyChar(c: char) { IsKeyStart(c) || IsDigit(c) || c == '.' || c == '-' }
  predicate ValidKey(key: string) { key != "" && IsKeyStart(key[0]) && forall c | c in key :: IsKeyChar(c) }
  predicate AllBlank(s: string) { forall c | c in s :: IsBlank(c) }

  function DropBlanks(s: string): string { s[Span(s, IsBlank)..] }

  function KeyLine(line: string): (k: Kind)
    ensures k.Entry?
            ==> ValidKey(k.key) && AllBlank(k.indent) && k.sep in {'=', ':'} && !(k.raw != "" && IsBlank(k.raw[0]))
    ensures !k.Header?
  {
    var i := Span(line, IsBlank);
    var r1 := line[i..];
    var j := Span(r1, IsKeyChar);
    if j == 0 || !IsKeyStart(r1[0]) then Plain
    else
      var r2 := DropBlanks(r1[j..]);
      if r2 == "" || r2[0] !in {'=', ':'} then Plain
      else
        assert AllBlank(line[..i]);
        Entry(line[..i], r1[..j], r2[0], DropBlanks(r2[1..]))
  }

  predicate Bracketed(s: string) { s != "" && s[0] == '[' && s[|s| - 1] == ']' }

  function Classify(line: string): (k: Kind)
    ensures k.Entry? ==> ValidKey(k.key) && AllBlank(k.indent) && k.sep in {'=', ':'}
  {
    var s := Strip(line);
    if Bracketed(s) then Header(s[1..|s| - 1]) else KeyLine(line)
  }

  function Each<A, B>(f: A -> B, s: seq<A>): (r: seq<B>)
    ensures |r| == |s|
  {
    if s == [] then [] else [f(s[0])] + Each(f, s[1..])
  }

  /** One line is another now. */
  predicate Replaces(before: seq<string>, after: seq<string>, i: nat, line: string) {
    && |after| == |before| && i < |before| && after[i] == line
    && forall k | 0 <= k < |before| && k != i :: after[k] == before[k]
  }

  /** One line is put in. */
  predicate Inserts(before: seq<string>, after: seq<string>, i: nat, line: string) {
    && |after| == |before| + 1 && i <= |before| && after[i] == line
    && (forall k | 0 <= k < i :: after[k] == before[k])
    && forall k | i <= k < |before| :: after[k + 1] == before[k]
  }

  predicate PutsIn(before: seq<string>, after: seq<string>, line: string) {
    exists i | 0 <= i <= |before| :: Inserts(before, after, i, line)
  }

  lemma InsertPutsIn(before: seq<string>, at: nat, line: string)
    requires at <= |before|
    ensures PutsIn(before, Insert(before, at, line), line)
  {
    assert Inserts(before, Insert(before, at, line), at, line);
  }

  lemma {:induction false} EachAt<A, B>(f: A -> B, s: seq<A>, i: nat)
    requires i < |s|
    ensures Each(f, s)[i] == f(s[i])
  {
    if i > 0 { EachAt(f, s[1..], i - 1); }
  }

  lemma EachIsMap<A, B>(f: A -> B, s: seq<A>)
    ensures forall i | 0 <= i < |s| :: Each(f, s)[i] == f(s[i])
  {
    forall i | 0 <= i < |s| ensures Each(f, s)[i] == f(s[i]) { EachAt(f, s, i); }
  }

  lemma EachEdits<A, B>(f: A -> B, s: seq<A>, n: nat, x: A)
    requires n <= |s|
    ensures n < |s| ==> Each(f, s[n := x]) == Each(f, s)[n := f(x)]
    ensures Each(f, Insert(s, n, x)) == Insert(Each(f, s), n, f(x))
  {
    EachIsMap(f, s);
    EachIsMap(f, Insert(s, n, x));
    if n < |s| { EachIsMap(f, s[n := x]); }
  }

  lemma EachMembers<A, B>(f: A -> B, s: seq<A>)
    ensures forall y :: y in Each(f, s) <==> exists x | x in s :: f(x) == y
  {
    EachIsMap(f, s);
    forall y | y in Each(f, s) ensures exists x | x in s :: f(x) == y {
      var i :| 0 <= i < |s| && Each(f, s)[i] == y;
      assert f(s[i]) == y;
    }
    forall x | x in s ensures f(x) in Each(f, s) {
      var i :| 0 <= i < |s| && s[i] == x;
      assert Each(f, s)[i] == f(x);
    }
  }

  lemma {:induction false} EachConcat<A, B>(f: A -> B, a: seq<A>, b: seq<A>)
    ensures Each(f, a + b) == Each(f, a) + Each(f, b)
  {
    EachIsMap(f, a);
    EachIsMap(f, b);
    EachIsMap(f, a + b);
  }

  lemma EachSingle<A, B>(f: A -> B, x: A)
    ensures Each(f, [x]) == [f(x)]
  {
    assert [x][1..] == [];
  }

  lemma EachEnd<A, B>(f: A -> B, s: seq<A>, gap: seq<A>, x: A, y: A)
    ensures Each(f, s + gap + [x, y]) == Each(f, s) + Each(f, gap) + [f(x), f(y)]
  {
    EachConcat(f, s, gap);
    EachConcat(f, s + gap, [x, y]);
    assert [x, y] == [x] + [y];
    EachConcat(f, [x], [y]);
    EachSingle(f, x);
    EachSingle(f, y);
  }

  function Kinds(lines: seq<string>): seq<Kind> { Each(Classify, lines) }

  function Settings(lines: seq<string>): seq<Setting> { View("", Kinds(lines)) }

  function HeaderLine(section: string): string { "[" + section + "]" }

  lemma HeaderIff(line: string, section: string)
    ensures Strip(line) == HeaderLine(section) <==> Classify(line) == Header(section)
  {
    var s := Strip(line);
    assert HeaderLine(section)[1..|HeaderLine(section)| - 1] == section;
    assert Bracketed(s) ==> s == HeaderLine(s[1..|s| - 1]);
  }

  function Render(indent: string, key: string, sep: char, value: string): string {
    indent + (key + Tail(sep, value))
  }

  /** The part after the key: a blank, the separator, a blank, the value. */
  function Tail(sep: char, value: string): string { " " + ([sep] + (" " + value)) }

  lemma RenderText(indent: string, key: string, sep: char, value: string)
    ensures Render(indent, key, sep, value) == indent + key + " " + [sep] + " " + value
  {
  }

  lemma DropOneBlank(s: string)
    ensures DropBlanks(" " + s) == DropBlanks(s)
  {
    assert (" " + s)[1..] == s;
  }

  lemma SeparatorRender(sep: char, value: string)
    requires sep in {'=', ':'}
    ensures DropBlanks(Tail(sep, value)) == [sep] + (" " + value)
    ensures DropBlanks(([sep] + (" " + value))[1..]) == DropBlanks(value)
  {
    var rest := [sep] + (" " + value);
    DropOneBlank(rest);
    assert Span(rest, IsBlank) == 0;
    assert rest[1..] == " " + value;
    DropOneBlank(value);
  }

  lemma KeyRender(indent: string, key: string, tail: string)
    requires AllBlank(indent) && ValidKey(key) && tail != "" && tail[0] == ' '
    ensures var line := indent + (key + tail);
            && Span(line, IsBlank) == |indent| && line[|indent|..] == key + tail && line[..|indent|] == indent
            && Span(key + tail, IsKeyChar) == |key| && (key + tail)[|key|..] == tail && (key + tail)[..|key|] == key
            && !Bracketed(Strip(line))
  {
    assert key[0] in key && (key + tail)[0] == key[0];
    SpanOf(indent, key + tail, IsBlank);
    SpanOf(key, tail, IsKeyChar);
    StripPrefix(indent, key + tail);
    StripKeepsFirst(key + tail);
  }

  /** A rendered entry parses back to its parts; leading blanks of the value are not part of it. */
  lemma ClassifyRender(indent: string, key: string, sep: char, value: string)
    requires AllBlank(indent) && ValidKey(key) && sep in {'=', ':'}
    ensures Classify(Render(indent, key, sep, value)) == Entry(indent, key, sep, DropBlanks(value))
  {
    KeyRender(indent, key, Tail(sep, value));
    SeparatorRender(sep, value);
  }

  lemma DropBlanksStrips(s: string)
    ensures Strip(DropBlanks(s)) == Strip(s)
  {
    var n := Span(s, IsBlank);
    assert s == s[..n] + s[n..];
    StripPrefix(s[..n], s[n..]);
  }

  // ------------------------------------------------------------------------- line breaks

  ghost predicate AllOneLine(lines: seq<string>) { forall l | l in lines :: OneLine(l) }

  lemma OneLineRender(indent: string, key: string, sep: char, value: string)
    requires AllBlank(indent) && OneLine(key) && sep in {'=', ':'} && OneLine(value)
    ensures OneLine(Render(indent, key, sep, value))
  {
    forall c | c in Render(indent, key, sep, value) ensures !IsBreak(c) {
      assert c in indent || c in key || c in Tail(sep, value);
      assert c in Tail(sep, value) ==> c == ' ' || c == sep || c in value;
    }
  }

  lemma SliceOneLine(s: string, i: nat, j: nat)
    requires OneLine(s) && i <= j <= |s|
    ensures OneLine(s[i..j])
  {
    assert forall c | c in s[i..j] :: c in s;
  }

  /** The parts of an entry hold no line break that the line does not. */
  lemma PartsOneLine(line: string)
    requires OneLine(line)
    ensures Classify(line).Entry? ==> OneLine(Classify(line).key) && OneLine(Classify(line).raw)
  {
    var r1 := DropBlanks(line);
    var j := Span(r1, IsKeyChar);
    DropOneLine(line);
    SliceOneLine(r1, 0, j);
    SliceOneLine(r1, j, |r1|);
    RawOneLine(r1[j..]);
  }

  lemma DropOneLine(s: string)
    requires OneLine(s)
    ensures OneLine(DropBlanks(s))
  {
    SliceOneLine(s, Span(s, IsBlank), |s|);
  }

  lemma RawOneLine(s: string)
    requires OneLine(s)
    ensures DropBlanks(s) != "" ==> OneLine(DropBlanks(DropBlanks(s)[1..]))
  {
    DropOneLine(s);
    var r := DropBlanks(s);
    if r != "" {
      SliceOneLine(r, 1, |r|);
      DropOneLine(r[1..]);
    }
  }

  lemma OneLineEdits(lines: seq<string>, n: nat, a: string, b: string, line: string)
    requires AllOneLine(lines) && n <= |lines| && OneLine(a) && OneLine(b) && OneLine(line)
    ensures n < |lines| ==> AllOneLine(lines[n := line])
    ensures AllOneLine(Insert(lines, n, line))
    ensures AllOneLine(lines + [a, b, line]) && AllOneLine(lines + [a, b])
  {
    assert n < |lines| ==> forall l | l in lines[n := line] :: l in lines || l == line;
    assert forall l | l in Insert(lines, n, line) :: l in lines || l == line;
    assert forall l | l in lines + [a, b] :: l in lines || l == a || l == b;
    assert forall l | l in lines + [a, b, line] :: l in lines || l == a || l == b || l == line;
  }

  lemma OneLineHeader(section: string)
    requires OneLine(section)
    ensures OneLine(HeaderLine(section))
  {
    assert forall c | c in HeaderLine(section) :: c in section || c == '[' || c == ']';
  }

  /** The loop of parse_lines, with each line already matched: a running section and an output list. */
  method ParseLines(lines: seq<string>) returns (out: seq<Item>)
    ensures out == Items(Kinds(lines))
  {
    out := ParseKinds(Kinds(lines));
  }

  method ParseKinds(ks: seq<Kind>) returns (out: seq<Item>)
    ensures out == Items(ks)
  {
    out := [];
    var section := "";
    for i := 0 to |ks|
      invariant out == Items(ks[..i])
      invariant section == End("", ks[..i])
    {
      ItemsStep(ks, i);
      match ks[i] {
        case Plain =>
        case Header(name) =>
          section := name;
        case Entry(indent, key, sep, raw) =>
          if sep == ':' && raw == "" {
            section := key;
          }
          out := out + [Item(i, indent, key, sep, Strip(raw), section)];
      }
    }
    assert ks[..|ks|] == ks;
  }
}
