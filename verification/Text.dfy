/** The parts of Python's str the config editors and the oracle rely on. */
module Text {

  // ------------------------------------------------------------------ whitespace, strip

  predicate IsSpace(c: char) {
    var n := c as int;
    || 0x09 <= n <= 0x0D || 0x1C <= n <= 0x20 || n == 0x85 || n == 0xA0 || n == 0x1680
    || 0x2000 <= n <= 0x200A || n == 0x2028 || n == 0x2029 || n == 0x202F || n == 0x205F || n == 0x3000
  }

  function LStrip(s: string): (r: string)
    ensures r == "" || !IsSpace(r[0])
  {
    if s == "" || !IsSpace(s[0]) then s else LStrip(s[1..])
  }

  function RStrip(s: string): (r: string)
    ensures r == "" || !IsSpace(r[|r| - 1])
    ensures r <= s
  {
    if s == "" || !IsSpace(s[|s| - 1]) then s else RStrip(s[..|s| - 1])
  }

  function Strip(s: string): (r: string)
    ensures r == "" || (!IsSpace(r[0]) && !IsSpace(r[|r| - 1]))
  {
    RStrip(LStrip(s))
  }

  predicate Trimmed(s: string) {
    s == "" || (!IsSpace(s[0]) && !IsSpace(s[|s| - 1]))
  }

  lemma TrimmedIsFixed(s: string)
    requires Trimmed(s)
    ensures Strip(s) == s
  {
  }

  predicate AllSpace(s: string) { forall c | c in s :: IsSpace(c) }

  lemma {:induction false} LStripPrefix(pre: string, s: string)
    requires AllSpace(pre)
    ensures LStrip(pre + s) == LStrip(s)
  {
    if pre == "" {
      assert pre + s == s;
    } else {
      assert (pre + s)[1..] == pre[1..] + s;
      LStripPrefix(pre[1..], s);
    }
  }

  lemma StripPrefix(pre: string, s: string)
    requires AllSpace(pre)
    ensures Strip(pre + s) == Strip(s)
  {
    LStripPrefix(pre, s);
  }

  /** The first character of a stripped text that starts with a non-space is that character. */
  lemma StripKeepsFirst(s: string)
    requires s != "" && !IsSpace(s[0])
    ensures Strip(s) != "" && Strip(s)[0] == s[0]
  {
    RStripKeepsFirst(s);
  }

  lemma {:induction false} RStripKeepsFirst(s: string)
    requires s != "" && !IsSpace(s[0])
    ensures RStrip(s) != "" && RStrip(s)[0] == s[0]
  {
    if IsSpace(s[|s| - 1]) {
      RStripKeepsFirst(s[..|s| - 1]);
    }
  }

  lemma {:induction false} LStripSplits(s: string) returns (pre: string)
    ensures AllSpace(pre) && s == pre + LStrip(s)
  {
    if s == "" || !IsSpace(s[0]) {
      pre := "";
    } else {
      var rest := LStripSplits(s[1..]);
      pre := [s[0]] + rest;
      ConsSpace(s, rest, LStrip(s[1..]));
    }
  }

  lemma ConsSpace(s: string, pre: string, rest: string)
    requires s != "" && IsSpace(s[0]) && AllSpace(pre) && s[1..] == pre + rest
    ensures AllSpace([s[0]] + pre) && s == [s[0]] + pre + rest
  {
    assert s == [s[0]] + s[1..];
  }

  lemma {:induction false} RStripSplits(s: string) returns (post: string)
    ensures AllSpace(post) && s == RStrip(s) + post
  {
    if s == "" || !IsSpace(s[|s| - 1]) {
      post := "";
    } else {
      var rest := RStripSplits(s[..|s| - 1]);
      post := rest + [s[|s| - 1]];
      assert s == s[..|s| - 1] + [s[|s| - 1]] == (RStrip(s[..|s| - 1]) + rest) + [s[|s| - 1]];
      assert forall c | c in post :: c == s[|s| - 1] || c in rest;
    }
  }

  lemma {:induction false} RStripSuffix(s: string, post: string)
    requires AllSpace(post)
    ensures RStrip(s + post) == RStrip(s)
  {
    if post == "" {
      assert s + post == s;
    } else {
      var shorter := post[..|post| - 1];
      assert (s + post)[..|s + post| - 1] == s + shorter;
      assert (s + post)[|s + post| - 1] == post[|post| - 1];
      RStripSuffix(s, shorter);
    }
  }

  lemma StripBetween(pre: string, core: string, post: string)
    requires AllSpace(pre) && AllSpace(post) && core != "" && Trimmed(core)
    ensures Strip(pre + (core + post)) == core
  {
    StripPrefix(pre, core + post);
    assert LStrip(core + post) == core + post;
    RStripSuffix(core, post);
  }

  lemma RStripAfter(pre: string, core: string, post: string)
    requires AllSpace(post) && core != "" && Trimmed(core)
    ensures RStrip(pre + (core + post)) == pre + core
  {
    RStripSuffix(pre + core, post);
    assert (pre + core) + post == pre + (core + post);
  }

  lemma StrippedParts(s: string) returns (pre: string, post: string)
    ensures AllSpace(pre) && AllSpace(post) && s == pre + (Strip(s) + post)
  {
    pre := LStripSplits(s);
    post := RStripSplits(LStrip(s));
  }

  // ------------------------------------------------------------------------------ spans

  /** Length of the longest prefix whose characters satisfy `p`. */
  function Span(s: string, p: char -> bool): (n: nat)
    ensures n <= |s|
    ensures forall i | 0 <= i < n :: p(s[i])
    ensures n < |s| ==> !p(s[n])
  {
    if s == "" || !p(s[0]) then 0 else 1 + Span(s[1..], p)
  }

  lemma SpanOf(a: string, b: string, p: char -> bool)
    requires forall c | c in a :: p(c)
    requires b == "" || !p(b[0])
    ensures Span(a + b, p) == |a|
  {
    assert forall i | 0 <= i < |a| :: (a + b)[i] == a[i] && a[i] in a;
    assert b != "" ==> (a + b)[|a|] == b[0];
  }

  // ------------------------------------------------------------------------------ lines

  /** Characters at which splitlines() breaks; reading a file has already turned "\r\n" and "\r" into "\n". */
  predicate IsBreak(c: char) {
    var n := c as int;
    || 0x0A <= n <= 0x0D || 0x1C <= n <= 0x1E || n == 0x85 || n == 0x2028 || n == 0x2029
  }

  /** Every character at which a line ends, and every one that counts as space. */
  lemma BreaksAre(c: char)
    ensures IsBreak(c) <==> c as int in {0x0A, 0x0B, 0x0C, 0x0D, 0x1C, 0x1D, 0x1E, 0x85, 0x2028, 0x2029}
    ensures IsSpace(c) <==> IsBreak(c) || c as int in {0x09, 0x1F, 0x20, 0xA0, 0x1680, 0x2000, 0x2001, 0x2002, 0x2003,
                                                      0x2004, 0x2005, 0x2006, 0x2007, 0x2008, 0x2009, 0x200A, 0x202F,
                                                      0x205F, 0x3000}
  {
  }

  predicate NotBreak(c: char) { !IsBreak(c) }

  predicate OneLine(s: string) { forall c | c in s :: !IsBreak(c) }

  function FirstLine(s: string): (r: string)
    ensures OneLine(r) && r <= s
  {
    s[..Span(s, NotBreak)]
  }

  lemma FirstLineOf(a: string, b: string)
    requires OneLine(a)
    ensures FirstLine(a + b) == a + FirstLine(b)
  {
    var n := Span(b, NotBreak);
    assert b == b[..n] + b[n..] && a + b == (a + b[..n]) + b[n..];
    SpanOf(a + b[..n], b[n..], NotBreak);
  }

  function SplitLines(text: string): (lines: seq<string>)
    ensures forall l | l in lines :: OneLine(l)
    decreases |text|
  {
    if text == "" then []
    else
      var n := Span(text, NotBreak);
      assert OneLine(text[..n]);
      [text[..n]] + if n == |text| then [] else SplitLines(text[n + 1..])
  }

  /** "\n".join(lines) + "\n" */
  function JoinLines(lines: seq<string>): string {
    if lines == [] then "\n"
    else if |lines| == 1 then lines[0] + "\n"
    else lines[0] + "\n" + JoinLines(lines[1..])
  }

  lemma SplitFirst(first: string, rest: string)
    requires OneLine(first)
    ensures SplitLines(first + ("\n" + rest)) == [first] + SplitLines(rest)
  {
    var text := first + ("\n" + rest);
    SpanOf(first, "\n" + rest, NotBreak);
    assert text[..|first|] == first && text[|first| + 1..] == rest;
  }

  lemma SplitHead(x: string, rest: string) returns (more: seq<string>)
    ensures SplitLines(x + ("\n" + rest)) == [FirstLine(x)] + more
  {
    var n, text := Span(x, NotBreak), x + ("\n" + rest);
    var tail := x[n..] + ("\n" + rest);
    assert text == x[..n] + tail;
    assert n < |x| ==> tail[0] == x[n];
    SpanOf(x[..n], tail, NotBreak);
    more := SplitLines(text[n + 1..]);
  }

  lemma JoinFirst(first: string, rest: seq<string>)
    ensures JoinLines([first] + rest) == first + ("\n" + if rest == [] then "" else JoinLines(rest))
  {
    assert ([first] + rest)[1..] == rest;
  }

  lemma SplitJoined(first: string, rest: seq<string>)
    requires OneLine(first) && rest != []
    ensures SplitLines(JoinLines([first] + rest)) == [first] + SplitLines(JoinLines(rest))
  {
    JoinFirst(first, rest);
    SplitFirst(first, JoinLines(rest));
  }

  /** Written and read back. */
  function Reread(lines: seq<string>): seq<string> { SplitLines(JoinLines(lines)) }

  lemma {:induction false} KeepsPrefix(f: seq<string> -> seq<string>, pre: seq<string>, rest: seq<string>)
    requires (forall l | l in pre :: OneLine(l)) && rest != []
    requires forall x, r {:trigger f([x] + r)} | OneLine(x) && r != [] :: f([x] + r) == [x] + f(r)
    ensures f(pre + rest) == pre + f(rest)
  {
    if pre == [] {
      assert pre + rest == rest;
    } else {
      KeepsPrefix(f, pre[1..], rest);
      assert [pre[0]] + (pre[1..] + rest) == pre + rest;
    }
  }

  lemma SplitPrefix(pre: seq<string>, rest: seq<string>)
    requires (forall l | l in pre :: OneLine(l)) && rest != []
    ensures SplitLines(JoinLines(pre + rest)) == pre + SplitLines(JoinLines(rest))
  {
    forall x, r | OneLine(x) && r != [] ensures Reread([x] + r) == [x] + Reread(r) { SplitJoined(x, r); }
    KeepsPrefix(Reread, pre, rest);
  }

  lemma SplitOne(last: string)
    requires OneLine(last)
    ensures SplitLines(JoinLines([last])) == [last]
  {
    SplitFirst(last, "");
    JoinFirst(last, []);
    assert [last] + [] == [last];
  }

  /**
   * Writing a list of lines and splitting what was written gives the list back; no lines come back as
   * one empty line.
   */
  lemma SplitJoin(lines: seq<string>)
    requires forall l | l in lines :: OneLine(l)
    ensures SplitLines(JoinLines(lines)) == if lines == [] then [""] else lines
  {
    if lines == [] {
      SplitOne("");
      assert JoinLines([""]) == JoinLines([]);
    } else {
      var n := |lines| - 1;
      assert lines == lines[..n] + [lines[n]];
      SplitOne(lines[n]);
      SplitPrefix(lines[..n], [lines[n]]);
    }
  }

  /** The lines around a text written as one line: those before it, its first line, and whatever the rest makes. */
  lemma SplitAround(pre: seq<string>, x: string, post: seq<string>) returns (more: seq<string>)
    requires forall l | l in pre :: OneLine(l)
    ensures SplitLines(JoinLines(pre + ([x] + post))) == pre + ([FirstLine(x)] + more)
  {
    SplitPrefix(pre, [x] + post);
    JoinFirst(x, post);
    more := SplitHead(x, if post == [] then "" else JoinLines(post));
  }

  /** A text is trimmed like its first line exactly when a break in it is followed by nothing but space. */
  lemma FirstLineStrips(s: string)
    ensures Strip(FirstLine(s)) == Strip(s) <==> OneLine(RStrip(s))
  {
    var pre, post := StrippedParts(s);
    var core := Strip(s);
    if core == "" {
      BlankStrips(s, pre, post);
      BlankStrips(FirstLine(s), FirstLine(s), "");
    } else {
      RStripAfter(pre, core, post);
      CoreStrips(pre, core, post);
    }
  }

  lemma BlankStrips(s: string, pre: string, post: string)
    requires AllSpace(pre) && AllSpace(post) && s == pre + post
    ensures AllSpace(s) && RStrip(s) == Strip(s) == ""
  {
    RStripSuffix("", s);
    assert "" + s == s;
    StripPrefix(s, "");
    assert s + "" == s;
  }

  /** Only space is stripped to nothing. */
  lemma BlankIff(s: string)
    ensures Strip(s) == "" <==> AllSpace(s)
  {
    var pre, post := StrippedParts(s);
    if AllSpace(s) { BlankStrips(s, s, ""); }
    assert Strip(s) == "" ==> s == pre + post;
  }

  lemma CoreStrips(pre: string, core: string, post: string)
    requires AllSpace(pre) && AllSpace(post) && core != "" && Trimmed(core)
    ensures Strip(FirstLine(pre + (core + post))) == core <==> OneLine(pre + core)
  {
    if OneLine(pre) {
      FirstLineOf(pre, core + post);
      StripPrefix(pre, FirstLine(core + post));
      FirstStrips(core, post);
    } else {
      BrokenStrips(pre, core + post);
    }
  }

  lemma FirstStrips(core: string, post: string)
    requires AllSpace(post) && core != "" && Trimmed(core)
    ensures Strip(FirstLine(core + post)) == core <==> OneLine(core)
  {
    if OneLine(core) {
      FirstLineOf(core, post);
      assert forall c | c in FirstLine(post) :: c in post;
      StripBetween("", core, FirstLine(post));
      assert "" + (core + FirstLine(post)) == core + FirstLine(post);
    } else {
      StripOneLine(FirstLine(core + post));
    }
  }

  lemma BrokenStrips(pre: string, rest: string)
    requires AllSpace(pre) && !OneLine(pre)
    ensures Strip(FirstLine(pre + rest)) == ""
  {
    var n := Span(pre, NotBreak);
    var tail := pre[n..] + rest;
    assert pre + rest == pre[..n] + tail;
    SpanOf(pre[..n], tail, NotBreak);
    var first := FirstLine(pre + rest);
    assert forall c | c in first :: c in pre;
    BlankStrips(first, first, "");
  }

  lemma StripOneLine(s: string)
    requires OneLine(s)
    ensures OneLine(Strip(s))
  {
    LStripOneLine(s);
  }

  lemma {:induction false} LStripOneLine(s: string)
    requires OneLine(s)
    ensures OneLine(LStrip(s))
  {
    if s != "" && IsSpace(s[0]) { LStripOneLine(s[1..]); }
  }

  // --------------------------------------------------------------------------- decimals

  predicate IsDigit(c: char) { '0' <= c <= '9' }

  function Digit(d: nat): (c: char)
    requires d < 10
    ensures IsDigit(c) && c as int - '0' as int == d
  {
    ('0' as int + d) as char
  }

  function ShowNat(n: nat): (s: string)
    ensures s != "" && forall c | c in s :: IsDigit(c)
  {
    (if n < 10 then "" else ShowNat(n / 10)) + [Digit(n % 10)]
  }

  /** str(n) */
  function Show(n: int): (s: string)
    ensures s != ""
  {
    if n < 0 then "-" + ShowNat(-n) else ShowNat(n)
  }

  function DigitsValue(s: string): int {
    if s == "" then 0 else 10 * DigitsValue(s[..|s| - 1]) + (s[|s| - 1] as int - '0' as int)
  }

  lemma {:induction false} ShowNatValue(n: nat)
    ensures DigitsValue(ShowNat(n)) == n
  {
    var s := ShowNat(n);
    if n >= 10 {
      assert s[..|s| - 1] == ShowNat(n / 10);
      ShowNatValue(n / 10);
    } else {
      assert s[..0] == "";
    }
  }

  /** Texts are told apart by what stands before and behind the last of a character. */
  lemma LastPart(c: char, a: string, m: string, b: string, n: string)
    requires a + [c] + m == b + [c] + n && c !in m && c !in n
    ensures a == b && m == n
  {
    var s := a + [c] + m;
    assert s[|a|] == c && s[|b|] == c;
    assert forall i | |a| < i < |s| :: s[i] in m;
    assert forall i | |b| < i < |s| :: s[i] in n;
    assert s[..|a|] == a && s[..|b|] == b && s[|a| + 1..] == m && s[|b| + 1..] == n;
  }

  /** And by what stands before and behind the first of it. */
  lemma FirstPart(c: char, a: string, m: string, b: string, n: string)
    requires a + [c] + m == b + [c] + n && c !in a && c !in b
    ensures a == b && m == n
  {
    var s := a + [c] + m;
    assert s[|a|] == c && s[|b|] == c;
    assert forall i | 0 <= i < |a| :: s[i] in a;
    assert forall i | 0 <= i < |b| :: s[i] in b;
    assert s[..|a|] == a && s[..|b|] == b && s[|a| + 1..] == m && s[|b| + 1..] == n;
  }

  lemma ShowChars(n: int)
    ensures forall c | c in Show(n) :: IsDigit(c) || c == '-'
  {
  }

  lemma ShowInjective(a: int, b: int)
    requires Show(a) == Show(b)
    ensures a == b
  {
    ShowNatValue(if a < 0 then -a else a);
    ShowNatValue(if b < 0 then -b else b);
    assert a >= 0 ==> Show(a)[0] in ShowNat(a);
    assert b >= 0 ==> Show(b)[0] in ShowNat(b);
    if a < 0 {
      assert Show(a)[1..] == ShowNat(-a) && Show(b)[1..] == ShowNat(-b);
    }
  }

  // ------------------------------------------------------------------------- comparison

  /** Python's `<=` on strings: by code point, a prefix before its extensions. */
  predicate Le(a: string, b: string) {
    if a == "" then true
    else if b == "" then false
    else if a[0] != b[0] then a[0] < b[0]
    else Le(a[1..], b[1..])
  }

  /** One place decides: everything before it is the same, and there a has the smaller character. */
  predicate SmallerAt(a: string, b: string, i: int) {
    0 <= i < |a| && i < |b| && a[..i] == b[..i] && a[i] < b[i]
  }

  /** The order of a dictionary, by the characters alone. */
  ghost predicate Alphabetical(a: string, b: string) { a <= b || exists i :: SmallerAt(a, b, i) }

  lemma {:induction false} LeIff(a: string, b: string)
    ensures Le(a, b) <==> Alphabetical(a, b)
    decreases |a|
  {
    if a != "" && b != "" && a[0] == b[0] {
      LeIff(a[1..], b[1..]);
      TailSmaller(a, b);
    } else if a != "" && b != "" {
      assert SmallerAt(a, b, 0) <==> a[0] < b[0];
      assert forall i | 0 < i < |a| && i < |b| :: a[..i][0] != b[..i][0];
    }
  }

  lemma TailSmaller(a: string, b: string)
    requires a != "" && b != "" && a[0] == b[0]
    ensures Alphabetical(a, b) <==> Alphabetical(a[1..], b[1..])
  {
    assert a == [a[0]] + a[1..] && b == [b[0]] + b[1..];
    forall i | i >= 0 ensures SmallerAt(a[1..], b[1..], i) <==> SmallerAt(a, b, i + 1) {
      if i + 1 < |a| && i + 1 < |b| {
        assert a[..i + 1] == [a[0]] + a[1..][..i] && b[..i + 1] == [b[0]] + b[1..][..i];
      }
    }
    if i :| SmallerAt(a, b, i) {
      assert i > 0;
      assert SmallerAt(a[1..], b[1..], i - 1);
    }
    if i :| SmallerAt(a[1..], b[1..], i) { assert SmallerAt(a, b, i + 1); }
  }

  lemma LeTotal(a: string, b: string)
    ensures Le(a, b) || Le(b, a)
    ensures Le(a, b) && Le(b, a) ==> a == b
    ensures Le(a, a)
  {
    if a != "" && b != "" && a[0] == b[0] {
      LeTotal(a[1..], b[1..]);
      if a[1..] == b[1..] { assert a == [a[0]] + a[1..] && b == [b[0]] + b[1..]; }
    }
    if a != "" { LeTotal(a[1..], a[1..]); }
  }

  lemma {:induction false} LeTransitive(a: string, b: string, c: string)
    requires Le(a, b) && Le(b, c)
    ensures Le(a, c)
  {
    if a != "" && b != "" && c != "" && a[0] == b[0] == c[0] {
      LeTransitive(a[1..], b[1..], c[1..]);
    }
  }
}
