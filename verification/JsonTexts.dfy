/** Reading a JSON string, written from section 7 of RFC 8259, which is how a text in a TOML file is quoted. */
module JsonTexts {
  import opened Results
  import opened Text
  import opened Values
  import opened ConfigLines
  import opened LineFormat
  import opened EditedFiles
  import opened Leaves

  function HexValue(c: char): Option<nat> {
    if '0' <= c <= '9' then Some(c as int - '0' as int)
    else if 'a' <= c <= 'f' then Some(c as int - 'a' as int + 10)
    else if 'A' <= c <= 'F' then Some(c as int - 'A' as int + 10)
    else None
  }

  /** The code unit that four hexadecimal digits stand for. */
  function CodeUnit(s: string): Option<nat> {
    if |s| < 4 then None
    else
      var a, b, c, d := HexValue(s[0]), HexValue(s[1]), HexValue(s[2]), HexValue(s[3]);
      if a.Some? && b.Some? && c.Some? && d.Some?
      then Some(a.value * 0x1000 + b.value * 0x100 + c.value * 0x10 + d.value)
      else None
  }

  datatype Read = Read(c: char, rest: string) | Malformed

  /** A code unit, or the two of a surrogate pair, behind \u. */
  function ReadUnit(s: string): (r: Read)
    ensures r.Read? ==> |r.rest| < |s|
  {
    match CodeUnit(s)
    case None => Malformed
    case Some(n) =>
      if n < 0xD800 || 0xE000 <= n < 0x10000 then Read(n as char, s[4..])
      else if 0xD800 <= n < 0xDC00 && |s| >= 10 && s[4] == '\\' && s[5] == 'u' then
        match CodeUnit(s[6..])
        case Some(m) =>
          if 0xDC00 <= m < 0xE000 then Read((0x10000 + (n - 0xD800) * 0x400 + (m - 0xDC00)) as char, s[10..])
          else Malformed
        case None => Malformed
      else Malformed
  }

  /** The first character of a text inside quotes, and what follows it. */
  function ReadChar(s: string): (r: Read)
    requires s != ""
    ensures r.Read? ==> |r.rest| < |s|
  {
    if s[0] == '"' || s[0] < ' ' then Malformed
    else if s[0] != '\\' then Read(s[0], s[1..])
    else if |s| == 1 then Malformed
    else
      match s[1]
      case '"' => Read('"', s[2..])
      case '\\' => Read('\\', s[2..])
      case '/' => Read('/', s[2..])
      case 'b' => Read(8 as char, s[2..])
      case 'f' => Read(12 as char, s[2..])
      case 'n' => Read('\n', s[2..])
      case 'r' => Read('\r', s[2..])
      case 't' => Read('\t', s[2..])
      case 'u' => ReadUnit(s[2..])
      case _ => Malformed
  }

  function ReadAll(s: string): Option<string>
    decreases |s|
  {
    if s == "" then Some("")
    else
      match ReadChar(s)
      case Malformed => None
      case Read(c, rest) => match ReadAll(rest) case None => None case Some(more) => Some([c] + more)
  }

  /** The text that a JSON string stands for. */
  function Unquoted(s: string): Option<string> {
    if |s| >= 2 && s[0] == '"' && s[|s| - 1] == '"' then ReadAll(s[1..|s| - 1]) else None
  }

  // --------------------------------------------------------------------------- round trip

  lemma HexRoundTrip(d: nat)
    requires d < 16
    ensures HexValue(HexDigit(d)) == Some(d)
  {
  }

  lemma FourDigits(a: nat, b: nat, c: nat, d: nat, s: string)
    requires a < 16 && b < 16 && c < 16 && d < 16 && |s| >= 4
    requires s[0] == HexDigit(a) && s[1] == HexDigit(b) && s[2] == HexDigit(c) && s[3] == HexDigit(d)
    ensures CodeUnit(s) == Some(a * 0x1000 + b * 0x100 + c * 0x10 + d)
  {
    HexRoundTrip(a);
    HexRoundTrip(b);
    HexRoundTrip(c);
    HexRoundTrip(d);
  }

  lemma LastDigit(n: nat)
    ensures n == n / 0x10 * 0x10 + n % 0x10
  {
  }

  lemma DigitsOf(n: nat, s: string) returns (a: nat, b: nat, c: nat, d: nat)
    requires n < 0x10000 && Unicode(n) <= s
    ensures a < 16 && b < 16 && c < 16 && d < 16 && n == a * 0x1000 + b * 0x100 + c * 0x10 + d
    ensures |s| >= 6 && s[0] == '\\' && s[1] == 'u'
    ensures s[2] == HexDigit(a) && s[3] == HexDigit(b) && s[4] == HexDigit(c) && s[5] == HexDigit(d)
  {
    a, b, c, d := n / 0x1000, n / 0x100 % 0x10, n / 0x10 % 0x10, n % 0x10;
    LastDigit(n);
    LastDigit(n / 0x10);
    LastDigit(n / 0x100);
    assert n / 0x10 / 0x10 == n / 0x100 && n / 0x100 / 0x10 == n / 0x1000;
    var digits := Unicode(n);
    assert |digits| == 6 && forall k | 0 <= k < 6 :: s[k] == digits[k];
  }

  lemma UnitRoundTrip(n: nat, s: string)
    requires n < 0x10000 && Unicode(n) <= s
    ensures |s| >= 6 && s[0] == '\\' && s[1] == 'u' && CodeUnit(s[2..]) == Some(n)
  {
    var a, b, c, d := DigitsOf(n, s);
    FourDigits(a, b, c, d, s[2..]);
  }

  lemma ReadPair(s: string, hi: nat, lo: nat)
    requires |s| >= 12 && s[0] == '\\' && s[1] == 'u' && s[6] == '\\' && s[7] == 'u'
    requires CodeUnit(s[2..]) == Some(hi) && CodeUnit(s[8..]) == Some(lo)
    requires 0xD800 <= hi < 0xDC00 && 0xDC00 <= lo < 0xE000
    ensures ReadChar(s) == Read((0x10000 + (hi - 0xD800) * 0x400 + (lo - 0xDC00)) as char, s[12..])
  {
    assert s[2..][6..] == s[8..] && s[2..][10..] == s[12..];
  }

  lemma PairRoundTrip(hi: nat, lo: nat, rest: string)
    requires 0xD800 <= hi < 0xDC00 && 0xDC00 <= lo < 0xE000
    ensures ReadChar(Unicode(hi) + Unicode(lo) + rest)
            == Read((0x10000 + (hi - 0xD800) * 0x400 + (lo - 0xDC00)) as char, rest)
  {
    var s, second := Unicode(hi) + Unicode(lo) + rest, Unicode(lo) + rest;
    UnitRoundTrip(hi, s);
    UnitRoundTrip(lo, second);
    Behind(Unicode(hi), Unicode(lo), rest);
    ReadPair(s, hi, lo);
  }

  lemma Behind(a: string, b: string, rest: string)
    requires |a| == 6 && |b| == 6
    ensures var s, second := a + b + rest, b + rest;
            s[6] == second[0] && s[7] == second[1] && s[8..] == second[2..] && s[12..] == rest
  {
  }

  lemma SingleRoundTrip(n: nat, rest: string)
    requires n < 0xD800 || 0xE000 <= n < 0x10000
    ensures ReadChar(Unicode(n) + rest) == Read(n as char, rest)
  {
    var s := Unicode(n) + rest;
    UnitRoundTrip(n, s);
    assert s[2..][4..] == rest;
  }

  lemma PlainRoundTrip(c: char, rest: string)
    requires Escape(c) == [c] || Escape(c)[1] != 'u'
    ensures ReadChar(Escape(c) + rest) == Read(c, rest)
  {
    var e := Escape(c);
    var s := e + rest;
    if |e| == 1 {
      assert s[0] == c && s[1..] == rest;
    } else {
      assert s[0] == '\\' && s[1] == e[1] && s[2..] == rest;
    }
  }

  lemma CharRoundTrip(c: char, rest: string)
    ensures ReadChar(Escape(c) + rest) == Read(c, rest)
  {
    var n := c as int;
    if n >= 0x10000 {
      PairRoundTrip(0xD800 + (n - 0x10000) / 0x400, 0xDC00 + (n - 0x10000) % 0x400, rest);
    } else if !(' ' <= c <= '~') && c !in {'\n', '\r', '\t'} && n != 8 && n != 12 {
      SingleRoundTrip(n, rest);
    } else {
      PlainRoundTrip(c, rest);
    }
  }

  lemma {:induction false} AllRoundTrip(s: string)
    ensures ReadAll(EscapeAll(s)) == Some(s)
  {
    if s != "" {
      CharRoundTrip(s[0], EscapeAll(s[1..]));
      AllRoundTrip(s[1..]);
      assert [s[0]] + s[1..] == s;
    }
  }

  /** A quoted text stands for the text itself. */
  lemma TextRoundTrip(s: string)
    ensures Unquoted(Quote(s)) == Some(s)
  {
    AllRoundTrip(s);
    assert Quote(s)[1..|Quote(s)| - 1] == EscapeAll(s);
  }

  /** So a text written into a TOML file is read back as itself, wherever the write is placed. */
  lemma TomlTextReadsBack(text: string, section: string, key: string, s: string)
    requires ValidKey(key) && OneLine(section) && Placeable(Kinds(SplitLines(text)), section, key)
    ensures ReadBack(Rewritten(text, section, key, FormatLeaf(StrV(s), true)), section, key) == Some(Quote(s))
    ensures Unquoted(Quote(s)) == Some(s)
  {
    TextRoundTrip(s);
    QuotedText(s);
    QuotedLeaf(s);
    TomlLeafReadsBack(text, section, key, StrV(s));
  }

  lemma QuotedLeaf(s: string)
    ensures FormatLeaf(StrV(s), true) == Quote(s)
  {
  }
}
