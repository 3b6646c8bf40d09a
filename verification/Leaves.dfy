/** _format_leaf of bcfuzzer/mutator.py: how a value is written into a TOML or an INI file. */
module Leaves {
  import opened Results
  import opened Text
  import opened Values
  import opened ConfigLines
  import opened LineFormat
  import opened EditedFiles
  import opened Sanitizer

  function HexDigit(d: nat): char
    requires d < 16
  {
    "0123456789abcdef"[d]
  }

  function Unicode(n: nat): string
    requires n < 0x10000
  {
    ['\\', 'u', HexDigit(n / 0x1000), HexDigit(n / 0x100 % 0x10), HexDigit(n / 0x10 % 0x10), HexDigit(n % 0x10)]
  }

  /** json.dumps of one character: ASCII only, a pair of surrogates past 0xFFFF. */
  function Escape(c: char): string {
    var n := c as int;
    if c == '"' || c == '\\' then ['\\', c]
    else if c == '\n' then "\\n"
    else if c == '\r' then "\\r"
    else if c == '\t' then "\\t"
    else if n == 8 then "\\b"
    else if n == 12 then "\\f"
    else if ' ' <= c <= '~' then [c]
    else if n < 0x10000 then Unicode(n)
    else Unicode(0xD800 + (n - 0x10000) / 0x400) + Unicode(0xDC00 + (n - 0x10000) % 0x400)
  }

  function EscapeAll(s: string): string { if s == "" then "" else Escape(s[0]) + EscapeAll(s[1..]) }

  function Quote(s: string): string { "\"" + EscapeAll(s) + "\"" }

  function FormatLeaf(v: Value, toml: bool): string {
    match v
    case BoolV(b) => ShowBool(b)
    case StrV(s) => if toml then Quote(s) else s
    case _ => Str(v)
  }

  predicate Printable(c: char) { ' ' <= c <= '~' }

  lemma EscapePrintable(c: char)
    ensures forall d | d in Escape(c) :: Printable(d)
  {
    forall n: nat | n < 0x10000 ensures forall d | d in Unicode(n) :: Printable(d) { HexPrintable(n); }
  }

  lemma HexPrintable(n: nat)
    requires n < 0x10000
    ensures forall d | d in Unicode(n) :: Printable(d)
  {
    assert forall k | 0 <= k < 16 :: Printable("0123456789abcdef"[k]);
  }

  lemma {:induction false} EscapeAllPrintable(s: string)
    ensures forall d | d in EscapeAll(s) :: Printable(d)
  {
    if s != "" {
      EscapePrintable(s[0]);
      EscapeAllPrintable(s[1..]);
    }
  }

  /** Every text is written as one line, in quotes, with nothing to trim. */
  lemma QuotedText(s: string)
    ensures OneLine(Quote(s)) && InQuotes(Quote(s)) && Strip(Quote(s)) == Quote(s)
  {
    EscapeAllPrintable(s);
    forall c | c in Quote(s) ensures !IsBreak(c) { assert c == '"' || c in EscapeAll(s); }
    TrimmedIsFixed(Quote(s));
  }

  /** In a TOML file every value is read back as it was written, wherever the write is placed. */
  lemma TomlLeafReadsBack(text: string, section: string, key: string, v: Value)
    requires ValidKey(key) && OneLine(section) && Placeable(Kinds(SplitLines(text)), section, key)
    requires v.CompositeV? ==> OneLine(v.repr)
    ensures ReadBack(Rewritten(text, section, key, FormatLeaf(v, true)), section, key)
            == Some(Strip(FormatLeaf(v, true)))
  {
    TomlLeafOneLine(v);
    var leaf := FormatLeaf(v, true);
    assert FirstLine(leaf) == leaf;
    ReadsFirstLine(text, section, key, leaf);
  }

  lemma TomlLeafOneLine(v: Value)
    requires v.CompositeV? ==> OneLine(v.repr)
    ensures OneLine(FormatLeaf(v, true))
  {
    match v {
      case StrV(s) => QuotedText(s);
      case IntV(n) => ShowOneLine(n);
      case _ =>
    }
  }

  /**
   * In an INI file a text is read back, trimmed, exactly when no line break in it is followed by
   * anything but space.
   */
  lemma IniTextReadsBackIff(text: string, section: string, key: string, s: string)
    requires ValidKey(key) && OneLine(section) && Placeable(Kinds(SplitLines(text)), section, key)
    ensures ReadBack(Rewritten(text, section, key, FormatLeaf(StrV(s), false)), section, key) == Some(Strip(s))
            <==> OneLine(RStrip(s))
  {
    PlainLeaf(s);
    ReadsBackIff(text, section, key, s);
  }

  lemma PlainLeaf(s: string)
    ensures FormatLeaf(StrV(s), false) == s
  {
  }
}
