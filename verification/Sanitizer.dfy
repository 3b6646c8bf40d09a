/**
 * The live-admission sanitizers with exemptions: sanitize_with_exempt of the geth and the
 * fisco adapter, with _bounded_int and _bool_value. `parse` stands for int(text, 0) and
 * is None where that raises.
 */
module Sanitizer {
  import opened Results
  import opened Text
  import opened ConfigLines
  import opened LineFormat
  import opened LineSweep

  type Parse = string -> Option<int>

  ghost predicate ReadsDecimals(parse: Parse) { forall n :: parse(Show(n)) == Some(n) }

  // ------------------------------------------------------------------------ value rules

  /** `Quoted` is geth's rule for the blob pool directory, the one no exemption switches off. */
  datatype Rule =
    | Bounded(low: int, high: int, default: int)
    | Boolean(byDefault: bool)
    | Quoted(fallback: string)

  function StripQuote(s: string, q: char): string
    decreases |s|
  {
    if s != "" && s[0] == q then StripQuote(s[1..], q)
    else if s != "" && s[|s| - 1] == q then StripQuote(s[..|s| - 1], q)
    else s
  }

  function Unquote(s: string): string { StripQuote(StripQuote(Strip(s), '"'), '\'') }

  function Clamp(low: int, high: int, n: int): int {
    var top := if n < high then n else high;
    if low < top then top else low
  }

  function BoundedInt(value: string, low: int, high: int, default: int, parse: Parse): string {
    Show(Clamp(low, high, parse(Unquote(value)).GetOr(default)))
  }

  function Lower(s: string): string {
    if s == "" then ""
    else [if 'A' <= s[0] <= 'Z' then (s[0] as int + 32) as char else s[0]] + Lower(s[1..])
  }

  function ShowBool(b: bool): string { if b then "true" else "false" }

  function BoolValue(value: string, byDefault: bool): string { WordValue(Lower(Unquote(value)), byDefault) }

  function WordValue(text: string, byDefault: bool): string {
    if text in ["true", "1", "yes", "y", "on"] then "true"
    else if text in ["false", "0", "no", "n", "off"] then "false"
    else ShowBool(byDefault)
  }

  predicate InQuotes(s: string) { s != "" && s[0] == '"' && s[|s| - 1] == '"' }

  function QuotedValue(value: string, fallback: string): string {
    var raw := Strip(value);
    if InQuotes(raw) then raw else fallback
  }

  function Clean(rule: Rule, value: string, parse: Parse): string {
    match rule
    case Bounded(low, high, default) => BoundedInt(value, low, high, default, parse)
    case Boolean(byDefault) => BoolValue(value, byDefault)
    case Quoted(fallback) => QuotedValue(value, fallback)
  }

  predicate SoundRule(rule: Rule) {
    match rule
    case Bounded(low, high, _) => low <= high
    case Boolean(_) => true
    case Quoted(fallback) => InQuotes(fallback) && OneLine(fallback)
  }

  predicate PlainEnd(c: char) { !IsSpace(c) && c != '"' && c != '\'' }

  lemma PlainUnquoted(s: string)
    requires s != "" && PlainEnd(s[0]) && PlainEnd(s[|s| - 1])
    ensures Trimmed(s) && Unquote(s) == s
  {
    TrimmedIsFixed(s);
  }

  lemma ShowTrimmed(n: int)
    ensures Trimmed(Show(n)) && Unquote(Show(n)) == Show(n)
  {
    var s := Show(n);
    ShowChars(n);
    assert s[0] in s && s[|s| - 1] in s;
    PlainUnquoted(s);
  }

  lemma ShowOneLine(n: int)
    ensures OneLine(Show(n))
  {
    ShowChars(n);
  }

  lemma BoolWords(b: bool)
    ensures Trimmed(ShowBool(b)) && Unquote(ShowBool(b)) == ShowBool(b) && Lower(ShowBool(b)) == ShowBool(b)
  {
    PlainUnquoted(ShowBool(b));
    if b {
      assert "true"[1..] == "rue" && "rue"[1..] == "ue" && "ue"[1..] == "e" && "e"[1..] == "";
      assert Lower("e") == "e" && Lower("ue") == "ue" && Lower("rue") == "rue";
    } else {
      assert "false"[1..] == "alse" && "alse"[1..] == "lse" && "lse"[1..] == "se" && "se"[1..] == "e" && "e"[1..] == "";
      assert Lower("e") == "e" && Lower("se") == "se" && Lower("lse") == "lse" && Lower("alse") == "alse";
    }
  }

  ghost predicate Settled(rule: Rule, value: string, parse: Parse) {
    value != "" && Trimmed(value) && Clean(rule, value, parse) == value
  }

  lemma CleanOneLine(rule: Rule, value: string, parse: Parse)
    requires SoundRule(rule) && OneLine(value)
    ensures OneLine(Clean(rule, value, parse))
  {
    match rule
    case Bounded(low, high, default) => ShowOneLine(Clamp(low, high, parse(Unquote(value)).GetOr(default)));
    case Boolean(_) => assert OneLine("true") && OneLine("false");
    case Quoted(_) => StripOneLine(value);
  }

  lemma BoundedSettles(low: int, high: int, default: int, value: string, parse: Parse)
    requires low <= high && ReadsDecimals(parse)
    ensures Settled(Bounded(low, high, default), BoundedInt(value, low, high, default, parse), parse)
  {
    ShowTrimmed(Clamp(low, high, parse(Unquote(value)).GetOr(default)));
  }

  lemma BooleanSettles(byDefault: bool, value: string, parse: Parse)
    ensures Settled(Boolean(byDefault), BoolValue(value, byDefault), parse)
  {
    var b := BoolValue(value, byDefault) == "true";
    assert BoolValue(value, byDefault) == ShowBool(b);
    BoolWords(b);
    BoolWordFixed(b, byDefault);
  }

  lemma BoolWordFixed(b: bool, byDefault: bool)
    ensures BoolValue(ShowBool(b), byDefault) == ShowBool(b)
  {
    BoolWords(b);
    if b { TrueWord(byDefault); } else { FalseWord(byDefault); }
  }

  lemma TrueWord(byDefault: bool)
    ensures WordValue("true", byDefault) == "true"
  {
    assert ["true", "1", "yes", "y", "on"][0] == "true";
  }

  lemma FalseWord(byDefault: bool)
    ensures WordValue("false", byDefault) == "false"
  {
    assert ["false", "0", "no", "n", "off"][0] == "false";
    assert "false"[0] == 'f';
  }

  lemma QuotedSettles(fallback: string, value: string, parse: Parse)
    requires InQuotes(fallback)
    ensures Settled(Quoted(fallback), QuotedValue(value, fallback), parse)
  {
    TrimmedIsFixed(QuotedValue(value, fallback));
  }

  /** A cleaned value is a trimmed text, and cleaning it again changes nothing. */
  lemma CleanSettles(rule: Rule, value: string, parse: Parse)
    requires SoundRule(rule) && ReadsDecimals(parse)
    ensures Settled(rule, Clean(rule, value, parse), parse)
  {
    match rule
    case Bounded(low, high, default) => BoundedSettles(low, high, default, value, parse);
    case Boolean(byDefault) => BooleanSettles(byDefault, value, parse);
    case Quoted(fallback) => QuotedSettles(fallback, value, parse);
  }

  // ------------------------------------------------------------------------- rule tables

  type Rules = map<(string, string), Rule>

  /** No ruled key is its section's own name, so no ruled line is a bare `key:` that opens a section. */
  predicate SoundRules(rules: Rules) {
    forall sk | sk in rules :: sk.0 != "" && sk.0 != sk.1 && SoundRule(rules[sk])
  }

  function PathOf(section: string, key: string): string { section + "." + key }

  function RuleFor(rules: Rules, exempt: set<string>, section: string, key: string): Option<Rule> {
    if (section, key) !in rules then None
    else if !rules[(section, key)].Quoted? && PathOf(section, key) in exempt then None
    else Some(rules[(section, key)])
  }

  datatype Config = Config(rules: Rules, exempt: set<string>, parse: Parse)

  ghost predicate Sound(c: Config) { SoundRules(c.rules) && ReadsDecimals(c.parse) }

  function Fixed(c: Config, section: string, key: string, value: string): Option<string> {
    match RuleFor(c.rules, c.exempt, section, key)
    case None => None
    case Some(rule) => Some(Clean(rule, value, c.parse))
  }

  function FixOf(c: Config): Fix { (section, key, value) => Fixed(c, section, key, value) }

  lemma FixTidy(c: Config)
    requires Sound(c)
    ensures Tidy(FixOf(c))
  {
    forall section, key, value
      ensures TidyAt(FixOf(c), section, key, value)
    {
      match RuleFor(c.rules, c.exempt, section, key)
      case None =>
      case Some(rule) =>
        CleanSettles(rule, value, c.parse);
        if OneLine(value) { CleanOneLine(rule, value, c.parse); }
    }
  }

  /** The adapters' sanitize_with_exempt over the lines of one file. */
  method SanitizeLines(c: Config, lines: seq<string>) returns (r: seq<string>, changed: nat)
    ensures r == Cleaned(FixOf(c), lines)
    ensures changed == Differences(lines, r)
  {
    r, changed := Sweep(FixOf(c), lines);
  }

  // ------------------------------------------------------------------------ live domains

  ghost predicate InDomain(rule: Rule, value: string) {
    match rule
    case Bounded(low, high, _) => exists n :: low <= n <= high && value == Show(n)
    case Boolean(_) => value in ["true", "false"]
    case Quoted(_) => InQuotes(value)
  }

  lemma CleanInDomain(rule: Rule, value: string, parse: Parse)
    requires SoundRule(rule)
    ensures InDomain(rule, Clean(rule, value, parse))
  {
    match rule
    case Bounded(low, high, default) =>
      var n := Clamp(low, high, parse(Unquote(value)).GetOr(default));
      assert low <= n <= high && Clean(rule, value, parse) == Show(n);
    case _ =>
  }

  /** After sanitizing, every ruled setting that is not exempt reads as a value of its domain. */
  lemma DomainsHold(c: Config, lines: seq<string>)
    requires Sound(c)
    ensures forall s | s in Settings(Cleaned(FixOf(c), lines)) && (s.section, s.key) in c.rules
              && PathOf(s.section, s.key) !in c.exempt :: InDomain(c.rules[(s.section, s.key)], s.value)
  {
    FixTidy(c);
    SweptSettings(FixOf(c), lines);
    var v, w := Settings(lines), Settings(Cleaned(FixOf(c), lines));
    forall i | 0 <= i < |w| && (w[i].section, w[i].key) in c.rules && PathOf(w[i].section, w[i].key) !in c.exempt
      ensures InDomain(c.rules[(w[i].section, w[i].key)], w[i].value)
    {
      assert w[i] == FixSetting(FixOf(c), v[i]);
      CleanInDomain(c.rules[(w[i].section, w[i].key)], v[i].value, c.parse);
    }
  }

  /**
   * What a name reads as after sanitizing: its cleaned value if it is ruled and not exempt, else what
   * it read before.
   */
  lemma SanitizedLookup(c: Config, lines: seq<string>, section: string, key: string)
    requires Sound(c)
    ensures Lookup(Settings(Cleaned(FixOf(c), lines)), section, key)
            == match Lookup(Settings(lines), section, key)
               case None => None
               case Some(value) => Some(Fixed(c, section, key, value).GetOr(value))
  {
    FixTidy(c);
    SweptSettings(FixOf(c), lines);
    SweptFirst(FixOf(c), Settings(lines), section, key);
  }

  /** Running the sanitizer on what it wrote reports no change. */
  lemma SanitizeTwice(c: Config, lines: seq<string>)
    requires Sound(c)
    ensures Cleaned(FixOf(c), Cleaned(FixOf(c), lines)) == Cleaned(FixOf(c), lines)
    ensures Differences(Cleaned(FixOf(c), lines), Cleaned(FixOf(c), Cleaned(FixOf(c), lines))) == 0
  {
    FixTidy(c);
    SweepIdempotent(FixOf(c), lines);
  }
}
