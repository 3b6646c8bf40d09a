/**
 * Which value the sanitizers leave behind a ruled name (_bounded_int and _bool_value of
 * live_node_geth.py and live_node_fisco.py), said of what is read before and afterwards.
 */
module CleanedValues {
  import opened Results
  import opened Text
  import opened ConfigLines
  import opened LineFormat
  import opened LineSweep
  import opened Sanitizer

  // ------------------------------------------------------------------------------- quotes

  predicate All(s: string, q: char) { forall i | 0 <= i < |s| :: s[i] == q }

  lemma {:induction false} StripQuoteFront(a: string, s: string, q: char)
    requires All(a, q)
    ensures StripQuote(a + s, q) == StripQuote(s, q)
  {
    if a == "" {
      assert a + s == s;
    } else {
      assert (a + s)[1..] == a[1..] + s;
      StripQuoteFront(a[1..], s, q);
    }
  }

  lemma {:induction false} StripQuoteBack(core: string, b: string, q: char)
    requires All(b, q) && core != "" && core[0] != q && core[|core| - 1] != q
    ensures StripQuote(core + b, q) == core
    decreases |b|
  {
    if b == "" {
      assert core + b == core;
    } else {
      assert (core + b)[..|core + b| - 1] == core + b[..|b| - 1];
      StripQuoteBack(core, b[..|b| - 1], q);
    }
  }

  lemma StripQuoteAround(a: string, core: string, b: string, q: char)
    requires All(a, q) && All(b, q) && core != "" && core[0] != q && core[|core| - 1] != q
    ensures StripQuote(a + (core + b), q) == core
  {
    StripQuoteFront(a, core + b, q);
    StripQuoteBack(core, b, q);
  }

  /** White space, double quotes and then single quotes around a value do not count. */
  lemma UnquoteAround(pre: string, a: string, b: string, core: string, b': string, a': string, post: string)
    requires AllSpace(pre) && AllSpace(post) && All(a, '"') && All(a', '"') && All(b, '\'') && All(b', '\'')
    requires core != "" && PlainEnd(core[0]) && PlainEnd(core[|core| - 1])
    ensures Unquote(pre + ((a + ((b + (core + b')) + a')) + post)) == core
  {
    var single := b + (core + b');
    var quoted := a + (single + a');
    assert single[0] == if b == "" then core[0] else b[0];
    assert single[|single| - 1] == if b' == "" then core[|core| - 1] else b'[|b'| - 1];
    assert quoted[0] == if a == "" then single[0] else a[0];
    assert quoted[|quoted| - 1] == if a' == "" then single[|single| - 1] else a'[|a'| - 1];
    StripBetween(pre, quoted, post);
    StripQuoteAround(a, single, a', '"');
    StripQuoteAround(b, core, b', '\'');
  }

  /** Letters are compared without their case. */
  lemma {:induction false} LowerIs(s: string)
    ensures |Lower(s)| == |s|
    ensures forall i | 0 <= i < |s| ::
              if 'A' <= s[i] <= 'Z' then Lower(s)[i] as int - 'a' as int == s[i] as int - 'A' as int
              else Lower(s)[i] == s[i]
  {
    if s != "" { LowerIs(s[1..]); }
  }

  // ------------------------------------------------------------------------ cleaned values

  /** What may stand after cleaning where `before` stood. */
  predicate Becomes(rule: Rule, parse: Parse, before: string, after: string) {
    match rule
    case Bounded(low, high, default) =>
      (match parse(Unquote(before))
       case Some(n) =>
         && (low <= n <= high ==> after == Show(n))
         && (n > high ==> after == Show(high))
         && (n < low ==> after == Show(low))
       case None => low <= default <= high ==> after == Show(default))
    case Boolean(byDefault) =>
      var word := Lower(Unquote(before));
      && (word == "true" || word == "1" || word == "yes" || word == "y" || word == "on" ==> after == "true")
      && (word == "false" || word == "0" || word == "no" || word == "n" || word == "off" ==> after == "false")
      && (after == "true" || after == "false")
      && (word !in {"true", "1", "yes", "y", "on", "false", "0", "no", "n", "off"} ==> (after == "true" <==> byDefault))
    case Quoted(fallback) =>
      var s := Strip(before);
      after == if s != "" && s[0] == s[|s| - 1] == '"' then s else fallback
  }

  /** A rule acts on its own name, unless the path is exempt; no exemption switches the quoting rule off. */
  predicate Ruled(c: Config, section: string, key: string) {
    (section, key) in c.rules && (c.rules[(section, key)].Quoted? || section + "." + key !in c.exempt)
  }

  lemma WordBecomes(text: string, byDefault: bool)
    ensures var after := WordValue(text, byDefault);
            && (text == "true" || text == "1" || text == "yes" || text == "y" || text == "on" ==> after == "true")
            && (text == "false" || text == "0" || text == "no" || text == "n" || text == "off" ==> after == "false")
            && (after == "true" || after == "false")
            && (text !in {"true", "1", "yes", "y", "on", "false", "0", "no", "n", "off"}
                ==> (after == "true" <==> byDefault))
  {
    var yes, no := ["true", "1", "yes", "y", "on"], ["false", "0", "no", "n", "off"];
    assert yes[0] == "true" && yes[1] == "1" && yes[2] == "yes" && yes[3] == "y" && yes[4] == "on";
    assert no[0] == "false" && no[1] == "0" && no[2] == "no" && no[3] == "n" && no[4] == "off";
    assert "true"[0] == 't' && "false"[0] == 'f' && "no"[1] == 'o' && "on"[1] == 'n';
  }

  lemma CleanBecomes(rule: Rule, parse: Parse, before: string)
    requires SoundRule(rule)
    ensures Becomes(rule, parse, before, Clean(rule, before, parse))
  {
    if rule.Boolean? { WordBecomes(Lower(Unquote(before)), rule.byDefault); }
  }

  /** The fix of a name: none where no rule acts, else the value the rule makes of the one before. */
  lemma FixedBecomes(c: Config, section: string, key: string, before: string)
    requires SoundRules(c.rules)
    ensures var fixed := Fixed(c, section, key, before);
            if Ruled(c, section, key) then fixed.Some? && Becomes(c.rules[(section, key)], c.parse, before, fixed.value)
            else fixed == None
  {
    if Ruled(c, section, key) {
      assert SoundRule(c.rules[(section, key)]);
      CleanBecomes(c.rules[(section, key)], c.parse, before);
    }
  }

  /** What every name reads as after sanitizing, from what it read as before. */
  ghost predicate AllBecome(c: Config, v: seq<Setting>, w: seq<Setting>) {
    forall section, key :: NameBecomes(c, section, key, Lookup(v, section, key), Lookup(w, section, key))
  }

  predicate NameBecomes(c: Config, section: string, key: string, before: Option<string>, after: Option<string>) {
    match before
    case None => after == None
    case Some(value) =>
      if Ruled(c, section, key) then after.Some? && Becomes(c.rules[(section, key)], c.parse, value, after.value)
      else after == before
  }

  lemma SettingsBecome(c: Config, v: seq<Setting>)
    requires SoundRules(c.rules)
    ensures AllBecome(c, v, FixSettings(FixOf(c), v))
  {
    forall section, key
      ensures NameBecomes(c, section, key, Lookup(v, section, key), Lookup(FixSettings(FixOf(c), v), section, key))
    {
      SweptFirst(FixOf(c), v, section, key);
      if Lookup(v, section, key).Some? { FixedBecomes(c, section, key, Lookup(v, section, key).value); }
    }
  }

  lemma SanitizedBecomes(c: Config, lines: seq<string>)
    requires Sound(c)
    ensures AllBecome(c, Settings(lines), Settings(Cleaned(FixOf(c), lines)))
  {
    FixTidy(c);
    SweptSettings(FixOf(c), lines);
    SettingsBecome(c, Settings(lines));
  }
}
