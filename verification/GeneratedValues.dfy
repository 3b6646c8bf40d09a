/** What each mutation rule makes of the current value: generate_value of bcfuzzer/mutator.py, rule by rule. */
module GeneratedValues {
  import opened Results
  import opened Values
  import opened Items

  /** The rule can give v, and nothing raises. */
  predicate Gives(item: Item, rule: string, current: Value, v: Value) { Some(v) in Outcomes(item, rule, current) }

  predicate Raises(item: Item, rule: string, current: Value) { None in Outcomes(item, rule, current) }

  /** The rules of each kind of item, which are those of the laws below. */
  lemma RulesOf(kind: Kind, rule: string)
    ensures rule in Rules(kind)
            <==> match kind
                 case Flag => rule in {"set_true", "set_false", "flip"}
                 case Number => rule in {"min", "max", "zero", "neg_one", "add_one", "sub_one", "scale_10",
                                         "scale_10th", "dangerous"}
                 case Text => rule in {"empty", "max_len", "format_mismatch"}
                 case Choice => rule in {"switch", "invalid_member", "dangerous"}
                 case Listing => rule in {"append_elem", "remove_elem", "reorder", "duplicate", "empty_list"}
                 case Nested => rule in {"delete_member", "replace_member", "switch_variant", "dangerous"}
  {
  }

  /** An operation on a list is itself the value. */
  lemma ListRules(item: Item, rule: string, current: Value, v: Value)
    requires item.kind == Listing
    ensures Gives(item, rule, current, v) <==> v == StrV(rule)
  {
  }

  /** A switch is set to the one or the other, or to the opposite of what it was; flipped twice it is as before. */
  lemma FlagRules(item: Item, current: Value, v: Value)
    requires item.kind == Flag
    ensures Gives(item, "set_true", current, v) <==> v == BoolV(true)
    ensures Gives(item, "set_false", current, v) <==> v == BoolV(false)
    ensures Gives(item, "flip", BoolV(true), BoolV(false)) && Gives(item, "flip", BoolV(false), BoolV(true))
    ensures Gives(item, "flip", current, v) ==> v.BoolV? && !Gives(item, "flip", v, v)
    ensures Gives(item, "flip", current, BoolV(true)) <==>
              current in {NullV, BoolV(false), IntV(0), StrV(""), CompositeV("[]"), CompositeV("{}")}
  {
    assert "set_true"[0] == 's' && "set_false"[4] == 'f' && "flip"[0] == 'f';
  }

  /** The number a rule starts from: the current one, or else what int() makes of the default. */
  lemma StartIs(item: Item, current: Value, n: int)
    ensures Start(item, current) == Some(n)
            <==> AsNumber(current) == Some(n)
                 || (AsNumber(current).None?
                     && (AsNumber(item.default) == Some(n)
                         || (n == 0 && item.default in {NullV, StrV(""), CompositeV("[]"), CompositeV("{}")})
                         || (item.default.StrV? && item.default.s != "" && item.parsed == Some(n))))
  {
  }

  /** A bound, zero or -1, whatever the current value. */
  lemma FixedNumbers(item: Item, current: Value, v: Value)
    requires item.kind == Number
    ensures Gives(item, "min", current, v) <==> v == IntV(item.low)
    ensures Gives(item, "max", current, v) <==> v == IntV(item.high)
    ensures Gives(item, "zero", current, v) <==> v == IntV(0)
    ensures Gives(item, "neg_one", current, v) <==> v == IntV(-1)
  {
    assert "min"[1] == 'i' && "max"[1] == 'a' && "zero"[0] == 'z' && "neg_one"[0] == 'n' && "dangerous"[0] == 'd';
  }

  /** Steps of one undo each other, and so does scaling up and down again; scaling down stops at 0. */
  lemma SteppedNumbers(item: Item, current: Value, n: int, v: Value)
    requires item.kind == Number && Start(item, current) == Some(n)
    ensures Gives(item, "add_one", current, v) <==> v.IntV? && v.n > n && Gives(item, "sub_one", v, IntV(n))
    ensures Gives(item, "sub_one", current, v) <==> v.IntV? && v.n < n && Gives(item, "add_one", v, IntV(n))
    ensures Gives(item, "scale_10", current, v) <==> v == IntV(10 * n)
    ensures n >= 0 && Gives(item, "scale_10", current, v) ==> Gives(item, "scale_10th", v, IntV(n))
    ensures Gives(item, "scale_10th", current, v)
            <==> v.IntV? && if n < 0 then v.n == 0 else 10 * v.n <= n < 10 * v.n + 10
  {
    Steps(item, n, current, v);
    if v.IntV? { Steps(item, v.n, v, IntV(n)); }
  }

  lemma Steps(item: Item, n: int, current: Value, v: Value)
    requires item.kind == Number && Start(item, current) == Some(n)
    ensures Gives(item, "add_one", current, v) <==> v == IntV(n + 1)
    ensures Gives(item, "sub_one", current, v) <==> v == IntV(n - 1)
    ensures Gives(item, "scale_10", current, v) <==> v == IntV(10 * n)
    ensures Gives(item, "scale_10th", current, v)
            <==> v.IntV? && if n < 0 then v.n == 0 else 10 * v.n <= n < 10 * v.n + 10
  {
    assert "add_one"[0] == 'a' && "sub_one"[1] == 'u' && "scale_10"[1] == 'c' && |"scale_10"| == 8;
    assert |"scale_10th"| == 10 && "scale_10th"[1] == 'c';
    assert "min"[1] == 'i' && "max"[1] == 'a' && "zero"[0] == 'z' && "neg_one"[0] == 'n' && "dangerous"[0] == 'd';
  }

  /** Stepping and scaling raise exactly when there is no number to start from. */
  lemma SteppingRaises(item: Item, rule: string, current: Value)
    requires item.kind == Number && rule in {"add_one", "sub_one", "scale_10", "scale_10th"}
    ensures Raises(item, rule, current) <==> Start(item, current) == None
  {
    assert rule[0] == 'a' || rule[0] == 's';
    assert "min"[0] == 'm' && "max"[0] == 'm' && "zero"[0] == 'z' && "neg_one"[0] == 'n' && "dangerous"[0] == 'd';
  }

  /** One of the dangerous values, or the current one when there are none. */
  lemma DangerousNumbers(item: Item, current: Value, v: Value)
    requires item.kind == Number
    ensures Gives(item, "dangerous", current, v) <==> if |item.dangerous| > 0 then v in item.dangerous else v == current
  {
  }

  /** Another member where there is one, else any; it raises without members. */
  lemma SwitchRule(item: Item, current: Value, v: Value)
    requires item.kind == Choice
    ensures Gives(item, "switch", current, v)
            <==> v in item.members && (!Equal(v, current) || forall m | m in item.members :: Equal(m, current))
    ensures Raises(item, "switch", current) <==> |item.members| == 0
  {
    assert "switch"[0] == 's' && "invalid_member"[0] == 'i' && "dangerous"[0] == 'd';
    var others := set m | m in item.members && !Equal(m, current) :: Some(m);
    assert others != {} <==> exists m :: m in item.members && !Equal(m, current) by {
      if m :| m in item.members && !Equal(m, current) { assert Some(m) in others; }
      if others != {} {
        var d :| d in others;
        assert d.value in item.members && !Equal(d.value, current);
      }
    }
    assert Outcomes(item, "switch", current) == if others != {} then others else OneOf(item.members);
  }

  /** A text that is no member; or a dangerous value, or a member where there are none. */
  lemma ChoiceRules(item: Item, current: Value, v: Value)
    requires item.kind == Choice
    ensures Gives(item, "invalid_member", current, v) <==> v == StrV("invalid_member_xyz")
    ensures Gives(item, "dangerous", current, v) <==> v in if |item.dangerous| > 0 then item.dangerous else item.members
  {
    assert "invalid_member"[0] == 'i' && "dangerous"[0] == 'd';
  }

  /** The empty text, 4096 times the letter x, or a text of no format. */
  lemma TextRules(item: Item, current: Value, v: Value)
    requires item.kind == Text
    ensures Gives(item, "empty", current, v) <==> v == StrV("")
    ensures Gives(item, "max_len", current, v)
            <==> v.StrV? && |v.s| == 4096 && forall i | 0 <= i < 4096 :: v.s[i] == 'x'
    ensures Gives(item, "format_mismatch", current, v) <==> v == StrV("not-a-valid-format!")
  {
    assert "empty"[0] == 'e' && "max_len"[0] == 'm' && "format_mismatch"[0] == 'f';
    if v.StrV? && |v.s| == 4096 && forall i | 0 <= i < 4096 :: v.s[i] == 'x' { assert v.s == seq(4096, _ => 'x'); }
  }

  /** A dictionary that names one of the nested members, or `type` when none are listed. */
  lemma DeleteMember(item: Item, current: Value, v: Value)
    requires item.kind == Nested
    ensures Gives(item, "delete_member", current, v)
            <==> exists m :: m in Named(item) && v == CompositeV("{'member': '" + m + "'}")
  {
    assert "delete_member"[0] == 'd' && "delete_member"[1] == 'e' && "replace_member"[0] == 'r';
    assert "dangerous"[1] == 'a' && "switch_variant"[0] == 's';
  }

  /** The same with the value that replaces the member's. */
  lemma ReplaceMember(item: Item, current: Value, v: Value)
    requires item.kind == Nested
    ensures Gives(item, "replace_member", current, v)
            <==> exists m :: m in Named(item) && v == CompositeV("{'member': '" + m + "', 'value': '" + Put(m) + "'}")
  {
    assert "replace_member"[0] == 'r' && "dangerous"[0] == 'd' && "switch_variant"[0] == 's';
  }

  function Named(item: Item): set<string> {
    if |item.nestedMembers| > 0 then set m | m in item.nestedMembers else {"type"}
  }

  /** What replaces a member's value. */
  function Put(member: string): string {
    match member
    case "type" => "process"
    case "server_address" => "/ip4/127.0.0.1/tcp/1"
    case _ => ""
  }

  /** A member that is a dictionary; the current value where there is none. */
  lemma SwitchVariant(item: Item, current: Value, v: Value)
    requires item.kind == Nested
    ensures Gives(item, "switch_variant", current, v)
            <==> if exists m :: m in item.members && IsDict(m) then v in item.members && IsDict(v) else v == current
  {
    assert "switch_variant"[0] == 's' && "dangerous"[0] == 'd';
    if m :| m in item.members && IsDict(m) { assert m in Variants(item.members); }
  }

  /** A dangerous value made a dictionary: the dictionary itself, or an empty one for an empty text or list.
   * Without dangerous values it is as a switch of the variant. */
  lemma DangerousVariant(item: Item, current: Value, v: Value)
    requires item.kind == Nested
    ensures Gives(item, "dangerous", current, v)
            <==> if |item.dangerous| > 0 then exists d :: d in item.dangerous && MakesDict(d, v)
                 else Gives(item, "switch_variant", current, v)
  {
    forall d ensures MakesDict(d, v) <==> DictOf(d) == Some(v) { MakesDictIff(d, v); }
  }

  /** Any other dangerous value can raise. */
  lemma DangerousRaises(item: Item, current: Value)
    requires item.kind == Nested
    ensures Raises(item, "dangerous", current) <==> exists d :: d in item.dangerous && forall w :: !MakesDict(d, w)
  {
    forall d ensures (forall w :: !MakesDict(d, w)) <==> DictOf(d) == None {
      if DictOf(d).Some? { MakesDictIff(d, DictOf(d).value); }
      forall w ensures MakesDict(d, w) ==> DictOf(d) == Some(w) { MakesDictIff(d, w); }
    }
  }

  lemma MakesDictIff(d: Value, v: Value)
    ensures MakesDict(d, v) <==> DictOf(d) == Some(v)
  {
    assert "{}"[0] == '{' && "[]"[0] == '[';
  }

  predicate MakesDict(d: Value, v: Value) {
    || (d == v && v.CompositeV? && |v.repr| > 0 && v.repr[0] == '{')
    || ((d == StrV("") || d == CompositeV("[]")) && v == CompositeV("{}"))
  }
}
