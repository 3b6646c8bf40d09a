/**
 * Catalog items and the values the mutation rules can produce for them
 * (bcfuzzer/common.py, bcfuzzer/mutator.py). A random choice is any member of its pool;
 * an outcome of None is a raised exception.
 */
module Items {
  import opened Results
  import opened Values

  datatype Kind = Flag | Number | Text | Choice | Listing | Nested

  /** `parsed` is what int() makes of a default that is a text; an absent list is the empty one. */
  datatype Item = Item(
    path: string, kind: Kind, default: Value, parsed: Option<int>, low: int, high: int,
    dangerous: seq<Value>, members: seq<Value>, nestedMembers: seq<string>)

  function Rules(kind: Kind): seq<string> {
    match kind
    case Flag => ["flip", "set_true", "set_false"]
    case Number => ["min", "max", "zero", "neg_one", "add_one", "sub_one", "scale_10", "scale_10th", "dangerous"]
    case Text => ["empty", "max_len", "format_mismatch"]
    case Choice => ["switch", "invalid_member", "dangerous"]
    case Listing => ["append_elem", "remove_elem", "reorder", "duplicate", "empty_list"]
    case Nested => ["delete_member", "replace_member", "switch_variant", "dangerous"]
  }

  function Or<T>(pool: seq<T>, other: seq<T>): seq<T> { if pool != [] then pool else other }

  /** random.choice, which raises on an empty pool. */
  function OneOf(pool: seq<Value>): set<Option<Value>> {
    if pool == [] then {None} else set x | x in pool :: Some(x)
  }

  /** Everything generate_value can return for the rule when the current value is `current`. */
  function Outcomes(item: Item, rule: string, current: Value): (r: set<Option<Value>>)
    ensures r != {}
  {
    match item.kind
    case Flag =>
      {Some(BoolV(if rule == "set_true" || rule == "set_false" then rule == "set_true" else !Truthy(current)))}
    case Number => NumberOutcomes(item, rule, current)
    case Text => {Some(TextOutcome(rule, current))}
    case Choice => ChoiceOutcomes(item, rule, current)
    case Listing => {Some(StrV(rule))}
    case Nested => NestedOutcomes(item, rule, current)
  }

  /** The number that stepping and scaling start from: the current value, or else the default. */
  function Start(item: Item, current: Value): Option<int> {
    match current
    case IntV(n) => Some(n)
    case BoolV(b) => Some(if b then 1 else 0)
    case _ =>
      match item.default
      case IntV(n) => Some(n)
      case BoolV(b) => Some(if b then 1 else 0)
      case StrV(s) => if s == "" then Some(0) else item.parsed
      case _ => if Truthy(item.default) then None else Some(0)
  }

  function NumberOutcomes(item: Item, rule: string, current: Value): (r: set<Option<Value>>)
    ensures r != {}
  {
    if rule == "dangerous" then NonEmpty(Or(item.dangerous, [current]))
    else if rule == "min" then {Some(IntV(item.low))}
    else if rule == "max" then {Some(IntV(item.high))}
    else if rule == "zero" then {Some(IntV(0))}
    else if rule == "neg_one" then {Some(IntV(-1))}
    else
      match Start(item, current)
      case None => {None}
      case Some(n) => {Some(Stepped(rule, n, current))}
  }

  function Stepped(rule: string, n: int, current: Value): Value {
    if rule == "add_one" then IntV(n + 1)
    else if rule == "sub_one" then IntV(n - 1)
    else if rule == "scale_10" then IntV(n * 10)
    else if rule == "scale_10th" then IntV(if n < 0 then 0 else n / 10)
    else current
  }

  function TextOutcome(rule: string, current: Value): Value {
    if rule == "empty" then StrV("")
    else if rule == "max_len" then StrV(seq(4096, _ => 'x'))
    else if rule == "format_mismatch" then StrV("not-a-valid-format!")
    else current
  }

  function ChoiceOutcomes(item: Item, rule: string, current: Value): (r: set<Option<Value>>)
    ensures r != {}
  {
    if rule == "dangerous" then NonEmpty(Or(item.dangerous, item.members))
    else if rule == "invalid_member" then {Some(StrV("invalid_member_xyz"))}
    else
      var others := set m | m in item.members && !Equal(m, current) :: Some(m);
      if others != {} then others else NonEmpty(item.members)
  }

  function NonEmpty(pool: seq<Value>): (r: set<Option<Value>>)
    ensures r == OneOf(pool) != {}
  {
    assert pool != [] ==> Some(pool[0]) in OneOf(pool);
    OneOf(pool)
  }

  predicate IsDict(v: Value) { v.CompositeV? && v.repr != "" && v.repr[0] == '{' }

  /** The members of a nested item that are dictionaries. */
  function Variants(members: seq<Value>): (r: seq<Value>)
    ensures forall v :: v in r <==> v in members && IsDict(v)
  {
    if members == [] then []
    else (if IsDict(members[0]) then [members[0]] else []) + Variants(members[1..])
  }

  /** dict(v): a copy of a dictionary, a new one for an empty text or list, and otherwise an exception. */
  function DictOf(v: Value): (r: Option<Value>)
    ensures r != Some(NullV)
  {
    if IsDict(v) then Some(v)
    else if v == StrV("") || v == CompositeV("[]") then Some(CompositeV("{}"))
    else None
  }

  function Copies(pool: seq<Value>): (r: set<Option<Value>>)
    requires pool != []
    ensures r != {}
  {
    var copies := set v | v in pool :: DictOf(v);
    assert DictOf(pool[0]) in copies;
    copies
  }

  function NestedOutcomes(item: Item, rule: string, current: Value): (r: set<Option<Value>>)
    ensures r != {}
  {
    var variants, names := Variants(item.members), Or(item.nestedMembers, ["type"]);
    if rule == "dangerous" then
      var pool := Or(item.dangerous, variants);
      if pool == [] then {Some(current)} else Copies(pool)
    else if rule == "switch_variant" then NonEmpty(Or(variants, [current]))
    else
      var edits := set m | m in names :: Some(MemberEdit(rule, m));
      assert Some(MemberEdit(rule, names[0])) in edits;
      edits
  }

  function MemberEdit(rule: string, member: string): Value {
    if rule == "replace_member" then Replacement(member) else CompositeV("{'member': '" + member + "'}")
  }

  function Replacement(member: string): Value {
    var value :=
      if member == "type" then "process" else if member == "server_address" then "/ip4/127.0.0.1/tcp/1" else "";
    CompositeV("{'member': '" + member + "', 'value': '" + value + "'}")
  }

  // --------------------------------------------------------------------- when generating raises

  /** No draw raises. */
  predicate Generates(item: Item) {
    forall rule | rule in Rules(item.kind) :: None !in Outcomes(item, rule, item.default)
  }

  /** Every rule has a draw that does not raise. */
  predicate CanGenerate(item: Item) { forall rule | rule in Rules(item.kind) :: Yields(item, rule) }

  predicate Yields(item: Item, rule: string) { exists d | d in Outcomes(item, rule, item.default) :: d.Some? }

  /**
   * Values raise when a choice has no members, a number no number to start from, or a dangerous value
   * is no dictionary.
   */
  lemma GeneratesIff(item: Item)
    ensures Generates(item) <==> match item.kind
                                 case Choice => item.members != []
                                 case Number => Start(item, item.default).Some?
                                 case Nested => forall v | v in item.dangerous :: DictOf(v).Some?
                                 case _ => true
  {
    match item.kind
    case Choice =>
      assert Rules(Choice)[0] in Rules(Choice) && Rules(Choice)[0] == "switch";
      if item.members != [] {
        assert forall rule | rule in Rules(Choice) :: None !in ChoiceOutcomes(item, rule, item.default);
      }
      else { assert None in ChoiceOutcomes(item, "switch", item.default); }
    case Number =>
      assert Rules(Number)[4] in Rules(Number) && Rules(Number)[4] == "add_one";
      if Start(item, item.default).Some? {
        assert forall rule | rule in Rules(Number) :: None !in NumberOutcomes(item, rule, item.default);
      } else { assert None in NumberOutcomes(item, "add_one", item.default); }
    case Nested =>
      assert Rules(Nested)[3] in Rules(Nested) && Rules(Nested)[3] == "dangerous";
      if forall v | v in item.dangerous :: DictOf(v).Some? {
        assert forall rule | rule in Rules(Nested) :: None !in NestedOutcomes(item, rule, item.default);
      } else {
        var v :| v in item.dangerous && DictOf(v).None?;
        assert None in NestedOutcomes(item, "dangerous", item.default);
      }
    case _ =>
  }

  // ------------------------------------------------------------------------------ candidates

  /** A pair of rule and value that can be proposed afresh for the item. */
  predicate Candidate(item: Item, rule: string, value: Value) {
    || (rule in Rules(item.kind) && Some(value) in Outcomes(item, rule, item.default))
    || (rule == "dangerous" && value in item.dangerous)
  }

  function CandidateKeys(item: Item): (keys: set<(string, Value)>)
    ensures forall rule, value | Candidate(item, rule, value) :: (rule, Key(value)) in keys
  {
    (set rule, d | rule in Rules(item.kind) && d in Outcomes(item, rule, item.default) && d.Some? ::
      (rule, Key(d.value)))
    + (set value | value in item.dangerous :: ("dangerous", Key(value)))
  }

  lemma RuleCandidateExists(item: Item) returns (rule: string, value: Value)
    requires CanGenerate(item)
    ensures rule in Rules(item.kind) && Some(value) in Outcomes(item, rule, item.default)
            && Candidate(item, rule, value)
  {
    rule := Rules(item.kind)[0];
    assert rule in Rules(item.kind) && Yields(item, rule);
    var d :| d in Outcomes(item, rule, item.default) && d.Some?;
    value := d.value;
  }

  // ------------------------------------------------------------------ what mutate_one reports

  /**
   * The new value mutate_one can report for a forced value, over all contents of the file. A
   * list operation reports its rule. For other items a value is generated first, which may
   * raise, and it is what is reported when the forced value is missing.
   */
  ghost predicate Reports(item: Item, rule: string, value: Value, reported: Value) {
    if item.kind == Listing then reported == StrV(rule)
    else exists current :: ReportsFor(item, rule, value, reported, current)
  }

  predicate ReportsFor(item: Item, rule: string, value: Value, reported: Value, current: Value) {
    exists d | d in Outcomes(item, rule, current) :: d.Some? && reported == if value == NullV then d.value else value
  }

  predicate AllNull(pool: seq<Value>) { forall v | v in pool :: v == NullV }

  /** Every fresh candidate is reported as it was proposed, whatever the file holds. */
  predicate Faithful(item: Item) {
    match item.kind
    case Listing => forall v | v in item.dangerous :: Key(v) == StrV("dangerous")
    case Flag => NullV !in item.dangerous
    case Text => NullV !in item.dangerous
    case Number =>
      if item.dangerous == [] then item.default != NullV else NullV in item.dangerous ==> AllNull(item.dangerous)
    case Choice =>
      && (NullV in Or(item.dangerous, item.members) ==> AllNull(Or(item.dangerous, item.members)))
      && (NullV in item.members && item.default != NullV ==> AllNull(item.members))
    case Nested =>
      && (NullV in item.dangerous ==> forall v | v in item.dangerous :: DictOf(v).None?)
      && (Variants(item.members) == [] ==> item.default != NullV)
  }

  ghost predicate ReportsAsProposed(item: Item) {
    forall rule, value, reported | Candidate(item, rule, value) && Reports(item, rule, value, reported) ::
      Key(reported) == Key(value)
  }

  /** The condition is exact. */
  lemma FaithfulIff(item: Item)
    ensures Faithful(item) <==> ReportsAsProposed(item)
  {
    if Faithful(item) {
      forall rule, value, reported | Candidate(item, rule, value) && Reports(item, rule, value, reported)
        ensures Key(reported) == Key(value)
      {
        FaithfulReports(item, rule, value, reported);
      }
    } else {
      var rule, value, reported := Unfaithful(item);
    }
  }

  lemma FaithfulReports(item: Item, rule: string, value: Value, reported: Value)
    requires Faithful(item) && Candidate(item, rule, value) && Reports(item, rule, value, reported)
    ensures Key(reported) == Key(value)
  {
    if item.kind != Listing {
      var current :| ReportsFor(item, rule, value, reported, current);
      var d :| d in Outcomes(item, rule, current) && d.Some? && reported == if value == NullV then d.value else value;
      match item.kind
      case Number => if value == NullV { NullNumber(item, rule, reported, current); }
      case Choice => if value == NullV { NullChoice(item, rule, reported, current); }
      case Nested => NestedNeverNull(item, rule, value, d.value, current);
      case _ =>
    }
  }

  lemma NullNumber(item: Item, rule: string, reported: Value, current: Value)
    requires item.kind == Number && Faithful(item) && Candidate(item, rule, NullV)
             && Some(reported) in Outcomes(item, rule, current)
    ensures reported == NullV
  {
    assert rule == "dangerous";
  }

  lemma NullChoice(item: Item, rule: string, reported: Value, current: Value)
    requires item.kind == Choice && Faithful(item) && Candidate(item, rule, NullV)
             && Some(reported) in Outcomes(item, rule, current)
    ensures reported == NullV
  {
    assert forall m | Equal(m, NullV) :: m == NullV;
    if rule == "dangerous" {
      assert NullV in Or(item.dangerous, item.members) && reported in Or(item.dangerous, item.members);
    } else {
      assert rule == "switch" && NullV in item.members && reported in item.members;
      if item.default == NullV && reported != NullV { SwitchAwayFromNull(item, reported); }
    }
  }

  lemma SwitchAwayFromNull(item: Item, m: Value)
    requires m in item.members && m != NullV
    ensures Some(NullV) !in ChoiceOutcomes(item, "switch", NullV)
  {
    var others := set o | o in item.members && !Equal(o, NullV) :: Some(o);
    assert Some(m) in others;
  }

  lemma NestedNeverNull(item: Item, rule: string, value: Value, reported: Value, current: Value)
    requires item.kind == Nested && Faithful(item) && Candidate(item, rule, value)
             && Some(reported) in Outcomes(item, rule, current)
    ensures value != NullV
  {
  }

  /** A candidate that can be reported as another pair. */
  lemma Unfaithful(item: Item) returns (rule: string, value: Value, reported: Value)
    requires !Faithful(item)
    ensures Candidate(item, rule, value) && Reports(item, rule, value, reported) && Key(reported) != Key(value)
    ensures item.kind == Listing || value == NullV
  {
    rule, value := "dangerous", NullV;
    match item.kind
    case Listing =>
      value :| value in item.dangerous && Key(value) != StrV("dangerous");
      reported := StrV(rule);
    case Flag =>
      reported := BoolV(true);
      assert Some(BoolV(true)) in Outcomes(item, rule, NullV);
      assert ReportsFor(item, rule, value, reported, NullV);
    case Text =>
      reported := IntV(0);
      assert Some(TextOutcome(rule, IntV(0))) in Outcomes(item, rule, IntV(0));
      assert ReportsFor(item, rule, value, reported, IntV(0));
    case Number => reported := UnfaithfulNumber(item);
    case Choice => rule, reported := UnfaithfulChoice(item);
    case Nested => rule, reported := UnfaithfulNested(item);
  }

  lemma UnfaithfulNumber(item: Item) returns (reported: Value)
    requires item.kind == Number && !Faithful(item)
    ensures Candidate(item, "dangerous", NullV) && Reports(item, "dangerous", NullV, reported) && reported != NullV
  {
    if item.dangerous == [] {
      assert Rules(Number)[8] in Rules(Number) && Some(NullV) in NumberOutcomes(item, "dangerous", NullV);
      reported := IntV(0);
      assert Some(IntV(0)) in NumberOutcomes(item, "dangerous", IntV(0));
      assert ReportsFor(item, "dangerous", NullV, reported, IntV(0));
    } else {
      reported :| reported in item.dangerous && reported != NullV;
      assert Some(reported) in NumberOutcomes(item, "dangerous", NullV);
      assert ReportsFor(item, "dangerous", NullV, reported, NullV);
    }
  }

  lemma UnfaithfulChoice(item: Item) returns (rule: string, reported: Value)
    requires item.kind == Choice && !Faithful(item)
    ensures Candidate(item, rule, NullV) && Reports(item, rule, NullV, reported) && reported != NullV
  {
    var pool := Or(item.dangerous, item.members);
    if NullV in pool && !AllNull(pool) {
      rule := "dangerous";
      reported :| reported in pool && reported != NullV;
      assert Rules(Choice)[2] in Rules(Choice) && Some(NullV) in ChoiceOutcomes(item, rule, item.default);
      assert Some(reported) in ChoiceOutcomes(item, rule, NullV);
    } else {
      rule := "switch";
      reported :| reported in item.members && reported != NullV;
      assert !Equal(NullV, item.default) && !Equal(reported, NullV);
      assert Rules(Choice)[0] in Rules(Choice) && Some(NullV) in ChoiceOutcomes(item, rule, item.default);
      assert Some(reported) in ChoiceOutcomes(item, rule, NullV);
    }
    assert ReportsFor(item, rule, NullV, reported, NullV);
  }

  lemma UnfaithfulNested(item: Item) returns (rule: string, reported: Value)
    requires item.kind == Nested && !Faithful(item)
    ensures Candidate(item, rule, NullV) && Reports(item, rule, NullV, reported) && reported != NullV
  {
    if NullV in item.dangerous && exists v | v in item.dangerous :: DictOf(v).Some? {
      rule := "dangerous";
      var v :| v in item.dangerous && DictOf(v).Some?;
      reported := DictOf(v).value;
      assert DictOf(v) in NestedOutcomes(item, rule, NullV);
      assert ReportsFor(item, rule, NullV, reported, NullV);
    } else {
      rule, reported := "switch_variant", IntV(0);
      assert Rules(Nested)[2] in Rules(Nested) && Some(NullV) in NestedOutcomes(item, rule, NullV);
      assert Some(IntV(0)) in NestedOutcomes(item, rule, IntV(0));
      assert ReportsFor(item, rule, NullV, reported, IntV(0));
    }
  }
}
