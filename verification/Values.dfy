/** The configuration values that travel through the scheduler, the index and the oracle. */
module Values {
  import opened Results
  import opened Text

  /** `repr` is Python's repr of a list or dictionary, which is what such a value is compared by. */
  datatype Value = NullV | IntV(n: int) | BoolV(b: bool) | StrV(s: string) | CompositeV(repr: string)

  /** MeiState._norm */
  function Norm(v: Value): Value { if v.CompositeV? then StrV(v.repr) else v }

  /** Values that Python holds equal have the same key: True == 1 and False == 0. */
  function Key(v: Value): Value {
    match Norm(v)
    case BoolV(b) => IntV(if b then 1 else 0)
    case w => w
  }

  /** str(MeiState._norm(v)) */
  function Str(v: Value): string {
    match Norm(v)
    case NullV => "None"
    case IntV(n) => Show(n)
    case BoolV(b) => if b then "True" else "False"
    case StrV(s) => s
    case CompositeV(r) => r
  }

  /** Python's ==. */
  predicate Equal(v: Value, w: Value) { if v.CompositeV? || w.CompositeV? then v == w else Key(v) == Key(w) }

  /** Python's bool(v). */
  predicate Truthy(v: Value) {
    match v
    case NullV => false
    case IntV(n) => n != 0
    case BoolV(b) => b
    case StrV(s) => s != ""
    case CompositeV(r) => r != "[]" && r != "{}"
  }

  /** Equal keys: both nothing, the same number with True as 1 and False as 0, or the same text. */
  lemma KeyIff(v: Value, w: Value)
    ensures Key(v) == Key(w)
            <==> (v.NullV? && w.NullV?)
                 || (AsNumber(v).Some? && AsNumber(v) == AsNumber(w))
                 || (AsText(v).Some? && AsText(v) == AsText(w))
  {
  }

  /** Equal values: alike, or the same number. */
  lemma EqualIff(v: Value, w: Value)
    ensures Equal(v, w) <==> v == w || (AsNumber(v).Some? && AsNumber(v) == AsNumber(w))
  {
  }

  function AsNumber(v: Value): Option<int> {
    match v
    case IntV(n) => Some(n)
    case BoolV(true) => Some(1)
    case BoolV(false) => Some(0)
    case _ => None
  }

  /** A text, or what a list or dictionary is written as. */
  function AsText(v: Value): Option<string> {
    match v
    case StrV(s) => Some(s)
    case CompositeV(r) => Some(r)
    case _ => None
  }

  lemma StrIs(v: Value)
    ensures v.NullV? ==> Str(v) == "None"
    ensures v == BoolV(true) ==> Str(v) == "True"
    ensures v == BoolV(false) ==> Str(v) == "False"
    ensures v.IntV? ==> Str(v) == Show(v.n)
    ensures AsText(v).Some? ==> Str(v) == AsText(v).value
  {
  }
}
