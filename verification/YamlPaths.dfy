/** The dotted-path operations on loaded YAML trees: _set_dotted_path and _get_dotted (bcfuzzer/mutator.py). */
module YamlPaths {
  import opened Results
  import opened Text

  datatype Yaml = Null | Scalar(text: string) | List(items: seq<Yaml>) | Dict(members: map<string, Yaml>)

  /** None where Python raises: IndexError, ValueError or TypeError. */
  type Try = Option<Yaml>

  /** int(part): space around it, an optional sign, and decimal digits with single underscores between them. */
  function IntOf(part: string): Option<int> {
    Signed(Strip(part))
  }

  function Signed(s: string): Option<int> {
    var signed := s != "" && (s[0] == '-' || s[0] == '+');
    var body := if signed then s[1..] else s;
    if !Numeral(body) then None
    else
      var value := DigitsValue(WithoutUnderscores(body));
      Some(if signed && s[0] == '-' then -value else value)
  }

  predicate Numeral(s: string) {
    && s != "" && s[0] != '_' && s[|s| - 1] != '_'
    && (forall c | c in s :: IsDigit(c) || c == '_')
    && forall i | 0 < i < |s| :: s[i - 1] != '_' || s[i] != '_'
  }

  function WithoutUnderscores(s: string): string {
    if s == "" then "" else (if s[0] == '_' then "" else [s[0]]) + WithoutUnderscores(s[1..])
  }

  /** The position list[int(part)] refers to; a negative index counts from the end. */
  function Position(part: string, size: nat): (i: Option<nat>)
    ensures i.Some? ==> i.value < size
  {
    match IntOf(part)
    case None => None
    case Some(n) => if 0 <= n < size then Some(n) else if n < 0 <= n + size then Some(n + size) else None
  }

  type Path = p: seq<string> | p != [] witness [""]

  /** What is created for a missing member on the way: a list when the next part is a number. */
  function Fresh(next: string): Yaml { if IntOf(next).Some? then List([]) else Dict(map[]) }

  function Member(members: map<string, Yaml>, part: string): Yaml { if part in members then members[part] else Null }

  /** The tree after setting `value` at the path. */
  function SetPath(root: Yaml, path: Path, value: Yaml): Try
    decreases |path|
  {
    match root
    case List(items) =>
      (match Position(path[0], |items|)
       case None => None
       case Some(i) =>
         if |path| == 1 then Some(List(items[i := value]))
         else
           match SetPath(items[i], path[1..], value)
           case None => None
           case Some(t) => Some(List(items[i := t])))
    case Dict(members) =>
      if |path| == 1 then Some(Dict(members[path[0] := value]))
      else
        var child := Member(members, path[0]);
        (match SetPath(if child.Null? then Fresh(path[1]) else child, path[1..], value)
         case None => None
         case Some(t) => Some(Dict(members[path[0] := t])))
    case _ => None
  }

  /** The tree after deleting what the path names; nothing happens below a scalar leaf's parent. */
  function DeletePath(root: Yaml, path: Path): Try
    decreases |path|
  {
    match root
    case List(items) =>
      (match Position(path[0], |items|)
       case None => None
       case Some(i) =>
         if |path| == 1 then Some(List(items[..i] + items[i + 1..]))
         else
           match DeletePath(items[i], path[1..])
           case None => None
           case Some(t) => Some(List(items[i := t])))
    case Dict(members) =>
      if |path| == 1 then Some(Dict(members - {path[0]}))
      else
        var child := Member(members, path[0]);
        (match DeletePath(if child.Null? then Fresh(path[1]) else child, path[1..])
         case None => None
         case Some(t) => Some(Dict(members[path[0] := t])))
    case _ => if |path| == 1 then Some(root) else None
  }

  function GetPath(root: Yaml, path: seq<string>): Try
    decreases |path|
  {
    if path == [] then Some(root)
    else
      match root
      case List(items) =>
        (match Position(path[0], |items|)
         case None => None
         case Some(i) => GetPath(items[i], path[1..]))
      case Dict(members) => GetPath(Member(members, path[0]), path[1..])
      case _ => Some(Null)
  }

  // ------------------------------------------------------------------------------- laws

  /**
   * Where a set goes through: every part but the last leads to a list element that is there
   * or to a dictionary member that is descended into or made, and the last part's container
   * is a dictionary or a list long enough. A list made on the way is empty, so it never is.
   */
  predicate Settable(root: Yaml, path: Path)
    decreases |path|
  {
    match root
    case List(items) =>
      (match Position(path[0], |items|)
       case None => false
       case Some(i) => |path| == 1 || Settable(items[i], path[1..]))
    case Dict(members) =>
      || |path| == 1
      || (var child := Member(members, path[0]);
          if child.Null? then forall j | 1 <= j < |path| :: IntOf(path[j]).None? else Settable(child, path[1..]))
    case _ => false
  }

  lemma {:induction false} SetInNew(path: Path, value: Yaml)
    ensures SetPath(Fresh(path[0]), path, value).Some? <==> forall j | 0 <= j < |path| :: IntOf(path[j]).None?
    decreases |path|
  {
    SetInFresh(path, value);
    if |path| > 1 {
      SetInNew(path[1..], value);
      NoNumbersTail(path);
    }
  }

  lemma SetInFresh(path: Path, value: Yaml)
    ensures SetPath(Fresh(path[0]), path, value).Some?
            <==> IntOf(path[0]).None? && (|path| > 1 ==> SetPath(Fresh(path[1]), path[1..], value).Some?)
  {
  }

  lemma NoNumbersTail(path: Path)
    requires |path| > 1
    ensures (forall j | 1 <= j < |path| :: IntOf(path[j]).None?)
            <==> forall j | 0 <= j < |path[1..]| :: IntOf(path[1..][j]).None?
  {
    assert forall j | 1 <= j < |path| :: path[j] == path[1..][j - 1];
  }

  lemma {:induction false} SetIffSettable(root: Yaml, path: Path, value: Yaml)
    ensures SetPath(root, path, value).Some? <==> Settable(root, path)
    decreases |path|
  {
    match root
    case List(items) =>
      var i := Position(path[0], |items|);
      if i.Some? && |path| > 1 { SetIffSettable(items[i.value], path[1..], value); }
    case Dict(members) =>
      if |path| > 1 {
        var child := Member(members, path[0]);
        if child.Null? {
          SetInNew(path[1..], value);
          NoNumbersTail(path);
        } else {
          SetIffSettable(child, path[1..], value);
        }
      }
    case _ =>
  }

  lemma {:induction false} GetAfterSet(root: Yaml, path: Path, value: Yaml)
    requires SetPath(root, path, value).Some?
    ensures GetPath(SetPath(root, path, value).value, path) == Some(value)
    decreases |path|
  {
    if |path| > 1 {
      match root
      case List(items) => GetAfterSet(items[Position(path[0], |items|).value], path[1..], value);
      case Dict(members) =>
        var child := Member(members, path[0]);
        GetAfterSet(if child.Null? then Fresh(path[1]) else child, path[1..], value);
    }
  }

  /** Setting over a value that is not null leaves only the second value. */
  lemma {:induction false} SetTwice(root: Yaml, path: Path, first: Yaml, second: Yaml)
    requires SetPath(root, path, first).Some?
    ensures SetPath(SetPath(root, path, first).value, path, second) == SetPath(root, path, second)
    decreases |path|
  {
    match root
    case List(items) =>
      var i := Position(path[0], |items|).value;
      if |path| > 1 {
        SetTwice(items[i], path[1..], first, second);
        SetIffSettable(items[i], path[1..], first);
        SetIffSettable(items[i], path[1..], second);
        ListTwice(items, path, first, second, i);
      } else {
        assert items[i := first][i := second] == items[i := second];
      }
    case Dict(members) =>
      if |path| > 1 {
        var child := Member(members, path[0]);
        var next := if child.Null? then Fresh(path[1]) else child;
        SetTwice(next, path[1..], first, second);
        SetIffSettable(next, path[1..], first);
        SetIffSettable(next, path[1..], second);
        NeverNull(next, path[1..], first);
        DictTwice(members, path, first, second, next);
      } else {
        assert members[path[0] := first][path[0] := second] == members[path[0] := second];
      }
  }

  lemma ListTwice(items: seq<Yaml>, path: Path, first: Yaml, second: Yaml, i: nat)
    requires |path| > 1 && Position(path[0], |items|) == Some(i)
    requires SetPath(items[i], path[1..], first).Some? && SetPath(items[i], path[1..], second).Some?
    requires SetPath(SetPath(items[i], path[1..], first).value, path[1..], second)
             == SetPath(items[i], path[1..], second)
    ensures SetPath(SetPath(List(items), path, first).value, path, second) == SetPath(List(items), path, second)
  {
    var t1, t2 := SetPath(items[i], path[1..], first).value, SetPath(items[i], path[1..], second).value;
    assert SetPath(List(items), path, first) == Some(List(items[i := t1]));
    assert items[i := t1][i := t2] == items[i := t2];
  }

  lemma DictTwice(members: map<string, Yaml>, path: Path, first: Yaml, second: Yaml, next: Yaml)
    requires |path| > 1 && next == (if Member(members, path[0]).Null? then Fresh(path[1]) else Member(members, path[0]))
    requires SetPath(next, path[1..], first).Some? && SetPath(next, path[1..], second).Some?
    requires !SetPath(next, path[1..], first).value.Null?
    requires SetPath(SetPath(next, path[1..], first).value, path[1..], second) == SetPath(next, path[1..], second)
    ensures SetPath(SetPath(Dict(members), path, first).value, path, second) == SetPath(Dict(members), path, second)
  {
    var t1, t2 := SetPath(next, path[1..], first).value, SetPath(next, path[1..], second).value;
    assert SetPath(Dict(members), path, first) == Some(Dict(members[path[0] := t1]));
    assert Member(members[path[0] := t1], path[0]) == t1;
    assert members[path[0] := t1][path[0] := t2] == members[path[0] := t2];
  }

  lemma NeverNull(root: Yaml, path: Path, value: Yaml)
    requires SetPath(root, path, value).Some?
    ensures !SetPath(root, path, value).value.Null?
  {
  }

  /** The two paths part at a container both reach, towards different members or elements. */
  predicate Diverge(root: Yaml, p: Path, q: Path)
    decreases |p|
  {
    match root
    case List(items) =>
      var i, j := Position(p[0], |items|), Position(q[0], |items|);
      i.Some? && (i != j || (|p| > 1 && |q| > 1 && Diverge(items[i.value], p[1..], q[1..])))
    case Dict(members) =>
      || p[0] != q[0]
      || (|p| > 1 && |q| > 1 &&
          var child := Member(members, p[0]);
          Diverge(if child.Null? then Fresh(p[1]) else child, p[1..], q[1..]))
    case _ => false
  }

  /** Setting one path leaves what is read along another that parts from it. */
  lemma {:induction false} SetElsewhere(root: Yaml, p: Path, q: Path, value: Yaml)
    requires SetPath(root, p, value).Some? && Diverge(root, p, q)
    ensures GetPath(SetPath(root, p, value).value, q) == GetPath(root, q)
    decreases |p|
  {
    match root
    case List(items) =>
      var i, j := Position(p[0], |items|), Position(q[0], |items|);
      if i == j { SetElsewhere(items[i.value], p[1..], q[1..], value); }
    case Dict(members) =>
      if p[0] == q[0] {
        var child := Member(members, p[0]);
        var next := if child.Null? then Fresh(p[1]) else child;
        SetElsewhere(next, p[1..], q[1..], value);
        if child.Null? { AbsentReadsNull(p[1], q[1..]); }
      }
  }

  /** Reading below a missing member, and below the dictionary made in its place, gives None alike. */
  lemma AbsentReadsNull(next: string, q: Path)
    requires IntOf(next).None?
    ensures GetPath(Fresh(next), q) == GetPath(Null, q)
  {
    if |q| > 1 { assert GetPath(Null, q[1..]) == Some(Null); }
  }

  /** A deleted dictionary member reads as absent. */
  lemma {:induction false} GetAfterDelete(root: Yaml, path: Path)
    requires DeletePath(root, path).Some?
    requires Parent(root, path).Dict?
    ensures GetPath(DeletePath(root, path).value, path) == Some(Null)
    decreases |path|
  {
    if |path| > 1 {
      match root
      case List(items) => GetAfterDelete(items[Position(path[0], |items|).value], path[1..]);
      case Dict(members) =>
        var child := Member(members, path[0]);
        GetAfterDelete(if child.Null? then Fresh(path[1]) else child, path[1..]);
    }
  }

  /** The container the last part is looked up in. */
  function Parent(root: Yaml, path: Path): Yaml
    decreases |path|
  {
    if |path| == 1 then root
    else
      match root
      case List(items) =>
        (match Position(path[0], |items|) case None => Null case Some(i) => Parent(items[i], path[1..]))
      case Dict(members) =>
        var child := Member(members, path[0]);
        Parent(if child.Null? then Fresh(path[1]) else child, path[1..])
      case _ => Null
  }

  /** Deleting below a place is deleting in what stands there. */
  lemma {:induction false} DeleteBelow(root: Yaml, p: Path, q: Path, there: Yaml)
    requires GetPath(root, p) == Some(there) && !there.Null?
    ensures DeletePath(root, p + q)
            == match DeletePath(there, q) case None => None case Some(t) => SetPath(root, p, t)
    decreases |p|
  {
    assert (p + q)[0] == p[0] && (p + q)[1..] == p[1..] + q;
    if |p| > 1 {
      match root
      case List(items) => DeleteBelow(items[Position(p[0], |items|).value], p[1..], q, there);
      case Dict(members) => DeleteBelow(members[p[0]], p[1..], q, there);
    } else {
      assert p[1..] + q == q;
    }
  }

  /** Below a scalar there is nothing to delete, and nothing to descend into. */
  lemma {:induction false} DeleteBelowScalar(root: Yaml, p: Path, q: Path, there: Yaml)
    requires GetPath(root, p) == Some(there) && !there.Null? && !there.List? && !there.Dict?
    ensures DeletePath(root, p + q) == if |q| == 1 then Some(root) else None
  {
    DeleteBelow(root, p, q, there);
    SetSame(root, p);
  }

  lemma {:induction false} SetSame(root: Yaml, p: Path)
    requires GetPath(root, p).Some? && !GetPath(root, p).value.Null?
    ensures SetPath(root, p, GetPath(root, p).value) == Some(root)
    decreases |p|
  {
    if |p| > 1 {
      match root
      case List(items) => SetSame(items[Position(p[0], |items|).value], p[1..]);
      case Dict(members) => SetSame(members[p[0]], p[1..]);
    }
    match root
    case List(items) =>
      var i := Position(p[0], |items|).value;
      assert p[1..] == [] ==> GetPath(root, p) == Some(items[i]);
      assert items[i := items[i]] == items;
    case Dict(members) =>
      assert p[1..] == [] ==> GetPath(root, p) == Some(Member(members, p[0]));
      assert members[p[0] := members[p[0]]] == members;
  }

  // ------------------------------------------------------- the patcher's own way of setting

  predicate IsIndex(part: string) { part != "" && forall c | c in part :: IsDigit(c) }

  /**
   * set_nested_value of targets.py: a number indexes a list, anything else names a member, created
   * when missing. (A number that ends a path at a dictionary adds an integer key, which Yaml cannot hold: None.)
   */
  function SetNested(root: Yaml, path: Path, value: Yaml): Try
    decreases |path|
  {
    match root
    case List(items) =>
      (match if IsIndex(path[0]) then Position(path[0], |items|) else None
       case None => None
       case Some(i) =>
         if |path| == 1 then Some(List(items[i := value]))
         else
           match SetNested(items[i], path[1..], value)
           case None => None
           case Some(t) => Some(List(items[i := t])))
    case Dict(members) =>
      if IsIndex(path[0]) then None
      else if |path| == 1 then Some(Dict(members[path[0] := value]))
      else
        (match SetNested(if path[0] in members then members[path[0]] else Dict(map[]), path[1..], value)
         case None => None
         case Some(t) => Some(Dict(members[path[0] := t])))
    case _ => None
  }

  /**
   * Whatever it sets, the editor's way sets the same exactly where that way goes through; so
   * there every law of SetPath holds for it too.
   */
  lemma NestedIsSetIff(root: Yaml, path: Path, value: Yaml)
    requires SetNested(root, path, value).Some?
    ensures SetPath(root, path, value) == SetNested(root, path, value) <==> Settable(root, path)
  {
    SetIffSettable(root, path, value);
    if Settable(root, path) { BothSet(root, path, value); }
  }

  lemma {:induction false} BothSet(root: Yaml, path: Path, value: Yaml)
    requires SetNested(root, path, value).Some? && Settable(root, path)
    ensures SetPath(root, path, value) == SetNested(root, path, value)
    decreases |path|
  {
    if |path| > 1 {
      match root
      case List(items) => BothSet(items[Position(path[0], |items|).value], path[1..], value);
      case Dict(members) =>
        if path[0] in members {
          BothSet(members[path[0]], path[1..], value);
        } else {
          NoNumbersTail(path);
          BothSet(Dict(map[]), path[1..], value);
        }
    }
  }

  /** What it takes for an index is a number, but no negative one. */
  lemma IndexIff(n: int, part: string)
    ensures IsIndex(Show(n)) <==> n >= 0
    ensures IsIndex(part) ==> IntOf(part) == Some(DigitsValue(part))
  {
    assert n < 0 ==> Show(n)[0] in Show(n) && !IsDigit(Show(n)[0]);
    if IsIndex(part) {
      IntOfDigits("", "", part, "");
      assert "" + (("" + part) + "") == part;
    }
  }

  /**
   * Where it goes through: numbers lead to list elements that are there, and names to members
   * that are there or made; what is made is a dictionary.
   */
  predicate Nestable(root: Yaml, path: Path)
    decreases |path|
  {
    match root
    case List(items) =>
      && IsIndex(path[0]) && Position(path[0], |items|).Some?
      && (|path| == 1 || Nestable(items[Position(path[0], |items|).value], path[1..]))
    case Dict(members) =>
      && !IsIndex(path[0])
      && (if path[0] in members && |path| > 1 then Nestable(members[path[0]], path[1..])
          else forall j | 0 <= j < |path| :: !IsIndex(path[j]))
    case _ => false
  }

  lemma {:induction false} NestedIffNestable(root: Yaml, path: Path, value: Yaml)
    ensures SetNested(root, path, value).Some? <==> Nestable(root, path)
    decreases |path|
  {
    if |path| > 1 {
      match root
      case List(items) =>
        var i := Position(path[0], |items|);
        if i.Some? { NestedIffNestable(items[i.value], path[1..], value); }
      case Dict(members) =>
        assert forall j | 1 <= j < |path| :: path[j] == path[1..][j - 1];
        NestedIffNestable(if path[0] in members then members[path[0]] else Dict(map[]), path[1..], value);
      case _ =>
    }
  }

  /** A negative number below a missing member is where they part: a member here, an index there. */
  lemma NestedDiffers(value: Yaml)
    ensures SetNested(Dict(map[]), ["a", "-1"], value).Some? && SetPath(Dict(map[]), ["a", "-1"], value).None?
  {
    var path: Path := ["a", "-1"];
    var part, name := "-1", "a";
    assert part[0] in part && !IsDigit(part[0]) && part[1..] == "1";
    TrimmedIsFixed(part);
    assert Numeral(part[1..]);
    assert IntOf(part).Some?;
    assert name[0] in name && !IsDigit(name[0]);
    assert path[1..] == [part] && path[0] == name;
  }

  // --------------------------------------------------------------- numbers in a path, deleting

  /** Python's index: from the front, or from the end for a negative number. */
  lemma PositionIs(part: string, size: nat, i: nat)
    ensures Position(part, size) == Some(i)
            <==> i < size && (IntOf(part) == Some(i) || IntOf(part) == Some(i as int - size))
  {
  }

  lemma {:induction false} PlainDigits(s: string)
    requires forall c | c in s :: IsDigit(c)
    ensures WithoutUnderscores(s) == s
  {
    if s != "" {
      assert s[0] in s;
      PlainDigits(s[1..]);
    }
  }

  lemma DigitsAreNumeral(s: string)
    requires IsIndex(s)
    ensures Numeral(s) && WithoutUnderscores(s) == s
  {
    forall i | 0 <= i < |s| ensures IsDigit(s[i]) { assert s[i] in s; }
    PlainDigits(s);
  }

  /** Digits with a sign or without one, and space around them, stand for their number. */
  lemma IntOfDigits(pre: string, sign: string, digits: string, post: string)
    requires AllSpace(pre) && AllSpace(post) && IsIndex(digits) && (sign == "" || sign == "+" || sign == "-")
    ensures IntOf(pre + ((sign + digits) + post))
            == Some(if sign == "-" then -DigitsValue(digits) else DigitsValue(digits))
  {
    SignedTrimmed(sign, digits);
    StripBetween(pre, sign + digits, post);
    SignedDigits(sign, digits);
  }

  lemma SignedTrimmed(sign: string, digits: string)
    requires IsIndex(digits) && (sign == "" || sign == "+" || sign == "-")
    ensures sign + digits != "" && Trimmed(sign + digits)
  {
    var core := sign + digits;
    assert digits[0] in digits && digits[|digits| - 1] in digits;
    assert core[0] == (if sign == "" then digits[0] else sign[0]) && core[|core| - 1] == digits[|digits| - 1];
  }

  lemma SignedDigits(sign: string, digits: string)
    requires IsIndex(digits) && (sign == "" || sign == "+" || sign == "-")
    ensures Signed(sign + digits) == Some(if sign == "-" then -DigitsValue(digits) else DigitsValue(digits))
  {
    if sign == "" {
      assert sign + digits == digits;
      PlainNumber(digits);
    } else {
      assert (sign + digits)[0] == sign[0] && (sign + digits)[1..] == digits;
      SignedNumber(sign + digits);
    }
  }

  lemma PlainNumber(digits: string)
    requires IsIndex(digits)
    ensures Signed(digits) == Some(DigitsValue(digits))
  {
    DigitsAreNumeral(digits);
    assert IsDigit(digits[0]) by { assert digits[0] in digits; }
  }

  lemma SignedNumber(s: string)
    requires s != "" && (s[0] == '-' || s[0] == '+') && IsIndex(s[1..])
    ensures Signed(s) == Some(if s[0] == '-' then -DigitsValue(s[1..]) else DigitsValue(s[1..]))
  {
    DigitsAreNumeral(s[1..]);
  }

  lemma {:induction false} UnderscoresJoin(a: string, b: string)
    ensures WithoutUnderscores(a + b) == WithoutUnderscores(a) + WithoutUnderscores(b)
  {
    if a == "" {
      assert a + b == b;
    } else {
      assert (a + b)[1..] == a[1..] + b;
      UnderscoresJoin(a[1..], b);
    }
  }

  /** An underscore between two numerals changes nothing. */
  lemma UnderscoreBetween(a: string, b: string)
    requires Numeral(a) && Numeral(b)
    ensures Numeral(a + "_" + b) && Numeral(a + b)
    ensures WithoutUnderscores(a + "_" + b) == WithoutUnderscores(a + b)
    ensures WithoutUnderscores(a + b) == WithoutUnderscores(a) + WithoutUnderscores(b)
  {
    JoinedNumeral(a, "_", b);
    JoinedNumeral(a, "", b);
    assert a + "" + b == a + b;
    UnderscoresJoin(a, b);
    UnderscoreDropped(a, b);
  }

  lemma UnderscoreDropped(a: string, b: string)
    ensures WithoutUnderscores(a + "_" + b) == WithoutUnderscores(a) + WithoutUnderscores(b)
  {
    UnderscoresJoin(a + "_", b);
    UnderscoresJoin(a, "_");
    assert "_"[1..] == "" && WithoutUnderscores("_") == "" + WithoutUnderscores("") == "";
  }

  lemma JoinedNumeral(a: string, between: string, b: string)
    requires Numeral(a) && Numeral(b) && (between == "" || between == "_")
    ensures Numeral(a + between + b)
  {
    var s := a + between + b;
    forall c | c in s ensures IsDigit(c) || c == '_' { assert c in a || c in between || c in b; }
    forall i | 0 < i < |s| ensures s[i - 1] != '_' || s[i] != '_' {
      if i < |a| {
        assert s[i - 1] == a[i - 1] && s[i] == a[i];
      } else if i > |a| + |between| {
        var j := i - |a| - |between|;
        assert s[i - 1] == b[j - 1] && s[i] == b[j];
      }
    }
  }

  /** Deleting a list element closes the gap. */
  lemma DeleteElement(items: seq<Yaml>, part: string, i: nat)
    requires Position(part, |items|) == Some(i)
    ensures var r := DeletePath(List(items), [part]);
            && r.Some? && r.value.List? && |r.value.items| == |items| - 1
            && forall j | 0 <= j < |items| - 1 :: r.value.items[j] == if j < i then items[j] else items[j + 1]
  {
  }

  /** Deleting along one path leaves what is read along another that parts from it above a list's last part. */
  lemma {:induction false} DeleteElsewhere(root: Yaml, p: Path, q: Path)
    requires DeletePath(root, p).Some? && Diverge(root, p, q) && Parent(root, p).Dict?
    ensures GetPath(DeletePath(root, p).value, q) == GetPath(root, q)
    decreases |p|
  {
    match root
    case List(items) =>
      var i, j := Position(p[0], |items|), Position(q[0], |items|);
      if i == j { DeleteElsewhere(items[i.value], p[1..], q[1..]); }
    case Dict(members) =>
      if p[0] == q[0] {
        var child := Member(members, p[0]);
        var next := if child.Null? then Fresh(p[1]) else child;
        DeleteElsewhere(next, p[1..], q[1..]);
        if child.Null? { FreshReads(p[1], p[1..], q[1..]); }
      }
  }

  lemma FreshReads(next: string, p: Path, q: Path)
    requires p[0] == next && DeletePath(Fresh(next), p).Some?
    ensures GetPath(Fresh(next), q) == GetPath(Null, q)
  {
    if IntOf(next).None? { AbsentReadsNull(next, q); }
  }
}
