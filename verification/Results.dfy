/** Result shapes for what the Python code expresses with None and with exceptions. */
module Results {
  /** Position of the first element that satisfies p, or |s|. */
  function FirstWhere<T>(s: seq<T>, p: T -> bool): (j: nat)
    ensures j <= |s|
    ensures j < |s| ==> p(s[j])
    ensures forall i | 0 <= i < j :: !p(s[i])
  {
    if s == [] || p(s[0]) then 0 else 1 + FirstWhere(s[1..], p)
  }

  datatype Option<+T> = None | Some(value: T) {
    function GetOr(default: T): T {
      if Some? then value else default
    }
  }
}
