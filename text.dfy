/** Text searches the C++ code takes from its string library: substring
    search (`std::string::find`), prefix tests and the replacement of
    backslashes by slashes. */
module Text {
  import opened Options

  /** `sub` occurs in `s` starting at index `i`. */
  predicate OccursAt(s: string, sub: string, i: int)
  {
    0 <= i && i + |sub| <= |s| && forall t :: 0 <= t < |sub| ==> s[i + t] == sub[t]
  }

  /** `s.find(sub, from)`: the first occurrence at or after `from`, or
      `None` for `npos`. */
  function Find(s: string, sub: string, from: nat): (r: Option<nat>)
    decreases |s| - from
    ensures r.Some? ==> from <= r.value && OccursAt(s, sub, r.value)
    ensures r.Some? ==> forall i :: from <= i < r.value ==> !OccursAt(s, sub, i)
    ensures r.None? ==> forall i :: from <= i ==> !OccursAt(s, sub, i)
  {
    if from + |sub| > |s| then None
    else if forall t :: 0 <= t < |sub| ==> s[from + t] == sub[t] then Some(from)
    else Find(s, sub, from + 1)
  }

  predicate Contains(s: string, sub: string)
  {
    Find(s, sub, 0).Some?
  }

  /** `Contains` holds exactly when the text occurs somewhere. */
  lemma ContainsIff(s: string, sub: string)
    ensures Contains(s, sub) <==> exists i :: OccursAt(s, sub, i)
  {
    if Contains(s, sub) {
      assert OccursAt(s, sub, Find(s, sub, 0).value);
    }
  }

  /** The empty text occurs in every text. */
  lemma ContainsEmpty(s: string)
    ensures Contains(s, "")
  {
    assert OccursAt(s, "", 0);
  }

  /** A text contains itself. */
  lemma ContainsSelf(s: string)
    ensures Contains(s, s)
  {
    assert OccursAt(s, s, 0);
  }

  predicate StartsWith(s: string, prefix: string)
  {
    OccursAt(s, prefix, 0)
  }

  /** `s.find(prefix) == 0`, the prefix test the C++ code writes, holds
      exactly when `s` starts with `prefix`. */
  lemma FindAtStart(s: string, prefix: string)
    ensures Find(s, prefix, 0) == Some(0) <==> StartsWith(s, prefix)
  {
    if StartsWith(s, prefix) {
      assert forall t :: 0 <= t < |prefix| ==> s[t] == prefix[t];
    }
  }

  /** Every backslash replaced by a slash. */
  function Posix(s: string): (r: string)
    ensures |r| == |s| && '\\' !in r
    ensures forall i :: 0 <= i < |s| ==> r[i] == if s[i] == '\\' then '/' else s[i]
  {
    seq(|s|, i requires 0 <= i < |s| => if s[i] == '\\' then '/' else s[i])
  }
}
