/** `std::string_view::find` for a pattern: the first position where it occurs. */
module Search {
  import opened Shared

  predicate OccursAt(s: string, pat: string, j: nat)
  {
    j + |pat| <= |s| && s[j..j + |pat|] == pat
  }

  function FindFrom(s: string, pat: string, from: nat): (r: Option<nat>)
    ensures r.Some? ==> from <= r.value && OccursAt(s, pat, r.value)
    ensures r.Some? ==> forall j :: from <= j < r.value ==> !OccursAt(s, pat, j)
    ensures r.None? ==> forall j :: from <= j <= |s| ==> !OccursAt(s, pat, j)
    decreases |s| - from
  {
    if from + |pat| > |s| then None
    else if OccursAt(s, pat, from) then Some(from)
    else FindFrom(s, pat, from + 1)
  }

  /** The first occurrence of `pat` in `s`, or `None` (`npos`). */
  function FindFirst(s: string, pat: string): (r: Option<nat>)
    ensures r.Some? ==> OccursAt(s, pat, r.value)
    ensures r.Some? ==> forall j :: 0 <= j < r.value ==> !OccursAt(s, pat, j)
    ensures r.None? ==> forall j :: 0 <= j <= |s| ==> !OccursAt(s, pat, j)
  {
    FindFrom(s, pat, 0)
  }

  /** Bytes arriving after the first occurrence do not move it. */
  lemma FindFirstExtend(p: string, q: string, pat: string)
    requires FindFirst(p, pat).Some?
    ensures FindFirst(p + q, pat) == FindFirst(p, pat)
  {
    var i := FindFirst(p, pat).value;
    assert (p + q)[i..i + |pat|] == p[i..i + |pat|];
    assert OccursAt(p + q, pat, i);
    var r := FindFirst(p + q, pat);
    assert r.Some?;
    if r.value < i {
      var k := r.value;
      assert (p + q)[k..k + |pat|] == p[k..k + |pat|];
      assert OccursAt(p, pat, k);
      assert false;
    }
  }
}
