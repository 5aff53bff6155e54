/**
 * The DOM id of a project's list item, `"project-" + id`, and the way the
 * handlers read the project id back from it: `parseInt(elementId.slice(8))`.
 */
module ElementIds {
  import opened Options
  import opened Decimal

  const Prefix: string := "project-"

  /** The id attribute of the list item that shows project `id`. */
  function ElementId(id: nat): (s: string)
    ensures |s| > |Prefix| && s[..|Prefix|] == Prefix
    ensures AllDigits(s[|Prefix|..])
  {
    Prefix + DecimalString(id)
  }

  /** `s.slice(start)` for a non-negative start: empty once start passes the end. */
  function SliceFrom(s: string, start: nat): (r: string)
    ensures |r| == if start <= |s| then |s| - start else 0
    ensures forall k :: 0 <= k < |r| ==> r[k] == s[start + k]
  {
    if start <= |s| then s[start..] else []
  }

  /** The project id the handlers recover from an element id (`None` is NaN). */
  function DecodeElementId(s: string): (id: Option<int>)
    ensures |s| <= 8 ==> id == None
  {
    ParseInt(SliceFrom(s, 8))
  }

  /** Decoding the element id of a project gives back that project's id. */
  lemma DecodeElementIdRoundTrip(id: nat)
    ensures DecodeElementId(ElementId(id)) == Some(id)
  {
    var digits := DecimalString(id);
    assert |Prefix| == 8;
    assert SliceFrom(ElementId(id), 8) == digits + [];
    ParseIntOfDecimal(id, []);
  }

  /** Distinct projects get distinct element ids. */
  lemma ElementIdInjective(a: nat, b: nat)
    requires ElementId(a) == ElementId(b)
    ensures a == b
  {
    DecodeElementIdRoundTrip(a);
    DecodeElementIdRoundTrip(b);
  }
}
