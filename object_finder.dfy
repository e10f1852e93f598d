/** ObjectFinder.cs: one GUID lookup over both registries. */
module ObjectFinding {
  import opened Wrappers
  import opened GuidRegistry

  /**
   * FindObjectByGuid: null for an empty GUID; otherwise the ScriptableObject
   * registry's answer, and the MonoBehaviour registry's only when the first
   * has none.
   */
  function FindObjectByGuid(assets: seq<Bucket>, monos: seq<Bucket>, g: Guid): (r: Option<Found>)
    ensures g == "" ==> r.None?
    ensures g != "" && FindAny(assets, g).Some? ==> r == FindAny(assets, g)
    ensures g != "" && FindAny(assets, g).None? ==> r == FindAny(monos, g)
    ensures r.None? <==> g == "" || ((forall i :: 0 <= i < |assets| ==> !HasGuid(assets[i], g)) && (forall i :: 0 <= i < |monos| ==> !HasGuid(monos[i], g)))
  {
    if g == "" then None
    else
      var so := FindAny(assets, g);
      if so.Some? then so else FindAny(monos, g)
  }
}
