/** The read-only table of UAE mobile prefixes and their carriers. */
module UaeMobilePrefixes {
  import opened Wrappers
  import opened Strings

  const Etisalat: string := "e& (Etisalat)"
  const Du: string := "du"

  const Prefixes: map<string, string> := map[
    "050" := Etisalat, "052" := Etisalat,
    "054" := Etisalat, "056" := Etisalat,
    "057" := Etisalat,
    "055" := Du, "058" := Du, "059" := Du
  ]

  /** A known prefix is one of the eight keys, each `05` and a digit. */
  predicate IsValidPrefix(prefix: string): (b: bool)
    ensures b <==> prefix in {"050", "052", "054", "055", "056", "057", "058", "059"}
    ensures b ==> |prefix| == 3 && prefix[..2] == "05" && IsDigit(prefix[2])
  {
    PrefixKeys();
    PrefixForms();
    prefix in Prefixes
  }

  /** The carrier of a known prefix, null (None) for any other string. */
  function GetCarrier(prefix: string): (r: Option<string>)
    ensures r.Some? <==> IsValidPrefix(prefix)
    ensures r.Some? ==> r.value == Prefixes[prefix]
    ensures r.Some? ==> r.value == Etisalat || r.value == Du
  {
    if prefix in Prefixes then Some(Prefixes[prefix]) else None
  }

  /** The table holds exactly eight prefixes, each of the form `05X`. */
  lemma PrefixTableShape()
    ensures Prefixes.Keys == {"050", "052", "054", "055", "056", "057", "058", "059"}
    ensures |Prefixes| == 8
    ensures forall p :: IsValidPrefix(p) ==> |p| == 3 && p[..2] == "05"
  {
    PrefixKeys();
    PrefixForms();
  }

  lemma PrefixKeys()
    ensures Prefixes.Keys == {"050", "052", "054", "055", "056", "057", "058", "059"}
  {
  }

  lemma PrefixForms()
    ensures forall p :: p in {"050", "052", "054", "055", "056", "057", "058", "059"} ==>
      |p| == 3 && p[..2] == "05" && IsDigit(p[2])
  {
  }

  /** The carriers named by the library's tests: 050 is Etisalat, 055 is du,
      and 051 and 053 are not allocated. */
  lemma KnownCarriers()
    ensures GetCarrier("050") == Some(Etisalat) && Etisalat[4..12] == "Etisalat"
    ensures GetCarrier("055") == Some("du")
    ensures GetCarrier("051").None? && GetCarrier("053").None?
  {
  }
}
