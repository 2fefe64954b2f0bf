/** Search terms for a mapping key (`generate_criteria`,
    Scripts/converter.py:176-201) and the target lookup `get_target_info`
    (:242-248). */
module Criteria {
  import opened Text
  import opened Dicts

  /** A mapping value: a single target name or a list of target names. */
  datatype Targets = One(name: string) | Many(names: seq<string>)

  /** The theme directory an icon goes to. */
  datatype Category = Apps | Places

  /** Last dotted segments too generic to search for on their own. */
  const GenericSegments: seq<string> := ["android", "app", "mobile"]

  /** `targets if isinstance(targets, list) else [targets]`. */
  function TargetList(v: Targets): seq<string> {
    match v
    case One(name) => [name]
    case Many(names) => names
  }

  /** A key starting with `resource_folder` names a places icon. */
  function CategoryOf(key: string): Category {
    if "resource_folder" <= key then Places else Apps
  }

  /** The terms derived from the key itself: for a dotted key the key with
      dots turned into underscores, then its last segment unless generic;
      otherwise the key verbatim. */
  function KeyTerms(key: string): (r: seq<string>)
    ensures 1 <= |r| <= 2
    ensures r[0] == (if '.' in key then ReplaceChar(key, '.', '_') else key) && '.' !in r[0]
    ensures |r| == 2 <==> '.' in key && Last(Split(key, '.')) !in GenericSegments
    ensures |r| == 2 ==> r[1] == Last(Split(key, '.'))
  {
    if '.' in key then
      assert |Split(key, '.')| > 1;
      var parts := Split(key, '.');
      [ReplaceChar(key, '.', '_')]
        + (if |parts| > 1 && Last(parts) !in GenericSegments then [Last(parts)] else [])
    else [key]
  }

  function SynonymTerms(key: string, synonyms: map<string, seq<string>>): (r: seq<string>)
    ensures |r| == if key in synonyms then |synonyms[key]| else 0
    ensures key in synonyms ==> r == synonyms[key]
  {
    if key in synonyms then synonyms[key] else []
  }

  function ResourceTerms(key: string): (r: seq<string>)
    ensures |r| == if "resource_" <= key then 1 else 0
    ensures "resource_" <= key ==> r[0] == ReplaceAll(key, "resource_", "")
  {
    if "resource_" <= key then [ReplaceAll(key, "resource_", "")] else []
  }

  /** The term a target name contributes: `org.`, `com.` and `kde.` removed,
      hyphens turned into underscores, and only the last dotted segment kept.
      It never holds a hyphen or a dot. */
  function TargetTerm(t: string): (r: string)
    ensures '-' !in r && '.' !in r
  {
    var c := ReplaceChar(ReplaceAll(ReplaceAll(ReplaceAll(t, "org.", ""), "com.", ""), "kde.", ""), '-', '_');
    if '.' in c then
      SplitParts(c, '.');
      Last(Split(c, '.'))
    else c
  }

  function TargetTerms(targets: seq<string>): (r: seq<string>)
    ensures |r| == |targets|
    ensures forall i :: 0 <= i < |targets| ==> r[i] == TargetTerm(targets[i])
  {
    if targets == [] then [] else [TargetTerm(targets[0])] + TargetTerms(targets[1..])
  }

  /** `generate_criteria(key, targets, synonyms)`: key terms first, then the
      key's synonyms in order (none when the key has no entry), then the key
      without `resource_` exactly when it starts with it, and last exactly
      one term per target, in target order. Nothing else is added. */
  function GenerateCriteria(key: string, targets: seq<string>, synonyms: map<string, seq<string>>): (r: seq<string>)
    ensures var ns := if key in synonyms then |synonyms[key]| else 0;
      |r| == |KeyTerms(key)| + ns + (if "resource_" <= key then 1 else 0) + |targets|
    ensures r[..|KeyTerms(key)|] == KeyTerms(key)
    ensures var k, ns := |KeyTerms(key)|, if key in synonyms then |synonyms[key]| else 0;
      r[k..k + ns] == (if key in synonyms then synonyms[key] else [])
    ensures var ns := if key in synonyms then |synonyms[key]| else 0;
      "resource_" <= key ==> r[|KeyTerms(key)| + ns] == ReplaceAll(key, "resource_", "")
    ensures "resource_" <= key ==> ReplaceAll(key, "resource_", "") in r
    ensures r[|r| - |targets|..] == TargetTerms(targets)
  {
    Concat4(KeyTerms(key), SynonymTerms(key, synonyms), ResourceTerms(key), TargetTerms(targets))
  }

  /** Four parts one after the other, and where each lies in the whole. */
  function Concat4<T>(k: seq<T>, s: seq<T>, rs: seq<T>, tt: seq<T>): (r: seq<T>)
    ensures |r| == |k| + |s| + |rs| + |tt|
    ensures r[..|k|] == k && r[|k|..|k| + |s|] == s
    ensures r[|k| + |s|..|k| + |s| + |rs|] == rs && r[|r| - |tt|..] == tt
    ensures forall x :: x in rs ==> x in r
    ensures |rs| == 1 ==> r[|k| + |s|] == rs[0]
  {
    k + (s + rs + tt)
  }

  /** The term of the `i`-th target sits at its place among the last
      `|targets|` criteria. */
  lemma TargetTermInCriteria(key: string, targets: seq<string>, synonyms: map<string, seq<string>>, i: nat)
    requires i < |targets|
    ensures var r := GenerateCriteria(key, targets, synonyms);
      r[|r| - |targets| + i] == TargetTerm(targets[i]) && TargetTerm(targets[i]) in r
  {
    var r := GenerateCriteria(key, targets, synonyms);
    assert r[|r| - |targets|..][i] == r[|r| - |targets| + i];
  }

  /** Every target-derived term of the criteria is free of hyphens and dots,
      and the first term is the key with its dots turned into underscores. */
  lemma CriteriaShape(key: string, targets: seq<string>, synonyms: map<string, seq<string>>)
    ensures var r := GenerateCriteria(key, targets, synonyms);
      r[0] == (if '.' in key then ReplaceChar(key, '.', '_') else key) && '.' !in r[0]
      && ('.' in key && Last(Split(key, '.')) !in GenericSegments ==> r[1] == Last(Split(key, '.')))
      && (forall i :: |r| - |targets| <= i < |r| ==> '-' !in r[i] && '.' !in r[i])
  {
    var r := GenerateCriteria(key, targets, synonyms);
    var k := KeyTerms(key);
    forall i | |r| - |targets| <= i < |r|
      ensures '-' !in r[i] && '.' !in r[i]
    {
      assert r[i] == TargetTerm(targets[i - (|r| - |targets|)]);
    }
  }

  /** A name without dots loses no `org.`/`com.`/`kde.` text: its term is
      the name with hyphens turned into underscores. */
  lemma UndottedTargetTerm(t: string)
    requires '.' !in t
    ensures TargetTerm(t) == ReplaceChar(t, '-', '_')
  {
    ReplaceAllMissingChar(t, "org.", "", '.');
    ReplaceAllMissingChar(t, "com.", "", '.');
    ReplaceAllMissingChar(t, "kde.", "", '.');
  }

  /** `get_target_info(key, mappings)`: the key's targets as a list and its
      category; a key that is not mapped yields no targets and `apps`. */
  function TargetInfo(key: string, mappings: Dict<Targets>): (r: (seq<string>, Category))
    ensures key !in mappings.vals ==> r == ([], Apps)
    ensures key in mappings.vals ==> r.0 == TargetList(mappings.vals[key])
    ensures key in mappings.vals ==> (r.1 == Places <==> "resource_folder" <= key)
  {
    if key in mappings.vals then (TargetList(mappings.vals[key]), CategoryOf(key))
    else ([], Apps)
  }
}
