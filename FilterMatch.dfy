/** The appfilter stage of the converter (Scripts/converter.py:53-89): the
    `<item drawable=… component=…/>` entries are grouped into candidate
    drawable names per package, and for a mapped package the candidate with
    the best score against the package's criteria is chosen. */
module FilterMatch {
  import opened Base
  import opened Text
  import opened Dicts
  import opened Scoring
  import opened Criteria

  /** One `<item>` of appfilter.xml; an absent attribute is `None`. */
  datatype FilterItem = FilterItem(drawable: Option<string>, component: Option<string>)

  /** An item is used only when both attributes are present and non-empty. */
  predicate Usable(item: FilterItem) {
    item.drawable.Some? && item.drawable.value != [] && item.component.Some? && item.component.value != []
  }

  /** The drawable's resource name: its basename, `@drawable/` removed,
      surrounding whitespace stripped. */
  function ResourceName(drawable: string): string {
    StripSpace(ReplaceAll(Basename(drawable), "@drawable/", ""))
  }

  /** A `@drawable/name` reference yields the stripped name. */
  lemma ResourceNameOfReference(name: string)
    requires '/' !in name
    ensures ResourceName("@drawable/" + name) == StripSpace(name)
  {
    assert "@drawable/" + name == "@drawable" + "/" + name;
    BasenameAfterSlash("@drawable", name);
    ReplaceAllMissingChar(name, "@drawable/", "", '/');
  }

  /** `parse_component`: `ComponentInfo{` and `}` removed, then the text
      before the first `/`. The package name never holds a `/`. */
  function ParseComponent(raw: string): (pkg: string)
    ensures '/' !in pkg
  {
    var parts := Split(ReplaceAll(ReplaceAll(raw, "ComponentInfo{", ""), "}", ""), '/');
    SplitParts(ReplaceAll(ReplaceAll(raw, "ComponentInfo{", ""), "}", ""), '/');
    parts[0]
  }

  /** The usual form `ComponentInfo{pkg/activity}` yields `pkg`. */
  lemma ParseComponentInfo(pkg: string, activity: string)
    requires '/' !in pkg && '{' !in pkg && '}' !in pkg
    requires '{' !in activity && '}' !in activity
    ensures ParseComponent("ComponentInfo{" + pkg + "/" + activity + "}") == pkg
  {
    var body := pkg + "/" + activity;
    var raw := "ComponentInfo{" + pkg + "/" + activity + "}";
    assert raw == "ComponentInfo{" + (body + "}");
    assert '{' !in body + "}" && '}' !in body;
    ReplaceAllLeading("ComponentInfo{", body + "}", "");
    ReplaceAllMissingChar(body + "}", "ComponentInfo{", "", '{');
    assert ReplaceAll(raw, "ComponentInfo{", "") == body + "}";
    ReplaceAllTrailingChar(body, '}');
    assert body == pkg + ['/'] + activity;
    SplitConcat(pkg, activity, '/');
    assert Split(pkg, '/') == [pkg];
  }

  /** A bare package name passes through unchanged. */
  lemma ParsePlainPackage(pkg: string)
    requires '/' !in pkg && '{' !in pkg && '}' !in pkg
    ensures ParseComponent(pkg) == pkg
  {
    ReplaceAllMissingChar(pkg, "ComponentInfo{", "", '{');
    ReplaceAllMissingChar(pkg, "}", "", '}');
  }

  /** One item's effect on the grouping: the package gets an entry (possibly
      empty at first) and the resource name is appended unless present. */
  function AddItem(groups: Dict<seq<string>>, item: FilterItem): Dict<seq<string>> {
    if !Usable(item) then groups
    else
      var name := ResourceName(item.drawable.value);
      var pkg := ParseComponent(item.component.value);
      var current := if pkg in groups.vals then groups.vals[pkg] else [];
      Put(groups, pkg, if name in current then current else current + [name])
  }

  /** The candidate table after the first `|items|` items. */
  function Grouped(items: seq<FilterItem>): Dict<seq<string>>
    decreases |items|
  {
    if items == [] then Empty() else AddItem(Grouped(items[..|items| - 1]), items[|items| - 1])
  }

  /** A usable item that names `pkg`. */
  predicate Mentions(items: seq<FilterItem>, pkg: string) {
    exists i :: 0 <= i < |items| && Usable(items[i]) && ParseComponent(items[i].component.value) == pkg
  }

  /** A usable item names `pkg` with resource name `name`. */
  predicate Names(item: FilterItem, pkg: string, name: string) {
    Usable(item) && ParseComponent(item.component.value) == pkg && ResourceName(item.drawable.value) == name
  }

  predicate Gives(items: seq<FilterItem>, pkg: string, name: string) {
    exists i :: 0 <= i < |items| && Names(items[i], pkg, name)
  }

  lemma MentionsSnoc(items: seq<FilterItem>, item: FilterItem, pkg: string)
    ensures Mentions(items + [item], pkg) <==> Mentions(items, pkg) || (Usable(item) && ParseComponent(item.component.value) == pkg)
  {
    var all := items + [item];
    if Mentions(all, pkg) {
      var i :| 0 <= i < |all| && Usable(all[i]) && ParseComponent(all[i].component.value) == pkg;
      if i < |items| { assert items[i] == all[i]; }
    }
    if Mentions(items, pkg) {
      var i :| 0 <= i < |items| && Usable(items[i]) && ParseComponent(items[i].component.value) == pkg;
      assert all[i] == items[i];
    }
    assert all[|items|] == item;
  }

  lemma GivesSnoc(items: seq<FilterItem>, item: FilterItem, pkg: string, name: string)
    ensures Gives(items + [item], pkg, name) <==> Gives(items, pkg, name) || Names(item, pkg, name)
  {
    var all := items + [item];
    if Gives(all, pkg, name) {
      var i :| 0 <= i < |all| && Names(all[i], pkg, name);
      if i < |items| { assert items[i] == all[i]; }
    }
    if Gives(items, pkg, name) {
      var i :| 0 <= i < |items| && Names(items[i], pkg, name);
      assert all[i] == items[i];
    }
    assert all[|items|] == item;
  }

  lemma AppendDistinct(xs: seq<string>, x: string)
    requires Distinct(xs) && x !in xs
    ensures Distinct(xs + [x])
  {
    var ys := xs + [x];
    forall a, b | 0 <= a < b < |ys| ensures ys[a] != ys[b] {
      if b == |xs| { assert ys[a] == xs[a]; }
    }
  }

  /** The candidate table holds a package exactly when a usable item names
      it; its list is never empty and holds no name twice. */
  lemma {:induction false} GroupedPackages(items: seq<FilterItem>, pkg: string)
    ensures pkg in Grouped(items).vals <==> Mentions(items, pkg)
    ensures pkg in Grouped(items).vals ==> Grouped(items).vals[pkg] != [] && Distinct(Grouped(items).vals[pkg])
    decreases |items|
  {
    if items == [] {
    } else {
      var prefix, item := items[..|items| - 1], items[|items| - 1];
      assert items == prefix + [item];
      GroupedPackages(prefix, pkg);
      MentionsSnoc(prefix, item, pkg);
      var before := Grouped(prefix);
      if Usable(item) && ParseComponent(item.component.value) == pkg {
        var name := ResourceName(item.drawable.value);
        var current := if pkg in before.vals then before.vals[pkg] else [];
        if name !in current {
          AppendDistinct(current, name);
        }
      }
    }
  }

  /** A package's candidate list holds exactly the names usable items give
      for it. */
  lemma {:induction false} GroupedNames(items: seq<FilterItem>, pkg: string, name: string)
    requires pkg in Grouped(items).vals
    ensures name in Grouped(items).vals[pkg] <==> Gives(items, pkg, name)
    decreases |items|
  {
    var prefix, item := items[..|items| - 1], items[|items| - 1];
    assert items == prefix + [item];
    GivesSnoc(prefix, item, pkg, name);
    var before := Grouped(prefix);
    AddItemNames(before, item, pkg, name);
    if pkg in before.vals {
      GroupedNames(prefix, pkg, name);
    } else {
      GroupedPackages(prefix, pkg);
    }
  }

  /** One item adds its own resource name to its package's list and
      changes no other name's membership. */
  lemma AddItemNames(groups: Dict<seq<string>>, item: FilterItem, pkg: string, name: string)
    requires pkg in AddItem(groups, item).vals
    ensures name in AddItem(groups, item).vals[pkg] <==>
      (pkg in groups.vals && name in groups.vals[pkg]) || Names(item, pkg, name)
  {
  }

  /** The resource names the usable items give for `pkg`, in item order,
      repeats included. */
  function NamesFor(items: seq<FilterItem>, pkg: string): seq<string>
    decreases |items|
  {
    if items == [] then []
    else
      var item := items[|items| - 1];
      NamesFor(items[..|items| - 1], pkg)
        + if Usable(item) && ParseComponent(item.component.value) == pkg then [ResourceName(item.drawable.value)] else []
  }

  /** A package's candidate list is the names its items give, each once, in
      order of first appearance; a package no usable item names has none. */
  lemma {:induction false} GroupedOrder(items: seq<FilterItem>, pkg: string)
    ensures (if pkg in Grouped(items).vals then Grouped(items).vals[pkg] else []) == Dedup(NamesFor(items, pkg))
    decreases |items|
  {
    if items != [] {
      var prefix, item := items[..|items| - 1], items[|items| - 1];
      GroupedOrder(prefix, pkg);
      var before, after := Grouped(prefix), Grouped(items);
      assert after == AddItem(before, item);
      AddItemList(before, item, pkg);
      var names := NamesFor(prefix, pkg);
      var current := if pkg in before.vals then before.vals[pkg] else [];
      var list := if pkg in after.vals then after.vals[pkg] else [];
      assert current == Dedup(names);
      if Usable(item) && ParseComponent(item.component.value) == pkg {
        var n := ResourceName(item.drawable.value);
        assert NamesFor(items, pkg) == names + [n];
        DedupAppend(names, n);
        assert list == if n in current then current else current + [n];
      } else {
        assert NamesFor(items, pkg) == names + [];
        assert names + [] == names;
        assert list == current;
      }
    }
  }

  /** One item appends its resource name to its own package's list unless
      already there, and leaves every other package's list alone. */
  lemma AddItemList(groups: Dict<seq<string>>, item: FilterItem, pkg: string)
    ensures var current := if pkg in groups.vals then groups.vals[pkg] else [];
      var after := AddItem(groups, item);
      (if pkg in after.vals then after.vals[pkg] else [])
        == if Usable(item) && ParseComponent(item.component.value) == pkg then
             (if ResourceName(item.drawable.value) in current then current else current + [ResourceName(item.drawable.value)])
           else current
  {
  }

  /** Inserting an empty list for a new package and then appending a
      missing name is one `Put` of the extended list. */
  lemma InsertThenAppend(groups: Dict<seq<string>>, pkg: string, name: string)
    ensures var g1 := if pkg in groups.vals then groups else Put(groups, pkg, []);
      var current := if pkg in groups.vals then groups.vals[pkg] else [];
      (if name in g1.vals[pkg] then g1 else Put(g1, pkg, g1.vals[pkg] + [name]))
        == Put(groups, pkg, if name in current then current else current + [name])
  {
  }

  /** The grouping loop over the appfilter items (converter.py:55-67). */
  method GroupCandidates(items: seq<FilterItem>) returns (groups: Dict<seq<string>>)
    ensures groups == Grouped(items)
  {
    groups := Empty();
    for i := 0 to |items|
      invariant groups == Grouped(items[..i])
    {
      assert items[..i + 1][..i] == items[..i];
      var item := items[i];
      if !Usable(item) {
        continue;
      }
      var name := ResourceName(item.drawable.value);
      var pkg := ParseComponent(item.component.value);
      InsertThenAppend(groups, pkg, name);
      if pkg !in groups.vals {
        groups := Put(groups, pkg, []);
      }
      if name !in groups.vals[pkg] {
        groups := Put(groups, pkg, groups.vals[pkg] + [name]);
      }
    }
    assert items[..|items|] == items;
  }

  /** The running choice: the best name so far (none before the first
      candidate) and its score, starting from -1. */
  datatype Best = Best(name: Option<string>, score: int)

  /** One step of the selection loop: a strictly higher score replaces the
      choice; an equal positive score replaces it only with a strictly
      shorter name. */
  function Step(b: Best, cand: string, score: int): Best {
    if score > b.score then Best(Some(cand), score)
    else if score == b.score && score > 0 && b.name.Some? && |cand| < |b.name.value| then Best(Some(cand), b.score)
    else b
  }

  /** The scorer the appfilter stage applies to each candidate. */
  function ScoreAgainst(criteria: seq<string>): (score: string -> Outcome<int>)
    ensures NonNegative(score)
  {
    c => FileScore(c, criteria)
  }

  /** A scorer that never returns a negative score, as the file scorer. */
  ghost predicate NonNegative(score: string -> Outcome<int>) {
    forall c :: score(c).Ok? ==> score(c).value >= 0
  }

  /** The selection loop as a fold over the candidates under `score`; a score
      that raises aborts it. The choice is a candidate with the highest
      score. */
  function Choose(cands: seq<string>, score: string -> Outcome<int>): (r: Outcome<Best>)
    requires NonNegative(score)
    ensures r.Crash? <==> exists c :: c in cands && score(c).Crash?
    ensures r.Ok? && cands == [] ==> r.value == Best(None, -1)
    ensures r.Ok? && cands != [] ==>
      (r.value.name.Some? && r.value.name.value in cands && score(r.value.name.value) == Ok(r.value.score))
    ensures r.Ok? ==> forall c :: c in cands ==> score(c).Ok? && score(c).value <= r.value.score
    decreases |cands|
  {
    if cands == [] then Ok(Best(None, -1))
    else
      var prefix, last := cands[..|cands| - 1], cands[|cands| - 1];
      assert forall c :: c in cands <==> c in prefix || c == last by {
        assert cands == prefix + [last];
      }
      match Choose(prefix, score)
      case Crash => Crash
      case Ok(b) =>
        match score(last)
        case Crash => Crash
        case Ok(s) => Ok(Step(b, last, s))
  }

  /** `k` is the first candidate among the shortest of those scoring `s`. */
  predicate FirstShortest(cands: seq<string>, score: string -> Outcome<int>, s: int, k: int) {
    0 <= k < |cands|
    && (forall j :: 0 <= j < |cands| && score(cands[j]) == Ok(s) ==> |cands[k]| <= |cands[j]|)
    && (forall j :: 0 <= j < k && score(cands[j]) == Ok(s) ==> |cands[k]| < |cands[j]|)
  }

  lemma FirstShortestSnoc(cands: seq<string>, last: string, score: string -> Outcome<int>, s: int, k: int)
    requires FirstShortest(cands, score, s, k)
    requires score(last) != Ok(s) || |cands[k]| <= |last|
    ensures FirstShortest(cands + [last], score, s, k)
  {
    var all := cands + [last];
    assert forall j :: 0 <= j < |cands| ==> all[j] == cands[j];
  }

  lemma FirstShortestLast(cands: seq<string>, last: string, score: string -> Outcome<int>, s: int)
    requires forall j :: 0 <= j < |cands| && score(cands[j]) == Ok(s) ==> |last| < |cands[j]|
    ensures FirstShortest(cands + [last], score, s, |cands|)
  {
    var all := cands + [last];
    assert forall j :: 0 <= j < |cands| ==> all[j] == cands[j];
  }

  /** The tie-break: when the best score is positive, the chosen name is
      the first of the shortest candidates with that score; when every
      candidate scores 0 the first candidate is kept. */
  lemma {:induction false} ChooseTieBreak(cands: seq<string>, score: string -> Outcome<int>)
    requires NonNegative(score)
    requires Choose(cands, score).Ok? && cands != []
    ensures var b := Choose(cands, score).value;
      b.score > 0 ==> exists k :: FirstShortest(cands, score, b.score, k) && cands[k] == b.name.value
    ensures var b := Choose(cands, score).value;
      b.score == 0 ==> b.name == Some(cands[0])
    decreases |cands|
  {
    var prefix, last := cands[..|cands| - 1], cands[|cands| - 1];
    assert cands == prefix + [last];
    var b := Choose(cands, score).value;
    if prefix == [] {
      if b.score > 0 {
        FirstShortestLast(prefix, last, score, b.score);
      }
    } else {
      assert Choose(prefix, score).Ok?;
      ChooseTieBreak(prefix, score);
      var a := Choose(prefix, score).value;
      var s := score(last).value;
      assert b == Step(a, last, s);
      assert cands[0] == prefix[0];
      if b.score > 0 {
        if s > a.score {
          forall j | 0 <= j < |prefix|
            ensures score(prefix[j]) != Ok(b.score)
          {
            assert prefix[j] in prefix;
          }
          FirstShortestLast(prefix, last, score, b.score);
        } else if s == a.score && |last| < |a.name.value| {
          var k :| FirstShortest(prefix, score, a.score, k) && prefix[k] == a.name.value;
          FirstShortestLast(prefix, last, score, b.score);
        } else {
          var k :| FirstShortest(prefix, score, a.score, k) && prefix[k] == a.name.value;
          FirstShortestSnoc(prefix, last, score, b.score, k);
        }
      }
    }
  }

  /** The selection loop (converter.py:75-87): stops at the first
      candidate whose score raises. */
  method SelectBestCandidate(cands: seq<string>, score: string -> Outcome<int>) returns (r: Outcome<Best>)
    requires NonNegative(score)
    ensures r == Choose(cands, score)
  {
    var best := Best(None, -1);
    for i := 0 to |cands|
      invariant Choose(cands[..i], score) == Ok(best)
    {
      assert cands[..i + 1][..i] == cands[..i];
      var s := score(cands[i]);
      if s.Crash? {
        assert cands[i] in cands[..i + 1];
        assert Choose(cands[..i + 1], score).Crash?;
        assert cands[i] in cands;
        return Crash;
      }
      best := Step(best, cands[i], s.value);
    }
    assert cands[..|cands|] == cands;
    return Ok(best);
  }

  /** What `for t in value` iterates over: the characters of a single name
      (each as a one-character string), or the names of a list. */
  function IteratedTargets(v: Targets): (r: seq<string>)
    ensures v.One? ==> |r| == |v.name| && forall i :: 0 <= i < |r| ==> r[i] == [v.name[i]]
    ensures v.Many? ==> r == v.names
  {
    match v
    case One(name) => seq(|name|, i requires 0 <= i < |name| => [name[i]])
    case Many(names) => names
  }

  /** The criteria the appfilter stage computes as written (converter.py:73):
      from the raw mapping value rather than from its target list. */
  function FilterCriteriaAsWritten(key: string, v: Targets, synonyms: map<string, seq<string>>): seq<string> {
    GenerateCriteria(key, IteratedTargets(v), synonyms)
  }

  /** The criteria the appfilter stage evidently means: from the target
      list, like the fallback stage (converter.py:107, :111). */
  function FilterCriteria(key: string, v: Targets, synonyms: map<string, seq<string>>): seq<string> {
    GenerateCriteria(key, TargetList(v), synonyms)
  }

  lemma TermOfDelimiter(c: char)
    requires c == '-' || c == '_'
    ensures TargetTerm([c]) == "_"
  {
    ReplaceAllShort([c], "org.", "");
    ReplaceAllShort([c], "com.", "");
    ReplaceAllShort([c], "kde.", "");
  }

  lemma UnderscoreHasEmptyPart()
    ensures HasEmptyPart("_")
  {
    assert ReplaceChar("_", '-', '_') == "_";
    assert Split("_", '_') == [[]] + Split([], '_');
    assert Tokens("_") == ["", ""];
  }

  /** The term `_` raises against every cleaned name other than `_`. */
  lemma UnderscoreTermRaises(clean: string)
    requires clean != "_"
    ensures TermScore(clean, "_").Crash?
  {
    TokensUndelimited(clean);
    UnderscoreHasEmptyPart();
  }

  /** As written, a single target name holding `-` or `_` contributes the
      term `_`. */
  lemma AsWrittenUnderscoreTerm(key: string, name: string, synonyms: map<string, seq<string>>)
    requires '-' in name || '_' in name
    ensures "_" in FilterCriteriaAsWritten(key, One(name), synonyms)
  {
    var i :| 0 <= i < |name| && (name[i] == '-' || name[i] == '_');
    var targets := IteratedTargets(One(name));
    TermOfDelimiter(name[i]);
    assert targets[i] == [name[i]];
    TargetTermInCriteria(key, targets, synonyms, i);
  }

  /** The scorer raises as soon as one term raises. */
  lemma ScoreRaisesWith(candidate: string, wanted: seq<string>, w: string)
    requires w in wanted && Lower(w) == w && TermScore(CleanName(candidate), w).Crash?
    ensures FileScore(candidate, wanted).Crash?
  {
  }

  /** As written, a single target name holding `-` or `_` makes scoring any
      candidate against the criteria raise, so the whole appfilter stage is
      abandoned. */
  lemma AsWrittenFilterCriteriaCrash(key: string, name: string, synonyms: map<string, seq<string>>, candidate: string)
    requires '-' in name || '_' in name
    requires CleanName(candidate) != "_"
    ensures FileScore(candidate, FilterCriteriaAsWritten(key, One(name), synonyms)).Crash?
  {
    AsWrittenUnderscoreTerm(key, name, synonyms);
    UnderscoreTermRaises(CleanName(candidate));
    LowerUnderscore();
    ScoreRaisesWith(candidate, FilterCriteriaAsWritten(key, One(name), synonyms), "_");
  }

  lemma ReplaceCharTwice(s: string, a: char, b: char)
    ensures ReplaceChar(ReplaceChar(s, a, b), a, b) == ReplaceChar(s, a, b)
  {
  }

  /** With the target list, the same single name contributes one term: the
      name with `-` turned into `_`, which scores without raising whenever
      the name itself has no empty `_`/`-` part. A one-name value and a
      one-element list give the same criteria. */
  lemma FilterCriteriaOneTermPerName(key: string, name: string, synonyms: map<string, seq<string>>, clean: string)
    requires '.' !in name && IsLowerCase(name) && !HasEmptyPart(name)
    ensures FilterCriteria(key, One(name), synonyms) == FilterCriteria(key, Many([name]), synonyms)
    ensures Last(FilterCriteria(key, One(name), synonyms)) == ReplaceChar(name, '-', '_')
    ensures TermScore(clean, Lower(Last(FilterCriteria(key, One(name), synonyms)))).Ok?
  {
    var r := FilterCriteria(key, One(name), synonyms);
    assert Last(r) == ReplaceChar(name, '-', '_') by {
      assert r == GenerateCriteria(key, [name], synonyms);
      UndottedTargetTerm(name);
      TargetTermInCriteria(key, [name], synonyms, 0);
    }
    UndottedTermScores(name, clean);
  }

  /** The term of a lower-case undotted name without empty parts scores
      without raising. */
  lemma UndottedTermScores(name: string, clean: string)
    requires IsLowerCase(name) && !HasEmptyPart(name)
    ensures TermScore(clean, Lower(ReplaceChar(name, '-', '_'))).Ok?
  {
    var term := ReplaceChar(name, '-', '_');
    assert IsLowerCase(term);
    LowerIsLowerCase(term);
    ReplaceCharTwice(name, '-', '_');
    assert Tokens(term) == Tokens(name);
  }
}
