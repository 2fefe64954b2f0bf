/** The filename scorer `calculate_file_score` (Scripts/converter.py:203-240).
    A filename is lower-cased and stripped of icon decorations; each wanted
    term is then matched against it in five tiers (exact 1000, whole token
    800 - 20 * (tokens - 1), acronym 600, prefix 500, substring
    floor(100 * |term| / |name|) - 10) and the best tier score over all terms,
    never below 0, is the file's score. */
module Scoring {
  import opened Base
  import opened Text

  /** The decorations removed from a filename before it is matched. */
  const IconPrefixes: seq<string> := ["ic_", "icon_", "app_", "launcher_"]

  /** Applies `replace(p, "")` for each pattern `p` in turn. */
  function RemoveAll(s: string, pats: seq<string>): string
    requires forall i :: 0 <= i < |pats| ==> pats[i] != []
    decreases |pats|
  {
    if pats == [] then s else RemoveAll(ReplaceAll(s, pats[0], ""), pats[1..])
  }

  /** The lower-cased filename with every occurrence of each icon prefix
      removed, prefix by prefix in list order. */
  function CleanName(filename: string): string {
    RemoveAll(Lower(filename), IconPrefixes)
  }

  /** The `_`/`-` delimited tokens of a name. */
  function Tokens(name: string): (ts: seq<string>)
    ensures |ts| >= 1
  {
    Split(ReplaceChar(name, '-', '_'), '_')
  }

  lemma TokensUndelimited(name: string)
    ensures forall i :: 0 <= i < |Tokens(name)| ==> '_' !in Tokens(name)[i] && '-' !in Tokens(name)[i]
  {
    SplitParts(ReplaceChar(name, '-', '_'), '_');
  }

  /** A term whose acronym cannot be formed: it has at least two `_`/`-`
      parts and one of them is empty, so taking its first letter raises. */
  predicate HasEmptyPart(wanted: string) {
    var parts := Tokens(wanted);
    |parts| > 1 && "" in parts
  }

  function Initials(parts: seq<string>): (r: string)
    requires forall i :: 0 <= i < |parts| ==> parts[i] != []
    ensures |r| == |parts|
  {
    if parts == [] then [] else [parts[0][0]] + Initials(parts[1..])
  }

  /** `int(100 * part / whole)` on lengths, taken as an exact floor. */
  function Percent(part: nat, whole: nat): (r: int)
    requires 0 < whole && part <= whole
    ensures 0 <= r <= 100
  {
    FloorDivAtLeast(100 * part, whole, 101);
    100 * part / whole
  }

  /** The score of one lower-cased wanted term against a cleaned name.
      1000 is reserved for an exact match, and the only exception the scorer
      can raise comes from a term with an empty part. */
  function TermScore(clean: string, wanted: string): (r: Outcome<int>)
    ensures r.Ok? ==> r.value <= 1000
    ensures r.Ok? ==> (r.value == 1000 <==> clean == wanted)
    ensures r.Crash? <==> clean != wanted && wanted !in Tokens(clean) && HasEmptyPart(wanted)
  {
    if clean == wanted then Ok(1000)
    else
      var tokens := Tokens(clean);
      if wanted in tokens then Ok(800 - (|tokens| - 1) * 20)
      else
        var parts := Tokens(wanted);
        if |parts| > 1 && "" in parts then Crash
        else
          var acronym := if |parts| > 1 then Initials(parts) else "";
          if acronym != "" && clean == acronym then Ok(600)
          else if wanted <= clean then Ok(500)
          else if IsSubstring(wanted, clean) then
            Ok(Percent(|wanted|, |clean|) - (if wanted <= clean then 0 else 10))
          else Ok(0)
  }

  /** The running maximum over the wanted terms, starting from 0. */
  function BestTermScore(clean: string, wanted: seq<string>): (r: Outcome<int>)
    ensures r.Ok? ==> 0 <= r.value <= 1000
    ensures r.Ok? ==> (r.value == 1000 <==> exists w :: w in wanted && Lower(w) == clean)
    ensures r.Crash? <==> exists w :: w in wanted && TermScore(clean, Lower(w)).Crash?
  {
    if wanted == [] then Ok(0)
    else
      assert forall w :: w in wanted <==> w == wanted[0] || w in wanted[1..];
      match TermScore(clean, Lower(wanted[0]))
      case Crash => Crash
      case Ok(s) =>
        match BestTermScore(clean, wanted[1..])
        case Crash => Crash
        case Ok(m) => Ok(if s > m then s else m)
  }

  /** `calculate_file_score(filename, wanted_list)`. */
  function FileScore(filename: string, wanted: seq<string>): (r: Outcome<int>)
    ensures r.Ok? ==> 0 <= r.value <= 1000
    ensures r.Ok? ==> (r.value == 1000 <==> exists w :: w in wanted && Lower(w) == CleanName(filename))
    ensures r.Crash? <==> exists w :: w in wanted && TermScore(CleanName(filename), Lower(w)).Crash?
  {
    BestTermScore(CleanName(filename), wanted)
  }

  /** The tokens of a name joined by `_` are the tokens of each side. */
  lemma TokensConcat(x: string, y: string)
    ensures Tokens(x + "_" + y) == Tokens(x) + Tokens(y)
  {
    ReplaceCharConcat(x + "_", y, '-', '_');
    ReplaceCharConcat(x, "_", '-', '_');
    assert ReplaceChar("_", '-', '_') == "_";
    SplitConcat(ReplaceChar(x, '-', '_'), ReplaceChar(y, '-', '_'), '_');
  }

  /** Appending tokens after a whole-token match strictly lowers the score. */
  lemma AppendedTokensLowerScore(core: string, extra: string, w: string)
    requires w in Tokens(core)
    ensures TermScore(core, w).Ok? && TermScore(core + "_" + extra, w).Ok?
    ensures TermScore(core + "_" + extra, w).value < TermScore(core, w).value
  {
    TokensConcat(core, extra);
    TokensUndelimited(core);
    assert '_' !in w;
    var longer := core + "_" + extra;
    assert longer[|core|] == '_';
    assert longer != w;
    assert w in Tokens(longer);
  }

  /** Prepending tokens before a whole-token match strictly lowers the score. */
  lemma PrependedTokensLowerScore(extra: string, core: string, w: string)
    requires w in Tokens(core)
    ensures TermScore(core, w).Ok? && TermScore(extra + "_" + core, w).Ok?
    ensures TermScore(extra + "_" + core, w).value < TermScore(core, w).value
  {
    TokensConcat(extra, core);
    TokensUndelimited(core);
    assert '_' !in w;
    var longer := extra + "_" + core;
    assert longer[|extra|] == '_';
    assert longer != w;
    assert w in Tokens(longer);
  }

  lemma {:induction false} JoinLength(parts: seq<string>, sep: char)
    requires forall i :: 0 <= i < |parts| ==> parts[i] != []
    ensures |Join(parts, sep)| >= 2 * |parts| - 1
  {
    if |parts| > 1 {
      JoinLength(parts[1..], sep);
    }
  }

  lemma SubstringSameLength(w: string, s: string)
    requires IsSubstring(w, s) && |w| == |s|
    ensures w == s
  {
  }

  lemma FloorDivAtLeast(a: nat, b: nat, k: nat)
    requires b > 0
    ensures a / b >= k <==> a >= k * b
  {
    var q, m := a / b, a % b;
    assert a == b * q + m && 0 <= m < b;
    if q >= k {
      assert b * q >= b * k;
    } else {
      assert q + 1 <= k;
      assert b * (q + 1) <= b * k;
    }
  }

  /** A term that occurs inside the cleaned name but not at its start, and is
      not one of its tokens, reaches the substring tier: its score is
      floor(100 * |w| / |clean|) - 10, always below 90, and it clears the
      fallback threshold of 50 exactly when the term covers at least 60% of
      the name. The acronym tier cannot intervene, because an acronym is
      shorter than the term it comes from. */
  lemma SubstringTierScore(clean: string, w: string)
    requires IsSubstring(w, clean) && !(w <= clean) && w !in Tokens(clean)
    ensures TermScore(clean, w).Ok? ==> TermScore(clean, w).value == 100 * |w| / |clean| - 10
    ensures TermScore(clean, w).Ok? ==> -10 <= TermScore(clean, w).value < 90
    ensures TermScore(clean, w).Ok? ==> (TermScore(clean, w).value >= 50 <==> 10 * |w| >= 6 * |clean|)
  {
    assert clean != w;
    if |w| == |clean| {
      SubstringSameLength(w, clean);
    }
    assert |w| < |clean|;
    var parts := Tokens(w);
    if |parts| > 1 && "" !in parts {
      JoinSplit(ReplaceChar(w, '-', '_'), '_');
      JoinLength(parts, '_');
      assert |Initials(parts)| < |clean|;
    }
    FloorDivAtLeast(100 * |w|, |clean|, 100);
    FloorDivAtLeast(100 * |w|, |clean|, 60);
  }
}
