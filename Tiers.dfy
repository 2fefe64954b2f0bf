/** The fallback lookup for one mapping key (Scripts/converter.py:111-149):
    the first wanted term whose lower-cased form is an indexed name; failing
    that, the first term (as given, not lower-cased) that is an indexed name
    once an icon prefix is put in front; failing that, the indexed name with
    the best score against all terms, accepted only from a score of 50. */
module Tiers {
  import opened Base
  import opened Text
  import opened Dicts
  import opened Scoring
  import opened ImageIndex
  import opened FilterMatch

  /** The lowest score the scored tier accepts. */
  const ScoreThreshold := 50

  /** The path of the first wanted term whose lower-cased form is indexed. */
  function ExactMatch(wanted: seq<string>, index: Dict<ImagePath>): (r: Option<ImagePath>)
    ensures r.Some? <==> exists w :: w in wanted && Lower(w) in index.vals
    ensures r.Some? ==> exists w :: w in wanted && Lower(w) in index.vals && r.value == index.vals[Lower(w)]
    decreases |wanted|
  {
    if wanted == [] then None
    else
      assert forall w :: w in wanted <==> w == wanted[0] || w in wanted[1..] by {
        assert wanted == [wanted[0]] + wanted[1..];
      }
      if Lower(wanted[0]) in index.vals then Some(index.vals[Lower(wanted[0])])
      else ExactMatch(wanted[1..], index)
  }

  /** The path of `pre + w` for the first icon prefix `pre` it is indexed with. */
  function PrefixMatchFor(w: string, prefixes: seq<string>, index: Dict<ImagePath>): (r: Option<ImagePath>)
    ensures r.Some? <==> exists p :: p in prefixes && p + w in index.vals
    ensures r.Some? ==> exists p :: p in prefixes && p + w in index.vals && r.value == index.vals[p + w]
    decreases |prefixes|
  {
    if prefixes == [] then None
    else
      assert forall p :: p in prefixes <==> p == prefixes[0] || p in prefixes[1..] by {
        assert prefixes == [prefixes[0]] + prefixes[1..];
      }
      if prefixes[0] + w in index.vals then Some(index.vals[prefixes[0] + w])
      else PrefixMatchFor(w, prefixes[1..], index)
  }

  /** Terms in order, prefixes in order within each term. */
  function PrefixMatch(wanted: seq<string>, index: Dict<ImagePath>): (r: Option<ImagePath>)
    ensures r.Some? <==> exists w, p :: w in wanted && p in IconPrefixes && p + w in index.vals
    ensures r.Some? ==> exists w, p :: w in wanted && p in IconPrefixes && p + w in index.vals && r.value == index.vals[p + w]
    decreases |wanted|
  {
    if wanted == [] then None
    else
      assert forall w :: w in wanted <==> w == wanted[0] || w in wanted[1..] by {
        assert wanted == [wanted[0]] + wanted[1..];
      }
      var here := PrefixMatchFor(wanted[0], IconPrefixes, index);
      if here.Some? then here else PrefixMatch(wanted[1..], index)
  }

  /** The exact tier takes the FIRST term that matches. */
  lemma {:induction false} ExactMatchFirst(wanted: seq<string>, index: Dict<ImagePath>, i: nat)
    requires i < |wanted| && Lower(wanted[i]) in index.vals
    requires forall j :: 0 <= j < i ==> Lower(wanted[j]) !in index.vals
    ensures ExactMatch(wanted, index) == Some(index.vals[Lower(wanted[i])])
    decreases i
  {
    if i > 0 {
      assert Lower(wanted[0]) !in index.vals;
      ExactMatchFirst(wanted[1..], index, i - 1);
    }
  }

  /** Within one term, the FIRST icon prefix it is indexed with wins. */
  lemma {:induction false} PrefixMatchForFirst(w: string, prefixes: seq<string>, index: Dict<ImagePath>, k: nat)
    requires k < |prefixes| && prefixes[k] + w in index.vals
    requires forall l :: 0 <= l < k ==> prefixes[l] + w !in index.vals
    ensures PrefixMatchFor(w, prefixes, index) == Some(index.vals[prefixes[k] + w])
    decreases k
  {
    if k > 0 {
      assert prefixes[0] + w !in index.vals;
      PrefixMatchForFirst(w, prefixes[1..], index, k - 1);
    }
  }

  /** The prefix tier takes the FIRST term that matches under some prefix,
      and for it the first prefix that matches. */
  lemma {:induction false} PrefixMatchFirst(wanted: seq<string>, index: Dict<ImagePath>, i: nat, k: nat)
    requires i < |wanted| && k < |IconPrefixes| && IconPrefixes[k] + wanted[i] in index.vals
    requires forall j, l :: 0 <= j < i && 0 <= l < |IconPrefixes| ==> IconPrefixes[l] + wanted[j] !in index.vals
    requires forall l :: 0 <= l < k ==> IconPrefixes[l] + wanted[i] !in index.vals
    ensures PrefixMatch(wanted, index) == Some(index.vals[IconPrefixes[k] + wanted[i]])
    decreases i
  {
    if i > 0 {
      forall p | p in IconPrefixes
        ensures p + wanted[0] !in index.vals
      {
        var l :| 0 <= l < |IconPrefixes| && IconPrefixes[l] == p;
      }
      assert PrefixMatchFor(wanted[0], IconPrefixes, index).None?;
      var rest := wanted[1..];
      assert rest[i - 1] == wanted[i];
      forall j, l | 0 <= j < i - 1 && 0 <= l < |IconPrefixes|
        ensures IconPrefixes[l] + rest[j] !in index.vals
      {
        assert rest[j] == wanted[j + 1];
      }
      PrefixMatchFirst(rest, index, i - 1, k);
    } else {
      PrefixMatchForFirst(wanted[0], IconPrefixes, index, k);
    }
  }

  /** The running best of the scored scan: score (from 0) and path. */
  datatype Scan = Scan(score: int, path: Option<ImagePath>)

  /** One file of the scan: a strictly higher score takes over; an equal
      positive score takes over only when the index key is strictly shorter
      than the file name (with extension) of the current best. */
  function ScanStep(b: Scan, fname: string, path: ImagePath, s: int): Scan {
    if s > b.score then Scan(s, Some(path))
    else if s == b.score && s > 0 && b.path.Some? && |fname| < |b.path.value.file| then Scan(b.score, Some(path))
    else b
  }

  /** The scan over the first `n` indexed names, in index order, under
      `score`; a score that raises aborts it. */
  function ScanFiles(index: Dict<ImagePath>, score: string -> Outcome<int>, n: nat): (r: Outcome<Scan>)
    requires n <= |index.keys|
    ensures r.Crash? <==> exists i :: 0 <= i < n && score(index.keys[i]).Crash?
    ensures r.Ok? ==> r.value.score >= 0 && (r.value.score == 0 <==> r.value.path.None?)
    ensures r.Ok? ==> forall i :: 0 <= i < n ==> score(index.keys[i]).Ok? && score(index.keys[i]).value <= r.value.score
    ensures r.Ok? && r.value.score > 0 ==>
      exists i :: 0 <= i < n && r.value.path == Some(index.vals[index.keys[i]]) && score(index.keys[i]) == Ok(r.value.score)
  {
    if n == 0 then Ok(Scan(0, None))
    else
      match ScanFiles(index, score, n - 1)
      case Crash => Crash
      case Ok(b) =>
        var fname := index.keys[n - 1];
        match score(fname)
        case Crash => Crash
        case Ok(s) => Ok(ScanStep(b, fname, index.vals[fname], s))
  }

  /** The best so far was last taken over at the `i`-th indexed name: that
      name's image holds it with the best score, and no later name with the
      same score has a key shorter than that image's file name. */
  predicate KeptAt(index: Dict<ImagePath>, score: string -> Outcome<int>, n: nat, b: Scan, i: nat)
    requires n <= |index.keys|
  {
    i < n && b.path == Some(index.vals[index.keys[i]]) && score(index.keys[i]) == Ok(b.score)
    && forall j :: i < j < n ==>
      score(index.keys[j]).Ok? && (score(index.keys[j]).value < b.score || |index.keys[j]| >= |index.vals[index.keys[i]].file|)
  }

  /** Among several names with the best score, the scan keeps the one last
      taken over; a later name with that score does not displace it unless
      its key is strictly shorter than the kept file name with extension. */
  lemma ScanTieBreak(index: Dict<ImagePath>, score: string -> Outcome<int>, n: nat)
    requires n <= |index.keys|
    ensures ScanFiles(index, score, n).Ok? && ScanFiles(index, score, n).value.score > 0 ==>
      exists i :: KeptAt(index, score, n, ScanFiles(index, score, n).value, i)
  {
    var i := KeptIndex(index, score, n);
  }

  /** The name at which the scan over the first `n` names last took over. */
  lemma {:induction false} KeptIndex(index: Dict<ImagePath>, score: string -> Outcome<int>, n: nat) returns (i: nat)
    requires n <= |index.keys|
    ensures ScanFiles(index, score, n).Ok? && ScanFiles(index, score, n).value.score > 0 ==>
      KeptAt(index, score, n, ScanFiles(index, score, n).value, i)
  {
    i := 0;
    if n > 0 && ScanFiles(index, score, n).Ok? {
      ScanFilesStep(index, score, n);
      var k := KeptIndex(index, score, n - 1);
      i := TieStep(index, score, n - 1, ScanFiles(index, score, n - 1).value, k);
    }
  }

  /** A scan that ends without raising is the previous scan plus one step. */
  lemma ScanFilesStep(index: Dict<ImagePath>, score: string -> Outcome<int>, n: nat)
    requires 0 < n <= |index.keys| && ScanFiles(index, score, n).Ok?
    ensures ScanFiles(index, score, n - 1).Ok? && score(index.keys[n - 1]).Ok?
    ensures var b, fname := ScanFiles(index, score, n - 1).value, index.keys[n - 1];
      ScanFiles(index, score, n) == Ok(ScanStep(b, fname, index.vals[fname], score(fname).value))
  {
  }

  /** One more name keeps some name holding the best. */
  lemma TieStep(index: Dict<ImagePath>, score: string -> Outcome<int>, n: nat, b: Scan, k: nat) returns (i: nat)
    requires n < |index.keys| && score(index.keys[n]).Ok?
    requires b.score >= 0 && (b.score == 0 <==> b.path.None?)
    requires b.score > 0 ==> KeptAt(index, score, n, b, k)
    ensures var fname := index.keys[n];
      var r := ScanStep(b, fname, index.vals[fname], score(fname).value);
      r.score > 0 ==> KeptAt(index, score, n + 1, r, i)
  {
    var fname := index.keys[n];
    var s := score(fname).value;
    var r := ScanStep(b, fname, index.vals[fname], s);
    i := k;
    if s > b.score || (s == b.score && s > 0 && b.path.Some? && |fname| < |b.path.value.file|) {
      assert r == Scan(s, Some(index.vals[fname]));
      KeptAtLast(index, score, n);
      i := n;
    } else if r.score > 0 {
      KeptAtExtends(index, score, n, b, k);
    }
  }

  /** A name that takes over holds the best, with no later name yet. */
  lemma KeptAtLast(index: Dict<ImagePath>, score: string -> Outcome<int>, n: nat)
    requires n < |index.keys| && score(index.keys[n]).Ok?
    ensures KeptAt(index, score, n + 1, Scan(score(index.keys[n]).value, Some(index.vals[index.keys[n]])), n)
  {
  }

  /** A name that does not take over from the best keeps it where it was. */
  lemma KeptAtExtends(index: Dict<ImagePath>, score: string -> Outcome<int>, n: nat, b: Scan, i: nat)
    requires n < |index.keys| && KeptAt(index, score, n, b, i) && b.score > 0
    requires score(index.keys[n]).Ok?
    requires var s := score(index.keys[n]).value;
      s <= b.score && (s == b.score ==> |index.keys[n]| >= |b.path.value.file|)
    ensures KeptAt(index, score, n + 1, b, i)
  {
  }

  /** Two keys of the same length and the same positive score: the LATER one
      is kept, since its key is shorter than the earlier file name with its
      extension. */
  lemma ScanLaterTieWins()
    ensures var index: Dict<ImagePath> := DictRep(["ab", "cd"],
        map["ab" := ImagePath("drawable", "ab.png"), "cd" := ImagePath("drawable", "cd.png")]);
      ScanFiles(index, _ => Ok(70), 2) == Ok(Scan(70, Some(ImagePath("drawable", "cd.png"))))
  {
    var index: Dict<ImagePath> := DictRep(["ab", "cd"],
      map["ab" := ImagePath("drawable", "ab.png"), "cd" := ImagePath("drawable", "cd.png")]);
    assert ScanFiles(index, _ => Ok(70), 1) == Ok(Scan(70, Some(ImagePath("drawable", "ab.png"))));
  }

  /** The scored tier: the scan's best path when its score reaches the
      threshold. */
  function ScoredMatch(index: Dict<ImagePath>, wanted: seq<string>): (r: Outcome<Option<ImagePath>>)
    ensures r.Crash? <==> ScanFiles(index, ScoreAgainst(wanted), |index.keys|).Crash?
    ensures r.Ok? ==> (r.value.Some? <==> ScanFiles(index, ScoreAgainst(wanted), |index.keys|).value.score >= ScoreThreshold)
    ensures r.Ok? && r.value.Some? ==> Some(r.value.value) == ScanFiles(index, ScoreAgainst(wanted), |index.keys|).value.path
  {
    match ScanFiles(index, ScoreAgainst(wanted), |index.keys|)
    case Crash => Crash
    case Ok(b) => if b.score >= ScoreThreshold then Ok(b.path) else Ok(None)
  }

  /** Indexed name `k` scores at least 50 and no less than any other indexed
      name. */
  predicate ScoresBest(index: Dict<ImagePath>, wanted: seq<string>, k: string) {
    k in index.keys && FileScore(k, wanted).Ok? && FileScore(k, wanted).value >= ScoreThreshold
    && forall j :: j in index.keys ==> FileScore(j, wanted).Ok? && FileScore(j, wanted).value <= FileScore(k, wanted).value
  }

  /** A scored match is the image of a best-scoring indexed name. */
  lemma ScoredMatchBest(index: Dict<ImagePath>, wanted: seq<string>)
    ensures ScoredMatch(index, wanted).Ok? && ScoredMatch(index, wanted).value.Some? ==>
      exists k :: ScoresBest(index, wanted, k) && index.vals[k] == ScoredMatch(index, wanted).value.value
  {
    if ScoredMatch(index, wanted).Ok? && ScoredMatch(index, wanted).value.Some? {
      var n := |index.keys|;
      var b := ScanFiles(index, ScoreAgainst(wanted), n).value;
      var i :| 0 <= i < n && b.path == Some(index.vals[index.keys[i]]) && ScoreAgainst(wanted)(index.keys[i]) == Ok(b.score);
      var k := index.keys[i];
      forall j | j in index.keys
        ensures FileScore(j, wanted).Ok? && FileScore(j, wanted).value <= FileScore(k, wanted).value
      {
        var l :| 0 <= l < n && index.keys[l] == j;
        assert ScoreAgainst(wanted)(index.keys[l]).Ok?;
      }
      assert b.score >= ScoreThreshold;
      assert ScoresBest(index, wanted, k);
      assert index.vals[k] == ScoredMatch(index, wanted).value.value;
    }
  }

  /** How a key's image was found. */
  datatype Resolution = Exact(path: ImagePath) | Prefix(path: ImagePath) | Scored(path: ImagePath) | NoMatch

  /** The three tiers in turn. Scoring is reached, and can raise, only when
      neither direct tier matched; a scored match has a score of at least 50
      for some indexed name (the best of all: `ResolveScoredBest`), and no
      match means every indexed name scores below 50. */
  function Resolve(wanted: seq<string>, index: Dict<ImagePath>): (r: Outcome<Resolution>)
    ensures ExactMatch(wanted, index).Some? ==> r == Ok(Exact(ExactMatch(wanted, index).value))
    ensures ExactMatch(wanted, index).None? && PrefixMatch(wanted, index).Some? ==> r == Ok(Prefix(PrefixMatch(wanted, index).value))
    ensures r.Crash? <==> (ExactMatch(wanted, index).None? && PrefixMatch(wanted, index).None?
      && exists k :: k in index.keys && FileScore(k, wanted).Crash?)
    ensures r.Ok? && r.value.Scored? ==> (ExactMatch(wanted, index).None? && PrefixMatch(wanted, index).None?
      && exists k :: k in index.keys && index.vals[k] == r.value.path && FileScore(k, wanted).Ok? && FileScore(k, wanted).value >= ScoreThreshold)
    ensures r.Ok? && r.value.NoMatch? ==> (ExactMatch(wanted, index).None? && PrefixMatch(wanted, index).None?
      && forall k :: k in index.keys ==> FileScore(k, wanted).Ok? && FileScore(k, wanted).value < ScoreThreshold)
  {
    var exact := ExactMatch(wanted, index);
    if exact.Some? then Ok(Exact(exact.value))
    else
      var prefix := PrefixMatch(wanted, index);
      if prefix.Some? then Ok(Prefix(prefix.value))
      else
        var n := |index.keys|;
        assert forall k :: k in index.keys <==> exists i :: 0 <= i < n && index.keys[i] == k;
        match ScoredMatch(index, wanted)
        case Crash => Crash
        case Ok(found) =>
          if found.Some? then Ok(Scored(found.value)) else Ok(NoMatch)
  }

  /** A scored resolution is the image of an indexed name that scores at
      least 50 and no less than any other indexed name. */
  lemma ResolveScoredBest(wanted: seq<string>, index: Dict<ImagePath>)
    ensures Resolve(wanted, index).Ok? && Resolve(wanted, index).value.Scored? ==>
      exists k :: ScoresBest(index, wanted, k) && index.vals[k] == Resolve(wanted, index).value.path
  {
    ScoredMatchBest(index, wanted);
  }

  lemma ExactMatchAt(wanted: seq<string>, index: Dict<ImagePath>, i: nat)
    requires i < |wanted|
    ensures ExactMatch(wanted[i..], index)
      == if Lower(wanted[i]) in index.vals then Some(index.vals[Lower(wanted[i])]) else ExactMatch(wanted[i + 1..], index)
  {
    var t := wanted[i..];
    assert t[0] == wanted[i] && t[1..] == wanted[i + 1..];
  }

  /** The exact-tier loop (converter.py:114-120). */
  method FindExact(wanted: seq<string>, index: Dict<ImagePath>) returns (r: Option<ImagePath>)
    ensures r == ExactMatch(wanted, index)
  {
    r := None;
    var i := 0;
    while i < |wanted|
      invariant 0 <= i <= |wanted|
      invariant ExactMatch(wanted, index) == ExactMatch(wanted[i..], index)
    {
      ExactMatchAt(wanted, index, i);
      var w := Lower(wanted[i]);
      if w in index.vals {
        r := Some(index.vals[w]);
        return;
      }
      i := i + 1;
    }
  }

  /** The prefix-tier loops (converter.py:122-131). */
  method FindPrefix(wanted: seq<string>, index: Dict<ImagePath>) returns (r: Option<ImagePath>)
    ensures r == PrefixMatch(wanted, index)
  {
    r := None;
    var i := 0;
    while i < |wanted|
      invariant 0 <= i <= |wanted|
      invariant PrefixMatch(wanted, index) == PrefixMatch(wanted[i..], index)
    {
      assert wanted[i..][1..] == wanted[i + 1..];
      var j := 0;
      while j < |IconPrefixes|
        invariant 0 <= j <= |IconPrefixes|
        invariant PrefixMatchFor(wanted[i], IconPrefixes, index) == PrefixMatchFor(wanted[i], IconPrefixes[j..], index)
      {
        assert IconPrefixes[j..][1..] == IconPrefixes[j + 1..];
        var candidate := IconPrefixes[j] + wanted[i];
        if candidate in index.vals {
          r := Some(index.vals[candidate]);
          return;
        }
        j := j + 1;
      }
      i := i + 1;
    }
  }

  /** The scan loop (converter.py:133-145) under `score`. */
  method ScanIndex(index: Dict<ImagePath>, score: string -> Outcome<int>) returns (r: Outcome<Scan>)
    ensures r == ScanFiles(index, score, |index.keys|)
  {
    var best := Scan(0, None);
    for i := 0 to |index.keys|
      invariant ScanFiles(index, score, i) == Ok(best)
    {
      var fname := index.keys[i];
      var s := score(fname);
      if s.Crash? {
        assert ScanFiles(index, score, i + 1).Crash?;
        return Crash;
      }
      assert ScanFiles(index, score, i + 1) == Ok(ScanStep(best, fname, index.vals[fname], s.value));
      best := ScanStep(best, fname, index.vals[fname], s.value);
    }
    return Ok(best);
  }

  /** The scored tier with its threshold (converter.py:133-149). */
  method FindScored(index: Dict<ImagePath>, wanted: seq<string>) returns (r: Outcome<Option<ImagePath>>)
    ensures r == ScoredMatch(index, wanted)
  {
    var scan := ScanIndex(index, ScoreAgainst(wanted));
    if scan.Crash? {
      return Crash;
    }
    if scan.value.score >= ScoreThreshold {
      r := Ok(scan.value.path);
    } else {
      r := Ok(None);
    }
  }

  /** The three tiers in turn (converter.py:111-149). */
  method ResolveTiers(wanted: seq<string>, index: Dict<ImagePath>) returns (r: Outcome<Resolution>)
    ensures r == Resolve(wanted, index)
  {
    var exact := FindExact(wanted, index);
    if exact.Some? {
      return Ok(Exact(exact.value));
    }
    var prefix := FindPrefix(wanted, index);
    if prefix.Some? {
      return Ok(Prefix(prefix.value));
    }
    var scored := FindScored(index, wanted);
    if scored.Crash? {
      return Crash;
    }
    if scored.value.Some? {
      return Ok(Scored(scored.value.value));
    }
    return Ok(NoMatch);
  }
}
