/** One conversion job (`convert_apk`, Scripts/converter.py:17-174): the
    images of the decoded package are indexed, mapping keys are first matched
    through the package's own `appfilter.xml`, the keys still unhandled go
    through the three fallback tiers, and every indexed image not yet used is
    finally copied under its own name. The job's bookkeeping is a `JobState`;
    `Converter` is the object whose fields the stages update in place. */
module Conversion {
  import opened Base
  import opened Dicts
  import opened Scoring
  import opened Criteria
  import opened FilterMatch
  import opened ImageIndex
  import opened Tiers

  /** The mapping-file entry that is documentation, not a mapping. */
  const CommentKey := "__COMMENT__"

  /** The five `STATS` counters. */
  datatype Stats = Stats(xmlMatch: nat, directExact: nat, directPrefix: nat, scoredMatch: nat, failed: nat)

  const ZeroStats := Stats(0, 0, 0, 0, 0)

  /** The fallback counters together: one per fallback key that is looked up. */
  function FallbackTotal(s: Stats): nat {
    s.directExact + s.directPrefix + s.scoredMatch + s.failed
  }

  /** A PNG written as `<category>/512x512/<name>.png` from `source`. */
  datatype Output = Output(category: Category, name: string, source: ImagePath)

  /** The image library, as an oracle: whether a source image opens and
      converts, and whether a PNG can be written under a name in a category
      directory. */
  datatype ImageIO = ImageIO(decodes: ImagePath -> bool, writable: (Category, string) -> bool)

  /** The job's bookkeeping: the counters, the target names and packages
      already handled, the number of target icons written by the two
      matching stages, and every PNG written so far. */
  datatype JobState = JobState(stats: Stats, linuxNames: set<string>, packages: set<string>, totalMapped: nat, outputs: seq<Output>)

  const Start := JobState(ZeroStats, {}, {}, 0, [])

  /** What a job works on: the key-to-targets mappings, the synonyms and the
      image index of the decoded package. */
  datatype Job = Job(mappings: Dict<Targets>, synonyms: map<string, seq<string>>, index: Dict<ImagePath>)

  /** What apktool produced: the folders under `res` (None when there is no
      readable `res`) and the items of `assets/appfilter.xml` (None when the
      file is absent or does not parse). */
  datatype Decoded = Decoded(res: Option<seq<Folder>>, appfilter: Option<seq<FilterItem>>)

  function ToSet(names: seq<string>): set<string> {
    set t | t in names
  }

  // ---------------------------------------------------------------------
  // Writing one source image under several names (converter.py:250-265)
  // ---------------------------------------------------------------------

  /** The names among `names` a PNG can be written for, in order. */
  function WritableOf(io: ImageIO, cat: Category, names: seq<string>): (r: seq<string>)
    ensures |r| <= |names|
    ensures forall n :: n in r <==> n in names && io.writable(cat, n)
  {
    if names == [] then []
    else
      var init, last := names[..|names| - 1], names[|names| - 1];
      assert names == init + [last];
      var r := WritableOf(io, cat, init);
      if io.writable(cat, last) then r + [last] else r
  }

  /** The names `save_one_source_to_many` writes: none at all when the
      source does not open, otherwise every name that can be written. Its
      return value is the length of this list. */
  function Saved(io: ImageIO, src: ImagePath, cat: Category, names: seq<string>): (r: seq<string>)
    ensures |r| <= |names|
    ensures !io.decodes(src) ==> r == []
    ensures forall n :: n in r <==> io.decodes(src) && n in names && io.writable(cat, n)
  {
    if io.decodes(src) then WritableOf(io, cat, names) else []
  }

  lemma WritableOfPrefix(io: ImageIO, cat: Category, names: seq<string>, i: nat)
    requires i < |names|
    ensures WritableOf(io, cat, names[..i + 1])
      == WritableOf(io, cat, names[..i]) + if io.writable(cat, names[i]) then [names[i]] else []
  {
    assert names[..i + 1][..i] == names[..i];
  }

  /** The loop of `save_one_source_to_many` (converter.py:256-263) once the
      source has opened: each name that can be written is appended to
      `prior`, in order, and counted. */
  method WriteEach(io: ImageIO, src: ImagePath, cat: Category, names: seq<string>)
    returns (written: seq<Output>, count: nat)
    ensures written == Written(src, cat, WritableOf(io, cat, names))
    ensures count == |WritableOf(io, cat, names)|
  {
    written, count := [], 0;
    for i := 0 to |names|
      invariant written == Written(src, cat, WritableOf(io, cat, names[..i]))
      invariant count == |written|
    {
      WriteEachStep(io, src, cat, names, i);
      if io.writable(cat, names[i]) {
        written := written + [Output(cat, names[i], src)];
        count := count + 1;
      }
    }
    assert names[..|names|] == names;
  }

  lemma WriteEachStep(io: ImageIO, src: ImagePath, cat: Category, names: seq<string>, i: nat)
    requires i < |names|
    ensures io.writable(cat, names[i]) ==>
      Written(src, cat, WritableOf(io, cat, names[..i + 1])) == Written(src, cat, WritableOf(io, cat, names[..i])) + [Output(cat, names[i], src)]
      && |WritableOf(io, cat, names[..i + 1])| == |WritableOf(io, cat, names[..i])| + 1
    ensures !io.writable(cat, names[i]) ==> WritableOf(io, cat, names[..i + 1]) == WritableOf(io, cat, names[..i])
  {
    WritableOfPrefix(io, cat, names, i);
    if io.writable(cat, names[i]) {
      WrittenSnoc(src, cat, WritableOf(io, cat, names[..i]), names[i]);
    }
  }

  /** The PNGs written for `names` from `src`. */
  function Written(src: ImagePath, cat: Category, names: seq<string>): (r: seq<Output>)
    ensures |r| == |names|
    ensures forall i :: 0 <= i < |names| ==> r[i] == Output(cat, names[i], src)
    decreases |names|
  {
    if names == [] then []
    else Written(src, cat, names[..|names| - 1]) + [Output(cat, names[|names| - 1], src)]
  }

  lemma WrittenSnoc(src: ImagePath, cat: Category, names: seq<string>, n: string)
    ensures Written(src, cat, names + [n]) == Written(src, cat, names) + [Output(cat, n, src)]
  {
    assert (names + [n])[..|names|] == names;
  }

  /** Every PNG written for `names` is one of them, in `cat`, from `src`. */
  lemma WrittenNames(src: ImagePath, cat: Category, names: seq<string>, o: Output)
    requires o in Written(src, cat, names)
    ensures o.name in names && o.category == cat && o.source == src
  {
  }

  // ---------------------------------------------------------------------
  // The two matching stages: one step per mapping key, in key order
  // ---------------------------------------------------------------------

  /** A stage's state after some keys, and whether an exception ended it. */
  datatype Progress = Progress(state: JobState, aborted: bool)

  /** A stage over the first `n` mapping keys: each key and its value go
      through `step`; an exception ends the stage and keeps what was done
      before it. */
  function Run(step: (JobState, string, Targets) -> Outcome<JobState>, mappings: Dict<Targets>, st: JobState, n: nat): Progress
    requires n <= |mappings.keys|
  {
    if n == 0 then Progress(st, false)
    else
      var p := Run(step, mappings, st, n - 1);
      if p.aborted then p
      else
        var key := mappings.keys[n - 1];
        match step(p.state, key, mappings.vals[key])
        case Crash => Progress(p.state, true)
        case Ok(next) => Progress(next, false)
  }

  /** Once an exception ends a stage, later keys change nothing. */
  lemma {:induction false} AbortSticks(step: (JobState, string, Targets) -> Outcome<JobState>, mappings: Dict<Targets>, st: JobState, n: nat, m: nat)
    requires n <= m <= |mappings.keys|
    requires Run(step, mappings, st, n).aborted
    ensures Run(step, mappings, st, m) == Run(step, mappings, st, n)
    decreases m - n
  {
    if n < m {
      AbortSticks(step, mappings, st, n, m - 1);
    }
  }

  /** A step that succeeds moves the stage on by one key. */
  lemma RunContinues(step: (JobState, string, Targets) -> Outcome<JobState>, mappings: Dict<Targets>, st: JobState, i: nat, s: JobState, t: JobState)
    requires i < |mappings.keys| && Run(step, mappings, st, i) == Progress(s, false)
    requires step(s, mappings.keys[i], mappings.vals[mappings.keys[i]]) == Ok(t)
    ensures Run(step, mappings, st, i + 1) == Progress(t, false)
  {
  }

  /** A step that raises ends the stage with the state before it. */
  lemma RunAborts(step: (JobState, string, Targets) -> Outcome<JobState>, mappings: Dict<Targets>, st: JobState, i: nat, s: JobState)
    requires i < |mappings.keys| && Run(step, mappings, st, i) == Progress(s, false)
    requires step(s, mappings.keys[i], mappings.vals[mappings.keys[i]]).Crash?
    ensures Run(step, mappings, st, |mappings.keys|) == Progress(s, true)
  {
    AbortSticks(step, mappings, st, i + 1, |mappings.keys|);
  }

  /** What every stage keeps: handled names, handled packages and written
      PNGs are only ever added to, and no counter goes down. */
  predicate Grows(a: JobState, b: JobState) {
    a.linuxNames <= b.linuxNames && a.packages <= b.packages && a.outputs <= b.outputs
    && a.totalMapped <= b.totalMapped
    && a.stats.xmlMatch <= b.stats.xmlMatch && a.stats.directExact <= b.stats.directExact
    && a.stats.directPrefix <= b.stats.directPrefix && a.stats.scoredMatch <= b.stats.scoredMatch
    && a.stats.failed <= b.stats.failed
  }

  /** `total_mapped` grew by exactly the number of PNGs written. */
  predicate Tallied(a: JobState, b: JobState) {
    b.totalMapped - a.totalMapped == |b.outputs| - |a.outputs|
  }

  /** Every step of `step` only adds and counts exactly what it writes. */
  ghost predicate StepGrows(step: (JobState, string, Targets) -> Outcome<JobState>) {
    forall st, key, v :: step(st, key, v).Ok? ==> Grows(st, step(st, key, v).value) && Tallied(st, step(st, key, v).value)
  }

  lemma GrowsTrans(a: JobState, b: JobState, c: JobState)
    requires Grows(a, b) && Grows(b, c)
    ensures Grows(a, c)
  {
    assert a.outputs <= c.outputs by {
      assert c.outputs[..|b.outputs|][..|a.outputs|] == c.outputs[..|a.outputs|];
    }
  }

  /** A stage whose steps only add only adds, and counts exactly what it
      writes. */
  lemma {:induction false} RunGrows(step: (JobState, string, Targets) -> Outcome<JobState>, mappings: Dict<Targets>, st: JobState, n: nat)
    requires StepGrows(step)
    requires n <= |mappings.keys|
    ensures Grows(st, Run(step, mappings, st, n).state) && Tallied(st, Run(step, mappings, st, n).state)
  {
    if n > 0 {
      RunGrows(step, mappings, st, n - 1);
      var p := Run(step, mappings, st, n - 1);
      var key := mappings.keys[n - 1];
      if !p.aborted && step(p.state, key, mappings.vals[key]).Ok? {
        GrowsTrans(st, p.state, step(p.state, key, mappings.vals[key]).value);
      }
    }
  }

  // ---------------------------------------------------------------------
  // The appfilter stage (converter.py:68-101)
  // ---------------------------------------------------------------------

  /** A key whose best appfilter candidate is `best`: a candidate that is
      an indexed image is written under every target of the key, and when
      anything was written the key and its targets count as handled and
      `XML_MATCH` goes up. */
  function FilterDeliver(io: ImageIO, job: Job, st: JobState, key: string, best: Best): JobState {
    if Picked(job, best) then
      var info := TargetInfo(key, job.mappings);
      var src := job.index.vals[best.name.value];
      var saved := Saved(io, src, info.1, info.0);
      if |saved| > 0 then
        st.(totalMapped := st.totalMapped + |saved|,
            stats := st.stats.(xmlMatch := st.stats.xmlMatch + 1),
            linuxNames := st.linuxNames + ToSet(info.0),
            packages := st.packages + {key},
            outputs := st.outputs + Written(src, info.1, saved))
      else st
    else st
  }

  /** The best candidate names an indexed image. */
  predicate Picked(job: Job, best: Best) {
    best.name.Some? && best.name.value != "" && best.name.value in job.index.vals
  }

  /** Where the appfilter stage takes a key's search terms from: the
      key's target list, or the raw mapping value as converter.py:73
      passes it. */
  datatype CriteriaFrom = FromTargetList | FromRawValue

  function StageCriteria(from: CriteriaFrom, key: string, v: Targets, synonyms: map<string, seq<string>>): seq<string> {
    match from
    case FromTargetList => FilterCriteria(key, v, synonyms)
    case FromRawValue => FilterCriteriaAsWritten(key, v, synonyms)
  }

  /** One mapping key in the appfilter stage: a key the appfilter names gets
      its best candidate under the key's criteria; a scoring exception ends
      the stage. */
  function FilterStep(io: ImageIO, job: Job, groups: Dict<seq<string>>, from: CriteriaFrom, st: JobState, key: string, v: Targets): Outcome<JobState> {
    if key == CommentKey || key !in groups.vals then Ok(st)
    else
      match Choose(groups.vals[key], ScoreAgainst(StageCriteria(from, key, v, job.synonyms)))
      case Crash => Crash
      case Ok(best) => Ok(FilterDeliver(io, job, st, key, best))
  }

  /** The appfilter stage with the criteria built from the target list. */
  function FilterStepOf(io: ImageIO, job: Job, groups: Dict<seq<string>>): (JobState, string, Targets) -> Outcome<JobState> {
    (st, key, v) => FilterStep(io, job, groups, FromTargetList, st, key, v)
  }

  /** The appfilter stage as converter.py:73 writes it, with the criteria
      built from the raw mapping value. */
  function AsWrittenFilterStepOf(io: ImageIO, job: Job, groups: Dict<seq<string>>): (JobState, string, Targets) -> Outcome<JobState> {
    (st, key, v) => FilterStep(io, job, groups, FromRawValue, st, key, v)
  }

  /** As written, the appfilter stage is abandoned at the first key the
      appfilter names that is mapped to a single name containing `-` or
      `_` and has a candidate other than `_`: it ends with the state
      reached before that key, so neither that key nor any later one is
      delivered. */
  lemma AsWrittenFilterStageAborts(io: ImageIO, job: Job, groups: Dict<seq<string>>, st: JobState, i: nat, s: JobState, name: string, candidate: string)
    requires i < |job.mappings.keys|
    requires job.mappings.keys[i] != CommentKey && job.mappings.keys[i] in groups.vals
    requires job.mappings.vals[job.mappings.keys[i]] == One(name) && ('-' in name || '_' in name)
    requires candidate in groups.vals[job.mappings.keys[i]] && CleanName(candidate) != "_"
    requires Run(AsWrittenFilterStepOf(io, job, groups), job.mappings, st, i) == Progress(s, false)
    ensures Run(AsWrittenFilterStepOf(io, job, groups), job.mappings, st, |job.mappings.keys|) == Progress(s, true)
  {
    var key := job.mappings.keys[i];
    var step := AsWrittenFilterStepOf(io, job, groups);
    AsWrittenFilterStepCrash(io, job, groups, s, key, name, candidate);
    assert step(s, key, job.mappings.vals[key]).Crash?;
    RunAborts(step, job.mappings, st, i, s);
  }

  lemma AsWrittenFilterStepCrash(io: ImageIO, job: Job, groups: Dict<seq<string>>, s: JobState, key: string, name: string, candidate: string)
    requires key != CommentKey && key in groups.vals
    requires '-' in name || '_' in name
    requires candidate in groups.vals[key] && CleanName(candidate) != "_"
    ensures FilterStep(io, job, groups, FromRawValue, s, key, One(name)).Crash?
  {
    var criteria := StageCriteria(FromRawValue, key, One(name), job.synonyms);
    assert criteria == FilterCriteriaAsWritten(key, One(name), job.synonyms);
    AsWrittenFilterCriteriaCrash(key, name, job.synonyms, candidate);
    assert ScoreAgainst(criteria)(candidate).Crash?;
    assert Choose(groups.vals[key], ScoreAgainst(criteria)).Crash?;
  }

  /** The appfilter step once the best candidate is known. */
  lemma FilterStepChosen(io: ImageIO, job: Job, groups: Dict<seq<string>>, st: JobState, key: string, v: Targets, best: Outcome<Best>)
    requires key != CommentKey && key in groups.vals
    requires best == Choose(groups.vals[key], ScoreAgainst(FilterCriteria(key, v, job.synonyms)))
    ensures FilterStepOf(io, job, groups)(st, key, v) == if best.Crash? then Crash else Ok(FilterDeliver(io, job, st, key, best.value))
  {
    var step := FilterStep(io, job, groups, FromTargetList, st, key, v);
    assert StageCriteria(FromTargetList, key, v, job.synonyms) == FilterCriteria(key, v, job.synonyms);
    if best.Crash? {
      assert step == Crash;
    } else {
      assert step == Ok(FilterDeliver(io, job, st, key, best.value));
    }
  }

  /** A key the appfilter does not name leaves the state as it is. */
  lemma FilterSkipped(io: ImageIO, job: Job, groups: Dict<seq<string>>, st: JobState, key: string, v: Targets)
    requires key == CommentKey || key !in groups.vals
    ensures FilterStepOf(io, job, groups)(st, key, v) == Ok(st)
  {
  }

  /** The appfilter selection for one key (converter.py:70-85). */
  method BestForKey(io: ImageIO, job: Job, groups: Dict<seq<string>>, ghost st: JobState, key: string, v: Targets) returns (best: Outcome<Best>)
    requires key != CommentKey && key in groups.vals
    ensures FilterStepOf(io, job, groups)(st, key, v) == if best.Crash? then Crash else Ok(FilterDeliver(io, job, st, key, best.value))
  {
    var criteria := FilterCriteria(key, v, job.synonyms);
    best := SelectBestCandidate(groups.vals[key], ScoreAgainst(criteria));
    FilterStepChosen(io, job, groups, st, key, v, best);
  }

  /** A key the appfilter stage handles -- its best candidate is an indexed
      image and at least one target could be written from it -- is marked
      handled together with all its targets, raises `XML_MATCH` by one and
      gets exactly the PNGs that could be written, in target order, in the
      key's category; any other key changes nothing. */
  lemma FilterDeliverEffects(io: ImageIO, job: Job, st: JobState, key: string, best: Best)
    ensures var next := FilterDeliver(io, job, st, key, best);
      Grows(st, next) && Tallied(st, next)
    ensures var next, info := FilterDeliver(io, job, st, key, best), TargetInfo(key, job.mappings);
      if Picked(job, best) && |Saved(io, job.index.vals[best.name.value], info.1, info.0)| > 0 then
        next != st
        && next.packages == st.packages + {key}
        && next.stats == st.stats.(xmlMatch := st.stats.xmlMatch + 1)
        && next.linuxNames == st.linuxNames + ToSet(info.0)
        && next.outputs[|st.outputs|..] == Written(job.index.vals[best.name.value], info.1, Saved(io, job.index.vals[best.name.value], info.1, info.0))
      else next == st
    ensures var next := FilterDeliver(io, job, st, key, best);
      forall o :: o in next.outputs[|st.outputs|..] ==>
        o.name in TargetInfo(key, job.mappings).0 && o.category == TargetInfo(key, job.mappings).1
  {
    var next := FilterDeliver(io, job, st, key, best);
    if next != st {
      var info := TargetInfo(key, job.mappings);
      var src := job.index.vals[best.name.value];
      var saved := Saved(io, src, info.1, info.0);
      assert next.outputs[|st.outputs|..] == Written(src, info.1, saved);
      forall o | o in next.outputs[|st.outputs|..]
        ensures o.name in info.0 && o.category == info.1
      {
        WrittenNames(src, info.1, saved, o);
      }
    }
  }

  /** The appfilter stage only adds, and counts exactly what it writes. */
  lemma FilterStepGrows(io: ImageIO, job: Job, groups: Dict<seq<string>>)
    ensures StepGrows(FilterStepOf(io, job, groups))
  {
    forall st, key, v | FilterStep(io, job, groups, FromTargetList, st, key, v).Ok?
      ensures var next := FilterStep(io, job, groups, FromTargetList, st, key, v).value;
        Grows(st, next) && Tallied(st, next)
    {
      if key != CommentKey && key in groups.vals {
        FilterDeliverEffects(io, job, st, key, Choose(groups.vals[key], ScoreAgainst(FilterCriteria(key, v, job.synonyms))).value);
      }
    }
  }

  // ---------------------------------------------------------------------
  // The fallback stage (converter.py:103-159)
  // ---------------------------------------------------------------------

  /** `[t for t in targets if t not in done]`. */
  function Missing(targets: seq<string>, done: set<string>): (r: seq<string>)
    ensures |r| <= |targets|
    ensures forall t :: t in r <==> t in targets && t !in done
  {
    if targets == [] then []
    else
      assert targets == [targets[0]] + targets[1..];
      (if targets[0] in done then [] else [targets[0]]) + Missing(targets[1..], done)
  }

  /** The counter a fallback lookup raises. */
  function Tally(s: Stats, res: Resolution): (r: Stats)
    ensures FallbackTotal(r) == FallbackTotal(s) + 1 && r.xmlMatch == s.xmlMatch
    ensures r.directExact == s.directExact + if res.Exact? then 1 else 0
    ensures r.directPrefix == s.directPrefix + if res.Prefix? then 1 else 0
    ensures r.scoredMatch == s.scoredMatch + if res.Scored? then 1 else 0
    ensures r.failed == s.failed + if res.NoMatch? then 1 else 0
  {
    match res
    case Exact(_) => s.(directExact := s.directExact + 1)
    case Prefix(_) => s.(directPrefix := s.directPrefix + 1)
    case Scored(_) => s.(scoredMatch := s.scoredMatch + 1)
    case NoMatch => s.(failed := s.failed + 1)
  }

  /** A key the tiers resolved as `res`: one counter goes up, and on a
      match its image is written under the still-missing targets, which
      then count as handled. */
  function FallbackDeliver(io: ImageIO, st: JobState, key: string, missing: seq<string>, res: Resolution): JobState {
    var counted := st.(stats := Tally(st.stats, res));
    if res.NoMatch? then counted
    else
      var saved := Saved(io, res.path, CategoryOf(key), missing);
      if |saved| > 0 then
        counted.(totalMapped := st.totalMapped + |saved|,
                 linuxNames := st.linuxNames + ToSet(missing),
                 outputs := st.outputs + Written(res.path, CategoryOf(key), saved))
      else counted
  }

  /** The search terms the fallback stage resolves a key with. */
  function FallbackCriteria(job: Job, key: string, v: Targets): seq<string> {
    GenerateCriteria(key, TargetList(v), job.synonyms)
  }

  /** One mapping key in the fallback stage. A key neither skipped nor
      fully handled is looked up through the tiers; a scoring exception is
      not caught here and ends the whole job. */
  function FallbackStep(io: ImageIO, job: Job, st: JobState, key: string, v: Targets): Outcome<JobState> {
    if key == CommentKey || key in st.packages then Ok(st)
    else
      var missing := Missing(TargetList(v), st.linuxNames);
      if missing == [] then Ok(st)
      else
        match Resolve(FallbackCriteria(job, key, v), job.index)
        case Crash => Crash
        case Ok(res) => Ok(FallbackDeliver(io, st, key, missing, res))
  }

  function FallbackStepOf(io: ImageIO, job: Job): (JobState, string, Targets) -> Outcome<JobState> {
    (st, key, v) => FallbackStep(io, job, st, key, v)
  }

  /** The fallback step once the tiers have resolved the key. */
  lemma FallbackStepResolved(io: ImageIO, job: Job, st: JobState, key: string, v: Targets, missing: seq<string>, res: Outcome<Resolution>)
    requires key != CommentKey && key !in st.packages
    requires missing == Missing(TargetList(v), st.linuxNames) && missing != []
    requires res == Resolve(FallbackCriteria(job, key, v), job.index)
    ensures FallbackStepOf(io, job)(st, key, v) == if res.Crash? then Crash else Ok(FallbackDeliver(io, st, key, missing, res.value))
  {
  }

  /** A key the fallback stage skips leaves the state as it is. */
  lemma FallbackSkipped(io: ImageIO, job: Job, st: JobState, key: string, v: Targets)
    requires key == CommentKey || key in st.packages || Missing(TargetList(v), st.linuxNames) == []
    ensures FallbackStepOf(io, job)(st, key, v) == Ok(st)
  {
  }

  /** The tier lookup for one key (converter.py:108-149). */
  method LookupForKey(io: ImageIO, job: Job, ghost st: JobState, key: string, v: Targets, missing: seq<string>) returns (res: Outcome<Resolution>)
    requires key != CommentKey && key !in st.packages
    requires missing == Missing(TargetList(v), st.linuxNames) && missing != []
    ensures FallbackStepOf(io, job)(st, key, v) == if res.Crash? then Crash else Ok(FallbackDeliver(io, st, key, missing, res.value))
  {
    res := ResolveTiers(GenerateCriteria(key, TargetList(v), job.synonyms), job.index);
    FallbackStepResolved(io, job, st, key, v, missing, res);
  }

  /** A fallback key that is looked up raises the counter of its tier,
      leaves `XML_MATCH` and the handled packages alone, and on a match
      gets exactly the PNGs that could be written from the image the tiers
      found, one per still-missing target, in the key's category; the
      missing targets count as handled when at least one was written. */
  lemma FallbackDeliverEffects(io: ImageIO, st: JobState, key: string, missing: seq<string>, res: Resolution)
    ensures var next := FallbackDeliver(io, st, key, missing, res);
      next.packages == st.packages && Grows(st, next) && Tallied(st, next)
      && next.stats == Tally(st.stats, res)
    ensures var next := FallbackDeliver(io, st, key, missing, res);
      res.NoMatch? ==> next.outputs == st.outputs && next.linuxNames == st.linuxNames
    ensures var next := FallbackDeliver(io, st, key, missing, res);
      !res.NoMatch? ==>
        var saved := Saved(io, res.path, CategoryOf(key), missing);
        next.outputs[|st.outputs|..] == Written(res.path, CategoryOf(key), saved)
        && next.linuxNames == st.linuxNames + if |saved| > 0 then ToSet(missing) else {}
    ensures var next := FallbackDeliver(io, st, key, missing, res);
      forall o :: o in next.outputs[|st.outputs|..] ==>
        o.name in missing && o.category == CategoryOf(key) && !res.NoMatch? && o.source == res.path
  {
    var next := FallbackDeliver(io, st, key, missing, res);
    if !res.NoMatch? {
      var saved := Saved(io, res.path, CategoryOf(key), missing);
      assert next.outputs[|st.outputs|..] == (if |saved| > 0 then Written(res.path, CategoryOf(key), saved) else []);
      forall o | o in next.outputs[|st.outputs|..]
        ensures o.name in missing && o.category == CategoryOf(key) && o.source == res.path
      {
        WrittenNames(res.path, CategoryOf(key), saved, o);
      }
    }
  }

  /** A skipped fallback key (the comment, a package the appfilter handled,
      or one whose targets are all handled) changes nothing; any other key
      is resolved by the tiers and raises the counter of the tier that
      resolved it, and only that one, or ends the job. */
  lemma FallbackStepCounts(io: ImageIO, job: Job, st: JobState, key: string, v: Targets)
    requires FallbackStep(io, job, st, key, v).Ok?
    ensures var next := FallbackStep(io, job, st, key, v).value;
      next.packages == st.packages && Grows(st, next) && Tallied(st, next) && next.stats.xmlMatch == st.stats.xmlMatch
    ensures var next := FallbackStep(io, job, st, key, v).value;
      if key == CommentKey || key in st.packages || Missing(TargetList(v), st.linuxNames) == []
      then next == st
      else
        var res := Resolve(FallbackCriteria(job, key, v), job.index);
        res.Ok? && next.stats == Tally(st.stats, res.value) && FallbackTotal(next.stats) == FallbackTotal(st.stats) + 1
  {
    if !(key == CommentKey || key in st.packages || Missing(TargetList(v), st.linuxNames) == []) {
      var res := Resolve(FallbackCriteria(job, key, v), job.index).value;
      FallbackDeliverEffects(io, st, key, Missing(TargetList(v), st.linuxNames), res);
    }
  }

  /** The fallback stage writes only targets of the key that were not yet
      handled, in the key's category, from the image an exact, prefix or
      scored match found. */
  lemma FallbackWritesOnlyMissing(io: ImageIO, job: Job, st: JobState, key: string, v: Targets, i: nat)
    requires FallbackStep(io, job, st, key, v).Ok?
    requires |st.outputs| <= i < |FallbackStep(io, job, st, key, v).value.outputs|
    ensures var o := FallbackStep(io, job, st, key, v).value.outputs[i];
      o.name in TargetList(v) && o.name !in st.linuxNames && o.category == CategoryOf(key)
    ensures var o := FallbackStep(io, job, st, key, v).value.outputs[i];
      var res := Resolve(FallbackCriteria(job, key, v), job.index);
      res.Ok? && !res.value.NoMatch? && res.value.path == o.source
  {
    var next := FallbackStep(io, job, st, key, v).value;
    assert key != CommentKey && key !in st.packages;
    var missing := Missing(TargetList(v), st.linuxNames);
    assert missing != [];
    var res := Resolve(FallbackCriteria(job, key, v), job.index);
    assert res.Ok? && next == FallbackDeliver(io, st, key, missing, res.value);
    FallbackDeliverEffects(io, st, key, missing, res.value);
    assert next.outputs[i] in next.outputs[|st.outputs|..];
  }

  /** The fallback stage only adds, and counts exactly what it writes. */
  lemma FallbackStepGrows(io: ImageIO, job: Job)
    ensures StepGrows(FallbackStepOf(io, job))
  {
    forall st, key, v | FallbackStep(io, job, st, key, v).Ok?
      ensures Grows(st, FallbackStep(io, job, st, key, v).value) && Tallied(st, FallbackStep(io, job, st, key, v).value)
    {
      FallbackStepCounts(io, job, st, key, v);
    }
  }

  // ---------------------------------------------------------------------
  // Collecting the remaining images (converter.py:290-301)
  // ---------------------------------------------------------------------

  /** The first `n` indexed images in index order: each one whose name is
      not yet handled and that can be opened and written is copied into
      the apps directory under its own name. The count is the number of
      copies. */
  function Collect(io: ImageIO, index: Dict<ImagePath>, st: JobState, n: nat): (JobState, nat)
    requires n <= |index.keys|
  {
    if n == 0 then (st, 0)
    else
      var (s, c) := Collect(io, index, st, n - 1);
      var name := index.keys[n - 1];
      var src := index.vals[name];
      if name !in s.linuxNames && CopiedIn(io, index, name) then
        (s.(linuxNames := s.linuxNames + {name}, outputs := s.outputs + [Output(Apps, name, src)]), c + 1)
      else (s, c)
  }

  // ---------------------------------------------------------------------
  // The whole job (converter.py:17-174)
  // ---------------------------------------------------------------------

  /** The job's final state, and whether it returned the theme root. With no
      decoded package (apktool missing or failing) nothing happens beyond
      the reset counters. The appfilter stage runs when there is an
      appfilter; an exception in the fallback stage ends the job without
      the residual collection. */
  function Convert(io: ImageIO, mappings: Dict<Targets>, synonyms: map<string, seq<string>>, apk: Option<Decoded>): (JobState, bool) {
    match apk
    case None => (Start, false)
    case Some(d) =>
      var job := Job(mappings, synonyms, Index(d.res));
      var afterFilter :=
        if d.appfilter.Some? then Run(FilterStepOf(io, job, Grouped(d.appfilter.value)), mappings, Start, |mappings.keys|).state
        else Start;
      var fallback := Run(FallbackStepOf(io, job), mappings, afterFilter, |mappings.keys|);
      if fallback.aborted then (fallback.state, false)
      else (Collect(io, job.index, fallback.state, |job.index.keys|).0, true)
  }

  // ---------------------------------------------------------------------
  // Properties of the collection and of the whole job
  // ---------------------------------------------------------------------

  lemma NamesSnoc(os: seq<Output>, o: Output)
    ensures (set x | x in os + [o] :: x.name) == (set x | x in os :: x.name) + {o.name}
  {
  }

  /** The collection copies only images whose names were not handled, into
      the apps directory under their index names, marks each copied name as
      handled, and counts its copies; nothing else changes. */
  lemma {:induction false} CollectEffects(io: ImageIO, index: Dict<ImagePath>, st: JobState, n: nat)
    requires n <= |index.keys|
    ensures var (r, count) := Collect(io, index, st, n);
      r.stats == st.stats && r.packages == st.packages && r.totalMapped == st.totalMapped
      && st.outputs <= r.outputs && count == |r.outputs| - |st.outputs|
      && r.linuxNames == st.linuxNames + (set o | o in r.outputs[|st.outputs|..] :: o.name)
    ensures var r := Collect(io, index, st, n).0;
      forall o :: o in r.outputs[|st.outputs|..] ==>
        o.category == Apps && o.name !in st.linuxNames && o.name in index.keys[..n] && o.source == index.vals[o.name]
  {
    if n > 0 {
      CollectEffects(io, index, st, n - 1);
      var (s, c) := Collect(io, index, st, n - 1);
      var name := index.keys[n - 1];
      var src := index.vals[name];
      assert index.keys[..n] == index.keys[..n - 1] + [name];
      if name !in s.linuxNames && io.decodes(src) && io.writable(Apps, name) {
        var r := Collect(io, index, st, n).0;
        assert r.outputs[|st.outputs|..] == s.outputs[|st.outputs|..] + [Output(Apps, name, src)];
        NamesSnoc(s.outputs[|st.outputs|..], Output(Apps, name, src));
      }
    }
  }

  lemma AddFresh(a: set<string>, b: set<string>, x: string)
    requires b <= a && x !in a
    ensures b <= a + {x} && |(a + {x}) - b| == |a - b| + 1
  {
    assert (a + {x}) - b == (a - b) + {x};
  }

  /** Each copy marks a name that was not handled before. */
  lemma {:induction false} CollectCount(io: ImageIO, index: Dict<ImagePath>, st: JobState, n: nat)
    requires n <= |index.keys|
    ensures st.linuxNames <= Collect(io, index, st, n).0.linuxNames
    ensures Collect(io, index, st, n).1 == |Collect(io, index, st, n).0.linuxNames - st.linuxNames|
  {
    if n > 0 {
      CollectCount(io, index, st, n - 1);
      var s := Collect(io, index, st, n - 1);
      var r := Collect(io, index, st, n);
      var name := index.keys[n - 1];
      CollectNamesStep(io, index, st, n);
      if name !in s.0.linuxNames && CopiedIn(io, index, name) {
        AddFresh(s.0.linuxNames, st.linuxNames, name);
      }
    }
  }

  predicate CopiedIn(io: ImageIO, index: Dict<ImagePath>, name: string)
    requires name in index.vals
  {
    io.decodes(index.vals[name]) && io.writable(Apps, name)
  }

  lemma CollectNamesStep(io: ImageIO, index: Dict<ImagePath>, st: JobState, n: nat)
    requires 0 < n <= |index.keys|
    ensures var s, r, name := Collect(io, index, st, n - 1), Collect(io, index, st, n), index.keys[n - 1];
      if name !in s.0.linuxNames && CopiedIn(io, index, name)
      then r.0.linuxNames == s.0.linuxNames + {name} && r.1 == s.1 + 1
      else r.0.linuxNames == s.0.linuxNames && r.1 == s.1
  {
  }

  /** After the collection every indexed name whose image opens and can be
      written is handled: no usable icon is left behind. */
  lemma {:induction false} CollectCovers(io: ImageIO, index: Dict<ImagePath>, st: JobState, n: nat, i: nat)
    requires i < n <= |index.keys|
    requires io.decodes(index.vals[index.keys[i]]) && io.writable(Apps, index.keys[i])
    ensures index.keys[i] in Collect(io, index, st, n).0.linuxNames
  {
    if i < n - 1 {
      CollectCovers(io, index, st, n - 1, i);
      CollectNamesGrow(io, index, st, n);
    }
  }

  lemma CollectNamesGrow(io: ImageIO, index: Dict<ImagePath>, st: JobState, n: nat)
    requires 0 < n <= |index.keys|
    ensures Collect(io, index, st, n - 1).0.linuxNames <= Collect(io, index, st, n).0.linuxNames
  {
  }

  /** Without a decoded package the job returns nothing, writes nothing and
      leaves all counters at zero. */
  lemma ConvertWithoutPackage(io: ImageIO, mappings: Dict<Targets>, synonyms: map<string, seq<string>>)
    ensures var (st, themeWritten) := Convert(io, mappings, synonyms, None);
      !themeWritten && st.stats == ZeroStats && st.outputs == [] && st.totalMapped == 0
  {
  }

  /** A job that returns the theme root has, besides what its matching
      stages wrote, a PNG for every indexed image that opens and can be
      written, and `total_mapped` never exceeds the number of PNGs written. */
  lemma ConvertCovers(io: ImageIO, mappings: Dict<Targets>, synonyms: map<string, seq<string>>, d: Decoded, i: nat)
    requires Convert(io, mappings, synonyms, Some(d)).1
    requires i < |Index(d.res).keys|
    requires io.decodes(Index(d.res).vals[Index(d.res).keys[i]]) && io.writable(Apps, Index(d.res).keys[i])
    ensures Index(d.res).keys[i] in Convert(io, mappings, synonyms, Some(d)).0.linuxNames
    ensures Convert(io, mappings, synonyms, Some(d)).0.totalMapped <= |Convert(io, mappings, synonyms, Some(d)).0.outputs|
  {
    var job := Job(mappings, synonyms, Index(d.res));
    var afterFilter :=
      if d.appfilter.Some? then Run(FilterStepOf(io, job, Grouped(d.appfilter.value)), mappings, Start, |mappings.keys|).state
      else Start;
    if d.appfilter.Some? {
      FilterStepGrows(io, job, Grouped(d.appfilter.value));
      RunGrows(FilterStepOf(io, job, Grouped(d.appfilter.value)), mappings, Start, |mappings.keys|);
    }
    FallbackStepGrows(io, job);
    RunGrows(FallbackStepOf(io, job), mappings, afterFilter, |mappings.keys|);
    var fallback := Run(FallbackStepOf(io, job), mappings, afterFilter, |mappings.keys|);
    CollectCovers(io, job.index, fallback.state, |job.index.keys|, i);
    CollectEffects(io, job.index, fallback.state, |job.index.keys|);
  }

  // ---------------------------------------------------------------------
  // The converter object
  // ---------------------------------------------------------------------

  /** The job state as fields updated in place; `io` is the image library. */
  class Converter {
    const io: ImageIO
    var stats: Stats
    var linuxNames: set<string>
    var packages: set<string>
    var totalMapped: nat
    var outputs: seq<Output>

    function State(): JobState
      reads this
    {
      JobState(stats, linuxNames, packages, totalMapped, outputs)
    }

    constructor(io: ImageIO)
      ensures this.io == io && State() == Start
    {
      this.io := io;
      stats := ZeroStats;
      linuxNames := {};
      packages := {};
      totalMapped := 0;
      outputs := [];
    }

    /** `save_one_source_to_many`: writes the names that can be written,
        none when the source does not open, and returns how many. */
    method SaveOneSourceToMany(src: ImagePath, cat: Category, names: seq<string>) returns (count: nat)
      modifies this`outputs
      ensures count == |Saved(io, src, cat, names)|
      ensures State() == old(State()).(outputs := old(outputs) + Written(src, cat, Saved(io, src, cat, names)))
    {
      count := 0;
      if io.decodes(src) {
        var written;
        written, count := WriteEach(io, src, cat, names);
        outputs := outputs + written;
      } else {
        assert Written(src, cat, []) == [];
      }
    }

    /** `for t in names: processed_linux_names.add(t)`. */
    method AddNames(names: seq<string>)
      modifies this
      ensures State() == old(State()).(linuxNames := old(linuxNames) + ToSet(names))
    {
      for i := 0 to |names|
        invariant State() == old(State()).(linuxNames := old(linuxNames) + ToSet(names[..i]))
      {
        assert ToSet(names[..i + 1]) == ToSet(names[..i]) + {names[i]} by {
          assert names[..i + 1] == names[..i] + [names[i]];
        }
        linuxNames := linuxNames + {names[i]};
      }
      assert names[..|names|] == names;
    }

    /** Writes the best appfilter candidate of `key` under the key's
        targets (converter.py:87-98). */
    method DeliverFilterMatch(job: Job, key: string, best: Best)
      modifies this
      ensures State() == FilterDeliver(io, job, old(State()), key, best)
    {
      var name := best.name;
      if Picked(job, best) {
        var info := TargetInfo(key, job.mappings);
        var count := SaveOneSourceToMany(job.index.vals[name.value], info.1, info.0);
        if count > 0 {
          totalMapped := totalMapped + count;
          stats := stats.(xmlMatch := stats.xmlMatch + 1);
          AddNames(info.0);
          packages := packages + {key};
        }
      }
    }

    /** Counts the tier that resolved `key` and writes the image it found
        under the missing targets (converter.py:117-159). */
    method DeliverFallbackMatch(key: string, missing: seq<string>, res: Resolution)
      modifies this
      ensures State() == FallbackDeliver(io, old(State()), key, missing, res)
    {
      stats := Tally(stats, res);
      if !res.NoMatch? {
        var success := SaveOneSourceToMany(res.path, CategoryOf(key), missing);
        if success > 0 {
          totalMapped := totalMapped + success;
          AddNames(missing);
        }
      }
    }

    /** The appfilter loop over the mapping keys (converter.py:68-101);
        `aborted` tells whether a scoring exception ended it. */
    method FilterStage(job: Job, groups: Dict<seq<string>>) returns (aborted: bool)
      modifies this
      ensures Progress(State(), aborted) == Run(FilterStepOf(io, job, groups), job.mappings, old(State()), |job.mappings.keys|)
    {
      ghost var start := State();
      var keys := job.mappings.keys;
      for i := 0 to |keys|
        invariant Run(FilterStepOf(io, job, groups), job.mappings, start, i) == Progress(State(), false)
      {
        var key := keys[i];
        ghost var before := State();
        if key == CommentKey || key !in groups.vals {
          FilterSkipped(io, job, groups, before, key, job.mappings.vals[key]);
          RunContinues(FilterStepOf(io, job, groups), job.mappings, start, i, before, before);
          continue;
        }
        var best := BestForKey(io, job, groups, before, key, job.mappings.vals[key]);
        if best.Crash? {
          RunAborts(FilterStepOf(io, job, groups), job.mappings, start, i, before);
          return true;
        }
        DeliverFilterMatch(job, key, best.value);
        RunContinues(FilterStepOf(io, job, groups), job.mappings, start, i, before, State());
      }
      return false;
    }

    /** One mapping key of the fallback stage (converter.py:104-159). */
    method FallbackKey(job: Job, key: string) returns (crashed: bool)
      requires key in job.mappings.vals
      modifies this
      ensures FallbackStepOf(io, job)(old(State()), key, job.mappings.vals[key]) == if crashed then Crash else Ok(State())
      ensures crashed ==> State() == old(State())
    {
      crashed := false;
      if key == CommentKey || key in packages {
        FallbackSkipped(io, job, State(), key, job.mappings.vals[key]);
      } else {
        var targets := TargetList(job.mappings.vals[key]);
        var missing := Missing(targets, linuxNames);
        if missing == [] {
          FallbackSkipped(io, job, State(), key, job.mappings.vals[key]);
        } else {
          var res := LookupForKey(io, job, State(), key, job.mappings.vals[key], missing);
          if res.Crash? {
            crashed := true;
          } else {
            DeliverFallbackMatch(key, missing, res.value);
          }
        }
      }
    }

    /** The fallback loop over the mapping keys (converter.py:103-159);
        `aborted` tells whether a scoring exception ended it. */
    method FallbackStage(job: Job) returns (aborted: bool)
      modifies this
      ensures Progress(State(), aborted) == Run(FallbackStepOf(io, job), job.mappings, old(State()), |job.mappings.keys|)
    {
      ghost var start := State();
      ghost var step := FallbackStepOf(io, job);
      var keys := job.mappings.keys;
      for i := 0 to |keys|
        invariant Run(step, job.mappings, start, i) == Progress(State(), false)
      {
        ghost var before := State();
        var crashed := FallbackKey(job, keys[i]);
        if crashed {
          RunAborts(step, job.mappings, start, i, before);
          return true;
        }
        RunContinues(step, job.mappings, start, i, before, State());
      }
      return false;
    }

    /** `collect_remaining_icons`: copies every indexed image whose name is
        not yet handled into the apps directory and returns how many. */
    method CollectRemainingIcons(index: Dict<ImagePath>) returns (count: nat)
      modifies this
      ensures (State(), count) == Collect(io, index, old(State()), |index.keys|)
    {
      ghost var start := State();
      count := 0;
      for i := 0 to |index.keys|
        invariant (State(), count) == Collect(io, index, start, i)
      {
        var name := index.keys[i];
        if name in linuxNames {
          continue;
        }
        var src := index.vals[name];
        if io.decodes(src) && io.writable(Apps, name) {
          outputs := outputs + [Output(Apps, name, src)];
          linuxNames := linuxNames + {name};
          count := count + 1;
        }
      }
    }

    /** `convert_apk`: resets the counters, then, given a decoded package,
        indexes its images and runs the appfilter stage (when there is an
        appfilter), the fallback stage and, unless the fallback raised, the
        residual collection. */
    method ConvertApk(mappings: Dict<Targets>, synonyms: map<string, seq<string>>, apk: Option<Decoded>) returns (themeWritten: bool)
      modifies this
      ensures (State(), themeWritten) == Convert(io, mappings, synonyms, apk)
    {
      stats := ZeroStats;
      if apk.None? {
        linuxNames, packages, totalMapped, outputs := {}, {}, 0, [];
        return false;
      }
      var index := IndexAllImages(apk.value.res);
      var job := Job(mappings, synonyms, index);
      linuxNames, packages, totalMapped, outputs := {}, {}, 0, [];
      if apk.value.appfilter.Some? {
        var groups := GroupCandidates(apk.value.appfilter.value);
        var _ := FilterStage(job, groups);
      }
      var aborted := FallbackStage(job);
      if aborted {
        return false;
      }
      var _ := CollectRemainingIcons(index);
      return true;
    }
  }
}
