# IconBridge conversion core in Dafny

IconBridge turns an Android icon-pack APK into a freedesktop icon theme.
`convert_apk` decodes the package and indexes every `.png`/`.webp` image in
its `drawable` folders. Denser folders override lighter ones.

It then maps the packages named in a JSON mapping file onto Linux icon
names, in two stages:

- The appfilter stage reads the pack's `assets/appfilter.xml`, groups its
  drawable names per package, and picks the best-scoring candidate for
  each mapped package.
- The fallback stage handles keys the appfilter did not. It tries an exact
  name, then an icon-prefixed name, then the best-scoring indexed image
  with a score of at least 50.

Finally every indexed image not yet used is copied under its own name.
Next to the converter, `sanitize_name` derives a theme name from the APK
file name. The mapping-file hook `merge_duplicates` combines the values of
repeated JSON keys.

The model is organised by the program's structure:

- `Base`: `Option`, and `Outcome` (a value or a raised exception).
- `Text`: the Python string built-ins used.
- `Dicts`: insertion-ordered dictionaries.
- `Scoring`: `calculate_file_score`.
- `Criteria`: `generate_criteria`, `get_target_info`.
- `FilterMatch`: `parse_component`, the appfilter grouping and candidate
  selection.
- `ImageIndex`: `index_all_images`.
- `Tiers`: the three fallback tiers.
- `Conversion`: the job, the stages, the residual collection and the class
  `Converter`, whose fields are the job's bookkeeping updated in place.
- `Sanitize`: `sanitize_name`.
- `MergeMappings`: `merge_duplicates`.

The loops of `convert_apk`, `index_all_images`,
`collect_remaining_icons`, `save_one_source_to_many`, the appfilter
grouping and selection, the fallback tiers and `merge_duplicates` are
methods, each proved equal to a specification function. The properties
are proved about those functions. The accumulator loops of the scorer
(`calculate_file_score`) and of `generate_criteria`, and the list
comprehension that picks the missing targets, are functions.

A Python exception is `Outcome.Crash`. The only one the core can raise
comes from the scorer: the acronym of a term with an empty `_`/`-` part
takes the first character of an empty string. In the appfilter stage it
is caught at converter.py:101, and the stage ends keeping what it did. In
the fallback stage it reaches converter.py:168, so the job returns `None`
without the residual collection.

## Model

| member | source | states |
|---|---|---|
| Text.Lower | Scripts/converter.py:205 | lower-casing keeps the length |
| Text.LowerIsLowerCase | Scripts/converter.py:285 | a lower-cased name has no upper-case letter, and lower-casing a lower-case name changes nothing |
| Text.ReplaceChar | Scripts/converter.py:181 | replacing one character by another keeps the length and removes every occurrence of the replaced character |
| Text.ReplaceAllAbsent | Scripts/converter.py:207-208 | removing a prefix that does not occur leaves the name unchanged |
| Text.IsSubstring | Scripts/converter.py:234 | a substring is never longer than the string it occurs in |
| Text.Split | Scripts/converter.py:182 | splitting gives at least one part, and more than one exactly when the separator occurs |
| Text.SplitParts | Scripts/converter.py:220 | no part of a split holds the separator, and every character of a part comes from the input |
| Text.Basename | Scripts/converter.py:60 | the basename holds no `/`, and a name without `/` is its own basename |
| Text.BasenameAfterSlash | main.py:9 | the basename of `dir/name` is the basename of `name` |
| Text.Root | main.py:9 | the extension-less root is a prefix of the path |
| Text.RootOfExtension | main.py:9 | `stem.ext` loses exactly its final extension |
| Text.RootWithoutDot | main.py:9 | a name without a dot has no extension to lose |
| Text.TrimStart | main.py:11 | the result is a suffix of the input that does not start with a stripped character, and every removed character is a stripped one |
| Text.TrimEnd | main.py:11 | the result is a prefix of the input that does not end with a stripped character, and every removed character is a stripped one |
| Text.Trim | Scripts/converter.py:60 | a stripped result neither starts nor ends with a stripped character, and is a slice of the input outside which lie only stripped characters |
| Dicts.Empty | Scripts/converter.py:268 | the empty dictionary has no keys |
| Dicts.Put | Scripts/converter.py:286 | assignment sets the value; a new key is appended to the iteration order and an existing key keeps its place |
| Dicts.PutAllKeys | Scripts/converter.py:280-286 | after a sequence of assignments a key is present exactly when it was before or some assignment names it |
| Dicts.PutAllSource | Scripts/converter.py:280-286 | every value present after the assignments is the old value or one that was assigned |
| Dicts.PutAllLastWins | Scripts/converter.py:280-286 | the last assignment to a key decides its value |
| Scoring.Tokens | Scripts/converter.py:220 | a name always has at least one token |
| Scoring.TokensUndelimited | Scripts/converter.py:220 | no token holds `_` or `-` |
| Scoring.TokensConcat | Scripts/converter.py:220 | the tokens of `x_y` are the tokens of `x` followed by those of `y` |
| Scoring.Initials | Scripts/converter.py:227 | the acronym has one letter per part |
| Scoring.Percent | Scripts/converter.py:235-236 | the ratio score lies between 0 and 100 |
| Scoring.TermScore | Scripts/converter.py:212-238 | a term scores at most 1000, exactly 1000 only when it equals the cleaned name, and raises exactly when it is neither the name nor one of its tokens and has an empty part |
| Scoring.BestTermScore | Scripts/converter.py:210-240 | the best term score is between 0 and 1000, is 1000 exactly when some lower-cased term equals the name, and raises exactly when some term raises |
| Scoring.FileScore | Scripts/converter.py:203-240 | a file's score is between 0 and 1000, is 1000 exactly when some lower-cased term equals the cleaned file name, and raises exactly when scoring some term raises |
| Scoring.AppendedTokensLowerScore | Scripts/converter.py:221-223 | appending tokens after a whole-token match strictly lowers the score |
| Scoring.PrependedTokensLowerScore | Scripts/converter.py:221-223 | prepending tokens before a whole-token match strictly lowers the score |
| Scoring.SubstringTierScore | Scripts/converter.py:234-237 | an inner occurrence scores floor(100 * \|w\| / \|name\|) - 10, always below 90, and reaches 50 exactly when the term covers at least 60% of the name |
| Criteria.KeyTerms | Scripts/converter.py:180-188 | a dotted key gives the key with underscores for dots, then its last segment unless that segment is generic; an undotted key gives itself |
| Criteria.TargetTerm | Scripts/converter.py:197-198 | a target's term holds no hyphen and no dot |
| Criteria.TargetTerms | Scripts/converter.py:196-199 | one term per target, in target order |
| Criteria.GenerateCriteria | Scripts/converter.py:176-201 | the key terms come first, then the key's synonyms in order (none without an entry), then the key without `resource_` exactly when it starts with `resource_`, and last one term per target in target order; the length rules out any other term |
| Criteria.CriteriaShape | Scripts/converter.py:180-199 | the first term has no dot, the second is the last segment of a dotted key unless generic, and no target term holds a hyphen or dot |
| Criteria.UndottedTargetTerm | Scripts/converter.py:197-198 | an undotted target's term is the target with hyphens turned into underscores |
| Criteria.TargetInfo | Scripts/converter.py:242-248 | a mapped key yields its target list, with `places` exactly for a `resource_folder` key; an unmapped key yields no targets and `apps` |
| FilterMatch.ResourceNameOfReference | Scripts/converter.py:60 | `@drawable/name` yields the stripped name |
| FilterMatch.ParseComponent | Scripts/converter.py:303-307 | the package name never holds a `/` |
| FilterMatch.ParseComponentInfo | Scripts/converter.py:305 | `ComponentInfo{pkg/activity}` yields `pkg` |
| FilterMatch.ParsePlainPackage | Scripts/converter.py:305 | a bare package name passes through unchanged |
| FilterMatch.GroupedPackages | Scripts/converter.py:55-67 | the candidate table holds a package exactly when a usable item names it, and its list is non-empty and duplicate-free |
| FilterMatch.GroupedNames | Scripts/converter.py:55-67 | a package's candidate list holds exactly the resource names usable items give for it |
| FilterMatch.GroupedOrder | Scripts/converter.py:55-67 | a package's candidate list is the resource names usable items give for it, in item order, each kept at its first occurrence |
| FilterMatch.InsertThenAppend | Scripts/converter.py:63-67 | inserting an empty list and then appending a missing name is one assignment of the extended list |
| FilterMatch.GroupCandidates | Scripts/converter.py:53-67 | the grouping loop builds the candidate table `Grouped(items)` |
| FilterMatch.ScoreAgainst | Scripts/converter.py:79 | the file scorer never yields a negative score |
| FilterMatch.Choose | Scripts/converter.py:75-87 | the selection raises exactly when some candidate's score raises; otherwise it picks a candidate whose score no other candidate exceeds, or nothing for an empty list |
| FilterMatch.ChooseTieBreak | Scripts/converter.py:78-87 | with a positive best score the choice is the first of the shortest best-scoring candidates; when all score 0 it is the first candidate |
| FilterMatch.SelectBestCandidate | Scripts/converter.py:75-87 | the selection loop computes `Choose` |
| FilterMatch.IteratedTargets | Scripts/converter.py:73 | iterating a single-name value yields its characters; a list yields its names |
| FilterMatch.TermOfDelimiter | Scripts/converter.py:197 | a lone `-` or `_` becomes the term `_` |
| FilterMatch.UnderscoreHasEmptyPart | Scripts/converter.py:226-227 | the term `_` has two empty parts |
| FilterMatch.UnderscoreTermRaises | Scripts/converter.py:216-227 | the term `_` raises against every cleaned name except `_` |
| FilterMatch.AsWrittenUnderscoreTerm | Scripts/converter.py:73 | as written, a single target holding `-` or `_` puts the term `_` into the criteria |
| FilterMatch.AsWrittenFilterCriteriaCrash | Scripts/converter.py:73 | as written, such a target makes scoring any candidate other than `_` raise |
| FilterMatch.FilterCriteriaOneTermPerName | Scripts/converter.py:107-111 | with the target list a single name gives the same criteria as a one-element list, ends with the name with `_` for `-`, and scores without raising |
| ImageIndex.ImageKey | Scripts/converter.py:285 | an index key is lower-case |
| ImageIndex.UnmarkedMembers | Scripts/converter.py:276 | the first pass holds exactly the drawable folders without a density marker |
| ImageIndex.PassMembers | Scripts/converter.py:278 | a marker's pass holds exactly the drawable folders whose name contains it |
| ImageIndex.PassesUpToMembers | Scripts/converter.py:277-278 | the marker passes hold only drawable folders with a marker |
| ImageIndex.VisitOrderFolders | Scripts/converter.py:276-278 | exactly the drawable folders are visited |
| ImageIndex.UnmarkedFirst | Scripts/converter.py:276-278 | every unmarked folder is visited before every marked one |
| ImageIndex.DenserFolderVisitedLater | Scripts/converter.py:271-286 | a folder with a marker is visited after every visit of a folder without that marker or a denser one, so its images win |
| ImageIndex.FolderEntriesMembers | Scripts/converter.py:283-286 | a folder contributes one entry per `.png`/`.webp` file it lists, keyed by the lower-cased stem, and no other |
| ImageIndex.EntriesProvided | Scripts/converter.py:280-286 | an entry is produced exactly when a visited, listed folder holds that image file |
| ImageIndex.IndexedImages | Scripts/converter.py:267-288 | a key is indexed exactly when a listed drawable folder holds an image file with that key; keys are lower-case and map to such a file |
| ImageIndex.IndexLastWins | Scripts/converter.py:280-286 | the last entry for a key in visiting order decides its path |
| ImageIndex.SortFolders | Scripts/converter.py:276-278 | the loop builds the visiting order |
| ImageIndex.IndexFolder | Scripts/converter.py:283-286 | the loop assigns one folder's entries in listing order |
| ImageIndex.IndexAllImages | Scripts/converter.py:267-288 | the method computes the index `Index(res)`, which is empty without a listable `res` |
| Tiers.ExactMatch | Scripts/converter.py:114-120 | an exact match exists exactly when some lower-cased term is indexed, and it is that term's path |
| Tiers.ExactMatchFirst | Scripts/converter.py:114-120 | the exact tier takes the first matching term |
| Tiers.PrefixMatchFor | Scripts/converter.py:124-130 | a term matches under some icon prefix exactly when some prefix plus the term is indexed |
| Tiers.PrefixMatch | Scripts/converter.py:121-131 | a prefix match exists exactly when some icon prefix plus some term (not lower-cased) is indexed, and it is that name's path |
| Tiers.ScanFiles | Scripts/converter.py:133-144 | the scan raises exactly when some file's score raises; otherwise its score is the maximum of all file scores, 0 exactly when nothing was chosen, and a positive best is the path of a file with that score |
| Tiers.ScanTieBreak | Scripts/converter.py:135-143 | a positive best is held by the image of some name with that score, and no later name with the same score has a key shorter than that image's file name with extension |
| Tiers.ScanLaterTieWins | Scripts/converter.py:135-143 | of two keys `ab` and `cd` with the same score, the later `cd.png` is kept, since the key `cd` is shorter than `ab.png` |
| Tiers.ScoredMatch | Scripts/converter.py:133-149 | the scored tier yields a path exactly when the best score reaches 50, and that path is the scan's best |
| Tiers.ScoredMatchBest | Scripts/converter.py:133-149 | a scored match is the image of an indexed name scoring at least 50 and no less than any other indexed name |
| Tiers.Resolve | Scripts/converter.py:111-149 | exact beats prefix beats scored; scoring raises only when no direct tier matched; a scored match has a file scoring at least 50, and no match means every file scores below 50 |
| Tiers.ResolveScoredBest | Scripts/converter.py:133-149 | a scored resolution is the image of an indexed name scoring at least 50 and no less than any other indexed name |
| Tiers.FindExact | Scripts/converter.py:114-120 | the loop computes `ExactMatch` |
| Tiers.PrefixMatchFirst | Scripts/converter.py:121-131 | the prefix tier returns the image of the first term that matches under any prefix, under the first prefix that matches it |
| Tiers.FindPrefix | Scripts/converter.py:121-131 | the nested loops compute `PrefixMatch` |
| Tiers.ScanIndex | Scripts/converter.py:135-144 | the scan loop computes `ScanFiles` over the whole index |
| Tiers.FindScored | Scripts/converter.py:133-149 | the method computes `ScoredMatch` |
| Tiers.ResolveTiers | Scripts/converter.py:111-149 | the method computes `Resolve` |
| Conversion.WritableOf | Scripts/converter.py:258-263 | the names written are exactly those that can be written |
| Conversion.Saved | Scripts/converter.py:250-265 | nothing is written when the source does not open; otherwise exactly the writable target names |
| Conversion.Written | Scripts/converter.py:258-262 | one PNG per name, in the category, from the source |
| Conversion.WrittenNames | Scripts/converter.py:258-262 | every PNG written is named after a target, in the category, from the source |
| Conversion.AbortSticks | Scripts/converter.py:101-102 | once an exception ends a stage, later keys change nothing |
| Conversion.RunContinues | Scripts/converter.py:68-99 | a key that is handled without an exception moves the stage on by one key |
| Conversion.RunAborts | Scripts/converter.py:101-102 | an exception ends the stage with the state before the failing key |
| Conversion.AsWrittenFilterStepCrash | Scripts/converter.py:71-79 | with the criteria built from the raw value, a key mapped to one name holding `-` or `_` whose candidates include one other than `_` raises |
| Conversion.AsWrittenFilterStageAborts | Scripts/converter.py:68-102 | as written, the appfilter stage reaching such a key ends there with the state it had before the key |
| Conversion.RunGrows | Scripts/converter.py:68-159 | a stage only adds names, packages and PNGs, lowers none of `XML_MATCH`, `DIRECT_EXACT`, `DIRECT_PREFIX`, `SCORED_MATCH` and `FAILED`, and raises `total_mapped` by exactly the PNGs it writes |
| Conversion.FilterStepChosen | Scripts/converter.py:71-99 | the appfilter step is the delivery of the chosen candidate, or an exception |
| Conversion.BestForKey | Scripts/converter.py:71-87 | the selection for a key yields the candidate the appfilter step delivers |
| Conversion.FilterDeliverEffects | Scripts/converter.py:89-99 | the state changes exactly when the best candidate is an indexed image and some target could be written from it; then the key and all its targets are handled, only `XML_MATCH` goes up, by one, and the new PNGs are exactly the writable targets in order, in the key's category |
| Conversion.FilterStepGrows | Scripts/converter.py:68-99 | the appfilter step only adds and counts exactly what it writes |
| Conversion.Missing | Scripts/converter.py:108 | the missing targets are exactly the targets not yet handled |
| Conversion.Tally | Scripts/converter.py:116-159 | a lookup raises by one `DIRECT_EXACT` on an exact match, `DIRECT_PREFIX` on a prefix match, `SCORED_MATCH` on a scored match or `FAILED` on no match, and leaves every other counter as it was |
| Conversion.FallbackStepResolved | Scripts/converter.py:104-159 | the fallback step is the delivery of the tiers' result, or an exception |
| Conversion.LookupForKey | Scripts/converter.py:111-149 | the lookup for a key yields the resolution the fallback step delivers |
| Conversion.FallbackDeliverEffects | Scripts/converter.py:150-159 | a looked-up key raises the counter of its tier and leaves the handled packages alone; with no match nothing is written; on a match the new PNGs are exactly the writable missing targets in order, from the image found, in the key's category, and the missing targets become handled exactly when one was written |
| Conversion.FallbackStepCounts | Scripts/converter.py:105-159 | a skipped key changes nothing; any other key is resolved by the tiers and its counters are those of `Tally` for that resolution |
| Conversion.FallbackWritesOnlyMissing | Scripts/converter.py:150-157 | the fallback writes only unhandled targets of the key, in its category, from the image an exact, prefix or scored match found |
| Conversion.FilterSkipped | Scripts/converter.py:68-71 | the comment key and a key the appfilter does not name leave the state unchanged |
| Conversion.FallbackSkipped | Scripts/converter.py:104-109 | the comment key, a package the appfilter handled, and a key whose targets are all handled leave the state unchanged |
| Conversion.FallbackStepGrows | Scripts/converter.py:104-159 | the fallback step only adds and counts exactly what it writes |
| Conversion.CollectEffects | Scripts/converter.py:290-301 | the collection copies only unhandled names into `apps` from their indexed image, marks each handled, counts its copies and changes nothing else |
| Conversion.CollectCount | Scripts/converter.py:290-301 | the returned count is the number of names the collection newly marks handled |
| Conversion.CollectCovers | Scripts/converter.py:290-301 | afterwards every indexed name whose image opens and can be written is handled |
| Conversion.ConvertWithoutPackage | Scripts/converter.py:20-22 | without a decoded package the job returns nothing, writes nothing and leaves the counters at zero |
| Conversion.ConvertCovers | Scripts/converter.py:17-174 | a job that returns the theme has handled every usable indexed image, and `total_mapped` never exceeds the PNGs written |
| Conversion.Converter.constructor | Scripts/converter.py:9-15 | a new converter starts with zero counters and nothing handled or written |
| Conversion.Converter.SaveOneSourceToMany | Scripts/converter.py:250-265 | returns the number of names written and appends exactly those PNGs |
| Conversion.WriteEach | Scripts/converter.py:258-263 | once the source has opened, the PNGs of the loop are exactly one per writable name, in order, and the count is their number |
| Conversion.Converter.AddNames | Scripts/converter.py:98 | adds the targets to the handled names and changes nothing else |
| Conversion.Converter.DeliverFilterMatch | Scripts/converter.py:89-99 | the new state is `FilterDeliver` of the old |
| Conversion.Converter.DeliverFallbackMatch | Scripts/converter.py:150-159 | the new state is `FallbackDeliver` of the old |
| Conversion.Converter.FilterStage | Scripts/converter.py:68-102 | the loop's final state and abort flag are the appfilter stage `Run` over all keys |
| Conversion.Converter.FallbackKey | Scripts/converter.py:104-159 | one key of the loop does what the fallback step does, and an exception leaves the fields as they were |
| Conversion.Converter.FallbackStage | Scripts/converter.py:104-159 | the loop's final state and abort flag are the fallback stage `Run` over all keys |
| Conversion.Converter.CollectRemainingIcons | Scripts/converter.py:290-301 | the loop's final state and count are `Collect` over the whole index |
| Conversion.Converter.ConvertApk | Scripts/converter.py:17-174 | the job's final state and whether it returned the theme root are `Convert` of its inputs |
| MergeMappings.Combine | Config/mergemappings.py:7-13 | a repeated key's value becomes a list: an old list gets the new items (or the new scalar) appended, and an old scalar is paired with the newcomer |
| MergeMappings.MergeDuplicates | Config/mergemappings.py:4-16 | the loop computes the fold `Merge` |
| MergeMappings.MergedValue | Config/mergemappings.py:4-16 | a key is present exactly when some member has it, with `Expected` of all its values in file order |
| MergeMappings.MergedKeys | Config/mergemappings.py:4-16 | the keys come out once each, in order of first occurrence |
| MergeMappings.UniqueKeyKept | Config/mergemappings.py:14-15 | a key given once keeps its value |
| MergeMappings.AllListsConcatenated | Config/mergemappings.py:9-10 | when every value of a key is a list, the result is one list of all their items in order |
| MergeMappings.ScalarThenListNests | Config/mergemappings.py:12-13 | a scalar followed by a list gives a two-element list whose second element is the whole list |
| Sanitize.Substitute | main.py:10 | every character outside ASCII letters and digits becomes `_`, the rest stay |
| Sanitize.Collapse | main.py:11 | collapsing never lengthens, keeps the last character and adds no new character |
| Sanitize.SubstituteNameChars | main.py:10 | after substitution only letters, digits and `_` remain |
| Sanitize.SubstituteKeepsAlnums | main.py:10 | substitution keeps the letters and digits in order |
| Sanitize.CollapseKeepsAlnums | main.py:11 | collapsing keeps the letters and digits in order |
| Sanitize.CollapseNoDouble | main.py:11 | after collapsing no two underscores are adjacent |
| Sanitize.CollapseFixed | main.py:11 | a name without adjacent underscores is not changed by collapsing |
| Sanitize.TrimStartKeepsAlnums | main.py:11 | stripping leading underscores keeps the letters and digits |
| Sanitize.TrimEndKeepsAlnums | main.py:11 | stripping trailing underscores keeps the letters and digits |
| Sanitize.TrimSanitizes | main.py:11 | stripping underscores from a collapsed name gives a sanitized name |
| Sanitize.SanitizedShape | main.py:8-12 | the theme name holds only ASCII letters, digits and single underscores, and does not start or end with `_` |
| Sanitize.SanitizedAlnums | main.py:8-12 | the theme name keeps exactly the letters and digits of the file's stem, in order |
| Sanitize.SanitizedFixed | main.py:8-12 | a sanitized name without directory or extension comes out unchanged |
| Sanitize.SanitizeIdempotent | main.py:8-12 | sanitizing twice equals sanitizing once |
| Sanitize.DirectoryAndExtensionIgnored | main.py:9 | the directory and the final extension do not affect the theme name |

Where the code and its documentation differ, the model follows the code:

- Each icon prefix is removed everywhere in the file name, not only at its
  start.
- The image suffix test is case-sensitive, so `Icon.PNG` is not indexed.
- An appfilter best candidate scoring 0 still counts as found.
- The fallback scan's tie-break compares the index key's length with the
  length of the current best's file name including its extension. So of
  two keys with the same best score and the same length, the later one
  wins (`Tiers.ScanLaterTieWins`), where the appfilter selection keeps the
  first.
- The prefix tier does not lower-case the terms.
- `merge_duplicates` nests a list that follows a scalar for the same key
  instead of flattening it.

## Left out

- Decoding the APK with apktool, the `shutil.which` test and the subprocess
  are not modelled. The decoded package is an input, and `None` stands for
  apktool being absent or failing.
- The image library (PIL) is an oracle `ImageIO`. It says whether a source
  opens and whether a PNG can be written. The same oracle serves the
  converting open in `save_one_source_to_many` and the plain open in
  `collect_remaining_icons`. Pixel data and colour modes are not modelled.
- File system paths, `makedirs`, listing failures other than a missing
  `res` or an unlistable folder, and the temporary directory's removal are
  not modelled. The written PNGs are a list of (category, name, source)
  records.
- `generate_index_theme`, the printed messages and the returned theme path
  are not modelled. The job reports only whether it returned the theme
  root.
- XML parsing is not modelled. The appfilter is the list of its `<item>`
  attributes, or `None` when the file is absent or does not parse.
- `str.lower` is modelled on ASCII letters only, with no Unicode case
  mapping.
- Scoring.Percent: `int(100 * ratio)` is an exact floor of the fraction.
  Floating-point rounding is not modelled.
- Mapping values are a single name or a list of names. Other JSON types,
  and synonyms that are not a list of names, are not modelled.
- The `except` branch of `parse_component` is not modelled. It is
  unreachable for the string attributes it receives.
- `MergeMappings.Json` distinguishes only lists from other values.
  `merge_duplicates` extends the stored list in place, which would also
  change a list shared with another key. That aliasing is not modelled.
  Reading and writing `mappings.json` is not modelled.
- `install_theme`, argument parsing and the rest of `main.py`, `src/main.py`
  and `src/window.py` are not part of this model.
- Conversion.FilterStepOf, which the job runs, builds the criteria from the
  target list (see Findings). The stage as written is
  `AsWrittenFilterStepOf`; its abort is proved, and the job does not run it.

## Findings

| source | as written | input that shows it | evidently intended | confidence | as-written member | corrected member |
|---|---|---|---|---|---|---|
| Scripts/converter.py:73 | the appfilter stage passes the raw mapping value to `generate_criteria`, so a value that is a single name is iterated character by character, one term per character | a key mapped to the single name `my-app` whose package appears in appfilter.xml with a candidate other than `_`: the `-` becomes the term `_`, its acronym split has empty parts, `p[0]` raises and the whole appfilter stage is abandoned | build the criteria from the target list, as the fallback stage does at :107 and :111 | high, not executed | Conversion.AsWrittenFilterStageAborts | FilterMatch.FilterCriteriaOneTermPerName |
