/** The image index of a decoded package (`index_all_images`,
    Scripts/converter.py:267-288): every `.png`/`.webp` file in a `drawable`
    folder under `res/`, keyed by its lower-cased file name without
    extension. Folders are visited unmarked ones first, then once per density
    marker their name contains, in the order mdpi, hdpi, xhdpi, xxhdpi,
    xxxhdpi, nodpi; a later visit overwrites an earlier entry with the same
    key, so denser folders win. */
module ImageIndex {
  import opened Base
  import opened Text
  import opened Dicts

  /** A directory under `res/` with its listing, `None` when it cannot be
      listed. */
  datatype Folder = Folder(name: string, files: Option<seq<string>>)

  /** The path `res/<folder>/<file>` of an indexed image; its basename is
      `file`. */
  datatype ImagePath = ImagePath(folder: string, file: string)

  const DensityMarkers: seq<string> := ["mdpi", "hdpi", "xhdpi", "xxhdpi", "xxxhdpi", "nodpi"]

  predicate IsDrawable(name: string) {
    IsSubstring("drawable", name)
  }

  /** Some density marker occurs in the folder name (as a substring, so
      `drawable-xxhdpi` holds `hdpi`, `xhdpi` and `xxhdpi`). */
  predicate HasMarker(name: string) {
    exists m :: 0 <= m < |DensityMarkers| && IsSubstring(DensityMarkers[m], name)
  }

  predicate EndsWith(s: string, suffix: string) {
    |suffix| <= |s| && s[|s| - |suffix|..] == suffix
  }

  /** The suffix test is case-sensitive: `Icon.PNG` is not indexed. */
  predicate IsImageFile(f: string) {
    EndsWith(f, ".png") || EndsWith(f, ".webp")
  }

  /** The index key of an image file: its name without extension, lower-cased. */
  function ImageKey(f: string): (k: string)
    ensures IsLowerCase(k)
  {
    LowerIsLowerCase(Root(f));
    Lower(Root(f))
  }

  /** The drawable folders without any density marker, in listing order. */
  function Unmarked(dirs: seq<Folder>): seq<Folder>
    decreases |dirs|
  {
    if dirs == [] then []
    else
      var init, f := dirs[..|dirs| - 1], dirs[|dirs| - 1];
      if IsDrawable(f.name) && !HasMarker(f.name) then Unmarked(init) + [f] else Unmarked(init)
  }

  /** The drawable folders whose name holds marker `m`, in listing order. */
  function Pass(dirs: seq<Folder>, m: nat): seq<Folder>
    requires m < |DensityMarkers|
    decreases |dirs|
  {
    if dirs == [] then []
    else
      var init, f := dirs[..|dirs| - 1], dirs[|dirs| - 1];
      if IsDrawable(f.name) && IsSubstring(DensityMarkers[m], f.name) then Pass(init, m) + [f] else Pass(init, m)
  }

  /** The passes for the first `m` markers, one after the other. */
  function PassesUpTo(dirs: seq<Folder>, m: nat): seq<Folder>
    requires m <= |DensityMarkers|
  {
    if m == 0 then [] else PassesUpTo(dirs, m - 1) + Pass(dirs, m - 1)
  }

  /** `sorted_dirs`: the unmarked drawable folders, then the pass of each
      marker in turn. */
  function VisitOrder(dirs: seq<Folder>): seq<Folder> {
    Unmarked(dirs) + PassesUpTo(dirs, |DensityMarkers|)
  }

  lemma {:induction false} UnmarkedMembers(dirs: seq<Folder>, f: Folder)
    ensures f in Unmarked(dirs) <==> f in dirs && IsDrawable(f.name) && !HasMarker(f.name)
    decreases |dirs|
  {
    if dirs != [] {
      var init := dirs[..|dirs| - 1];
      assert dirs == init + [dirs[|dirs| - 1]];
      UnmarkedMembers(init, f);
    }
  }

  lemma {:induction false} PassMembers(dirs: seq<Folder>, m: nat, f: Folder)
    requires m < |DensityMarkers|
    ensures f in Pass(dirs, m) <==> f in dirs && IsDrawable(f.name) && IsSubstring(DensityMarkers[m], f.name)
    decreases |dirs|
  {
    if dirs != [] {
      var init := dirs[..|dirs| - 1];
      assert dirs == init + [dirs[|dirs| - 1]];
      PassMembers(init, m, f);
    }
  }

  lemma {:induction false} PassesUpToMembers(dirs: seq<Folder>, m: nat, f: Folder)
    requires m <= |DensityMarkers|
    ensures f in PassesUpTo(dirs, m) ==> f in dirs && IsDrawable(f.name) && HasMarker(f.name)
    decreases m
  {
    if m > 0 {
      PassesUpToMembers(dirs, m - 1, f);
      PassMembers(dirs, m - 1, f);
    }
  }

  /** Exactly the drawable folders are visited. */
  lemma VisitOrderFolders(dirs: seq<Folder>, f: Folder)
    ensures f in VisitOrder(dirs) <==> f in dirs && IsDrawable(f.name)
  {
    UnmarkedMembers(dirs, f);
    PassesUpToMembers(dirs, |DensityMarkers|, f);
    if f in dirs && IsDrawable(f.name) && HasMarker(f.name) {
      var m :| 0 <= m < |DensityMarkers| && IsSubstring(DensityMarkers[m], f.name);
      PassesUpToHolds(dirs, f, m, |DensityMarkers|);
    }
  }

  lemma {:induction false} PassesUpToHolds(dirs: seq<Folder>, f: Folder, m: nat, n: nat)
    requires m < n <= |DensityMarkers|
    requires f in dirs && IsDrawable(f.name) && IsSubstring(DensityMarkers[m], f.name)
    ensures f in PassesUpTo(dirs, n)
    decreases n
  {
    var before, pass := PassesUpTo(dirs, n - 1), Pass(dirs, n - 1);
    assert PassesUpTo(dirs, n) == before + pass;
    if m < n - 1 {
      PassesUpToHolds(dirs, f, m, n - 1);
      assert f in before;
    } else {
      PassMembers(dirs, m, f);
      assert f in pass;
    }
  }

  /** Every unmarked folder is visited before every marked one. */
  lemma UnmarkedFirst(dirs: seq<Folder>)
    ensures var v := VisitOrder(dirs);
      forall i, j :: 0 <= i < j < |v| && HasMarker(v[i].name) ==> HasMarker(v[j].name)
  {
    var u, p := Unmarked(dirs), PassesUpTo(dirs, |DensityMarkers|);
    var v := VisitOrder(dirs);
    forall i | 0 <= i < |u|
      ensures !HasMarker(v[i].name)
    {
      assert v[i] == u[i] && u[i] in u;
      UnmarkedMembers(dirs, u[i]);
    }
    forall j | |u| <= j < |v|
      ensures HasMarker(v[j].name)
    {
      assert v[j] == p[j - |u|] && p[j - |u|] in p;
      PassesUpToMembers(dirs, |DensityMarkers|, p[j - |u|]);
    }
  }

  /** Some visit of `a` in `s` comes after every visit of `b`. */
  predicate VisitedAfter(s: seq<Folder>, a: Folder, b: Folder) {
    exists i :: 0 <= i < |s| && s[i] == a && forall j :: 0 <= j < |s| && s[j] == b ==> j < i
  }

  lemma VisitedAfterExtend(s: seq<Folder>, t: seq<Folder>, a: Folder, b: Folder)
    requires VisitedAfter(s, a, b) && b !in t
    ensures VisitedAfter(s + t, a, b)
  {
    var i :| 0 <= i < |s| && s[i] == a && forall j :: 0 <= j < |s| && s[j] == b ==> j < i;
    var st := s + t;
    assert st[i] == a;
    forall j | |s| <= j < |st|
      ensures st[j] != b
    {
      assert st[j] == t[j - |s|];
    }
    assert forall j :: 0 <= j < |s| ==> st[j] == s[j];
  }

  lemma VisitedAfterIn(s: seq<Folder>, t: seq<Folder>, a: Folder, b: Folder)
    requires a in t && b !in t
    ensures VisitedAfter(s + t, a, b)
  {
    var k :| 0 <= k < |t| && t[k] == a;
    var st := s + t;
    assert st[|s| + k] == a;
    forall j | |s| <= j < |st|
      ensures st[j] != b
    {
      assert st[j] == t[j - |s|];
    }
  }

  /** Within the first `n` passes, a folder holding marker `m < n` has a
      visit after every visit of a folder holding no marker from `m` on. */
  lemma {:induction false} LaterPassAfter(dirs: seq<Folder>, a: Folder, b: Folder, m: nat, n: nat)
    requires m < n <= |DensityMarkers|
    requires a in dirs && IsDrawable(a.name) && IsSubstring(DensityMarkers[m], a.name)
    requires forall p :: m <= p < |DensityMarkers| ==> !IsSubstring(DensityMarkers[p], b.name)
    ensures VisitedAfter(PassesUpTo(dirs, n), a, b)
    decreases n
  {
    var init, last := PassesUpTo(dirs, n - 1), Pass(dirs, n - 1);
    PassMembers(dirs, n - 1, b);
    if m == n - 1 {
      PassMembers(dirs, m, a);
      VisitedAfterIn(init, last, a, b);
    } else {
      LaterPassAfter(dirs, a, b, m, n - 1);
      VisitedAfterExtend(init, last, a, b);
    }
  }

  /** A folder holding a density marker is visited after every visit of a
      folder that holds no marker from that one on (an unmarked folder, or
      one of lower density), so its images override theirs. */
  lemma DenserFolderVisitedLater(dirs: seq<Folder>, a: Folder, b: Folder, m: nat)
    requires m < |DensityMarkers|
    requires a in dirs && IsDrawable(a.name) && IsSubstring(DensityMarkers[m], a.name)
    requires forall p :: m <= p < |DensityMarkers| ==> !IsSubstring(DensityMarkers[p], b.name)
    ensures VisitedAfter(VisitOrder(dirs), a, b)
  {
    var u, s := Unmarked(dirs), PassesUpTo(dirs, |DensityMarkers|);
    LaterPassAfter(dirs, a, b, m, |DensityMarkers|);
    var i :| 0 <= i < |s| && s[i] == a && forall j :: 0 <= j < |s| && s[j] == b ==> j < i;
    var v := u + s;
    assert v[|u| + i] == a;
    forall j | 0 <= j < |v| && v[j] == b
      ensures j < |u| + i
    {
      if j >= |u| { assert s[j - |u|] == b; }
    }
  }

  /** The index entries contributed by the files of one folder, in listing
      order. */
  function FolderEntries(folder: string, fs: seq<string>): seq<(string, ImagePath)>
    decreases |fs|
  {
    if fs == [] then []
    else
      var init, x := fs[..|fs| - 1], fs[|fs| - 1];
      FolderEntries(folder, init) + (if IsImageFile(x) then [(ImageKey(x), ImagePath(folder, x))] else [])
  }

  /** A folder contributes one entry per image file it lists, and no other. */
  lemma {:induction false} FolderEntriesMembers(folder: string, fs: seq<string>, k: string, p: ImagePath)
    ensures (k, p) in FolderEntries(folder, fs) <==> p.folder == folder && p.file in fs && IsImageFile(p.file) && ImageKey(p.file) == k
    decreases |fs|
  {
    if fs != [] {
      var init := fs[..|fs| - 1];
      assert fs == init + [fs[|fs| - 1]];
      FolderEntriesMembers(folder, init, k, p);
    }
  }

  function Listing(f: Folder): seq<string> {
    if f.files.Some? then f.files.value else []
  }

  /** The entries of the folders in visiting order. */
  function Entries(order: seq<Folder>): seq<(string, ImagePath)>
    decreases |order|
  {
    if order == [] then []
    else
      var f := order[|order| - 1];
      Entries(order[..|order| - 1]) + FolderEntries(f.name, Listing(f))
  }

  /** A file image of a listed folder in `order`. */
  predicate Provides(order: seq<Folder>, k: string, p: ImagePath) {
    exists f :: f in order && f.name == p.folder && p.file in Listing(f) && IsImageFile(p.file) && ImageKey(p.file) == k
  }

  lemma {:induction false} EntriesProvided(order: seq<Folder>, k: string, p: ImagePath)
    ensures (k, p) in Entries(order) <==> Provides(order, k, p)
    decreases |order|
  {
    if order != [] {
      var init, f := order[..|order| - 1], order[|order| - 1];
      EntriesProvided(init, k, p);
      assert order == init + [f];
      assert forall g :: g in order <==> g in init || g == f;
      FolderEntriesMembers(f.name, Listing(f), k, p);
      if Provides(order, k, p) && !Provides(init, k, p) {
        assert p.file in Listing(f) && f.name == p.folder;
      }
    }
  }

  /** `index_all_images`: no index without a listable `res/`; otherwise the
      entries assigned in visiting order. */
  function Index(res: Option<seq<Folder>>): Dict<ImagePath> {
    match res
    case None => Empty()
    case Some(dirs) => PutAll(Empty(), Entries(VisitOrder(dirs)))
  }

  /** A key is indexed exactly when some listed drawable folder holds an
      image file with that key; every key is lower-case, and its path names
      such a file. */
  lemma IndexedImages(dirs: seq<Folder>, k: string)
    ensures k in Index(Some(dirs)).vals <==> exists f, x :: f in dirs && IsDrawable(f.name) && x in Listing(f) && IsImageFile(x) && ImageKey(x) == k
    ensures k in Index(Some(dirs)).vals ==> IsLowerCase(k)
    ensures k in Index(Some(dirs)).vals ==> var p := Index(Some(dirs)).vals[k];
      Provides(VisitOrder(dirs), k, p) && IsDrawable(p.folder)
  {
    var order := VisitOrder(dirs);
    var es := Entries(order);
    var idx := Index(Some(dirs));
    PutAllKeys(Empty(), es, k);
    if k in idx.vals {
      PutAllSource(Empty(), es, k);
      var i :| 0 <= i < |es| && es[i] == (k, idx.vals[k]);
      EntriesProvided(order, k, idx.vals[k]);
      var f :| f in order && f.name == idx.vals[k].folder && idx.vals[k].file in Listing(f) && IsImageFile(idx.vals[k].file) && ImageKey(idx.vals[k].file) == k;
      VisitOrderFolders(dirs, f);
    }
    if exists f, x :: f in dirs && IsDrawable(f.name) && x in Listing(f) && IsImageFile(x) && ImageKey(x) == k {
      var f, x :| f in dirs && IsDrawable(f.name) && x in Listing(f) && IsImageFile(x) && ImageKey(x) == k;
      VisitOrderFolders(dirs, f);
      EntriesProvided(order, k, ImagePath(f.name, x));
      var i :| 0 <= i < |es| && es[i] == (k, ImagePath(f.name, x));
    }
  }

  /** The last entry with a key in visiting order decides its path. */
  lemma IndexLastWins(dirs: seq<Folder>, i: nat)
    requires i < |Entries(VisitOrder(dirs))|
    requires forall j :: i < j < |Entries(VisitOrder(dirs))| ==> Entries(VisitOrder(dirs))[j].0 != Entries(VisitOrder(dirs))[i].0
    ensures Entries(VisitOrder(dirs))[i].0 in Index(Some(dirs)).vals
    ensures Index(Some(dirs)).vals[Entries(VisitOrder(dirs))[i].0] == Entries(VisitOrder(dirs))[i].1
  {
    PutAllLastWins(Empty(), Entries(VisitOrder(dirs)), i);
  }

  /** Building `sorted_dirs` (converter.py:276-278). */
  method SortFolders(dirs: seq<Folder>) returns (sorted: seq<Folder>)
    ensures sorted == VisitOrder(dirs)
  {
    sorted := UnmarkedFolders(dirs);
    for m := 0 to |DensityMarkers|
      invariant sorted == Unmarked(dirs) + PassesUpTo(dirs, m)
    {
      var pass := MarkerPass(dirs, m);
      sorted := sorted + pass;
    }
  }

  /** The first part of `sorted_dirs` (converter.py:276). */
  method UnmarkedFolders(dirs: seq<Folder>) returns (folders: seq<Folder>)
    ensures folders == Unmarked(dirs)
  {
    folders := [];
    for i := 0 to |dirs|
      invariant folders == Unmarked(dirs[..i])
    {
      assert dirs[..i + 1][..i] == dirs[..i];
      if IsDrawable(dirs[i].name) && !HasMarker(dirs[i].name) {
        folders := folders + [dirs[i]];
      }
    }
    assert dirs[..|dirs|] == dirs;
  }

  /** The folders one marker adds to `sorted_dirs` (converter.py:278). */
  method MarkerPass(dirs: seq<Folder>, m: nat) returns (pass: seq<Folder>)
    requires m < |DensityMarkers|
    ensures pass == Pass(dirs, m)
  {
    pass := [];
    for i := 0 to |dirs|
      invariant pass == Pass(dirs[..i], m)
    {
      assert dirs[..i + 1][..i] == dirs[..i];
      if IsDrawable(dirs[i].name) && IsSubstring(DensityMarkers[m], dirs[i].name) {
        pass := pass + [dirs[i]];
      }
    }
    assert dirs[..|dirs|] == dirs;
  }

  lemma FolderEntriesSnoc(folder: string, fs: seq<string>, j: nat)
    requires j < |fs|
    ensures FolderEntries(folder, fs[..j + 1])
      == FolderEntries(folder, fs[..j]) + (if IsImageFile(fs[j]) then [(ImageKey(fs[j]), ImagePath(folder, fs[j]))] else [])
  {
    assert fs[..j + 1][..j] == fs[..j];
  }

  lemma EntriesSnoc(order: seq<Folder>, i: nat)
    requires i < |order|
    ensures Entries(order[..i + 1]) == Entries(order[..i]) + FolderEntries(order[i].name, Listing(order[i]))
  {
    assert order[..i + 1][..i] == order[..i];
  }

  /** An image file's entry is assigned after those of the files before it. */
  lemma IndexImageStep(files: Dict<ImagePath>, folder: string, fs: seq<string>, j: nat)
    requires j < |fs| && IsImageFile(fs[j])
    ensures PutAll(files, FolderEntries(folder, fs[..j + 1]))
      == Put(PutAll(files, FolderEntries(folder, fs[..j])), ImageKey(fs[j]), ImagePath(folder, fs[j]))
  {
    var before := FolderEntries(folder, fs[..j]);
    FolderEntriesSnoc(folder, fs, j);
    assert FolderEntries(folder, fs[..j + 1]) == before + [(ImageKey(fs[j]), ImagePath(folder, fs[j]))];
    PutAllSnoc(files, before, ImageKey(fs[j]), ImagePath(folder, fs[j]));
  }

  /** Any other file leaves the index as it is. */
  lemma IndexOtherStep(files: Dict<ImagePath>, folder: string, fs: seq<string>, j: nat)
    requires j < |fs| && !IsImageFile(fs[j])
    ensures PutAll(files, FolderEntries(folder, fs[..j + 1])) == PutAll(files, FolderEntries(folder, fs[..j]))
  {
    var before := FolderEntries(folder, fs[..j]);
    FolderEntriesSnoc(folder, fs, j);
    assert before + [] == before;
    assert FolderEntries(folder, fs[..j + 1]) == before;
  }

  /** Indexing the files of one folder (converter.py:283-286). */
  method IndexFolder(files: Dict<ImagePath>, folder: string, fs: seq<string>) returns (updated: Dict<ImagePath>)
    ensures updated == PutAll(files, FolderEntries(folder, fs))
  {
    updated := files;
    for j := 0 to |fs|
      invariant updated == PutAll(files, FolderEntries(folder, fs[..j]))
    {
      var f := fs[j];
      if IsImageFile(f) {
        IndexImageStep(files, folder, fs, j);
        updated := Put(updated, ImageKey(f), ImagePath(folder, f));
      } else {
        IndexOtherStep(files, folder, fs, j);
      }
    }
    assert fs[..|fs|] == fs;
  }

  /** `index_all_images` (converter.py:267-288). */
  method IndexAllImages(res: Option<seq<Folder>>) returns (files: Dict<ImagePath>)
    ensures files == Index(res)
  {
    files := Empty();
    if res.None? {
      return;
    }
    var sorted := SortFolders(res.value);
    for i := 0 to |sorted|
      invariant files == PutAll(Empty(), Entries(sorted[..i]))
    {
      var folder := sorted[i];
      EntriesSnoc(sorted, i);
      PutAllConcat(Empty(), Entries(sorted[..i]), FolderEntries(folder.name, Listing(folder)));
      if folder.files.Some? {
        files := IndexFolder(files, folder.name, folder.files.value);
      }
    }
    assert sorted[..|sorted|] == sorted;
  }
}
