/** `sanitize_name` (main.py:8-12): the theme name derived from an APK file
    name. The directory and the final extension are dropped, every character
    outside ASCII letters and digits becomes `_`, runs of `_` shrink to one,
    and `_` is stripped from both ends. */
module Sanitize {
  import opened Text

  predicate IsAsciiAlnum(c: char) {
    'a' <= c <= 'z' || 'A' <= c <= 'Z' || '0' <= c <= '9'
  }

  predicate IsUnderscore(c: char) {
    c == '_'
  }

  /** `re.sub(r'[^a-zA-Z0-9]', '_', s)`. */
  function Substitute(s: string): (r: string)
    ensures |r| == |s|
    ensures forall i :: 0 <= i < |s| ==> r[i] == if IsAsciiAlnum(s[i]) then s[i] else '_'
    decreases |s|
  {
    if s == [] then []
    else
      var c := s[|s| - 1];
      Substitute(s[..|s| - 1]) + [if IsAsciiAlnum(c) then c else '_']
  }

  /** `re.sub(r'_+', '_', s)`. */
  function Collapse(s: string): (r: string)
    ensures |r| <= |s| && (r == [] <==> s == [])
    ensures s != [] ==> r[|r| - 1] == s[|s| - 1]
    ensures forall c :: c in r ==> c in s
    decreases |s|
  {
    if s == [] then []
    else
      var c := Collapse(s[..|s| - 1]);
      var last := s[|s| - 1];
      if last == '_' && c != [] && c[|c| - 1] == '_' then c else c + [last]
  }

  /** The name without directory and extension, before cleaning. */
  function Stem(filename: string): string {
    Root(Basename(filename))
  }

  /** The cleaning applied to the stem. */
  function Clean(stem: string): string {
    Trim(Collapse(Substitute(stem)), IsUnderscore)
  }

  /** `sanitize_name(filename)`. */
  function SanitizeName(filename: string): string {
    Clean(Stem(filename))
  }

  // ---------------------------------------------------------------------
  // The shape of a sanitized name
  // ---------------------------------------------------------------------

  predicate NoDoubleUnderscore(s: string) {
    forall i :: 0 <= i < |s| - 1 ==> !(s[i] == '_' && s[i + 1] == '_')
  }

  predicate NameChars(s: string) {
    forall c :: c in s ==> IsAsciiAlnum(c) || c == '_'
  }

  predicate Sanitized(s: string) {
    NameChars(s) && NoDoubleUnderscore(s)
    && (s != [] ==> s[0] != '_' && s[|s| - 1] != '_')
  }

  /** The ASCII letters and digits of a name, in order. */
  function Alnums(s: string): string
    decreases |s|
  {
    if s == [] then []
    else Alnums(s[..|s| - 1]) + (if IsAsciiAlnum(s[|s| - 1]) then [s[|s| - 1]] else [])
  }

  lemma {:induction false} AlnumsConcat(a: string, b: string)
    ensures Alnums(a + b) == Alnums(a) + Alnums(b)
    decreases |b|
  {
    if b != [] {
      AlnumsConcat(a, b[..|b| - 1]);
      assert (a + b)[..|a + b| - 1] == a + b[..|b| - 1];
    } else {
      assert a + b == a;
    }
  }

  lemma {:induction false} SubstituteKeepsAlnums(s: string)
    ensures Alnums(Substitute(s)) == Alnums(s)
    decreases |s|
  {
    if s != [] {
      SubstituteKeepsAlnums(s[..|s| - 1]);
      var r := Substitute(s);
      assert r[..|r| - 1] == Substitute(s[..|s| - 1]);
    }
  }

  lemma {:induction false} CollapseKeepsAlnums(s: string)
    ensures Alnums(Collapse(s)) == Alnums(s)
    decreases |s|
  {
    if s != [] {
      var init := s[..|s| - 1];
      CollapseKeepsAlnums(init);
      var c := Collapse(init);
      var last := s[|s| - 1];
      if !(last == '_' && c != [] && c[|c| - 1] == '_') {
        assert (c + [last])[..|c|] == c;
      }
    }
  }

  /** Collapsing leaves no two underscores side by side. */
  lemma {:induction false} CollapseNoDouble(s: string)
    ensures NoDoubleUnderscore(Collapse(s))
    decreases |s|
  {
    if s != [] {
      CollapseNoDouble(s[..|s| - 1]);
    }
  }

  lemma {:induction false} CollapseFixed(s: string)
    requires NoDoubleUnderscore(s)
    ensures Collapse(s) == s
    decreases |s|
  {
    if s != [] {
      var init := s[..|s| - 1];
      assert NoDoubleUnderscore(init);
      CollapseFixed(init);
      if |s| >= 2 {
        assert !(s[|s| - 2] == '_' && s[|s| - 1] == '_');
      }
    }
  }

  lemma {:induction false} TrimStartKeepsAlnums(s: string)
    ensures Alnums(TrimStart(s, IsUnderscore)) == Alnums(s)
    decreases |s|
  {
    if s != [] && IsUnderscore(s[0]) {
      TrimStartKeepsAlnums(s[1..]);
      AlnumsConcat([s[0]], s[1..]);
      assert [s[0]] + s[1..] == s;
      assert Alnums([s[0]]) == Alnums([]) + [];
    }
  }

  lemma {:induction false} TrimEndKeepsAlnums(s: string)
    ensures Alnums(TrimEnd(s, IsUnderscore)) == Alnums(s)
    decreases |s|
  {
    if s != [] && IsUnderscore(s[|s| - 1]) {
      TrimEndKeepsAlnums(s[..|s| - 1]);
    }
  }

  /** What trimming keeps is a contiguous part of its input. */
  lemma TrimIsSlice(s: string)
    ensures exists a, b :: 0 <= a <= b <= |s| && Trim(s, IsUnderscore) == s[a..b]
  {
    var r := Trim(s, IsUnderscore);
    var a :| SliceAmidJunk(s, r, a, IsUnderscore);
    assert r == s[a..a + |r|];
  }

  lemma SliceNoDouble(s: string, a: nat, b: nat)
    requires a <= b <= |s| && NoDoubleUnderscore(s)
    ensures NoDoubleUnderscore(s[a..b])
  {
    forall i | 0 <= i < b - a - 1
      ensures !(s[a..b][i] == '_' && s[a..b][i + 1] == '_')
    {
      assert s[a..b][i] == s[a + i] && s[a..b][i + 1] == s[a + i + 1];
    }
  }

  lemma SliceNameChars(s: string, a: nat, b: nat)
    requires a <= b <= |s| && NameChars(s)
    ensures NameChars(s[a..b])
  {
    forall c | c in s[a..b]
      ensures IsAsciiAlnum(c) || c == '_'
    {
      var i :| 0 <= i < b - a && s[a..b][i] == c;
      assert s[a + i] == c;
    }
  }

  /** Trimming a string of name characters without double underscores
      gives a sanitized string. */
  lemma TrimSanitizes(col: string)
    requires NameChars(col) && NoDoubleUnderscore(col)
    ensures Sanitized(Trim(col, IsUnderscore))
  {
    TrimIsSlice(col);
    var a, b :| 0 <= a <= b <= |col| && Trim(col, IsUnderscore) == col[a..b];
    SliceNoDouble(col, a, b);
    SliceNameChars(col, a, b);
  }

  lemma SubstituteNameChars(s: string)
    ensures NameChars(Substitute(s))
  {
    var r := Substitute(s);
    forall c | c in r
      ensures IsAsciiAlnum(c) || c == '_'
    {
      var i :| 0 <= i < |r| && r[i] == c;
    }
  }

  /** Whatever the file name, the theme name consists of ASCII letters,
      digits and single underscores, and neither starts nor ends with an
      underscore. */
  lemma SanitizedShape(filename: string)
    ensures Sanitized(SanitizeName(filename))
  {
    var sub := Substitute(Stem(filename));
    SubstituteNameChars(Stem(filename));
    CollapseNoDouble(sub);
    TrimSanitizes(Collapse(sub));
  }

  /** The theme name holds exactly the ASCII letters and digits of the
      file's stem, in order: only separators are changed or dropped. */
  lemma SanitizedAlnums(filename: string)
    ensures Alnums(SanitizeName(filename)) == Alnums(Stem(filename))
  {
    var sub := Substitute(Stem(filename));
    var col := Collapse(sub);
    SubstituteKeepsAlnums(Stem(filename));
    CollapseKeepsAlnums(sub);
    TrimStartKeepsAlnums(col);
    TrimEndKeepsAlnums(TrimStart(col, IsUnderscore));
  }

  /** A name already in sanitized form and without directory or extension
      comes out unchanged. */
  lemma SanitizedFixed(s: string)
    requires Sanitized(s)
    ensures SanitizeName(s) == s
  {
    assert '/' !in s && '.' !in s by {
      assert !IsAsciiAlnum('/') && !IsAsciiAlnum('.');
    }
    assert Basename(s) == s;
    RootWithoutDot(s);
    SubstituteFixed(s);
    CollapseFixed(s);
    TrimUntouched(s);
  }

  lemma SubstituteFixed(s: string)
    requires NameChars(s)
    ensures Substitute(s) == s
  {
    var r := Substitute(s);
    forall i | 0 <= i < |s|
      ensures r[i] == s[i]
    {
      assert s[i] in s;
    }
  }

  lemma TrimUntouched(s: string)
    requires s != [] ==> s[0] != '_' && s[|s| - 1] != '_'
    ensures Trim(s, IsUnderscore) == s
  {
    assert TrimStart(s, IsUnderscore) == s;
    assert TrimEnd(s, IsUnderscore) == s;
  }

  /** Sanitizing twice gives the same name as sanitizing once. */
  lemma SanitizeIdempotent(filename: string)
    ensures SanitizeName(SanitizeName(filename)) == SanitizeName(filename)
  {
    SanitizedShape(filename);
    SanitizedFixed(SanitizeName(filename));
  }

  /** Only the last path component's stem matters: the directory and a
      final extension do not change the name. */
  lemma DirectoryAndExtensionIgnored(dir: string, stem: string, ext: string)
    requires '/' !in stem && '/' !in ext && '.' !in ext
    requires exists k :: 0 <= k < |stem| && stem[k] != '.'
    ensures SanitizeName(dir + "/" + stem + "." + ext) == Clean(stem)
  {
    assert dir + "/" + stem + "." + ext == dir + "/" + (stem + "." + ext);
    BasenameAfterSlash(dir, stem + "." + ext);
    assert '/' !in stem + "." + ext;
    RootOfExtension(stem, ext);
  }
}
