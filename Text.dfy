/** The Python `str` operations the converter relies on, over `string`
    (a sequence of `char`). Each function mirrors one built-in: `str.lower`
    (ASCII letters only), `str.replace`, `str.split` with a one-character
    separator, the `in` substring test, `str.strip`, `os.path.basename` and
    the root half of `os.path.splitext`. */
module Text {

  /** `str.lower()` on one character, for the ASCII letters. */
  function LowerChar(c: char): char {
    if 'A' <= c <= 'Z' then (c as int + 32) as char else c
  }

  function Lower(s: string): (r: string)
    ensures |r| == |s|
  {
    seq(|s|, i requires 0 <= i < |s| => LowerChar(s[i]))
  }

  /** `"_".lower()` is `"_"`. */
  lemma LowerUnderscore()
    ensures Lower("_") == "_"
  {
    assert Lower("_")[0] == LowerChar('_');
  }

  predicate IsLowerCase(s: string) {
    forall i :: 0 <= i < |s| ==> !('A' <= s[i] <= 'Z')
  }

  lemma LowerIsLowerCase(s: string)
    ensures IsLowerCase(Lower(s))
    ensures IsLowerCase(s) ==> Lower(s) == s
  {
  }

  /** `s.replace(a, b)` for a one-character `a` and `b`. */
  function ReplaceChar(s: string, a: char, b: char): (r: string)
    ensures |r| == |s|
    ensures a != b ==> a !in r
    ensures forall c :: c in r && c != b ==> c in s
  {
    var r := seq(|s|, i requires 0 <= i < |s| => if s[i] == a then b else s[i]);
    assert forall c :: c in r && c != b ==> c in s by {
      forall c | c in r && c != b ensures c in s {
        var i :| 0 <= i < |r| && r[i] == c;
        assert s[i] == c;
      }
    }
    r
  }

  lemma ReplaceCharConcat(x: string, y: string, a: char, b: char)
    ensures ReplaceChar(x + y, a, b) == ReplaceChar(x, a, b) + ReplaceChar(y, a, b)
  {
  }

  /** The substring test `w in s`. */
  predicate IsSubstring(w: string, s: string)
    ensures IsSubstring(w, s) ==> |w| <= |s|
    decreases |s|
  {
    w <= s || (s != [] && IsSubstring(w, s[1..]))
  }

  lemma {:induction false} SubstringInside(a: string, w: string, b: string)
    ensures IsSubstring(w, a + w + b)
    decreases |a|
  {
    if a == [] {
      assert a + w + b == w + b;
    } else {
      assert (a + w + b)[1..] == a[1..] + w + b;
      SubstringInside(a[1..], w, b);
    }
  }

  /** Every character of a substring occurs in the string. */
  lemma {:induction false} SubstringChars(w: string, s: string, c: char)
    requires IsSubstring(w, s) && c in w
    ensures c in s
    decreases |s|
  {
    if w <= s {
      var i :| 0 <= i < |w| && w[i] == c;
      assert s[i] == c;
    } else {
      SubstringChars(w, s[1..], c);
      var j :| 0 <= j < |s[1..]| && s[1..][j] == c;
      assert s[j + 1] == c;
    }
  }

  /** `s.replace(pat, rep)`: every non-overlapping occurrence of `pat`,
      scanning from the left, is replaced by `rep`. */
  function ReplaceAll(s: string, pat: string, rep: string): string
    requires pat != []
    decreases |s|
  {
    if |s| < |pat| then s
    else if pat <= s then rep + ReplaceAll(s[|pat|..], pat, rep)
    else [s[0]] + ReplaceAll(s[1..], pat, rep)
  }

  /** A pattern that does not occur leaves the string as it is. */
  lemma {:induction false} ReplaceAllAbsent(s: string, pat: string, rep: string)
    requires pat != [] && !IsSubstring(pat, s)
    ensures ReplaceAll(s, pat, rep) == s
    decreases |s|
  {
    if |s| >= |pat| {
      ReplaceAllAbsent(s[1..], pat, rep);
    }
  }

  /** A pattern missing one of its characters from `s` does not occur in it. */
  lemma ReplaceAllMissingChar(s: string, pat: string, rep: string, c: char)
    requires pat != [] && c in pat && c !in s
    ensures ReplaceAll(s, pat, rep) == s
  {
    if IsSubstring(pat, s) {
      SubstringChars(pat, s, c);
    }
    ReplaceAllAbsent(s, pat, rep);
  }

  lemma ReplaceAllLeading(pat: string, s: string, rep: string)
    requires pat != []
    ensures ReplaceAll(pat + s, pat, rep) == rep + ReplaceAll(s, pat, rep)
  {
    assert pat <= pat + s;
    assert (pat + s)[|pat|..] == s;
  }

  /** No occurrence of `pat` straddles a character `c` that `pat` lacks, so
      the replacement works on the two sides of `c` independently. */
  lemma {:induction false} ReplaceAllAround(a: string, c: char, b: string, pat: string, rep: string)
    requires pat != [] && c !in pat
    ensures ReplaceAll(a + [c] + b, pat, rep) == ReplaceAll(a, pat, rep) + [c] + ReplaceAll(b, pat, rep)
    decreases |a|
  {
    var s := a + [c] + b;
    if |s| < |pat| {
      ReplaceAllShort(a, pat, rep);
      ReplaceAllShort(b, pat, rep);
    } else if pat <= s {
      PrefixBeforeChar(pat, a, c, b);
      assert s[|pat|..] == a[|pat|..] + [c] + b;
      ReplaceAllAround(a[|pat|..], c, b, pat, rep);
    } else if a == [] {
      assert s[1..] == b;
    } else {
      assert s[1..] == a[1..] + [c] + b;
      ReplaceAllAround(a[1..], c, b, pat, rep);
      ReplaceAllFirstChar(a, s, pat, rep);
    }
  }

  lemma PrefixBeforeChar(pat: string, a: string, c: char, b: string)
    requires c !in pat && pat <= a + [c] + b
    ensures pat <= a
  {
    var s := a + [c] + b;
    assert s[|a|] == c;
    assert c !in s[..|pat|];
    assert a[..|pat|] == s[..|pat|];
  }

  /** When `s` extends `a` and does not start with `pat`, the replacement
      keeps the first character of `a`. */
  lemma ReplaceAllFirstChar(a: string, s: string, pat: string, rep: string)
    requires pat != [] && a != [] && a <= s && |s| >= |pat| && !(pat <= s)
    ensures ReplaceAll(a, pat, rep) == [a[0]] + ReplaceAll(a[1..], pat, rep)
  {
    if |a| >= |pat| {
      assert a[..|pat|] == s[..|pat|];
    } else {
      ReplaceAllShort(a, pat, rep);
      ReplaceAllShort(a[1..], pat, rep);
    }
  }

  /** Removing a one-character pattern from `a` followed by that character,
      where `a` lacks it, gives back `a`. */
  lemma {:induction false} ReplaceAllTrailingChar(a: string, c: char)
    ensures c !in a ==> ReplaceAll(a + [c], [c], []) == a
    decreases |a|
  {
    if c !in a {
      var s := a + [c];
      if a == [] {
        assert [c] <= s && s[1..] == [];
      } else {
        assert s[0] == a[0];
        assert s[1..] == a[1..] + [c];
        ReplaceAllTrailingChar(a[1..], c);
        assert a == [a[0]] + a[1..];
      }
    }
  }

  lemma ReplaceAllShort(s: string, pat: string, rep: string)
    requires pat != [] && |s| < |pat|
    ensures ReplaceAll(s, pat, rep) == s
  {
  }

  /** `s.split(sep)` for a one-character separator: always at least one part,
      no part holds the separator, and there is more than one part exactly
      when the separator occurs. */
  function Split(s: string, sep: char): (parts: seq<string>)
    ensures |parts| >= 1
    ensures |parts| == 1 <==> sep !in s
    ensures sep !in s ==> parts == [s]
    decreases |s|
  {
    if s == [] then [[]]
    else
      var rest := Split(s[1..], sep);
      if s[0] == sep then [[]] + rest
      else
        assert sep !in s ==> [s[0]] + s[1..] == s;
        [[s[0]] + rest[0]] + rest[1..]
  }

  /** No part holds the separator, and every character of a part comes from
      the split string. */
  lemma {:induction false} SplitParts(s: string, sep: char)
    ensures forall i :: 0 <= i < |Split(s, sep)| ==> sep !in Split(s, sep)[i]
    ensures forall i, c :: 0 <= i < |Split(s, sep)| && c in Split(s, sep)[i] ==> c in s
    decreases |s|
  {
    if s != [] {
      SplitParts(s[1..], sep);
      var parts, rest := Split(s, sep), Split(s[1..], sep);
      assert s == [s[0]] + s[1..];
      forall i, c | 0 <= i < |parts| && c in parts[i] ensures c in s {
        if s[0] == sep {
          assert i > 0 && parts[i] == rest[i - 1];
          assert c in s[1..];
        } else if i == 0 {
          assert c == s[0] || c in rest[0];
          assert c == s[0] || c in s[1..];
        } else {
          assert parts[i] == rest[i];
          assert c in s[1..];
        }
      }
    }
  }

  /** `sep.join(parts)`. */
  function Join(parts: seq<string>, sep: char): string {
    if |parts| == 0 then []
    else if |parts| == 1 then parts[0]
    else parts[0] + [sep] + Join(parts[1..], sep)
  }

  /** Splitting and joining on the same separator gives the string back. */
  lemma {:induction false} JoinSplit(s: string, sep: char)
    ensures Join(Split(s, sep), sep) == s
    decreases |s|
  {
    if s != [] {
      var rest := Split(s[1..], sep);
      JoinSplit(s[1..], sep);
      if s[0] == sep {
        assert Split(s, sep) == [[]] + rest;
        assert ([[]] + rest)[1..] == rest;
      } else {
        var parts := Split(s, sep);
        assert parts == [[s[0]] + rest[0]] + rest[1..];
        if |rest| > 1 {
          assert parts[1..] == rest[1..];
        }
      }
    }
  }

  /** How `Split` adds a leading character to the parts of the rest: a
      separator starts a new first part, any other character joins the
      first part. */
  function Push(c: char, sep: char, parts: seq<string>): seq<string>
    requires |parts| >= 1
  {
    if c == sep then [[]] + parts else [[c] + parts[0]] + parts[1..]
  }

  lemma PushConcat(c: char, sep: char, a: seq<string>, b: seq<string>)
    requires |a| >= 1
    ensures Push(c, sep, a + b) == Push(c, sep, a) + b
  {
    if c != sep {
      assert (a + b)[0] == a[0] && (a + b)[1..] == a[1..] + b;
    }
  }

  lemma SplitCons(c: char, t: string, sep: char)
    ensures Split([c] + t, sep) == Push(c, sep, Split(t, sep))
  {
    assert ([c] + t)[1..] == t;
  }

  /** Splitting at a separator placed between two strings splits each side. */
  lemma {:induction false} SplitConcat(x: string, y: string, sep: char)
    ensures Split(x + [sep] + y, sep) == Split(x, sep) + Split(y, sep)
    decreases |x|
  {
    if x == [] {
      assert x + [sep] + y == [sep] + y;
      SplitCons(sep, y, sep);
    } else {
      var t := x[1..] + [sep] + y;
      SplitConcat(x[1..], y, sep);
      assert x + [sep] + y == [x[0]] + t;
      SplitCons(x[0], t, sep);
      assert x == [x[0]] + x[1..];
      SplitCons(x[0], x[1..], sep);
      PushConcat(x[0], sep, Split(x[1..], sep), Split(y, sep));
    }
  }

  function Last<T>(s: seq<T>): T
    requires |s| > 0
  {
    s[|s| - 1]
  }

  /** `os.path.basename(p)`: the text after the last `/`. */
  function Basename(p: string): (r: string)
    ensures '/' !in r
    ensures '/' !in p ==> r == p
  {
    SplitParts(p, '/');
    Last(Split(p, '/'))
  }

  lemma BasenameAfterSlash(dir: string, name: string)
    ensures Basename(dir + "/" + name) == Basename(name)
  {
    assert dir + "/" + name == dir + ['/'] + name;
    SplitConcat(dir, name, '/');
  }

  /** Index of the last occurrence of `c` in `s`, or -1. */
  function LastIndexOf(s: string, c: char): (k: int)
    ensures -1 <= k < |s|
    ensures k >= 0 ==> s[k] == c
    ensures forall j :: k < j < |s| ==> s[j] != c
    decreases |s|
  {
    if s == [] then -1
    else if s[|s| - 1] == c then |s| - 1
    else LastIndexOf(s[..|s| - 1], c)
  }

  /** `os.path.splitext(p)[0]`: `p` without its final extension. The last dot
      starts an extension only when it lies after the last `/` and some
      character other than a dot precedes it in the final component, so
      `.png` and `..png` have no extension. */
  function Root(p: string): (r: string)
    ensures |r| <= |p| && r <= p
  {
    var sepIndex := LastIndexOf(p, '/');
    var dotIndex := LastIndexOf(p, '.');
    if dotIndex > sepIndex && exists k :: sepIndex < k < dotIndex && p[k] != '.'
    then p[..dotIndex]
    else p
  }

  lemma RootOfExtension(stem: string, ext: string)
    requires '/' !in stem && '/' !in ext && '.' !in ext
    requires exists k :: 0 <= k < |stem| && stem[k] != '.'
    ensures Root(stem + "." + ext) == stem
  {
    var p := stem + "." + ext;
    assert p[|stem|] == '.';
    assert forall j :: |stem| < j < |p| ==> p[j] != '.' by {
      forall j | |stem| < j < |p| ensures p[j] != '.' {
        assert p[j] == ext[j - |stem| - 1];
      }
    }
    assert LastIndexOf(p, '.') == |stem|;
    assert forall j :: 0 <= j < |p| ==> p[j] != '/' by {
      forall j | 0 <= j < |p| ensures p[j] != '/' {
        if j < |stem| { assert p[j] == stem[j]; }
        else if j > |stem| { assert p[j] == ext[j - |stem| - 1]; }
      }
    }
    assert LastIndexOf(p, '/') == -1;
    var k :| 0 <= k < |stem| && stem[k] != '.';
    assert p[k] != '.';
    assert p[..|stem|] == stem;
  }

  lemma RootWithoutDot(p: string)
    requires '.' !in p
    ensures Root(p) == p
  {
  }

  /** The characters `str.isspace()` accepts. */
  predicate IsSpace(c: char) {
    c == ' ' || '\t' <= c <= '\r' || '\U{1C}' <= c <= '\U{1F}'
    || c == '\U{85}' || c == '\U{A0}' || c == '\U{1680}'
    || '\U{2000}' <= c <= '\U{200A}' || c == '\U{2028}' || c == '\U{2029}'
    || c == '\U{202F}' || c == '\U{205F}' || c == '\U{3000}'
  }

  /** Drops leading characters that `junk` accepts. */
  function TrimStart(s: string, junk: char -> bool): (r: string)
    ensures r == [] || !junk(r[0])
    ensures |r| <= |s| && r == s[|s| - |r|..]
    ensures forall i :: 0 <= i < |s| - |r| ==> junk(s[i])
    decreases |s|
  {
    if s != [] && junk(s[0]) then
      var r := TrimStart(s[1..], junk);
      assert forall i :: 1 <= i < |s| - |r| ==> s[i] == s[1..][i - 1];
      r
    else s
  }

  /** Drops trailing characters that `junk` accepts. */
  function TrimEnd(s: string, junk: char -> bool): (r: string)
    ensures r == [] || !junk(r[|r| - 1])
    ensures r <= s
    ensures forall i :: |r| <= i < |s| ==> junk(s[i])
    decreases |s|
  {
    if s != [] && junk(s[|s| - 1]) then TrimEnd(s[..|s| - 1], junk) else s
  }

  /** `r` is the slice of `s` starting at `a`, and only characters `junk`
      accepts lie outside it. */
  predicate SliceAmidJunk(s: string, r: string, a: int, junk: char -> bool) {
    0 <= a <= |s| - |r| && r == s[a..a + |r|]
    && (forall i :: 0 <= i < a ==> junk(s[i])) && (forall i :: a + |r| <= i < |s| ==> junk(s[i]))
  }

  /** A prefix `r` of a suffix `t` of `s`, each cut from junk, is a slice of
      `s` amid junk. */
  lemma PrefixOfSuffixAmidJunk(s: string, t: string, r: string, junk: char -> bool)
    requires |t| <= |s| && t == s[|s| - |t|..] && forall i :: 0 <= i < |s| - |t| ==> junk(s[i])
    requires r <= t && forall i :: |r| <= i < |t| ==> junk(t[i])
    ensures SliceAmidJunk(s, r, |s| - |t|, junk)
  {
    var a := |s| - |t|;
    forall i | 0 <= i < |r|
      ensures r[i] == s[a + i]
    {
      assert r[i] == t[i];
    }
    forall i | a + |r| <= i < |s|
      ensures junk(s[i])
    {
      assert s[i] == t[i - a];
    }
  }

  /** `s.strip(chars)`: both ends trimmed. */
  function Trim(s: string, junk: char -> bool): (r: string)
    ensures r == [] || (!junk(r[0]) && !junk(r[|r| - 1]))
    ensures exists a :: SliceAmidJunk(s, r, a, junk)
  {
    TrimBoth(s, junk);
    TrimEnd(TrimStart(s, junk), junk)
  }

  /** Trimming the end of what trimming the start left keeps a slice of `s`
      amid junk whose ends are not junk. */
  lemma {:induction false} TrimBoth(s: string, junk: char -> bool)
    ensures var r := TrimEnd(TrimStart(s, junk), junk);
      (r == [] || (!junk(r[0]) && !junk(r[|r| - 1]))) && SliceAmidJunk(s, r, |s| - |TrimStart(s, junk)|, junk)
  {
    var t := TrimStart(s, junk);
    var r := TrimEnd(t, junk);
    assert r != [] ==> r[0] == t[0];
    PrefixOfSuffixAmidJunk(s, t, r, junk);
  }

  /** `s.strip()` with no argument. */
  function StripSpace(s: string): string {
    Trim(s, IsSpace)
  }
}
