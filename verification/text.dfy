/** The Python string operations the log import relies on: `in` on
    strings, `startswith`, `str.split(sep)`, `str.strip()` and
    `os.path.basename` / `os.path.join`. */
module Text {

  predicate StartsWith(s: string, prefix: string) {
    |prefix| <= |s| && s[..|prefix|] == prefix
  }

  /** sub occurs in s starting at position i. */
  predicate OccursAt(s: string, sub: string, i: int) {
    0 <= i && i + |sub| <= |s| && s[i..i + |sub|] == sub
  }

  /** Python's `sub in s`. */
  function Contains(s: string, sub: string): (b: bool)
    ensures b <==> exists i :: OccursAt(s, sub, i)
  {
    if StartsWith(s, sub) then
      assert OccursAt(s, sub, 0);
      true
    else if |s| <= |sub| then
      assert forall i :: OccursAt(s, sub, i) ==> i == 0;
      false
    else
      var b := Contains(s[1..], sub);
      assert forall i :: 1 <= i ==> (OccursAt(s, sub, i) <==> OccursAt(s[1..], sub, i - 1));
      assert forall i :: OccursAt(s[1..], sub, i) ==> OccursAt(s, sub, i + 1);
      b
  }

  /** The number of occurrences of c in s. */
  function Occurrences(s: string, c: char): nat {
    if s == [] then 0 else (if s[0] == c then 1 else 0) + Occurrences(s[1..], c)
  }

  /** Concatenation of parts with sep between them (Python's `sep.join`). */
  function Join(parts: seq<string>, sep: char): string
    requires |parts| > 0
  {
    if |parts| == 1 then parts[0] else parts[0] + [sep] + Join(parts[1..], sep)
  }

  /** Python's `s.split(sep)` for a one-character separator: empty fields
      are kept, so there is always one more field than separators. */
  function SplitOn(s: string, sep: char): (parts: seq<string>)
    ensures |parts| == Occurrences(s, sep) + 1
    ensures forall k :: 0 <= k < |parts| ==> sep !in parts[k]
  {
    if s == [] then [[]]
    else
      var rest := SplitOn(s[1..], sep);
      if s[0] == sep then [[]] + rest
      else [[s[0]] + rest[0]] + rest[1..]
  }

  /** Joining the fields with the separator gives back the text. */
  lemma {:induction false} SplitJoin(s: string, sep: char)
    ensures Join(SplitOn(s, sep), sep) == s
  {
    if s != [] {
      var rest := SplitOn(s[1..], sep);
      SplitJoin(s[1..], sep);
      var parts := SplitOn(s, sep);
      if s[0] == sep {
        assert parts[1..] == rest;
        assert [s[0]] + s[1..] == s;
      } else {
        assert parts[1..] == rest[1..];
        if |rest| > 1 {
          assert rest == [rest[0]] + rest[1..];
          assert Join(rest, sep) == rest[0] + [sep] + Join(rest[1..], sep);
        }
      }
    }
  }

  /** The first field of `s.split(sep)` is the text before the first
      separator. */
  lemma {:induction false} FirstFieldIsPrefix(s: string, sep: char)
    ensures StartsWith(s, SplitOn(s, sep)[0])
    ensures var f := SplitOn(s, sep)[0];
            |f| < |s| ==> s[|f|] == sep
  {
    if s != [] {
      FirstFieldIsPrefix(s[1..], sep);
    }
  }

  /** Text without the separator is a single field. */
  lemma {:induction false} SplitWithoutSep(s: string, sep: char)
    requires sep !in s
    ensures SplitOn(s, sep) == [s]
  {
    if s != [] {
      assert sep !in s[1..] by {
        forall k | 0 <= k < |s[1..]| ensures s[1..][k] != sep {
          assert s[1..][k] == s[k + 1];
        }
      }
      SplitWithoutSep(s[1..], sep);
      assert [s[0]] + s[1..] == s;
    }
  }

  /** Two fields without the separator, joined by it, split back into
      exactly those two fields. */
  lemma {:induction false} SplitTwo(a: string, b: string, sep: char)
    requires sep !in a && sep !in b
    ensures SplitOn(a + [sep] + b, sep) == [a, b]
  {
    var s := a + [sep] + b;
    if a == [] {
      assert s[0] == sep && s[1..] == b;
      SplitWithoutSep(b, sep);
    } else {
      assert s[0] == a[0] && s[1..] == a[1..] + [sep] + b;
      assert sep !in a[1..] by {
        forall k | 0 <= k < |a[1..]| ensures a[1..][k] != sep {
          assert a[1..][k] == a[k + 1];
        }
      }
      SplitTwo(a[1..], b, sep);
      assert [a[0]] + a[1..] == a;
    }
  }

  /** Python's `s.replace(c, r)` for a one-character pattern. */
  function Replace(s: string, c: char, r: string): (t: string)
    ensures c !in s ==> t == s
    ensures c !in r ==> c !in t
  {
    if s == [] then []
    else (if s[0] == c then r else [s[0]]) + Replace(s[1..], c, r)
  }

  /** The characters Python's `str.strip()` removes. */
  predicate IsSpace(c: char) {
    var n := c as int;
    (0x09 <= n <= 0x0D) || (0x1C <= n <= 0x20) || n == 0x85 || n == 0xA0 || n == 0x1680
    || (0x2000 <= n <= 0x200A) || n == 0x2028 || n == 0x2029 || n == 0x202F
    || n == 0x205F || n == 0x3000
  }

  function StripLeft(s: string): (r: string)
    ensures |r| <= |s|
    ensures r != [] ==> !IsSpace(r[0])
  {
    if s != [] && IsSpace(s[0]) then StripLeft(s[1..]) else s
  }

  /** `lstrip` drops only white space from the front. */
  lemma {:induction false} StripLeftShape(s: string)
    ensures var r := StripLeft(s);
            r == s[|s| - |r|..] && forall k :: 0 <= k < |s| - |r| ==> IsSpace(s[k])
  {
    if s != [] && IsSpace(s[0]) {
      StripLeftShape(s[1..]);
    }
  }

  function StripRight(s: string): (r: string)
    ensures |r| <= |s|
    ensures r != [] ==> !IsSpace(r[|r| - 1])
  {
    if s != [] && IsSpace(s[|s| - 1]) then StripRight(s[..|s| - 1]) else s
  }

  /** `rstrip` drops only white space from the back. */
  lemma {:induction false} StripRightShape(s: string)
    ensures var r := StripRight(s);
            r == s[..|r|] && forall k :: |r| <= k < |s| ==> IsSpace(s[k])
  {
    if s != [] && IsSpace(s[|s| - 1]) {
      StripRightShape(s[..|s| - 1]);
    }
  }

  /** Python's `s.strip()`. */
  function Strip(s: string): (r: string)
    ensures |r| <= |s|
    ensures r != [] ==> !IsSpace(r[0]) && !IsSpace(r[|r| - 1])
  {
    var left := StripLeft(s);
    StripRightShape(left);
    StripRight(left)
  }

  /** The stripped text is a piece of s, and it is empty exactly when s is
      all white space. */
  lemma StripShape(s: string)
    ensures exists i :: OccursAt(s, Strip(s), i)
    ensures (forall k :: 0 <= k < |s| ==> IsSpace(s[k])) <==> Strip(s) == []
  {
    var left := StripLeft(s);
    var r := StripRight(left);
    StripLeftShape(s);
    StripRightShape(left);
    assert Strip(s) == r;
    if r == [] {
      forall k | 0 <= k < |s| ensures IsSpace(s[k]) {
        if k >= |s| - |left| {
          assert s[k] == left[k - (|s| - |left|)];
        }
      }
    } else {
      assert left[0] == r[0] && s[|s| - |left|] == left[0];
    }
    assert OccursAt(s, r, |s| - |left|);
  }

  /** `os.path.basename`: the text after the last '/'. */
  function Basename(path: string): (b: string)
    ensures '/' !in b
    ensures |b| <= |path|
  {
    if path == [] || path[|path| - 1] == '/' then []
    else Basename(path[..|path| - 1]) + [path[|path| - 1]]
  }

  /** The basename is the end of the path, after a '/' unless it is the
      whole path. */
  lemma {:induction false} BasenameIsSuffix(path: string)
    ensures var b := Basename(path);
            b == path[|path| - |b|..] && (|b| < |path| ==> path[|path| - |b| - 1] == '/')
  {
    if path != [] && path[|path| - 1] != '/' {
      var init := path[..|path| - 1];
      BasenameIsSuffix(init);
      var b := Basename(init);
      assert init[|init| - |b|..] + [path[|path| - 1]] == path[|path| - |b| - 1..];
    }
  }

  /** The import directory every log path is normalised into. */
  const ImportDir: string := "/app/DroneLogImport"

  /** `os.path.join("/app/DroneLogImport", os.path.basename(path))`. */
  function NormalizedLogPath(path: string): (p: string)
    ensures StartsWith(p, ImportDir + "/")
  {
    ImportDir + "/" + Basename(path)
  }

  /** Two paths normalise to the same log path exactly when their
      basenames agree. */
  lemma NormalizedIffSameBasename(p: string, q: string)
    ensures NormalizedLogPath(p) == NormalizedLogPath(q) <==> Basename(p) == Basename(q)
  {
    var prefix := ImportDir + "/";
    if NormalizedLogPath(p) == NormalizedLogPath(q) {
      assert Basename(p) == NormalizedLogPath(p)[|prefix|..];
      assert Basename(q) == NormalizedLogPath(q)[|prefix|..];
    }
  }

  /** The basename of a path joined onto a directory is the joined name. */
  lemma {:induction false} BasenameOfJoin(dir: string, name: string)
    requires '/' !in name
    ensures Basename(dir + "/" + name) == name
  {
    if name != [] {
      var s := dir + "/" + name;
      assert s[..|s| - 1] == dir + "/" + name[..|name| - 1];
      assert s[|s| - 1] == name[|name| - 1];
      BasenameOfJoin(dir, name[..|name| - 1]);
      assert name == name[..|name| - 1] + [name[|name| - 1]];
    }
  }

  /** Normalising a path keeps its basename. */
  lemma NormalizedKeepsBasename(path: string)
    ensures Basename(NormalizedLogPath(path)) == Basename(path)
  {
    BasenameOfJoin(ImportDir, Basename(path));
  }

  /** Normalising a normalised path changes nothing. */
  lemma NormalizeIdempotent(path: string)
    ensures NormalizedLogPath(NormalizedLogPath(path)) == NormalizedLogPath(path)
  {
    NormalizedKeepsBasename(path);
  }

  /** The SQL pre-filter `substr(path, length(path) - length(base) + 1) ==
      base` (the stored path ends with base) never excludes a stored path
      whose basename is base. */
  lemma SameBasenameEndsWith(stored: string, base: string)
    requires Basename(stored) == base
    ensures |base| <= |stored| && stored[|stored| - |base|..] == base
  {
    BasenameIsSuffix(stored);
  }
}
