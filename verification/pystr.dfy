/**
 * The handful of Python string operations the pipeline relies on, written out:
 * `str.strip()`, `str.split(sep)`, `sep.join(...)`, `startswith`, `endswith`,
 * the substring test `sub in s`, `str.lower()`, `str.capitalize()` and
 * `os.path.join` (POSIX flavour, two arguments).
 */
module PyStr {
  import opened Wrappers

  /** The characters `str.isspace()` accepts; `str.strip()` removes exactly these. */
  predicate IsSpace(c: char) {
    var n := c as int;
    n == 0x20 || 0x09 <= n <= 0x0d || 0x1c <= n <= 0x1f || n == 0x85 || n == 0xa0 ||
    n == 0x1680 || 0x2000 <= n <= 0x200a || n == 0x2028 || n == 0x2029 ||
    n == 0x202f || n == 0x205f || n == 0x3000
  }

  /** `s.lstrip()` */
  function LStrip(s: string): (r: string)
    ensures |r| <= |s| && forall k :: 0 <= k < |r| ==> r[k] == s[|s| - |r| + k]
    ensures r == [] || !IsSpace(r[0])
    ensures forall k :: 0 <= k < |s| - |r| ==> IsSpace(s[k])
  {
    if s != [] && IsSpace(s[0]) then
      var r := LStrip(s[1..]);
      assert forall k :: 0 <= k < |r| ==> r[k] == s[|s| - |r| + k] by {
        forall k | 0 <= k < |r| ensures r[k] == s[|s| - |r| + k] {
          assert s[1..][|s| - 1 - |r| + k] == s[|s| - |r| + k];
        }
      }
      assert forall k :: 0 <= k < |s| - |r| ==> IsSpace(s[k]) by {
        forall k | 0 <= k < |s| - |r| ensures IsSpace(s[k]) {
          if k > 0 { assert s[k] == s[1..][k - 1]; }
        }
      }
      r
    else s
  }

  /** `s.rstrip()` */
  function RStrip(s: string): (r: string)
    ensures |r| <= |s| && forall k :: 0 <= k < |r| ==> r[k] == s[k]
    ensures r == [] || !IsSpace(r[|r| - 1])
    ensures forall k :: |r| <= k < |s| ==> IsSpace(s[k])
  {
    if s != [] && IsSpace(s[|s| - 1]) then
      var r := RStrip(s[..|s| - 1]);
      assert forall k :: 0 <= k < |r| ==> r[k] == s[k] by {
        forall k | 0 <= k < |r| ensures r[k] == s[k] {
          assert s[..|s| - 1][k] == s[k];
        }
      }
      assert forall k :: |r| <= k < |s| ==> IsSpace(s[k]) by {
        forall k | |r| <= k < |s| ensures IsSpace(s[k]) {
          if k < |s| - 1 { assert s[k] == s[..|s| - 1][k]; }
        }
      }
      r
    else s
  }

  /** `s.strip()`: neither starting nor ending with white space. */
  function Strip(s: string): (r: string)
    ensures |r| <= |s|
    ensures r == [] || (!IsSpace(r[0]) && !IsSpace(r[|r| - 1]))
  {
    var l := LStrip(s);
    var r := RStrip(l);
    assert r == [] || r[0] == l[0];
    r
  }

  /** What `strip` removes is white space at the two ends of `s` and nothing else. */
  lemma StripIsSlice(s: string)
    ensures exists i :: StrippedAt(s, Strip(s), i)
  {
    StripAt(s);
  }

  lemma StripAt(s: string)
    ensures StrippedAt(s, Strip(s), |s| - |LStrip(s)|)
  {
    var l := LStrip(s);
    var r := RStrip(l);
    var i := |s| - |l|;
    forall k | i + |r| <= k < |s| ensures IsSpace(s[k]) {
      assert s[k] == l[k - i];
    }
  }

  /** `r` stands at index `i` of `s`, and everything of `s` around it is white space. */
  predicate StrippedAt(s: string, r: string, i: int) {
    && 0 <= i && i + |r| <= |s|
    && (forall k :: 0 <= k < |r| ==> r[k] == s[i + k])
    && (forall k :: 0 <= k < i ==> IsSpace(s[k]))
    && (forall k :: i + |r| <= k < |s| ==> IsSpace(s[k]))
  }

  /** Stripping a string that has no white space at either end changes nothing. */
  lemma {:induction false} StripKeeps(s: string)
    requires s == [] || (!IsSpace(s[0]) && !IsSpace(s[|s| - 1]))
    ensures Strip(s) == s
  {
  }

  predicate StartsWith(s: string, prefix: string) {
    |prefix| <= |s| && s[..|prefix|] == prefix
  }

  predicate EndsWith(s: string, suffix: string) {
    |suffix| <= |s| && s[|s| - |suffix|..] == suffix
  }

  /** `sep` occurs in `s` starting at index `k`. */
  predicate OccursAt(s: string, sep: string, k: int) {
    0 <= k && k + |sep| <= |s| && s[k..k + |sep|] == sep
  }

  /** `s.find(sep)`, with None for -1: the first index at which `sep` occurs. */
  function Find(s: string, sep: string): (r: Option<nat>)
    requires sep != []
    ensures r.Some? ==> OccursAt(s, sep, r.value)
    ensures r.Some? ==> forall k :: 0 <= k < r.value ==> !OccursAt(s, sep, k)
    ensures r.None? ==> forall k :: !OccursAt(s, sep, k)
    decreases |s|
  {
    if |s| < |sep| then None
    else if s[..|sep|] == sep then Some(0)
    else
      var rest := Find(s[1..], sep);
      assert forall k :: 0 <= k ==> (OccursAt(s, sep, k + 1) <==> OccursAt(s[1..], sep, k)) by {
        forall k | 0 <= k ensures OccursAt(s, sep, k + 1) <==> OccursAt(s[1..], sep, k) {
          if k + 1 + |sep| <= |s| {
            assert s[1..][k..k + |sep|] == s[k + 1..k + 1 + |sep|];
          }
        }
      }
      assert !OccursAt(s, sep, 0);
      if rest.None? then
        assert forall k :: !OccursAt(s, sep, k) by {
          forall k ensures !OccursAt(s, sep, k) {
            if k > 0 { assert !OccursAt(s[1..], sep, k - 1); }
          }
        }
        None
      else
        assert forall k :: 0 <= k < rest.value + 1 ==> !OccursAt(s, sep, k) by {
          forall k | 0 <= k < rest.value + 1 ensures !OccursAt(s, sep, k) {
            if k > 0 { assert !OccursAt(s[1..], sep, k - 1); }
          }
        }
        Some(rest.value + 1)
  }

  /** The substring test `sub in s`. */
  predicate Contains(s: string, sub: string)
    requires sub != []
  {
    Find(s, sub).Some?
  }

  /** `s.split(sep)` for a non-empty separator: cut at every occurrence, scanning left to right. */
  function Split(s: string, sep: string): (parts: seq<string>)
    requires sep != []
    ensures parts != []
    decreases |s|
  {
    match Find(s, sep)
    case None => [s]
    case Some(k) => [s[..k]] + Split(s[k + |sep|..], sep)
  }

  /** `sep.join(parts)` */
  function Join(parts: seq<string>, sep: string): string {
    if |parts| == 0 then ""
    else if |parts| == 1 then parts[0]
    else parts[0] + sep + Join(parts[1..], sep)
  }

  /**
   * Splitting what `Join` produced gives the parts back, provided no part
   * holds the separator's first character.
   */
  lemma {:induction false} SplitJoin(parts: seq<string>, sep: string)
    requires parts != [] && sep != []
    requires forall p :: p in parts ==> sep[0] !in p
    ensures Split(Join(parts, sep), sep) == parts
  {
    var p := parts[0];
    if |parts| == 1 {
      var f := Find(p, sep);
      if f.Some? {
        assert p[f.value] == sep[0] by { assert p[f.value..f.value + |sep|][0] == sep[0]; }
        assert sep[0] in p;
      }
    } else {
      var rest := Join(parts[1..], sep);
      var s := p + sep + rest;
      assert s[|p|..|p| + |sep|] == sep;
      assert OccursAt(s, sep, |p|);
      forall k | 0 <= k < |p| ensures !OccursAt(s, sep, k) {
        assert s[k] == p[k] && p[k] in p;
      }
      var f := Find(s, sep);
      assert f == Some(|p|);
      assert s[..|p|] == p;
      assert s[|p| + |sep|..] == rest;
      forall q | q in parts[1..] ensures sep[0] !in q { assert q in parts; }
      SplitJoin(parts[1..], sep);
    }
  }

  /** A joined non-empty list starts with its first part and ends with its last part. */
  lemma {:induction false} JoinEnds(parts: seq<string>, sep: string)
    requires parts != []
    ensures StartsWith(Join(parts, sep), parts[0])
    ensures EndsWith(Join(parts, sep), parts[|parts| - 1])
  {
    if |parts| > 1 {
      JoinEnds(parts[1..], sep);
      var rest := Join(parts[1..], sep);
      var s := parts[0] + sep + rest;
      assert s[|s| - |rest|..] == rest;
      var last := parts[|parts| - 1];
      assert rest[|rest| - |last|..] == last;
      assert s[|s| - |last|..] == rest[|rest| - |last|..];
    }
  }

  /** ASCII case mapping, as `str.lower()` and `str.upper()` do on ASCII letters. */
  function Lower(c: char): char {
    if 'A' <= c <= 'Z' then (c as int + 32) as char else c
  }

  function Upper(c: char): char {
    if 'a' <= c <= 'z' then (c as int - 32) as char else c
  }

  function LowerStr(s: string): (r: string)
    ensures |r| == |s| && forall k :: 0 <= k < |s| ==> r[k] == Lower(s[k])
  {
    seq(|s|, k requires 0 <= k < |s| => Lower(s[k]))
  }

  /** `s.capitalize()`: first character upper case, the rest lower case. */
  function Capitalize(s: string): (r: string)
    ensures |r| == |s|
    ensures s != [] ==> r[0] == Upper(s[0]) && r[1..] == LowerStr(s[1..])
  {
    if s == [] then [] else [Upper(s[0])] + LowerStr(s[1..])
  }

  /** Capitalizing preserves what lower-casing sees: equal lower-case forms stay tied to the label. */
  lemma CapitalizeLower(s: string)
    ensures LowerStr(Capitalize(s)) == LowerStr(s)
  {
    if s != [] {
      var c := Capitalize(s);
      forall k | 0 <= k < |s| ensures Lower(c[k]) == Lower(s[k]) {
        if k > 0 { assert c[k] == LowerStr(s[1..])[k - 1]; }
      }
    }
  }

  /** `os.path.join(a, b)` on POSIX. */
  function PathJoin(a: string, b: string): (r: string)
    ensures EndsWith(r, b)
    ensures StartsWith(b, "/") ==> r == b
    ensures !StartsWith(b, "/") ==> StartsWith(r, a)
    ensures !StartsWith(b, "/") && a != [] && a[|a| - 1] != '/' ==> r == a + "/" + b
    ensures !StartsWith(b, "/") && (a == [] || a[|a| - 1] == '/') ==> r == a + b
  {
    if StartsWith(b, "/") then b
    else if a == [] || a[|a| - 1] == '/' then a + b
    else a + "/" + b
  }

  /**
   * Two names that agree on whether they start with "/" land on the same
   * joined path only if they are the same name.
   */
  lemma PathJoinInjective(a: string, x: string, y: string)
    requires StartsWith(x, "/") <==> StartsWith(y, "/")
    ensures PathJoin(a, x) == PathJoin(a, y) <==> x == y
  {
    if PathJoin(a, x) == PathJoin(a, y) && !StartsWith(x, "/") {
      assert |x| == |y|;
      assert x == PathJoin(a, x)[|PathJoin(a, x)| - |x|..];
    }
  }
}
