/** The JavaScript string operations the media hooks rely on, over `seq<char>`:
    `toLowerCase` (ASCII letters only), `indexOf`/`includes`, `endsWith`,
    `replace` with a string pattern (first occurrence only), `split` on one
    character, and `trim`. */
module Strings {
  import opened Wrappers

  // ---------------------------------------------------------------- case

  predicate IsUpper(c: char) { 'A' <= c <= 'Z' }

  function LowerChar(c: char): (r: char)
    ensures !IsUpper(r)
    ensures IsUpper(c) ==> r as int == c as int + 32
    ensures !IsUpper(c) ==> r == c
  {
    if IsUpper(c) then (c as int + 32) as char else c
  }

  /** `toLowerCase`, restricted to the ASCII letters. */
  function Lower(s: string): (r: string)
    ensures |r| == |s|
    ensures forall i :: 0 <= i < |r| ==> !IsUpper(r[i])
    ensures forall i :: 0 <= i < |s| && !IsUpper(s[i]) ==> r[i] == s[i]
    ensures forall i :: 0 <= i < |s| && IsUpper(s[i]) ==> r[i] as int == s[i] as int + 32
  {
    seq(|s|, i requires 0 <= i < |s| => LowerChar(s[i]))
  }

  /** Lower-casing twice is lower-casing once. */
  lemma LowerIdempotent(s: string)
    ensures Lower(Lower(s)) == Lower(s)
  {
  }

  // ---------------------------------------------------------------- search

  /** `pat` occurs in `s` starting at index `i`. */
  predicate OccursAt(s: string, pat: string, i: int) {
    0 <= i && i + |pat| <= |s| && s[i..i + |pat|] == pat
  }

  /** The first index at or after `from` where `pat` occurs in `s`. */
  function IndexFrom(s: string, pat: string, from: nat): (r: Option<nat>)
    ensures r.Some? ==> from <= r.value && OccursAt(s, pat, r.value)
    ensures r.Some? ==> forall j :: from <= j < r.value ==> !OccursAt(s, pat, j)
    ensures r.None? ==> forall j :: from <= j ==> !OccursAt(s, pat, j)
    decreases |s| - from
  {
    if from + |pat| > |s| then None
    else if s[from..from + |pat|] == pat then Some(from)
    else IndexFrom(s, pat, from + 1)
  }

  /** `s.indexOf(pat)`, with `None` for -1. */
  function IndexOf(s: string, pat: string): (r: Option<nat>)
    ensures r.Some? ==> OccursAt(s, pat, r.value) && forall j :: 0 <= j < r.value ==> !OccursAt(s, pat, j)
    ensures r.None? <==> forall j :: !OccursAt(s, pat, j)
  {
    IndexFrom(s, pat, 0)
  }

  /** `s.includes(pat)`: `pat` occurs somewhere in `s`. */
  predicate Includes(s: string, pat: string)
    ensures Includes(s, pat) <==> exists j :: OccursAt(s, pat, j)
  {
    IndexOf(s, pat).Some?
  }

  /** Every string includes the empty string. */
  lemma IncludesEmpty(s: string)
    ensures Includes(s, "")
  {
    assert OccursAt(s, "", 0);
  }

  /** `s.endsWith(suffix)`: `s` is some prefix followed by `suffix`. */
  predicate EndsWith(s: string, suffix: string)
    ensures EndsWith(s, suffix) ==> |suffix| <= |s| && s == s[..|s| - |suffix|] + suffix
  {
    |suffix| <= |s| && s[|s| - |suffix|..] == suffix
  }

  /** Any prefix followed by `suffix` ends with `suffix`. */
  lemma EndsWithConcat(p: string, suffix: string)
    ensures EndsWith(p + suffix, suffix)
  {
    assert (p + suffix)[|p|..] == suffix;
  }

  /** `s.replace(pat, rep)` for a string pattern: only the FIRST occurrence is
      replaced, and a string without one comes back unchanged. */
  function ReplaceFirst(s: string, pat: string, rep: string): (r: string)
    ensures (forall j :: !OccursAt(s, pat, j)) ==> r == s
    ensures forall i {:trigger OccursAt(s, pat, i)} ::
              OccursAt(s, pat, i) && (forall j :: 0 <= j < i ==> !OccursAt(s, pat, j)) ==>
              r == s[..i] + rep + s[i + |pat|..]
  {
    match IndexOf(s, pat)
    case None => s
    case Some(i) => s[..i] + rep + s[i + |pat|..]
  }

  /** `replace` in terms of `indexOf`: the string up to the first occurrence,
      the replacement, and the rest after the occurrence. */
  lemma ReplaceFirstAt(s: string, pat: string, rep: string)
    ensures !Includes(s, pat) ==> ReplaceFirst(s, pat, rep) == s
    ensures Includes(s, pat) ==> var i := IndexOf(s, pat).value;
      i + |pat| <= |s| && ReplaceFirst(s, pat, rep) == s[..i] + rep + s[i + |pat|..]
  {
  }

  /** `pat` has no proper border: no proper prefix of it is also its suffix
      (true of `".mp4"`). */
  predicate BorderFree(pat: string) {
    forall m :: 0 < m < |pat| ==> pat[..m] != pat[|pat| - m..]
  }

  /** For a border-free pattern that does not occur in `base`, the first
      occurrence in `base + pat` is the final one, so replacing the first
      occurrence replaces that suffix. */
  lemma ReplaceSuffix(base: string, pat: string, rep: string)
    requires |pat| > 0 && BorderFree(pat)
    requires forall j :: !OccursAt(base, pat, j)
    ensures ReplaceFirst(base + pat, pat, rep) == base + rep
  {
    var s := base + pat;
    assert OccursAt(s, pat, |base|) by { assert s[|base|..|base| + |pat|] == pat; }
    forall j | 0 <= j < |base| ensures !OccursAt(s, pat, j) {
      if j + |pat| <= |base| {
        assert s[j..j + |pat|] == base[j..j + |pat|];
        assert !OccursAt(base, pat, j);
      } else {
        // the window at j would end with a proper prefix of pat
        var m := j + |pat| - |base|;
        assert s[j..j + |pat|][|pat| - m..] == pat[..m];
        assert pat[|pat| - m..] != pat[..m];
      }
    }
    assert s[..|base|] == base;
  }

  lemma Mp4BorderFree()
    ensures BorderFree(".mp4")
  {
    var p := ".mp4";
    forall m | 0 < m < |p| ensures p[..m] != p[|p| - m..] {
      assert p[..m][0] == '.';
      assert p[|p| - m..][0] != '.';
    }
  }

  /** The first occurrence need not be the suffix: in `"a.mp4.mp4"` it is the
      earlier one that is replaced. */
  lemma ReplaceFirstNotSuffix()
    ensures ReplaceFirst("a.mp4.mp4", ".mp4", ".png") == "a.png.mp4"
  {
    var s := "a.mp4.mp4";
    assert OccursAt(s, ".mp4", 1) by { assert s[1..5] == ".mp4"; }
    assert !OccursAt(s, ".mp4", 0) by { assert s[0] != '.'; }
    assert IndexOf(s, ".mp4") == Some(1);
    assert s[..1] + ".png" + s[5..] == "a.png.mp4";
  }

  // ---------------------------------------------------------------- split / join

  /** `parts.join(sep)` for a non-empty array. */
  function Join(parts: seq<string>, sep: char): string
    requires |parts| >= 1
  {
    if |parts| == 1 then parts[0] else parts[0] + [sep] + Join(parts[1..], sep)
  }

  /** `s.split(sep)` for a one-character separator: the maximal separator-free
      pieces between separators, empty pieces included; `""` gives `[""]`. */
  function Split(s: string, sep: char): (r: seq<string>)
    ensures |r| >= 1
    ensures forall k :: 0 <= k < |r| ==> sep !in r[k]
    ensures Join(r, sep) == s
  {
    if s == [] then [""]
    else
      var rest := Split(s[1..], sep);
      if s[0] == sep then
        assert Join([""] + rest, sep) == [sep] + Join(rest, sep) by { assert ([""] + rest)[1..] == rest; }
        [""] + rest
      else
        var r := [[s[0]] + rest[0]] + rest[1..];
        JoinConsHead(s[0], rest, sep);
        r
  }

  /** Prepending a character to the first piece prepends it to the join. */
  lemma JoinConsHead(c: char, parts: seq<string>, sep: char)
    requires |parts| >= 1
    ensures Join([[c] + parts[0]] + parts[1..], sep) == [c] + Join(parts, sep)
  {
    var q := [[c] + parts[0]] + parts[1..];
    if |parts| > 1 {
      assert q[1..] == parts[1..];
    }
  }

  /** Splitting undoes joining, for pieces that do not contain the separator. */
  lemma {:induction false} SplitJoin(parts: seq<string>, sep: char)
    requires |parts| >= 1
    requires forall k :: 0 <= k < |parts| ==> sep !in parts[k]
    ensures Split(Join(parts, sep), sep) == parts
    decreases |parts|, |parts[0]|
  {
    var p := parts[0];
    if p == [] {
      if |parts| == 1 {
      } else {
        var tail := Join(parts[1..], sep);
        assert Join(parts, sep) == [sep] + tail;
        SplitJoin(parts[1..], sep);
        assert ([sep] + tail)[1..] == tail;
        assert parts == [""] + parts[1..];
      }
    } else {
      var q := [p[1..]] + parts[1..];
      assert q[1..] == parts[1..];
      assert forall k :: 0 <= k < |q| ==> sep !in q[k] by {
        forall k | 0 <= k < |q| ensures sep !in q[k] {
          if k == 0 { assert forall c :: c in p[1..] ==> c in p; } else { assert q[k] == parts[k]; }
        }
      }
      SplitJoin(q, sep);
      JoinConsHead(p[0], q, sep);
      assert [[p[0]] + q[0]] + q[1..] == parts by { assert [p[0]] + p[1..] == p; }
      var s := Join(parts, sep);
      assert s == [p[0]] + Join(q, sep);
      assert s[1..] == Join(q, sep);
      assert s[0] == p[0] && p[0] != sep;
    }
  }

  // ---------------------------------------------------------------- trim

  /** The characters `String.prototype.trim` removes: ECMAScript WhiteSpace
      (tab, vertical tab, form feed, space, no-break space, byte order mark
      and the other space separators) and LineTerminator. */
  predicate IsWhitespace(c: char) {
    || c == '\t' || c == '\n' || c == '\U{000B}' || c == '\U{000C}' || c == '\r'
    || c == ' ' || c == '\U{00A0}' || c == '\U{1680}'
    || ('\U{2000}' <= c <= '\U{200A}')
    || c == '\U{2028}' || c == '\U{2029}' || c == '\U{202F}' || c == '\U{205F}'
    || c == '\U{3000}' || c == '\U{FEFF}'
  }

  predicate AllWhitespace(s: string) {
    forall i :: 0 <= i < |s| ==> IsWhitespace(s[i])
  }

  /** Drops the leading whitespace: `r` is a suffix of `s`, what was dropped is
      all whitespace, and `r` does not start with whitespace. */
  function TrimStart(s: string): (r: string)
    ensures |r| <= |s| && r == s[|s| - |r|..]
    ensures AllWhitespace(s[..|s| - |r|])
    ensures r != [] ==> !IsWhitespace(r[0])
  {
    if s != [] && IsWhitespace(s[0]) then
      var r := TrimStart(s[1..]);
      assert s[..|s| - |r|] == [s[0]] + s[1..][..|s[1..]| - |r|];
      r
    else s
  }

  /** Drops the trailing whitespace: `r` is a prefix of `s`, what was dropped is
      all whitespace, and `r` does not end with whitespace. */
  function TrimEnd(s: string): (r: string)
    ensures |r| <= |s| && r == s[..|r|]
    ensures AllWhitespace(s[|r|..])
    ensures r != [] ==> !IsWhitespace(r[|r| - 1])
  {
    if s != [] && IsWhitespace(s[|s| - 1]) then
      var r := TrimEnd(s[..|s| - 1]);
      assert s[|r|..] == s[..|s| - 1][|r|..] + [s[|s| - 1]];
      r
    else s
  }

  /** `s.trim()`: `r` is the substring of `s` starting where the leading
      whitespace ends, everything around it is whitespace, and `r` neither
      starts nor ends with whitespace. */
  function Trim(s: string): (r: string)
    ensures var i := |s| - |TrimStart(s)|;
      && i + |r| <= |s| && r == s[i..i + |r|]
      && AllWhitespace(s[..i]) && AllWhitespace(s[i + |r|..])
    ensures r != [] ==> !IsWhitespace(r[0]) && !IsWhitespace(r[|r| - 1])
  {
    var a := TrimStart(s);
    var r := TrimEnd(a);
    TrimSlices(s, a, r);
    r
  }

  lemma TrimSlices(s: string, a: string, r: string)
    requires |a| <= |s| && a == s[|s| - |a|..]
    requires |r| <= |a| && r == a[..|r|]
    requires AllWhitespace(a[|r|..])
    ensures var i := |s| - |a|; s[i..i + |r|] == r && AllWhitespace(s[i + |r|..])
  {
    var i := |s| - |a|;
    assert s[i + |r|..] == a[|r|..];
  }

  /** Trimming twice is trimming once. */
  lemma TrimIdempotent(s: string)
    ensures Trim(Trim(s)) == Trim(s)
  {
    var r := Trim(s);
    if r != [] {
      assert TrimStart(r) == r;
      assert TrimEnd(r) == r;
    }
  }

  /** A string of whitespace alone trims to the empty string. */
  lemma {:induction false} TrimAllWhitespace(s: string)
    requires AllWhitespace(s)
    ensures Trim(s) == ""
  {
  }
}
