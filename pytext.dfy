/** The Python `str` operations the core relies on: `find`, `split`, `strip` and `endswith`. */
module PyText {
  import opened Common

  /** `c.isspace()` in CPython: exactly the characters that `str.strip()` with no argument removes. */
  predicate IsSpace(c: char) {
    c == ' ' || '\t' <= c <= '\r' || '\U{1c}' <= c <= '\U{1f}' || c == '\U{85}' || c == '\U{a0}'
    || c == '\U{1680}' || '\U{2000}' <= c <= '\U{200a}' || c == '\U{2028}' || c == '\U{2029}'
    || c == '\U{202f}' || c == '\U{205f}' || c == '\U{3000}'
  }

  predicate AllSpace(s: string) {
    forall k :: 0 <= k < |s| ==> IsSpace(s[k])
  }

  /** Neither end of `s` is whitespace: what `strip()` leaves behind. */
  predicate Trimmed(s: string) {
    s == [] || (!IsSpace(s[0]) && !IsSpace(s[|s| - 1]))
  }

  /** The index of the first non-whitespace character of `s` at or after `i`, or `|s|`. */
  function SkipSpace(s: string, i: nat): (j: nat)
    requires i <= |s|
    ensures i <= j <= |s|
    ensures forall k :: i <= k < j ==> IsSpace(s[k])
    ensures j < |s| ==> !IsSpace(s[j])
    decreases |s| - i
  {
    if i < |s| && IsSpace(s[i]) then SkipSpace(s, i + 1) else i
  }

  /** The index just past the last non-whitespace character of `s[lo..hi]`, or `lo`. */
  function SkipSpaceBack(s: string, lo: nat, hi: nat): (j: nat)
    requires lo <= hi <= |s|
    ensures lo <= j <= hi
    ensures forall k :: j <= k < hi ==> IsSpace(s[k])
    ensures lo < j ==> !IsSpace(s[j - 1])
    decreases hi - lo
  {
    if lo < hi && IsSpace(s[hi - 1]) then SkipSpaceBack(s, lo, hi - 1) else hi
  }

  /** `s.strip()`: the slice of `s` left after removing whitespace from both ends. */
  function Strip(s: string): (r: string)
    ensures Trimmed(r) && |r| <= |s|
    ensures exists i, j :: 0 <= i <= j <= |s| && r == s[i..j] && AllSpace(s[..i]) && AllSpace(s[j..])
  {
    var i := SkipSpace(s, 0);
    var j := SkipSpaceBack(s, i, |s|);
    assert AllSpace(s[..i]) && AllSpace(s[j..]);
    s[i..j]
  }

  /** `strip()` is determined by what it promises: whatever whitespace surrounds a trimmed text,
      stripping gives back exactly that text. */
  lemma StripUnique(p: string, m: string, q: string)
    requires AllSpace(p) && AllSpace(q) && Trimmed(m)
    ensures Strip(p + m + q) == m
  {
    var s := p + m + q;
    var i := SkipSpace(s, 0);
    var j := SkipSpaceBack(s, i, |s|);
    if m == [] {
      assert forall k :: 0 <= k < |s| ==> IsSpace(s[k]) by {
        assert forall k :: 0 <= k < |p| ==> s[k] == p[k];
        assert forall k :: |p| <= k < |s| ==> s[k] == q[k - |p|];
      }
      assert i == |s|;
    } else {
      assert s[|p|] == m[0];
      assert forall k :: 0 <= k < |p| ==> s[k] == p[k];
      assert i == |p|;
      assert s[|p| + |m| - 1] == m[|m| - 1];
      assert forall k :: |p| + |m| <= k < |s| ==> s[k] == q[k - |p| - |m|];
      assert j == |p| + |m|;
      assert s[i..j] == m;
    }
  }

  /** Stripping twice is stripping once. */
  lemma StripIdempotent(s: string)
    ensures Strip(Strip(s)) == Strip(s)
  {
    var m := Strip(s);
    assert [] + m + [] == m;
    StripUnique([], m, []);
  }

  /** `pat` occurs in `s` starting at index `i`. */
  predicate OccursAt(s: string, pat: string, i: int) {
    0 <= i && i + |pat| <= |s| && s[i..i + |pat|] == pat
  }

  ghost predicate Absent(s: string, pat: string) {
    forall i :: !OccursAt(s, pat, i)
  }

  /** The leftmost occurrence of `pat` in `s` at or after `from`. */
  function FindFrom(s: string, pat: string, from: nat): (r: Option<nat>)
    requires from <= |s|
    ensures r.Some? ==> from <= r.value && OccursAt(s, pat, r.value)
    ensures forall i :: from <= i && (r.None? || i < r.value) ==> !OccursAt(s, pat, i)
    decreases |s| - from
  {
    if OccursAt(s, pat, from) then Some(from)
    else if from == |s| then None
    else FindFrom(s, pat, from + 1)
  }

  /** `s.find(pat)`, with `None` in place of -1. */
  function Find(s: string, pat: string): (r: Option<nat>)
    ensures r.Some? ==> OccursAt(s, pat, r.value)
    ensures forall i :: (r.None? || i < r.value) ==> !OccursAt(s, pat, i)
  {
    FindFrom(s, pat, 0)
  }

  /** An occurrence with no occurrence before it is the one `find` reports. */
  lemma FindFirst(s: string, pat: string, f: nat)
    requires OccursAt(s, pat, f)
    requires forall j :: 0 <= j < f ==> !OccursAt(s, pat, j)
    ensures Find(s, pat) == Some(f)
  {
  }

  /** An occurrence inside a prefix of `s` is an occurrence in `s`, and conversely when it fits. */
  lemma OccursInPrefix(s: string, pat: string, n: nat, i: int)
    requires n <= |s|
    ensures OccursAt(s[..n], pat, i) <==> OccursAt(s, pat, i) && i + |pat| <= n
  {
    if 0 <= i && i + |pat| <= n {
      assert s[..n][i..i + |pat|] == s[i..i + |pat|];
    }
  }

  /** Searching a prefix that still holds the leftmost occurrence finds the same occurrence. */
  lemma {:induction false} FindInPrefix(s: string, pat: string, n: nat)
    requires n <= |s|
    ensures Find(s, pat).None? ==> Find(s[..n], pat).None?
    ensures Find(s, pat).Some? && Find(s, pat).value + |pat| <= n ==> Find(s[..n], pat) == Find(s, pat)
    ensures Find(s, pat).Some? && n < Find(s, pat).value + |pat| ==> Find(s[..n], pat).None?
  {
    forall i ensures OccursAt(s[..n], pat, i) <==> OccursAt(s, pat, i) && i + |pat| <= n {
      OccursInPrefix(s, pat, n, i);
    }
    if Find(s, pat).Some? && Find(s, pat).value + |pat| <= n {
      FindFirst(s[..n], pat, Find(s, pat).value);
    }
  }

  /** The text before the leftmost occurrence holds no occurrence. */
  lemma AbsentBeforeFirst(s: string, pat: string, i: nat)
    requires pat != [] && Find(s, pat) == Some(i)
    ensures Absent(s[..i], pat)
  {
    forall j ensures !OccursAt(s[..i], pat, j) {
      OccursInPrefix(s, pat, i, j);
    }
  }

  /** Python's `sep.join(parts)`: the inverse of `split`. */
  function Join(parts: seq<string>, sep: string): string
    decreases |parts|
  {
    if parts == [] then ""
    else if |parts| == 1 then parts[0]
    else parts[0] + sep + Join(parts[1..], sep)
  }

  /** `s.split(sep)` for a non-empty separator: cut at each leftmost, non-overlapping occurrence. */
  function Split(s: string, sep: string): (parts: seq<string>)
    requires sep != []
    ensures |parts| >= 1
    ensures Join(parts, sep) == s
    ensures forall k :: 0 <= k < |parts| ==> Absent(parts[k], sep)
    ensures Find(s, sep).None? ==> parts == [s]
    ensures Find(s, sep).Some? ==> |parts| > 1 && parts[0] == s[..Find(s, sep).value]
    decreases |s|
  {
    match Find(s, sep)
    case None => [s]
    case Some(i) =>
      var rest := Split(s[i + |sep|..], sep);
      AbsentBeforeFirst(s, sep, i);
      assert s == s[..i] + sep + s[i + |sep|..];
      [s[..i]] + rest
  }

  /** The second piece of `split` is the first piece of what follows the first occurrence. */
  lemma SplitSecond(s: string, sep: string)
    requires sep != []
    ensures Find(s, sep).Some? ==> Split(s, sep)[1] == Split(s[Find(s, sep).value + |sep|..], sep)[0]
  {
  }

  /** `s.endswith(suffix)`. */
  predicate EndsWith(s: string, suffix: string) {
    |suffix| <= |s| && s[|s| - |suffix|..] == suffix
  }

  /** `s.startswith(prefix)`. */
  predicate StartsWith(s: string, prefix: string) {
    |prefix| <= |s| && s[..|prefix|] == prefix
  }
}
