/** The Python `str` operations the parser and the failure checks rely on:
    `find` with a start index, `strip()` with no argument, and slicing from an index. */
module PyStr {

  /** `pat` occurs in `s` starting at index `i`. */
  predicate OccursAt(s: string, pat: string, i: nat)
  {
    i + |pat| <= |s| && s[i..i + |pat|] == pat
  }

  /** `i` is the first occurrence of `pat` in `s` at or after `start`. */
  predicate FirstAt(s: string, pat: string, start: nat, i: nat)
  {
    start <= i && OccursAt(s, pat, i) && forall k :: start <= k < i ==> !OccursAt(s, pat, k)
  }

  /** `s.find(pat, start)` for a start that is not negative. */
  function Find(s: string, pat: string, start: nat): (r: int)
    ensures r == -1 || start <= r
    decreases |s| - start
  {
    if start + |pat| > |s| then -1
    else if OccursAt(s, pat, start) then start
    else Find(s, pat, start + 1)
  }

  /** `find` returns the lowest index at or after `start` where `pat` occurs, or -1 exactly
      when there is none (also when `start` is past the end). */
  lemma {:induction false} FindIsFirst(s: string, pat: string, start: nat)
    ensures Find(s, pat, start) == -1 || (Find(s, pat, start) >= 0 && FirstAt(s, pat, start, Find(s, pat, start)))
    ensures Find(s, pat, start) == -1 <==> forall k :: start <= k ==> !OccursAt(s, pat, k)
    decreases |s| - start
  {
    if start + |pat| <= |s| && !OccursAt(s, pat, start) {
      FindIsFirst(s, pat, start + 1);
    }
  }

  /** The first occurrence is unique, so `find` returns it. */
  lemma FindReturnsFirst(s: string, pat: string, start: nat, i: nat)
    requires FirstAt(s, pat, start, i)
    ensures Find(s, pat, start) == i
  {
    FindIsFirst(s, pat, start);
    var r := Find(s, pat, start);
    assert r != -1;
    assert !(r < i) && !(i < r);
  }

  /** `find` gives -1 when `pat` occurs nowhere at or after `start`. */
  lemma FindMissing(s: string, pat: string, start: nat)
    requires forall k :: start <= k ==> !OccursAt(s, pat, k)
    ensures Find(s, pat, start) == -1
  {
    FindIsFirst(s, pat, start);
  }

  /** `s.find(pat) != -1`, the containment test the loop guards use. */
  predicate Contains(s: string, pat: string)
  {
    Find(s, pat, 0) != -1
  }

  lemma ContainsAt(s: string, pat: string, i: nat)
    requires OccursAt(s, pat, i)
    ensures Contains(s, pat)
  {
    FindIsFirst(s, pat, 0);
  }

  /** The characters `str.isspace()` accepts: the ASCII controls 9-13 and 28-31, the space,
      the control character U+0085 (next line), and the Unicode space separators, line and
      paragraph separators. */
  predicate IsSpace(c: char)
  {
    || ('\U{9}' <= c <= '\U{D}')
    || ('\U{1C}' <= c <= '\U{20}')
    || c == '\U{85}' || c == '\U{A0}' || c == '\U{1680}'
    || ('\U{2000}' <= c <= '\U{200A}')
    || c == '\U{2028}' || c == '\U{2029}' || c == '\U{202F}' || c == '\U{205F}' || c == '\U{3000}'
  }

  /** `s.lstrip()`. */
  function TrimStart(s: string): string
  {
    if s != [] && IsSpace(s[0]) then TrimStart(s[1..]) else s
  }

  /** `s.rstrip()`. */
  function TrimEnd(s: string): string
  {
    if s != [] && IsSpace(s[|s| - 1]) then TrimEnd(s[..|s| - 1]) else s
  }

  /** `s.strip()`. */
  function Strip(s: string): string
  {
    TrimEnd(TrimStart(s))
  }

  /** `lstrip()` drops exactly the leading whitespace: what remains is a suffix that is empty
      or starts with a non-space character, and everything before it is whitespace. */
  lemma {:induction false} TrimStartDropsLeadingSpace(s: string)
    ensures |TrimStart(s)| <= |s| && TrimStart(s) == s[|s| - |TrimStart(s)|..]
    ensures forall k :: 0 <= k < |s| - |TrimStart(s)| ==> IsSpace(s[k])
    ensures TrimStart(s) == [] || !IsSpace(TrimStart(s)[0])
  {
    if s != [] && IsSpace(s[0]) {
      var rest := s[1..];
      TrimStartDropsLeadingSpace(rest);
      var t := TrimStart(rest);
      assert TrimStart(s) == t;
      assert rest[|rest| - |t|..] == s[|s| - |t|..];
      forall k | 1 <= k < |s| - |t|
        ensures IsSpace(s[k])
      {
        assert s[k] == rest[k - 1];
      }
    }
  }

  /** `rstrip()` drops exactly the trailing whitespace. */
  lemma {:induction false} TrimEndDropsTrailingSpace(s: string)
    ensures |TrimEnd(s)| <= |s| && TrimEnd(s) == s[..|TrimEnd(s)|]
    ensures forall k :: |TrimEnd(s)| <= k < |s| ==> IsSpace(s[k])
    ensures TrimEnd(s) == [] || !IsSpace(TrimEnd(s)[|TrimEnd(s)| - 1])
  {
    if s != [] && IsSpace(s[|s| - 1]) {
      var rest := s[..|s| - 1];
      TrimEndDropsTrailingSpace(rest);
      var t := TrimEnd(rest);
      assert TrimEnd(s) == t;
      assert rest[..|t|] == s[..|t|];
      forall k | |t| <= k < |s| - 1
        ensures IsSpace(s[k])
      {
        assert s[k] == rest[k];
      }
    }
  }

  /** The stripped text neither starts nor ends with whitespace, and stripping it again
      changes nothing. */
  lemma StripTrimsBothEnds(s: string)
    ensures Strip(s) == [] || (!IsSpace(Strip(s)[0]) && !IsSpace(Strip(s)[|Strip(s)| - 1]))
    ensures Strip(Strip(s)) == Strip(s)
  {
    var t := TrimStart(s);
    TrimStartDropsLeadingSpace(s);
    TrimEndDropsTrailingSpace(t);
    var r := Strip(s);
    if r != [] {
      assert r[0] == t[0];
      StripIsSlice(r, 0, |r|);
    } else {
      assert TrimStart(r) == [] && TrimEnd([]) == [];
    }
  }

  /** Whatever the margins, `strip()` returns exactly the slice between the whitespace-only
      margins whose ends are not whitespace. */
  lemma StripIsSlice(s: string, i: nat, j: nat)
    requires i <= j <= |s|
    requires forall k :: 0 <= k < i ==> IsSpace(s[k])
    requires forall k :: j <= k < |s| ==> IsSpace(s[k])
    requires i < j ==> !IsSpace(s[i]) && !IsSpace(s[j - 1])
    ensures Strip(s) == s[i..j]
  {
    var t := TrimStart(s);
    TrimStartDropsLeadingSpace(s);
    var d := |s| - |t|;
    assert d < |s| ==> t[0] == s[d] && !IsSpace(s[d]);
    if i < j {
      assert d == i;
      assert t == s[i..];
      var u := TrimEnd(t);
      TrimEndDropsTrailingSpace(t);
      assert |u| == j - i by {
        assert 0 < |u| ==> u[|u| - 1] == s[i + |u| - 1] && !IsSpace(s[i + |u| - 1]);
      }
    }
  }

  /** `s[n:]` for `n >= 0`: Python yields the empty string when `n` is past the end. */
  function SliceFrom(s: string, n: nat): (r: string)
    ensures |r| == if n <= |s| then |s| - n else 0
    ensures s == s[..|s| - |r|] + r
  {
    if n <= |s| then s[n..] else []
  }

  /** `s[lo:hi]` for indices that are not negative: Python clamps both to the length and
      yields the empty string when the stop does not exceed the start. */
  function Slice(s: string, lo: nat, hi: nat): (r: string)
    ensures lo <= hi <= |s| ==> r == s[lo..hi]
    ensures hi <= lo ==> r == []
  {
    var start := if lo < |s| then lo else |s|;
    var stop := if hi < |s| then hi else |s|;
    if stop <= start then [] else s[start..stop]
  }
}
