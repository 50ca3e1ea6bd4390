/** The Python `str` and `list` operations the services are built from, with
    CPython's semantics: substring tests, `os.path.basename`, `split`/`join`,
    `strip`, `split(pat)[0]`, `str(int)` and slicing with negative bounds. */
module PyStr {
  import opened Wrappers

  predicate IsPrefix<T(==)>(p: seq<T>, s: seq<T>) {
    |p| <= |s| && s[..|p|] == p
  }

  /** The pattern `p` occurs in `s` starting at index `i`. */
  predicate OccursAt(s: string, p: string, i: int) {
    0 <= i && i + |p| <= |s| && s[i..i + |p|] == p
  }

  /** Python's `p in s` on strings. */
  predicate Contains(s: string, p: string)
    decreases |s|
  {
    IsPrefix(p, s) || (|s| > 0 && Contains(s[1..], p))
  }

  lemma OccursAtTail(s: string, p: string, k: int)
    requires |s| > 0 && 0 <= k
    ensures OccursAt(s[1..], p, k) <==> OccursAt(s, p, k + 1)
  {
    if 0 <= k && k + |p| <= |s| - 1 {
      assert s[1..][k..k + |p|] == s[k + 1..k + 1 + |p|];
    }
  }

  /** `p in s` holds exactly when `p` occurs at some index of `s`. */
  lemma {:induction false} ContainsIffOccurs(s: string, p: string)
    ensures Contains(s, p) <==> exists i :: OccursAt(s, p, i)
    decreases |s|
  {
    if Contains(s, p) {
      if IsPrefix(p, s) {
        assert OccursAt(s, p, 0);
      } else {
        ContainsIffOccurs(s[1..], p);
        var j :| OccursAt(s[1..], p, j);
        OccursAtTail(s, p, j);
        assert OccursAt(s, p, j + 1);
      }
    }
    if exists i :: OccursAt(s, p, i) {
      var i :| OccursAt(s, p, i);
      if i == 0 {
        assert IsPrefix(p, s);
      } else {
        OccursAtTail(s, p, i - 1);
        ContainsIffOccurs(s[1..], p);
      }
    }
  }

  /** A string contains no pattern longer than itself. */
  lemma {:induction false} ContainsNoLonger(s: string, p: string)
    requires Contains(s, p)
    ensures |p| <= |s|
    decreases |s|
  {
    if !IsPrefix(p, s) {
      ContainsNoLonger(s[1..], p);
    }
  }

  /** A pattern found in a slice of `s` is found in `s`. */
  lemma ContainsInSlice(s: string, lo: nat, hi: nat, p: string)
    requires lo <= hi <= |s| && Contains(s[lo..hi], p)
    ensures Contains(s, p)
  {
    ContainsIffOccurs(s[lo..hi], p);
    var j :| OccursAt(s[lo..hi], p, j);
    forall m | 0 <= m < |p|
      ensures s[lo + j..lo + j + |p|][m] == p[m]
    {
      assert s[lo..hi][j..j + |p|][m] == p[m];
    }
    assert s[lo + j..lo + j + |p|] == p;
    assert OccursAt(s, p, lo + j);
    ContainsIffOccurs(s, p);
  }

  // ------------------------------------------------------------ basename

  /** `os.path.basename` on POSIX paths: the text after the last '/'; that is,
      the longest suffix of `path` without a '/'. */
  function Basename(path: string): (b: string)
    ensures |b| <= |path| && b == path[|path| - |b|..]
    ensures forall k :: 0 <= k < |b| ==> b[k] != '/'
    ensures |b| == |path| || path[|path| - |b| - 1] == '/'
    decreases |path|
  {
    if |path| == 0 || path[|path| - 1] == '/' then ""
    else
      var init := path[..|path| - 1];
      var b := Basename(init);
      assert init[|init| - |b|..] + [path[|path| - 1]] == path[|path| - |b| - 1..];
      b + [path[|path| - 1]]
  }

  // -------------------------------------------------------- split / join

  /** `sep.join(parts)` */
  function Join(parts: seq<string>, sep: string): string
    decreases |parts|
  {
    if |parts| == 0 then ""
    else if |parts| == 1 then parts[0]
    else parts[0] + sep + Join(parts[1..], sep)
  }

  /** `s.split(sep)` for a one-character separator. */
  function Split(s: string, sep: char): (parts: seq<string>)
    ensures |parts| >= 1
    ensures forall i :: 0 <= i < |parts| ==> sep !in parts[i]
    decreases |s|
  {
    if |s| == 0 then [""]
    else if s[0] == sep then [""] + Split(s[1..], sep)
    else
      var rest := Split(s[1..], sep);
      [[s[0]] + rest[0]] + rest[1..]
  }

  /** Joining the pieces of a split with the separator gives back the string. */
  lemma {:induction false} JoinSplit(s: string, sep: char)
    ensures Join(Split(s, sep), [sep]) == s
    decreases |s|
  {
    if |s| == 0 {
    } else if s[0] == sep {
      JoinSplit(s[1..], sep);
      assert s == [sep] + s[1..];
    } else {
      JoinSplit(s[1..], sep);
      var rest := Split(s[1..], sep);
      if |rest| == 1 {
        assert s == [s[0]] + rest[0];
      } else {
        var parts := [[s[0]] + rest[0]] + rest[1..];
        assert parts[1..] == rest[1..];
        assert Join(rest, [sep]) == rest[0] + [sep] + Join(rest[1..], [sep]);
        assert s == [s[0]] + s[1..];
      }
    }
  }

  /** Splitting a separator-free word followed by more text extends the first piece. */
  lemma {:induction false} SplitWord(w: string, t: string, sep: char)
    requires sep !in w
    ensures Split(w + t, sep) == [w + Split(t, sep)[0]] + Split(t, sep)[1..]
    decreases |w|
  {
    if |w| > 0 {
      SplitWord(w[1..], t, sep);
      assert (w + t)[1..] == w[1..] + t;
      assert [w[0]] + (w[1..] + Split(t, sep)[0]) == w + Split(t, sep)[0];
    } else {
      var parts := Split(t, sep);
      assert w + t == t;
      assert w + parts[0] == parts[0];
      assert parts == [parts[0]] + parts[1..];
    }
  }

  /** Splitting the join of separator-free pieces gives back the pieces. */
  lemma {:induction false} SplitJoin(parts: seq<string>, sep: char)
    requires |parts| >= 1
    requires forall i :: 0 <= i < |parts| ==> sep !in parts[i]
    ensures Split(Join(parts, [sep]), sep) == parts
    decreases |parts|
  {
    if |parts| == 1 {
      SplitWord(parts[0], "", sep);
      assert parts[0] + "" == parts[0];
    } else {
      var rest := Join(parts[1..], [sep]);
      SplitJoin(parts[1..], sep);
      SplitWord(parts[0], [sep] + rest, sep);
      assert parts[0] + [sep] + rest == parts[0] + ([sep] + rest);
      assert ([sep] + rest)[1..] == rest;
      assert parts[0] + "" == parts[0];
      assert parts == [parts[0]] + parts[1..];
    }
  }

  /** Joining two non-empty lists puts one separator between their joins. */
  lemma {:induction false} JoinAppend(a: seq<string>, b: seq<string>, sep: string)
    requires |a| >= 1 && |b| >= 1
    ensures Join(a + b, sep) == Join(a, sep) + sep + Join(b, sep)
    decreases |a|
  {
    if |a| == 1 {
      assert (a + b)[1..] == b;
    } else {
      JoinAppend(a[1..], b, sep);
      assert (a + b)[1..] == a[1..] + b;
    }
  }

  /** The join of a non-empty list begins with its first element. */
  lemma JoinStartsWithFirst(parts: seq<string>, sep: string)
    requires |parts| >= 1
    ensures IsPrefix(parts[0], Join(parts, sep))
  {
    if |parts| > 1 {
      assert Join(parts, sep)[..|parts[0]|] == parts[0];
    }
  }

  // -------------------------------------------------------------- strip

  /** The characters for which CPython's `str.isspace()` holds; `str.strip()`
      with no argument removes exactly these from both ends. */
  predicate IsPySpace(c: char) {
    ('\t' <= c <= '\r') || ('\U{1C}' <= c <= '\U{1F}') || c == ' ' || c == '\U{85}' || c == '\U{A0}'
    || c == '\U{1680}' || ('\U{2000}' <= c <= '\U{200A}') || c == '\U{2028}' || c == '\U{2029}'
    || c == '\U{202F}' || c == '\U{205F}' || c == '\U{3000}'
  }

  /** The number of whitespace characters at the start of `s`. */
  function LeadingSpace(s: string): (n: nat)
    ensures n <= |s|
    decreases |s|
  {
    if |s| > 0 && IsPySpace(s[0]) then 1 + LeadingSpace(s[1..]) else 0
  }

  /** The length of `s` once the whitespace at its end is removed. */
  function TrimmedLength(s: string): (n: nat)
    ensures n <= |s|
    decreases |s|
  {
    if |s| > 0 && IsPySpace(s[|s| - 1]) then TrimmedLength(s[..|s| - 1]) else |s|
  }

  /** `LeadingSpace` counts exactly the whitespace run at the start. */
  lemma {:induction false} LeadingSpaceSpec(s: string)
    ensures forall k :: 0 <= k < LeadingSpace(s) ==> IsPySpace(s[k])
    ensures LeadingSpace(s) == |s| || !IsPySpace(s[LeadingSpace(s)])
    decreases |s|
  {
    if |s| > 0 && IsPySpace(s[0]) {
      LeadingSpaceSpec(s[1..]);
      forall k | 1 <= k < LeadingSpace(s)
        ensures IsPySpace(s[k])
      {
        assert s[k] == s[1..][k - 1];
      }
    }
  }

  /** `TrimmedLength` stops exactly at the whitespace run at the end. */
  lemma {:induction false} TrimmedLengthSpec(s: string)
    ensures forall k :: TrimmedLength(s) <= k < |s| ==> IsPySpace(s[k])
    ensures TrimmedLength(s) == 0 || !IsPySpace(s[TrimmedLength(s) - 1])
    decreases |s|
  {
    if |s| > 0 && IsPySpace(s[|s| - 1]) {
      var init := s[..|s| - 1];
      TrimmedLengthSpec(init);
      forall k | TrimmedLength(s) <= k < |s|
        ensures IsPySpace(s[k])
      {
        if k < |s| - 1 {
          assert s[k] == init[k];
        }
      }
      if TrimmedLength(s) > 0 {
        assert s[TrimmedLength(s) - 1] == init[TrimmedLength(s) - 1];
      }
    }
  }

  /** `s.strip()`: the slice of `s` between its leading and its trailing whitespace. */
  function Strip(s: string): (r: string)
    ensures OccursAt(s, r, LeadingSpace(s))
  {
    var lo := LeadingSpace(s);
    var n := TrimmedLength(s[lo..]);
    assert s[lo..][..n] == s[lo..lo + n];
    s[lo..lo + n]
  }

  /** The stripped text neither starts nor ends with whitespace. */
  lemma StripEnds(s: string)
    ensures var r := Strip(s); r == [] || (!IsPySpace(r[0]) && !IsPySpace(r[|r| - 1]))
  {
    var lo := LeadingSpace(s);
    var t := s[lo..];
    var n := TrimmedLength(t);
    assert Strip(s) == s[lo..lo + n];
    if n > 0 {
      LeadingSpaceSpec(s);
      TrimmedLengthSpec(t);
      assert Strip(s)[0] == s[lo];
      assert Strip(s)[n - 1] == t[n - 1];
    }
  }

  /** Everything after the stripped text is whitespace. */
  lemma StripTrailing(s: string)
    ensures forall k :: LeadingSpace(s) + |Strip(s)| <= k < |s| ==> IsPySpace(s[k])
  {
    var lo := LeadingSpace(s);
    var t := s[lo..];
    var n := TrimmedLength(t);
    assert |Strip(s)| == n;
    TrimmedLengthSpec(t);
    forall k | lo + n <= k < |s|
      ensures IsPySpace(s[k])
    {
      assert s[k] == t[k - lo];
    }
  }

  /** `strip` removes whitespace only, and all of it, from both ends. */
  lemma StripSpec(s: string)
    ensures var r := Strip(s);
            var lo := LeadingSpace(s);
            && (r == [] || (!IsPySpace(r[0]) && !IsPySpace(r[|r| - 1])))
            && (forall k :: 0 <= k < lo ==> IsPySpace(s[k]))
            && (forall k :: lo + |r| <= k < |s| ==> IsPySpace(s[k]))
  {
    StripEnds(s);
    LeadingSpaceSpec(s);
    StripTrailing(s);
  }

  // ------------------------------------------------------ split(pat)[0]

  /** `s.split(pat)[0]`: the text before the first occurrence of `pat`, or
      all of `s` when `pat` does not occur. */
  function BeforeFirst(s: string, pat: string): (r: string)
    requires |pat| > 0
    ensures IsPrefix(r, s)
    ensures forall k :: 0 <= k < |r| ==> !OccursAt(s, pat, k)
    ensures r == s || OccursAt(s, pat, |r|)
    decreases |s|
  {
    if IsPrefix(pat, s) then
      assert OccursAt(s, pat, 0);
      ""
    else if |s| == 0 then ""
    else
      var r := BeforeFirst(s[1..], pat);
      assert forall k :: 0 <= k < |r| + 1 ==> !OccursAt(s, pat, k) by {
        forall k | 0 <= k < |r| + 1
          ensures !OccursAt(s, pat, k)
        {
          if k == 0 {
            if |pat| <= |s| { assert s[0..|pat|] == s[..|pat|]; }
          } else {
            OccursAtTail(s, pat, k - 1);
          }
        }
      }
      OccursAtTail(s, pat, |r|);
      [s[0]] + r
  }

  /** The text before the first `pat` holds no `pat`. */
  lemma BeforeFirstHasNoPattern(s: string, pat: string)
    requires |pat| > 0
    ensures !Contains(BeforeFirst(s, pat), pat)
  {
    var r := BeforeFirst(s, pat);
    ContainsIffOccurs(r, pat);
    if j :| OccursAt(r, pat, j) {
      assert s[..|r|] == r;
      assert r[j..j + |pat|] == s[j..j + |pat|];
      assert OccursAt(s, pat, j);
    }
  }

  /** When `pat` does not occur, `s.split(pat)[0]` is `s` itself. */
  lemma BeforeFirstAbsent(s: string, pat: string)
    requires |pat| > 0 && !Contains(s, pat)
    ensures BeforeFirst(s, pat) == s
  {
    ContainsIffOccurs(s, pat);
  }

  // ------------------------------------------------------------ str(int)

  function DigitChar(d: nat): (c: char)
    requires d < 10
    ensures '0' <= c <= '9'
  {
    (48 + d) as char
  }

  /** `str(n)` for a natural number: its decimal digits. */
  function NatToString(n: nat): (r: string)
    ensures |r| >= 1 && forall k :: 0 <= k < |r| ==> '0' <= r[k] <= '9'
    decreases n
  {
    if n < 10 then [DigitChar(n)] else NatToString(n / 10) + [DigitChar(n % 10)]
  }

  /** `str(i)` for an integer. */
  function IntToString(i: int): string {
    if i < 0 then "-" + NatToString(-i) else NatToString(i)
  }

  // ------------------------------------------------------------- slicing

  /** How CPython normalises a slice bound `i` for a sequence of length `n`:
      a negative bound counts from the end, and the result is clamped to [0, n]. */
  function SliceBound(n: nat, i: int): (b: nat)
    ensures b <= n
    ensures 0 <= i ==> b == if i <= n then i else n
    ensures i < 0 ==> b == if -i <= n then n + i else 0
  {
    if i < 0 then (if i + n < 0 then 0 else i + n) else if i > n then n else i
  }

  /** `s[:stop]` */
  function Take<T>(s: seq<T>, stop: int): seq<T> {
    s[..SliceBound(|s|, stop)]
  }

  /** `s[start:]` */
  function Drop<T>(s: seq<T>, start: int): seq<T> {
    s[SliceBound(|s|, start)..]
  }

  /** `s[i]`; None stands for the IndexError of an index outside [-|s|, |s|). */
  function At<T>(s: seq<T>, i: int): (r: Option<T>)
    ensures r.Some? <==> -|s| <= i < |s|
    ensures 0 <= i < |s| ==> r == Some(s[i])
    ensures -|s| <= i < 0 ==> r == Some(s[|s| + i])
  {
    if 0 <= i < |s| then Some(s[i]) else if -|s| <= i < 0 then Some(s[|s| + i]) else None
  }
}
