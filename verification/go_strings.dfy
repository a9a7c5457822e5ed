/**
  The few functions of Go's `strings` package that the extractor relies on,
  over `string` = `seq<char>`.  Go strings are byte strings; this model works
  on characters and, for case mapping, on ASCII letters only.
 */
module GoStrings {

  datatype Option<+T> = None | Some(value: T)

  /** `pat` occurs in `s` at index `i`. */
  predicate Occurs(s: string, pat: string, i: int) {
    0 <= i && i + |pat| <= |s| && s[i..i + |pat|] == pat
  }

  /** `a` is a suffix of `s` (strings.HasSuffix). */
  predicate IsSuffix(a: string, s: string) {
    |a| <= |s| && s[|s| - |a|..] == a
  }

  lemma SuffixOfConcat(a: string, b: string)
    ensures IsSuffix(b, a + b)
  {
    assert (a + b)[|a|..] == b;
  }

  lemma SuffixExtend(p: string, t: string, x: string)
    requires IsSuffix(x, t)
    ensures IsSuffix(x, p + t)
  {
    assert (p + t)[|p + t| - |x|..] == t[|t| - |x|..];
  }

  lemma Regroup(a: string, b: string, c: string, d: string)
    ensures (a + b) + c + d == a + (b + c + d)
  {
  }

  /** strings.Index: the position of the first occurrence of `pat`, if any. */
  function Index(s: string, pat: string): (r: Option<nat>)
    ensures r.Some? ==> Occurs(s, pat, r.value)
    ensures r.Some? ==> forall j :: 0 <= j < r.value ==> !Occurs(s, pat, j)
    ensures r.None? ==> forall j :: !Occurs(s, pat, j)
    decreases |s|
  {
    if |s| < |pat| then None
    else if s[..|pat|] == pat then Some(0)
    else
      var r := Index(s[1..], pat);
      assert forall j :: 1 <= j ==> (Occurs(s, pat, j) <==> Occurs(s[1..], pat, j - 1)) by {
        forall j | 1 <= j ensures Occurs(s, pat, j) <==> Occurs(s[1..], pat, j - 1) {
          if j + |pat| <= |s| {
            assert s[1..][j - 1..j - 1 + |pat|] == s[j..j + |pat|];
          }
        }
      }
      match r
      case None => None
      case Some(i) => Some(i + 1)
  }

  /** For a one-character pattern, Index finds the first position holding it. */
  lemma IndexChar(s: string, c: char)
    ensures Index(s, [c]).None? <==> c !in s
    ensures Index(s, [c]).Some? ==> s[Index(s, [c]).value] == c && c !in s[..Index(s, [c]).value]
  {
    forall j | 0 <= j < |s| ensures Occurs(s, [c], j) <==> s[j] == c {
      assert s[j..j + 1] == [s[j]];
    }
  }

  /** strings.Contains. */
  function Contains(s: string, pat: string): (b: bool)
    ensures b <==> exists j :: Occurs(s, pat, j)
  {
    Index(s, pat).Some?
  }

  /**
    strings.SplitN(s, sep, 2): the text before the first `sep` and the text
    after it, or `[s]` when `sep` does not occur.
   */
  function SplitN2(s: string, sep: string): (r: seq<string>)
    requires sep != ""
    ensures 1 <= |r| <= 2
    ensures |r| == 2 <==> Contains(s, sep)
    ensures |r| == 1 ==> r[0] == s
    ensures |r| == 2 ==> Occurs(s, sep, |r[0]|) && s == r[0] + sep + r[1]
    ensures |r| == 2 ==> forall j :: 0 <= j < |r[0]| ==> !Occurs(s, sep, j)
  {
    match Index(s, sep)
    case None => [s]
    case Some(i) =>
      assert s == s[..i] + sep + s[i + |sep|..];
      [s[..i], s[i + |sep|..]]
  }

  /**
    strings.Join: no parts give "", one part gives that part, and from two
    parts on the first part is followed by the separator and the last part
    preceded by it.
   */
  function Join(parts: seq<string>, sep: string): (r: string)
    ensures |parts| == 0 ==> r == ""
    ensures |parts| == 1 ==> r == parts[0]
    ensures |parts| >= 2 ==> parts[0] + sep <= r
    ensures |parts| >= 2 ==> IsSuffix(sep + parts[|parts| - 1], r)
  {
    if |parts| == 0 then ""
    else if |parts| == 1 then parts[0]
    else
      var tail := Join(parts[1..], sep);
      var last := parts[|parts| - 1];
      assert parts[1..][|parts| - 2] == last;
      if |parts| == 2 then
        assert parts[0] + sep + tail == parts[0] + (sep + last);
        SuffixOfConcat(parts[0], sep + last);
        parts[0] + sep + tail
      else
        SuffixExtend(parts[0] + sep, tail, sep + last);
        parts[0] + sep + tail
  }

  lemma JoinTwo(a: string, b: string, sep: string)
    ensures Join([a, b], sep) == a + sep + b
  {
    assert [a, b][1..] == [b];
  }

  lemma JoinThree(a: string, b: string, c: string, sep: string)
    ensures Join([a, b, c], sep) == a + sep + (b + sep + c)
  {
    assert [a, b, c][1..] == [b, c];
    JoinTwo(b, c, sep);
  }

  /** Joining one more part appends the separator and that part. */
  lemma {:induction false} JoinSnoc(parts: seq<string>, x: string, sep: string)
    requires |parts| >= 1
    ensures Join(parts + [x], sep) == Join(parts, sep) + sep + x
    decreases |parts|
  {
    if |parts| == 1 {
      assert parts + [x] == [parts[0], x];
      assert [parts[0], x][1..] == [x];
    } else {
      assert (parts + [x])[1..] == parts[1..] + [x];
      JoinSnoc(parts[1..], x, sep);
    }
  }

  /** A join starts with its first part and ends with its last. */
  lemma {:induction false} JoinEnds(parts: seq<string>, sep: string)
    requires |parts| >= 1
    ensures parts[0] <= Join(parts, sep)
    ensures IsSuffix(parts[|parts| - 1], Join(parts, sep))
    decreases |parts|
  {
    if |parts| > 1 {
      JoinEnds(parts[1..], sep);
      assert parts[1..][|parts| - 2] == parts[|parts| - 1];
      var tail := Join(parts[1..], sep);
      assert Join(parts, sep) == parts[0] + sep + tail;
      assert Join(parts, sep)[|Join(parts, sep)| - |tail|..] == tail;
    }
  }

  /** strings.Split with a one-character separator. */
  function Split(s: string, sep: char): (r: seq<string>)
    ensures |r| >= 1
    ensures forall i :: 0 <= i < |r| ==> sep !in r[i]
    ensures Join(r, [sep]) == s
    decreases |s|
  {
    IndexChar(s, sep);
    match Index(s, [sep])
    case None => [s]
    case Some(i) =>
      var rest := Split(s[i + 1..], sep);
      assert ([s[..i]] + rest)[1..] == rest;
      assert s == s[..i] + [sep] + s[i + 1..];
      [s[..i]] + rest
  }

  /** strings.TrimSuffix. */
  function TrimSuffix(s: string, suffix: string): (r: string)
    ensures IsSuffix(suffix, s) ==> r + suffix == s
    ensures !IsSuffix(suffix, s) ==> r == s
  {
    if IsSuffix(suffix, s) then s[..|s| - |suffix|] else s
  }

  predicate IsUpper(c: char) {
    'A' <= c <= 'Z'
  }

  predicate IsLower(c: char) {
    'a' <= c <= 'z'
  }

  predicate IsLetter(c: char) {
    IsUpper(c) || IsLower(c)
  }

  function LowerChar(c: char): (d: char)
    ensures !IsUpper(d)
    ensures !IsLetter(c) ==> d == c
  {
    if IsUpper(c) then (c as int - 'A' as int + 'a' as int) as char else c
  }

  function UpperChar(c: char): (d: char)
    ensures LowerChar(d) == LowerChar(c)
  {
    if IsLower(c) then (c as int - 'a' as int + 'A' as int) as char else c
  }

  /** strings.ToLower, restricted to ASCII letters. */
  function ToLower(s: string): (r: string)
    ensures |r| == |s|
    ensures forall i :: 0 <= i < |r| ==> !IsUpper(r[i])
    ensures CaseEq(r, s)
  {
    seq(|s|, i requires 0 <= i < |s| => LowerChar(s[i]))
  }

  /** Lower-casing neither adds nor removes a character that is not a letter. */
  lemma ToLowerNonLetter(s: string, c: char)
    requires !IsLetter(c)
    ensures c in ToLower(s) <==> c in s
  {
    var r := ToLower(s);
    if c in s {
      var i :| 0 <= i < |s| && s[i] == c;
      assert r[i] == c;
    }
    if c in r {
      var i :| 0 <= i < |r| && r[i] == c;
      assert s[i] == c;
    }
  }

  /** strings.ToUpper, restricted to ASCII letters. */
  function ToUpper(s: string): (r: string)
    ensures |r| == |s|
  {
    seq(|s|, i requires 0 <= i < |s| => UpperChar(s[i]))
  }

  /** `a` and `b` differ at most in the case of ASCII letters. */
  predicate CaseEq(a: string, b: string) {
    |a| == |b| && forall i :: 0 <= i < |a| ==> LowerChar(a[i]) == LowerChar(b[i])
  }

  lemma UpperCaseEq(s: string)
    ensures CaseEq(ToUpper(s), s)
  {
  }

  /** Case-equal strings agree on every position holding a non-letter. */
  lemma CaseEqNonLetter(a: string, b: string, i: int, c: char)
    requires CaseEq(a, b) && 0 <= i < |a| && !IsLetter(c)
    ensures a[i] == c <==> b[i] == c
  {
    if a[i] == c {
      assert LowerChar(b[i]) == c;
    }
    if b[i] == c {
      assert LowerChar(a[i]) == c;
    }
  }

  lemma CaseEqSlice(a: string, b: string, lo: int, hi: int)
    requires CaseEq(a, b) && 0 <= lo <= hi <= |a|
    ensures CaseEq(a[lo..hi], b[lo..hi])
  {
    forall i | 0 <= i < hi - lo ensures LowerChar(a[lo..hi][i]) == LowerChar(b[lo..hi][i]) {
      assert a[lo..hi][i] == a[lo + i];
    }
  }

  /** Case-equal strings both start, or both do not start, with a letter-free pattern. */
  lemma PrefixCaseEq(a: string, b: string, pat: string)
    requires CaseEq(a, b) && |pat| <= |a|
    requires forall k :: 0 <= k < |pat| ==> !IsLetter(pat[k])
    ensures a[..|pat|] == pat <==> b[..|pat|] == pat
  {
    forall k | 0 <= k < |pat| ensures a[k] == pat[k] <==> b[k] == pat[k] {
      CaseEqNonLetter(a, b, k, pat[k]);
    }
    if a[..|pat|] == pat {
      assert forall k :: 0 <= k < |pat| ==> a[k] == pat[k];
      assert b[..|pat|] == pat;
    }
    if b[..|pat|] == pat {
      assert forall k :: 0 <= k < |pat| ==> b[k] == pat[k];
      assert a[..|pat|] == pat;
    }
  }

  /** Index of a letter-free pattern cannot tell case-equal strings apart. */
  lemma {:induction false} IndexCaseEq(a: string, b: string, pat: string)
    requires CaseEq(a, b)
    requires forall k :: 0 <= k < |pat| ==> !IsLetter(pat[k])
    ensures Index(a, pat) == Index(b, pat)
    decreases |a|
  {
    if |a| >= |pat| {
      PrefixCaseEq(a, b, pat);
      if a[..|pat|] != pat {
        CaseEqSlice(a, b, 1, |a|);
        IndexCaseEq(a[1..], b[1..], pat);
      }
    }
  }

  lemma TrimSuffixCaseEq(a: string, b: string, suffix: string)
    requires CaseEq(a, b)
    requires forall k :: 0 <= k < |suffix| ==> !IsLetter(suffix[k])
    ensures CaseEq(TrimSuffix(a, suffix), TrimSuffix(b, suffix))
  {
    if |suffix| <= |a| {
      var n := |a| - |suffix|;
      forall k | 0 <= k < |suffix| ensures a[n + k] == suffix[k] <==> b[n + k] == suffix[k] {
        CaseEqNonLetter(a, b, n + k, suffix[k]);
      }
      if IsSuffix(suffix, a) {
        assert forall k :: 0 <= k < |suffix| ==> a[n + k] == suffix[k];
        assert IsSuffix(suffix, b);
      }
      if IsSuffix(suffix, b) {
        assert forall k :: 0 <= k < |suffix| ==> b[n + k] == suffix[k];
        assert IsSuffix(suffix, a);
      }
      CaseEqSlice(a, b, 0, n);
    }
  }

  /** Number of occurrences of `c` in `s`. */
  function Count(s: string, c: char): (n: nat)
    ensures n <= |s|
    ensures n == 0 <==> c !in s
  {
    if s == [] then 0
    else (if s[0] == c then 1 else 0) + Count(s[1..], c)
  }

  /** strings.ReplaceAll(s, [c], rep): every `c` becomes `rep`. */
  function ReplaceAll(s: string, c: char, rep: string): (r: string)
    ensures c !in s ==> r == s
    ensures c !in rep ==> c !in r
    ensures forall x :: x in r ==> x in s || x in rep
  {
    if s == [] then ""
    else (if s[0] == c then rep else [s[0]]) + ReplaceAll(s[1..], c, rep)
  }

  /** Replacing by a two-character string adds one character per occurrence. */
  lemma {:induction false} ReplaceAllLength(s: string, c: char, rep: string)
    requires |rep| == 2
    ensures |ReplaceAll(s, c, rep)| == |s| + Count(s, c)
    decreases |s|
  {
    if s != [] {
      ReplaceAllLength(s[1..], c, rep);
      var head := if s[0] == c then rep else [s[0]];
      assert ReplaceAll(s, c, rep) == head + ReplaceAll(s[1..], c, rep);
    }
  }
}
