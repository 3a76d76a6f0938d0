/**
 * The behaviour of the few Go `strings`, `unicode` and `unicode/utf8` routines that
 * the tag grammar relies on. A Go string is modelled as the sequence of its code
 * points; the byte view is recovered through `Utf8Width`.
 */
module GoText {
  import opened Wrappers

  /** `unicode.IsSpace`: exactly the code points with the Unicode White_Space property. */
  predicate IsSpace(c: char) {
    || c == '\t' || c == '\n' || c == '\U{0B}' || c == '\U{0C}' || c == '\r' || c == ' '
    || c == '\U{85}' || c == '\U{A0}' || c == '\U{1680}'
    || ('\U{2000}' <= c <= '\U{200A}')
    || c == '\U{2028}' || c == '\U{2029}' || c == '\U{202F}' || c == '\U{205F}' || c == '\U{3000}'
  }

  /** Number of bytes of the UTF-8 encoding of `c`. */
  function Utf8Width(c: char): (w: nat)
    ensures 1 <= w <= 4
    ensures w == 1 <==> c as int < 0x80
  {
    if c as int < 0x80 then 1
    else if c as int < 0x800 then 2
    else if c as int < 0x10000 then 3
    else 4
  }

  /** Drops the leading white space of `s`. */
  function TrimLeft(s: string): (r: string)
    ensures |r| <= |s| && r == s[|s| - |r|..]
    ensures r == [] || !IsSpace(r[0])
    ensures forall k :: 0 <= k < |s| - |r| ==> IsSpace(s[k])
  {
    if |s| > 0 && IsSpace(s[0]) then TrimLeft(s[1..]) else s
  }

  /** Drops the trailing white space of `s`. */
  function TrimRight(s: string): (r: string)
    ensures |r| <= |s| && r == s[..|r|]
    ensures r == [] || !IsSpace(r[|r| - 1])
    ensures forall k :: |r| <= k < |s| ==> IsSpace(s[k])
  {
    if |s| > 0 && IsSpace(s[|s| - 1]) then TrimRight(s[..|s| - 1]) else s
  }

  /** `strings.TrimSpace`: `s` without its leading and trailing white space. */
  function TrimSpace(s: string): (r: string)
    ensures |r| <= |s|
    ensures r == [] <==> forall k :: 0 <= k < |s| ==> IsSpace(s[k])
    ensures r != [] ==> !IsSpace(r[0]) && !IsSpace(r[|r| - 1])
    ensures (|s| == 0 || (!IsSpace(s[0]) && !IsSpace(s[|s| - 1]))) ==> r == s
    ensures exists a, b :: 0 <= a <= b <= |s| && r == s[a..b] && AllSpace(s, 0, a) && AllSpace(s, b, |s|)
  {
    var l := TrimLeft(s);
    var r := TrimRight(l);
    TrimBothSlice(s, l, r);
    assert r != [] ==> r[0] == l[0];
    assert r == [] ==> l == [];
    r
  }

  /** Every code point of `s` in `[lo, hi)` is white space. */
  predicate AllSpace(s: string, lo: nat, hi: nat)
    requires lo <= hi <= |s|
  {
    forall k :: lo <= k < hi ==> IsSpace(s[k])
  }

  /** A prefix `r` of a suffix `l` of `s`, with only white space cut off on either side,
      is a slice of `s` with only white space around it. */
  lemma TrimBothSlice(s: string, l: string, r: string)
    requires |l| <= |s| && l == s[|s| - |l|..] && AllSpace(s, 0, |s| - |l|)
    requires |r| <= |l| && r == l[..|r|] && AllSpace(l, |r|, |l|)
    ensures exists a, b :: 0 <= a <= b <= |s| && r == s[a..b] && AllSpace(s, 0, a) && AllSpace(s, b, |s|)
  {
    var a := |s| - |l|;
    var b := a + |r|;
    assert r == s[a..b];
    AllSpaceSuffix(s, a, |r|);
    assert AllSpace(s, b, |s|);
  }

  /** White space at the end of the suffix `s[a..]` is white space at the end of `s`. */
  lemma AllSpaceSuffix(s: string, a: nat, lo: nat)
    requires a + lo <= |s|
    requires AllSpace(s[a..], lo, |s| - a)
    ensures AllSpace(s, a + lo, |s|)
  {
    forall k | a + lo <= k < |s| ensures IsSpace(s[k]) {
      assert s[k] == s[a..][k - a];
    }
  }

  /** ASCII letter case folding; every other code point is left as it is. */
  function LowerAscii(c: char): char {
    if 'A' <= c <= 'Z' then (c as int + 32) as char else c
  }

  /** `strings.ToLower`, restricted to ASCII letters. */
  function ToLower(s: string): (r: string)
    ensures |r| == |s| && forall k :: 0 <= k < |s| ==> r[k] == LowerAscii(s[k])
    ensures forall k :: 0 <= k < |r| ==> !('A' <= r[k] <= 'Z')
  {
    if s == [] then [] else [LowerAscii(s[0])] + ToLower(s[1..])
  }

  /** `strings.Replace(s, [from], [to], -1)` for one-character `from` and `to`. */
  function ReplaceAll(s: string, from: char, to: char): (r: string)
    ensures |r| == |s|
    ensures forall k :: 0 <= k < |s| ==> r[k] == if s[k] == from then to else s[k]
    ensures from != to ==> from !in r
  {
    if s == [] then [] else [if s[0] == from then to else s[0]] + ReplaceAll(s[1..], from, to)
  }

  /** `strings.IndexRune`: the position of the first `c` in `s`. */
  function Index(s: string, c: char): (r: Option<nat>)
    ensures r.None? <==> c !in s
    ensures r.Some? ==> r.value < |s| && s[r.value] == c && c !in s[..r.value]
  {
    if s == [] then None
    else if s[0] == c then Some(0)
    else match Index(s[1..], c)
      case None => None
      case Some(m) => assert s[..m + 1] == [s[0]] + s[1..][..m]; Some(m + 1)
  }

  /** Inverse of splitting: the parts glued back together with `sep` between them. */
  function Join(parts: seq<string>, sep: char): string
    requires |parts| >= 1
  {
    if |parts| == 1 then parts[0] else parts[0] + [sep] + Join(parts[1..], sep)
  }

  /**
   * `strings.SplitN(s, [sep], n)` for `n >= 1`: the parts between the first `n - 1`
   * occurrences of `sep`, the last part holding the unsplit rest.
   */
  function SplitN(s: string, sep: char, n: nat): (parts: seq<string>)
    requires n >= 1
    ensures |parts| == if multiset(s)[sep] < n then multiset(s)[sep] + 1 else n
    ensures Join(parts, sep) == s
    ensures forall k :: 0 <= k < |parts| - 1 ==> sep !in parts[k]
    ensures |parts| < n ==> sep !in parts[|parts| - 1]
    decreases n
  {
    if n == 1 then [s]
    else match Index(s, sep)
      case None =>
        assert multiset(s)[sep] == 0;
        [s]
      case Some(m) =>
        var rest := SplitN(s[m + 1..], sep, n - 1);
        CountAround(s, sep, m);
        assert ([s[..m]] + rest)[1..] == rest;
        [s[..m]] + rest
  }

  /** Cutting `s` at an occurrence of `sep` that has no earlier one. */
  lemma CountAround(s: string, sep: char, m: nat)
    requires m < |s| && s[m] == sep && sep !in s[..m]
    ensures s == s[..m] + [sep] + s[m + 1..]
    ensures multiset(s)[sep] == 1 + multiset(s[m + 1..])[sep]
  {
    assert s == s[..m] + [sep] + s[m + 1..];
    assert multiset(s) == multiset(s[..m]) + multiset([sep]) + multiset(s[m + 1..]);
    assert multiset(s[..m])[sep] == 0;
  }

  /** The first part of a split is the text before the first separator. */
  lemma SplitNHead(s: string, sep: char, n: nat)
    requires n >= 2
    ensures SplitN(s, sep, n)[0] == match Index(s, sep) case None => s case Some(m) => s[..m]
  {
  }

  /** Splitting into at most three parts, case by case on how often `sep` occurs. */
  lemma SplitN3(s: string, sep: char)
    ensures var v, c := SplitN(s, sep, 3), multiset(s)[sep];
      && v[0] == (match Index(s, sep) case None => s case Some(m) => s[..m])
      && sep !in v[0] && (|v| > 1 ==> sep !in v[1])
      && (c == 0 ==> v == [s])
      && (c == 1 ==> |v| == 2 && s == v[0] + [sep] + v[1])
      && (c >= 2 ==> |v| == 3 && s == v[0] + [sep] + v[1] + [sep] + v[2])
  {
    var v := SplitN(s, sep, 3);
    SplitNHead(s, sep, 3);
    JoinParts(v, sep);
  }

  lemma JoinParts(v: seq<string>, sep: char)
    requires 1 <= |v| <= 3
    ensures |v| == 1 ==> Join(v, sep) == v[0]
    ensures |v| == 2 ==> Join(v, sep) == v[0] + [sep] + v[1]
    ensures |v| == 3 ==> Join(v, sep) == v[0] + [sep] + v[1] + [sep] + v[2]
  {
    if |v| >= 2 {
      assert Join(v, sep) == v[0] + [sep] + Join(v[1..], sep);
      if |v| == 3 {
        assert Join(v[1..], sep) == v[1] + [sep] + Join(v[2..], sep);
      }
    }
  }

  /** `Index` finds the first occurrence. */
  lemma IndexAt(s: string, c: char, m: nat)
    requires m < |s| && s[m] == c && c !in s[..m]
    ensures Index(s, c) == Some(m)
  {
  }

  /** Splitting into three parts at the first two occurrences `m1 < m2` of `sep`. */
  lemma SplitN3At(s: string, sep: char, m1: nat, m2: nat)
    requires m1 < m2 < |s| && s[m1] == sep && s[m2] == sep
    requires sep !in s[..m1] && sep !in s[m1 + 1..m2]
    ensures SplitN(s, sep, 3) == [s[..m1], s[m1 + 1..m2], s[m2 + 1..]]
  {
    var t, m := s[m1 + 1..], m2 - m1 - 1;
    SliceOfSlice(s, m1 + 1, m2);
    SplitN2At(t, sep, m);
    SplitNAt(s, sep, 3, m1);
    ConsPair(s[..m1], t[..m], t[m + 1..], SplitN(t, sep, 2));
  }

  /** Cutting the suffix of `s` from `a` at the position of `s[b]`. */
  lemma SliceOfSlice(s: string, a: nat, b: nat)
    requires a <= b < |s|
    ensures s[a..][..b - a] == s[a..b] && s[a..][b - a] == s[b] && s[a..][b - a + 1..] == s[b + 1..]
  {
  }

  lemma ConsPair<T>(x: T, y: T, z: T, r: seq<T>)
    requires r == [y, z]
    ensures [x] + r == [x, y, z]
  {
  }

  /** Splitting into two parts at the first occurrence `m` of `sep`. */
  lemma SplitN2At(s: string, sep: char, m: nat)
    requires m < |s| && s[m] == sep && sep !in s[..m]
    ensures SplitN(s, sep, 2) == [s[..m], s[m + 1..]]
  {
    SplitNAt(s, sep, 2, m);
  }

  /** Splitting at the first occurrence `m` of `sep`: the part before it, then the rest split into one part fewer. */
  lemma SplitNAt(s: string, sep: char, n: nat, m: nat)
    requires n >= 2 && m < |s| && s[m] == sep && sep !in s[..m]
    ensures SplitN(s, sep, n) == [s[..m]] + SplitN(s[m + 1..], sep, n - 1)
  {
    IndexAt(s, sep, m);
  }
}
