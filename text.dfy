/**
  The Python string primitives the summarizer relies on: `str.isspace`,
  `strip`/`lstrip`/`rstrip`, `rfind(sub, 0, end)`, `split(sep)` and
  negative slicing `s[-n:]`, stated over `string` (a sequence of code points).
 */
module Text {

  /** Python's `str.isspace()` for one code point. */
  predicate IsSpace(c: char) {
    var n := c as int;
    n == 0x20 || 0x09 <= n <= 0x0D || 0x1C <= n <= 0x1F || n == 0x85 || n == 0xA0
    || n == 0x1680 || 0x2000 <= n <= 0x200A || n == 0x2028 || n == 0x2029
    || n == 0x202F || n == 0x205F || n == 0x3000
  }

  predicate AllSpace(s: string) {
    forall i :: 0 <= i < |s| ==> IsSpace(s[i])
  }

  /** The visible (non-whitespace) characters of `s`, in order. */
  function NonSpace(s: string): string
  {
    if s == [] then []
    else (if IsSpace(s[0]) then [] else [s[0]]) + NonSpace(s[1..])
  }

  lemma {:induction false} NonSpaceAppend(a: string, b: string)
    ensures NonSpace(a + b) == NonSpace(a) + NonSpace(b)
  {
    if a == [] {
      assert a + b == b;
    } else {
      assert (a + b)[1..] == a[1..] + b;
      NonSpaceAppend(a[1..], b);
    }
  }

  lemma {:induction false} NonSpaceEmpty(s: string)
    ensures NonSpace(s) == [] <==> AllSpace(s)
  {
    if s != [] {
      NonSpaceEmpty(s[1..]);
      assert forall i :: 1 <= i < |s| ==> s[i] == s[1..][i - 1];
    }
  }

  /** The number of leading whitespace characters of `s`. */
  function LeadingSpace(s: string): (k: nat)
    ensures k <= |s|
    ensures forall i :: 0 <= i < k ==> IsSpace(s[i])
    ensures k < |s| ==> !IsSpace(s[k])
  {
    if s != [] && IsSpace(s[0]) then 1 + LeadingSpace(s[1..]) else 0
  }

  /** The length of `s` without its trailing whitespace. */
  function TrailingStart(s: string): (k: nat)
    ensures k <= |s|
    ensures forall i :: k <= i < |s| ==> IsSpace(s[i])
    ensures k > 0 ==> !IsSpace(s[k - 1])
  {
    if s != [] && IsSpace(s[|s| - 1]) then TrailingStart(s[..|s| - 1]) else |s|
  }

  /** `s.lstrip()` */
  function LStrip(s: string): string
  {
    s[LeadingSpace(s)..]
  }

  /** `s.rstrip()` */
  function RStrip(s: string): string
  {
    s[..TrailingStart(s)]
  }

  /** `s.strip()` */
  function Strip(s: string): (r: string)
    ensures r == [] <==> AllSpace(s)
    ensures r == [] || (!IsSpace(r[0]) && !IsSpace(r[|r| - 1]))
    ensures LeadingSpace(s) + |r| <= |s| && r == s[LeadingSpace(s)..LeadingSpace(s) + |r|]
  {
    var l := LStrip(s);
    var r := RStrip(l);
    assert l != [] ==> l[0] == s[LeadingSpace(s)];
    assert r == [] ==> LeadingSpace(s) == |s|;
    r
  }

  /** Stripping removes whitespace only. */
  lemma StripKeepsText(s: string)
    ensures NonSpace(LStrip(s)) == NonSpace(s)
    ensures NonSpace(Strip(s)) == NonSpace(s)
  {
    var k := LeadingSpace(s);
    assert s == s[..k] + s[k..];
    NonSpaceAppend(s[..k], s[k..]);
    NonSpaceEmpty(s[..k]);
    var l := LStrip(s);
    var j := TrailingStart(l);
    assert l == l[..j] + l[j..];
    NonSpaceAppend(l[..j], l[j..]);
    NonSpaceEmpty(l[j..]);
  }

  /** A stripped string is its own `strip()`. */
  lemma StripStripped(s: string)
    requires s == [] || (!IsSpace(s[0]) && !IsSpace(s[|s| - 1]))
    ensures Strip(s) == s
  {
  }

  /** `s[-n:]` for a positive `n`: the last `n` characters, or all of `s` when it is shorter. */
  function Tail(s: string, n: int): (r: string)
    requires n > 0
    ensures |r| <= n && (|s| <= n ==> r == s)
    ensures |s| > n ==> |r| == n
    ensures |r| <= |s| && r == s[|s| - |r|..]
  {
    if |s| <= n then s else s[|s| - n..]
  }

  function Concat(ss: seq<string>): string
  {
    if ss == [] then [] else ss[0] + Concat(ss[1..])
  }

  /** `pat` occurs in `s` starting at index `p`. */
  predicate OccursAt(s: string, pat: string, p: int) {
    0 <= p && p + |pat| <= |s| && s[p..p + |pat|] == pat
  }

  /**
    `s.rfind(pat, 0, end)`: the start of the last occurrence of `pat` lying
    wholly inside `s[0:end]` (the window is cut at `|s|`), or -1 when there is
    none; `RFindSpec` states this.
   */
  function RFind(s: string, pat: string, end: nat): (r: int)
    ensures r == -1 || (0 <= r && r + |pat| <= end)
    decreases end
  {
    if end > |s| then RFind(s, pat, |s|)
    else if end < |pat| then -1
    else if s[end - |pat|..end] == pat then end - |pat|
    else RFind(s, pat, end - 1)
  }

  lemma {:induction false} RFindSpec(s: string, pat: string, end: nat)
    ensures var r := RFind(s, pat, end);
      && (r == -1 <==> forall p :: p + |pat| <= end ==> !OccursAt(s, pat, p))
      && (r != -1 ==> OccursAt(s, pat, r))
      && (r != -1 ==> forall q :: r < q && q + |pat| <= end ==> !OccursAt(s, pat, q))
    decreases end
  {
    if end > |s| {
      RFindSpec(s, pat, |s|);
      assert forall p :: |s| < p + |pat| ==> !OccursAt(s, pat, p);
    } else if end < |pat| {
    } else if s[end - |pat|..end] == pat {
      assert OccursAt(s, pat, end - |pat|);
    } else {
      RFindSpec(s, pat, end - 1);
      assert !OccursAt(s, pat, end - |pat|);
      assert RFind(s, pat, end) == RFind(s, pat, end - 1);
    }
  }

  /** `s.split(sep)` for a one-character separator: never empty, `"".split(sep) == [""]`. */
  function Split(s: string, sep: char): (parts: seq<string>)
    ensures |parts| >= 1
    ensures forall i :: 0 <= i < |parts| ==> sep !in parts[i]
  {
    if s == [] then [[]]
    else
      var rest := Split(s[1..], sep);
      if s[0] == sep then [[]] + rest
      else [[s[0]] + rest[0]] + rest[1..]
  }

  /** `sep.join(parts)` */
  function Join(parts: seq<string>, sep: char): string
    requires |parts| >= 1
  {
    if |parts| == 1 then parts[0] else parts[0] + [sep] + Join(parts[1..], sep)
  }

  /** Joining what `split` returned gives the string back. */
  lemma {:induction false} JoinSplit(s: string, sep: char)
    ensures Join(Split(s, sep), sep) == s
  {
    if s != [] {
      var rest := Split(s[1..], sep);
      JoinSplit(s[1..], sep);
      if s[0] == sep {
        assert ([[]] + rest)[1..] == rest;
      } else if |rest| > 1 {
        var parts := [[s[0]] + rest[0]] + rest[1..];
        assert parts[1..] == rest[1..];
        assert s == [s[0]] + s[1..];
      } else {
        assert s == [s[0]] + s[1..];
      }
    }
  }

  lemma {:induction false} SplitPrefix(a: string, t: string, sep: char)
    requires sep !in a
    ensures var st := Split(t, sep);
      Split(a + t, sep) == [a + st[0]] + st[1..]
  {
    if a != [] {
      assert (a + t)[0] == a[0];
      assert (a + t)[1..] == a[1..] + t;
      SplitPrefix(a[1..], t, sep);
      assert [a[0]] + (a[1..] + Split(t, sep)[0]) == a + Split(t, sep)[0];
    } else {
      var st := Split(t, sep);
      assert a + t == t && a + st[0] == st[0];
      assert [st[0]] + st[1..] == st;
    }
  }

  /** Splitting a join of separator-free parts gives the parts back. */
  lemma {:induction false} SplitJoin(parts: seq<string>, sep: char)
    requires |parts| >= 1
    requires forall i :: 0 <= i < |parts| ==> sep !in parts[i]
    ensures Split(Join(parts, sep), sep) == parts
  {
    if |parts| == 1 {
      SplitPrefix(parts[0], [], sep);
      assert parts[0] + [] == parts[0];
      assert Split([], sep) == [[]];
      assert Join(parts, sep) == parts[0];
    } else {
      var j := Join(parts[1..], sep);
      SplitJoin(parts[1..], sep);
      assert parts[0] + [sep] + j == parts[0] + ([sep] + j);
      SplitPrefix(parts[0], [sep] + j, sep);
      assert ([sep] + j)[1..] == j;
      assert Split([sep] + j, sep) == [[]] + parts[1..];
      assert parts[0] + [] == parts[0];
      assert parts == [parts[0]] + parts[1..];
    }
  }

  /** The separator is whitespace, so joining with it adds no visible character. */
  lemma {:induction false} NonSpaceJoin(parts: seq<string>, sep: char)
    requires |parts| >= 1 && IsSpace(sep)
    ensures NonSpace(Join(parts, sep)) == NonSpace(Concat(parts))
  {
    if |parts| > 1 {
      NonSpaceJoin(parts[1..], sep);
      NonSpaceAppend(parts[0] + [sep], Join(parts[1..], sep));
      NonSpaceAppend(parts[0], [sep]);
      NonSpaceAppend(parts[0], Concat(parts[1..]));
    } else {
      assert Concat(parts) == parts[0] + Concat([]);
      assert parts[0] + [] == parts[0];
    }
  }
}
