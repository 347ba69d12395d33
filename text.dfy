/** String helpers shared by the pipeline: the character classes of Python's
    regular expressions (`\s`, `\d`, `\w`), `str.strip`, `str.lower`,
    `str.join`, substring tests and slicing. Character classes are the ASCII
    parts of Python's Unicode classes. */
module Text {

  /** Whitespace as `str.isspace` and the regex class `\s` see it, restricted
      to ASCII: space, tab through carriage return, and the four separators
      0x1C-0x1F. */
  predicate IsSpace(c: char) {
    c == ' ' || 9 <= c as int <= 13 || 28 <= c as int <= 31
  }

  /** The regex class `\d`, restricted to ASCII. */
  predicate IsDigit(c: char) {
    '0' <= c <= '9'
  }

  predicate IsUpper(c: char) {
    'A' <= c <= 'Z'
  }

  /** The regex class `\w`, restricted to ASCII: letters, digits, underscore. */
  predicate IsWordChar(c: char) {
    IsUpper(c) || 'a' <= c <= 'z' || IsDigit(c) || c == '_'
  }

  function LowerChar(c: char): (d: char)
    ensures !IsUpper(d)
    ensures IsWordChar(d) == IsWordChar(c)
    ensures IsSpace(d) == IsSpace(c)
  {
    if IsUpper(c) then (c as int + 32) as char else c
  }

  /** `str.lower`, on ASCII letters. */
  function Lower(s: string): (r: string)
    ensures |r| == |s|
    ensures forall i :: 0 <= i < |s| ==> r[i] == LowerChar(s[i])
  {
    seq(|s|, i requires 0 <= i < |s| => LowerChar(s[i]))
  }

  /** `s.replace(" ", "")`: every space character removed, nothing else. */
  function RemoveSpaces(s: string): (r: string)
    ensures |r| <= |s|
    ensures forall i :: 0 <= i < |r| ==> r[i] != ' '
  {
    if s == [] then []
    else (if s[0] == ' ' then [] else [s[0]]) + RemoveSpaces(s[1..])
  }

  /** The non-whitespace characters of `s`, in order. */
  function NonSpace(s: string): (r: string)
    ensures |r| <= |s|
  {
    if s == [] then []
    else (if IsSpace(s[0]) then [] else [s[0]]) + NonSpace(s[1..])
  }

  predicate AllSpace(s: string) {
    forall i :: 0 <= i < |s| ==> IsSpace(s[i])
  }

  /** Number of leading whitespace characters. */
  function Lead(s: string): (n: nat)
    ensures n <= |s|
  {
    if s != [] && IsSpace(s[0]) then 1 + Lead(s[1..]) else 0
  }

  /** The leading run is whitespace and ends at a non-whitespace character. */
  lemma {:induction false} LeadSpec(s: string)
    ensures AllSpace(s[..Lead(s)])
    ensures Lead(s) < |s| ==> !IsSpace(s[Lead(s)])
  {
    if s != [] && IsSpace(s[0]) {
      LeadSpec(s[1..]);
      assert s[..Lead(s)] == [s[0]] + s[1..][..Lead(s[1..])];
    }
  }

  /** Number of trailing whitespace characters. */
  function Trail(s: string): (n: nat)
    ensures n <= |s|
  {
    if s != [] && IsSpace(s[|s| - 1]) then 1 + Trail(s[..|s| - 1]) else 0
  }

  /** The trailing run is whitespace and starts after a non-whitespace
      character. */
  lemma {:induction false} TrailSpec(s: string)
    ensures AllSpace(s[|s| - Trail(s)..])
    ensures Trail(s) < |s| ==> !IsSpace(s[|s| - 1 - Trail(s)])
  {
    if s != [] && IsSpace(s[|s| - 1]) {
      var s' := s[..|s| - 1];
      TrailSpec(s');
      assert s[|s| - Trail(s)..] == s'[|s'| - Trail(s')..] + [s[|s| - 1]];
    }
  }

  /** `str.strip()`: the slice of `s` between its leading and trailing
      whitespace. */
  function Strip(s: string): (r: string)
    ensures |r| <= |s|
  {
    var a := Lead(s);
    if a == |s| then []
    else
      var b := |s| - Trail(s);
      if a < b then s[a..b] else []
  }

  /** `Strip` removes exactly the leading and trailing whitespace: the result
      is a slice of `s`, empty exactly when `s` is all whitespace, otherwise
      starting and ending with non-whitespace, and what it drops is
      whitespace. */
  lemma StripSpec(s: string)
    ensures var r := Strip(s);
      && ((r == []) <==> AllSpace(s))
      && (r != [] ==> !IsSpace(r[0]) && !IsSpace(r[|r| - 1]))
      && Lead(s) + |r| <= |s| && r == s[Lead(s)..Lead(s) + |r|]
      && AllSpace(s[..Lead(s)]) && AllSpace(s[Lead(s) + |r|..])
  {
    LeadSpec(s);
    TrailSpec(s);
    if Lead(s) == |s| {
      StripAllSpace(s);
    } else {
      StripSome(s);
    }
  }

  lemma StripAllSpace(s: string)
    requires Lead(s) == |s| && AllSpace(s[..Lead(s)])
    ensures Strip(s) == [] && AllSpace(s)
  {
    assert s[..Lead(s)] == s;
  }

  lemma LeadBeforeTrail(s: string, a: nat, t: nat)
    requires a < |s| && !IsSpace(s[a]) && t <= |s| && AllSpace(s[|s| - t..])
    ensures a < |s| - t
  {
  }

  lemma StripSome(s: string)
    requires Lead(s) < |s| && !IsSpace(s[Lead(s)])
    requires AllSpace(s[|s| - Trail(s)..])
    requires Trail(s) < |s| ==> !IsSpace(s[|s| - 1 - Trail(s)])
    ensures var r, a := Strip(s), Lead(s);
      && r != [] && !AllSpace(s)
      && !IsSpace(r[0]) && !IsSpace(r[|r| - 1])
      && a + |r| <= |s| && r == s[a..a + |r|]
      && AllSpace(s[a + |r|..])
  {
    var a, t := Lead(s), Trail(s);
    assert !AllSpace(s) by { assert !IsSpace(s[a]); }
    LeadBeforeTrail(s, a, t);
    var r := s[a..|s| - t];
    assert Strip(s) == r;
    assert r[0] == s[a] && r[|r| - 1] == s[|s| - 1 - t];
    assert s[a + |r|..] == s[|s| - t..];
  }

  /** `t in s` for strings: `t` occurs in `s` at offset `i`. */
  predicate OccursAt(s: string, t: string, i: int) {
    0 <= i && i + |t| <= |s| && s[i..i + |t|] == t
  }

  /** `t in s` for strings: `t` is a substring of `s`. */
  predicate Contains(s: string, t: string) {
    exists i | 0 <= i <= |s| - |t| :: OccursAt(s, t, i)
  }

  predicate StartsWith(s: string, p: string) {
    |p| <= |s| && s[..|p|] == p
  }

  /** `s.endswith(suffix)`. */
  predicate EndsWith(s: string, suffix: string) {
    |suffix| <= |s| && s[|s| - |suffix|..] == suffix
  }

  /** `s[:n]` for `n >= 0`: the first `n` elements, or all of `s` when it is
      shorter. */
  function Take<T>(s: seq<T>, n: nat): (r: seq<T>)
    ensures |r| == if n < |s| then n else |s|
    ensures r == s[..|r|]
  {
    if n < |s| then s[..n] else s
  }

  /** `a` is `b` with some elements left out, the rest in their order. */
  predicate IsSubsequence<T(==)>(a: seq<T>, b: seq<T>)
    decreases |b|
  {
    if a == [] then true
    else if b == [] then false
    else if a[0] == b[0] then IsSubsequence(a[1..], b[1..])
    else IsSubsequence(a, b[1..])
  }

  lemma {:induction false} PrefixIsSubsequence<T>(b: seq<T>, n: nat)
    requires n <= |b|
    ensures IsSubsequence(b[..n], b)
    decreases |b|
  {
    if n > 0 {
      assert b[..n][1..] == b[1..][..n - 1];
      PrefixIsSubsequence(b[1..], n - 1);
    }
  }

  lemma {:induction false} SubsequenceDropHead<T>(a: seq<T>, b: seq<T>)
    requires a != [] && IsSubsequence(a, b)
    ensures IsSubsequence(a[1..], b)
    decreases |b|, 1
  {
    if a[0] == b[0] {
      SubsequenceSkip(a[1..], b);
    } else {
      SubsequenceDropHead(a, b[1..]);
      SubsequenceSkip(a[1..], b);
    }
  }

  /** A subsequence of the tail is a subsequence of the whole. */
  lemma {:induction false} SubsequenceSkip<T>(a: seq<T>, b: seq<T>)
    requires b != [] && IsSubsequence(a, b[1..])
    ensures IsSubsequence(a, b)
    decreases |b|, 0
  {
    if a != [] && a[0] == b[0] {
      SubsequenceDropHead(a, b[1..]);
    }
  }

  lemma {:induction false} SubsequenceTrans<T>(a: seq<T>, b: seq<T>, c: seq<T>)
    requires IsSubsequence(a, b) && IsSubsequence(b, c)
    ensures IsSubsequence(a, c)
    decreases |c|
  {
    if a != [] && c != [] {
      if b[0] == c[0] {
        if a[0] == b[0] {
          SubsequenceTrans(a[1..], b[1..], c[1..]);
        } else {
          SubsequenceTrans(a, b[1..], c[1..]);
          SubsequenceSkip(a, c);
        }
      } else {
        SubsequenceTrans(a, b, c[1..]);
        SubsequenceSkip(a, c);
      }
    }
  }

  lemma {:induction false} SubsequenceLength<T>(a: seq<T>, b: seq<T>)
    requires IsSubsequence(a, b)
    ensures |a| <= |b|
    decreases |b|
  {
    if a != [] {
      if a[0] == b[0] {
        SubsequenceLength(a[1..], b[1..]);
      } else {
        SubsequenceLength(a, b[1..]);
      }
    }
  }

  lemma {:induction false} SubsequenceMembers<T>(a: seq<T>, b: seq<T>)
    requires IsSubsequence(a, b)
    ensures forall x :: x in a ==> x in b
    decreases |b|
  {
    if a != [] {
      if a[0] == b[0] {
        SubsequenceMembers(a[1..], b[1..]);
        forall x | x in a ensures x in b {
          if x != a[0] { assert x in a[1..]; }
        }
      } else {
        SubsequenceMembers(a, b[1..]);
      }
    }
  }

  /** `sep.join(parts)`. */
  function Join(parts: seq<string>, sep: string): string {
    if |parts| == 0 then ""
    else if |parts| == 1 then parts[0]
    else parts[0] + sep + Join(parts[1..], sep)
  }

  /** All strings of `parts` one after the other. */
  function Concat(parts: seq<string>): string {
    if |parts| == 0 then "" else Concat(parts[..|parts| - 1]) + parts[|parts| - 1]
  }

  /** The sequences `f` gives for each element of `xs`, one after the other. */
  function FlatMap<A, B>(f: A -> seq<B>, xs: seq<A>): seq<B> {
    if xs == [] then [] else FlatMap(f, xs[..|xs| - 1]) + f(xs[|xs| - 1])
  }

  lemma {:induction false} FlatMapAppend<A, B>(f: A -> seq<B>, a: seq<A>, b: seq<A>)
    ensures FlatMap(f, a + b) == FlatMap(f, a) + FlatMap(f, b)
    decreases |b|
  {
    if b == [] {
      assert a + b == a;
    } else {
      var b' := b[..|b| - 1];
      assert (a + b)[..|a + b| - 1] == a + b';
      assert (a + b)[|a + b| - 1] == b[|b| - 1];
      FlatMapAppend(f, a, b');
    }
  }

  lemma FlatMapSnoc<A, B>(f: A -> seq<B>, xs: seq<A>, i: nat)
    requires i < |xs|
    ensures FlatMap(f, xs[..i + 1]) == FlatMap(f, xs[..i]) + f(xs[i])
  {
    assert xs[..i + 1][..i] == xs[..i];
  }

  lemma {:induction false} NonSpaceAppend(a: string, b: string)
    ensures NonSpace(a + b) == NonSpace(a) + NonSpace(b)
  {
    if a != [] {
      var h := if IsSpace(a[0]) then [] else [a[0]];
      assert (a + b)[0] == a[0] && (a + b)[1..] == a[1..] + b;
      NonSpaceAppend(a[1..], b);
      calc {
        NonSpace(a + b);
        h + NonSpace(a[1..] + b);
        h + (NonSpace(a[1..]) + NonSpace(b));
        (h + NonSpace(a[1..])) + NonSpace(b);
        NonSpace(a) + NonSpace(b);
      }
    } else {
      assert a + b == b;
    }
  }

  lemma {:induction false} NonSpaceOfAllSpace(s: string)
    requires AllSpace(s)
    ensures NonSpace(s) == []
  {
    if s != [] {
      NonSpaceOfAllSpace(s[1..]);
    }
  }

  /** Stripping only ever removes whitespace. */
  lemma NonSpaceStrip(s: string)
    ensures NonSpace(Strip(s)) == NonSpace(s)
  {
    var r := Strip(s);
    var a := Lead(s);
    StripSpec(s);
    assert s == s[..a] + r + s[a + |r|..];
    NonSpaceAppend(s[..a] + r, s[a + |r|..]);
    NonSpaceAppend(s[..a], r);
    NonSpaceOfAllSpace(s[..a]);
    NonSpaceOfAllSpace(s[a + |r|..]);
  }

  /** A join of two or more parts: the first part, the separator, and the
      join of the rest. */
  lemma {:induction false} JoinCons(x: string, rest: seq<string>, sep: string)
    requires rest != []
    ensures Join([x] + rest, sep) == x + sep + Join(rest, sep)
  {
    assert ([x] + rest)[1..] == rest;
  }

  /** Prefixing the first part prefixes the join. */
  lemma JoinPrefixFirst(c: string, parts: seq<string>, sep: string)
    requires parts != []
    ensures Join([c + parts[0]] + parts[1..], sep) == c + Join(parts, sep)
  {
    assert [parts[0]] + parts[1..] == parts;
    if |parts| > 1 {
      JoinCons(c + parts[0], parts[1..], sep);
      JoinCons(parts[0], parts[1..], sep);
    }
  }

  lemma ConcatAppend(parts: seq<string>, x: string)
    ensures Concat(parts + [x]) == Concat(parts) + x
  {
    assert (parts + [x])[..|parts|] == parts;
  }

  lemma {:induction false} ConcatSplit(a: seq<string>, b: seq<string>)
    ensures Concat(a + b) == Concat(a) + Concat(b)
  {
    if b == [] {
      assert a + b == a;
    } else {
      var b' := b[..|b| - 1];
      assert a + b == (a + b') + [b[|b| - 1]];
      assert b == b' + [b[|b| - 1]];
      ConcatAppend(a + b', b[|b| - 1]);
      ConcatAppend(b', b[|b| - 1]);
      ConcatSplit(a, b');
    }
  }

  /** Every part of a join occurs in it. */
  lemma {:induction false} JoinContainsPart(parts: seq<string>, sep: string, j: nat)
    requires j < |parts|
    ensures Contains(Join(parts, sep), parts[j])
    decreases |parts|
  {
    if |parts| == 1 {
      assert OccursAt(parts[0], parts[0], 0);
    } else if j == 0 {
      assert OccursAt(Join(parts, sep), parts[0], 0);
    } else {
      JoinContainsPart(parts[1..], sep, j - 1);
      ContainsInfix(parts[0] + sep, Join(parts[1..], sep), "", parts[j]);
      assert parts[0] + sep + Join(parts[1..], sep) + "" == Join(parts, sep);
    }
  }

  /** A join of parts of at most `m` characters has at most `m` plus the
      separator's length per part. */
  lemma {:induction false} JoinLengthBound(parts: seq<string>, sep: string, m: nat)
    requires forall i :: 0 <= i < |parts| ==> |parts[i]| <= m
    ensures |Join(parts, sep)| <= |parts| * (m + |sep|)
    decreases |parts|
  {
    if |parts| > 1 {
      JoinLengthBound(parts[1..], sep, m);
      assert |parts| * (m + |sep|) == (|parts| - 1) * (m + |sep|) + (m + |sep|);
    }
  }

  /** A string contains its own prefix at offset 0. */
  lemma ContainsPrefix(s: string, p: string)
    requires StartsWith(s, p)
    ensures Contains(s, p)
  {
    assert OccursAt(s, p, 0);
  }

  /** Whatever a string contains, a longer string built around it contains too. */
  lemma ContainsInfix(a: string, t: string, b: string, x: string)
    requires Contains(t, x)
    ensures Contains(a + t + b, x)
  {
    var i :| 0 <= i <= |t| - |x| && OccursAt(t, x, i);
    assert (a + t + b)[|a| + i..|a| + i + |x|] == t[i..i + |x|];
    assert OccursAt(a + t + b, x, |a| + i);
  }

  /** Containment is transitive. */
  lemma ContainsTrans(s: string, t: string, x: string)
    requires Contains(s, t) && Contains(t, x)
    ensures Contains(s, x)
  {
    var i :| 0 <= i <= |s| - |t| && OccursAt(s, t, i);
    var k :| 0 <= k <= |t| - |x| && OccursAt(t, x, k);
    forall m | 0 <= m < |x| ensures s[i + k + m] == x[m] {
      assert s[i + k + m] == s[i..i + |t|][k + m];
      assert t[k + m] == t[k..k + |x|][m];
    }
    assert s[i + k..i + k + |x|] == x;
    assert OccursAt(s, x, i + k);
  }
}
