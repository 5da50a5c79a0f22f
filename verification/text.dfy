/** The handful of Python `str` operations the sync script relies on:
    `strip()` and `split()` with no argument (Unicode whitespace, as
    `str.isspace` defines it), `rstrip("/")`, `startswith`, `replace`, and
    decimal rendering of a counter. */
module Text {

  import opened Wrappers

  /** Python's `str.isspace` for one character: the ASCII controls
      TAB..CR and FS..US, SPACE, NEL, NBSP and the Unicode separators. */
  predicate IsSpace(c: char) {
    || c == ' '
    || ('\t' <= c <= '\r')
    || ('\U{1C}' <= c <= '\U{1F}')
    || c == '\U{85}' || c == '\U{A0}' || c == '\U{1680}'
    || ('\U{2000}' <= c <= '\U{200A}')
    || c == '\U{2028}' || c == '\U{2029}' || c == '\U{202F}'
    || c == '\U{205F}' || c == '\U{3000}'
  }

  predicate AllSpace(s: string) {
    forall i :: 0 <= i < |s| ==> IsSpace(s[i])
  }

  predicate NoSpace(s: string) {
    forall i :: 0 <= i < |s| ==> !IsSpace(s[i])
  }

  /** A Python value is truthy as a string exactly when it is present and non-empty. */
  predicate Truthy(o: Option<string>) {
    o.Some? && o.value != ""
  }

  /** Python's `a or b` where `a` is an optional string and `b` a string. */
  function OrElse(a: Option<string>, b: string): (r: string)
    ensures Truthy(a) ==> r == a.value
    ensures !Truthy(a) ==> r == b
  {
    if Truthy(a) then a.value else b
  }

  // ---------------------------------------------------------------------
  // strip()

  /** A leading whitespace character does not change whether a prefix, or
      the whole string, is all whitespace. */
  lemma AllSpaceCons(s: string, k: nat)
    requires s != [] && IsSpace(s[0]) && 1 <= k <= |s|
    ensures AllSpace(s[..k]) <==> AllSpace(s[1..][..k - 1])
    ensures AllSpace(s) <==> AllSpace(s[1..])
  {
    var t := s[1..];
    assert forall i :: 1 <= i < k ==> s[..k][i] == t[..k - 1][i - 1];
    assert forall i :: 1 <= i < |s| ==> s[i] == t[i - 1];
  }

  function TrimLeft(s: string): (r: string)
    ensures |r| <= |s| && r == s[|s| - |r|..]
    ensures AllSpace(s[..|s| - |r|])
    ensures r == [] || !IsSpace(r[0])
    ensures r == [] <==> AllSpace(s)
  {
    if s != [] && IsSpace(s[0]) then
      var r := TrimLeft(s[1..]);
      AllSpaceCons(s, |s| - |r|);
      r
    else s
  }

  function TrimRight(s: string): (r: string)
    ensures |r| <= |s| && r == s[..|r|]
    ensures AllSpace(s[|r|..])
    ensures r == [] || !IsSpace(r[|r| - 1])
    ensures r == [] <==> AllSpace(s)
  {
    if s != [] && IsSpace(s[|s| - 1]) then TrimRight(s[..|s| - 1]) else s
  }

  /** Python's `s.strip()`: `s` with every leading and trailing whitespace
      character removed; empty exactly when `s` is all whitespace.
      `StripSlice` states what is kept. */
  function Strip(s: string): (r: string)
    ensures |r| <= |s|
    ensures r == [] <==> AllSpace(s)
  {
    var t := TrimLeft(s);
    assert t != [] ==> !AllSpace(t) by {
      if t != [] { assert !IsSpace(t[0]); }
    }
    TrimRight(t)
  }

  /** What `strip()` keeps: a slice of `s` whose ends are not whitespace,
      with only whitespace cut off on either side. */
  lemma StripSlice(s: string)
    ensures var r := Strip(s);
      && |r| <= |s|
      && (exists i, j :: 0 <= i <= j <= |s| && r == s[i..j] && AllSpace(s[..i]) && AllSpace(s[j..]))
      && (r == [] || (!IsSpace(r[0]) && !IsSpace(r[|r| - 1])))
      && (r == [] <==> AllSpace(s))
  {
    var t := TrimLeft(s);
    var r := TrimRight(t);
    assert Strip(s) == r;
    var i := |s| - |t|;
    assert r == s[i..i + |r|];
    assert AllSpace(s[i + |r|..]) by {
      assert s[i + |r|..] == t[|r|..];
    }
    assert AllSpace(t) <==> t == [] by {
      if t != [] { assert !IsSpace(t[0]); }
    }
    assert 0 <= i <= i + |r| <= |s| && r == s[i..i + |r|] && AllSpace(s[..i]) && AllSpace(s[i + |r|..]);
  }

  // ---------------------------------------------------------------------
  // split()

  /** Length of the longest whitespace-free prefix of `s`. */
  function TokenLen(s: string): (n: nat)
    ensures n <= |s| && NoSpace(s[..n])
    ensures n < |s| ==> IsSpace(s[n])
  {
    if s == [] || IsSpace(s[0]) then 0 else 1 + TokenLen(s[1..])
  }

  /** Python's `s.split()` with no separator: the maximal runs of
      non-whitespace characters, in order. */
  function Split(s: string): (r: seq<string>)
    ensures forall i :: 0 <= i < |r| ==> r[i] != [] && NoSpace(r[i])
    decreases |s|
  {
    if s == [] then []
    else if IsSpace(s[0]) then Split(s[1..])
    else
      var n := TokenLen(s);
      [s[..n]] + Split(s[n..])
  }

  /** All tokens glued back together. */
  function Concat(ts: seq<string>): string {
    if ts == [] then [] else ts[0] + Concat(ts[1..])
  }

  /** `s` with every whitespace character deleted. */
  function RemoveSpaces(s: string): string {
    if s == [] then [] else (if IsSpace(s[0]) then [] else [s[0]]) + RemoveSpaces(s[1..])
  }

  /** `split()` yields nothing exactly when the string is all whitespace. */
  lemma {:induction false} SplitEmptyIffAllSpace(s: string)
    ensures Split(s) == [] <==> AllSpace(s)
    decreases |s|
  {
    if s != [] && IsSpace(s[0]) {
      SplitEmptyIffAllSpace(s[1..]);
      if AllSpace(s[1..]) {
        forall k | 0 <= k < |s| ensures IsSpace(s[k]) {
          if k > 0 { assert s[k] == s[1..][k - 1]; }
        }
      }
    }
  }

  /** A single whitespace character separates tokens: the tokens of
      `a + [c] + b` are those of `a` followed by those of `b`. Together
      with `SplitOfToken` this pins `split()` down completely. */
  lemma {:induction false} SplitAtSpace(a: string, c: char, b: string)
    requires IsSpace(c)
    ensures Split(a + [c] + b) == Split(a) + Split(b)
    decreases |a|
  {
    var s := a + [c] + b;
    if a == [] {
      assert s[1..] == b;
    } else if IsSpace(a[0]) {
      assert s[1..] == a[1..] + [c] + b;
      SplitAtSpace(a[1..], c, b);
    } else {
      var n := TokenLen(s);
      var m := TokenLen(a);
      TokenLenPrefix(a, [c] + b);
      assert a + [c] + b == a + ([c] + b);
      assert n == m;
      assert s[..n] == a[..m];
      assert s[n..] == a[m..] + [c] + b;
      SplitAtSpace(a[m..], c, b);
    }
  }

  lemma {:induction false} TokenLenPrefix(a: string, b: string)
    requires b != [] && IsSpace(b[0])
    ensures TokenLen(a + b) == TokenLen(a)
    decreases |a|
  {
    if a == [] {
      assert a + b == b;
    } else if !IsSpace(a[0]) {
      assert (a + b)[1..] == a[1..] + b;
      TokenLenPrefix(a[1..], b);
    }
  }

  /** A non-empty whitespace-free string is one token. */
  lemma SplitOfToken(t: string)
    requires t != [] && NoSpace(t)
    ensures Split(t) == [t]
  {
    TokenLenAll(t);
    assert t[..|t|] == t;
    assert t[|t|..] == [];
  }

  lemma {:induction false} TokenLenAll(t: string)
    requires NoSpace(t)
    ensures TokenLen(t) == |t|
    decreases |t|
  {
    if t != [] {
      TokenLenAll(t[1..]);
    }
  }

  /** Trailing whitespace produces no token. */
  lemma SplitTrailingSpace(s: string, c: char)
    requires IsSpace(c)
    ensures Split(s + [c]) == Split(s)
  {
    SplitAtSpace(s, c, []);
    assert s + [c] + [] == s + [c];
  }

  lemma {:induction false} SplitTrimRight(s: string)
    ensures Split(TrimRight(s)) == Split(s)
    decreases |s|
  {
    if s != [] && IsSpace(s[|s| - 1]) {
      var p := s[..|s| - 1];
      SplitTrimRight(p);
      assert s == p + [s[|s| - 1]];
      SplitTrailingSpace(p, s[|s| - 1]);
    }
  }

  lemma {:induction false} SplitTrimLeft(s: string)
    ensures Split(TrimLeft(s)) == Split(s)
    decreases |s|
  {
    if s != [] && IsSpace(s[0]) {
      SplitTrimLeft(s[1..]);
    }
  }

  /** `s.strip().split() == s.split()`: stripping first changes nothing. */
  lemma SplitOfStrip(s: string)
    ensures Split(Strip(s)) == Split(s)
  {
    SplitTrimRight(TrimLeft(s));
    SplitTrimLeft(s);
  }

  lemma {:induction false} RemoveSpacesOfToken(s: string, n: nat)
    requires n <= |s| && NoSpace(s[..n])
    ensures RemoveSpaces(s) == s[..n] + RemoveSpaces(s[n..])
    decreases n
  {
    if n > 0 {
      RemoveSpacesOfToken(s[1..], n - 1);
      assert s[1..][..n - 1] == s[1..n];
      assert s[1..][n - 1..] == s[n..];
      assert !IsSpace(s[..n][0]);
      assert s[..n] == [s[0]] + s[1..n];
    }
  }

  /** The tokens carry exactly the non-whitespace characters of the input,
      in order: nothing is lost, duplicated or reordered. */
  lemma {:induction false} ConcatOfSplit(s: string)
    ensures Concat(Split(s)) == RemoveSpaces(s)
    decreases |s|
  {
    if s != [] {
      if IsSpace(s[0]) {
        ConcatOfSplit(s[1..]);
      } else {
        var n := TokenLen(s);
        var r := Split(s);
        assert r == [s[..n]] + Split(s[n..]);
        assert r[1..] == Split(s[n..]);
        ConcatOfSplit(s[n..]);
        RemoveSpacesOfToken(s, n);
      }
    }
  }

  // ---------------------------------------------------------------------
  // rstrip(c), startswith, replace

  /** Python's `s.rstrip(c)` for a single character `c`. */
  function RStripChar(s: string, c: char): (r: string)
    ensures |r| <= |s| && r == s[..|r|]
    ensures forall i :: |r| <= i < |s| ==> s[i] == c
    ensures r == [] || r[|r| - 1] != c
  {
    if s != [] && s[|s| - 1] == c then RStripChar(s[..|s| - 1], c) else s
  }

  /** Stripping a run of `c` that ends a string leaves what came before. */
  lemma {:induction false} RStripCharRun(p: string, c: char, k: nat)
    requires p == [] || p[|p| - 1] != c
    ensures RStripChar(p + seq(k, _ => c), c) == p
    decreases k
  {
    var s := p + seq(k, _ => c);
    if k > 0 {
      assert s[..|s| - 1] == p + seq(k - 1, _ => c);
      RStripCharRun(p, c, k - 1);
    } else {
      assert s == p;
    }
  }

  predicate StartsWith(s: string, p: string) {
    |p| <= |s| && s[..|p|] == p
  }

  predicate EndsWith(s: string, p: string) {
    |p| <= |s| && s[|s| - |p|..] == p
  }

  /** Python's `s.replace(c, rep)` for a one-character pattern: every
      occurrence of `c`, not only a trailing one, is replaced. */
  function ReplaceChar(s: string, c: char, rep: string): (r: string)
    ensures c !in rep ==> c !in r
    ensures c !in s ==> r == s
  {
    if s == [] then [] else (if s[0] == c then rep else [s[0]]) + ReplaceChar(s[1..], c, rep)
  }

  lemma {:induction false} ReplaceCharAppend(a: string, b: string, c: char, rep: string)
    ensures ReplaceChar(a + b, c, rep) == ReplaceChar(a, c, rep) + ReplaceChar(b, c, rep)
    decreases |a|
  {
    if a != [] {
      assert (a + b)[1..] == a[1..] + b;
      ReplaceCharAppend(a[1..], b, c, rep);
    } else {
      assert a + b == b;
    }
  }

  /** A single trailing `c` (and nothing else) becomes `rep`. */
  lemma ReplaceTrailing(p: string, c: char, rep: string)
    requires c !in p
    ensures ReplaceChar(p + [c], c, rep) == p + rep
  {
    ReplaceCharAppend(p, [c], c, rep);
    assert ReplaceChar([c], c, rep) == rep + ReplaceChar([], c, rep);
  }

  /** A string that neither starts nor ends with whitespace is its own strip. */
  lemma StripUntrimmed(s: string)
    requires s == [] || (!IsSpace(s[0]) && !IsSpace(s[|s| - 1]))
    ensures Strip(s) == s
  {
  }

  /** Stripping twice is stripping once. */
  lemma StripIdempotent(s: string)
    ensures Strip(Strip(s)) == Strip(s)
  {
    var t := TrimLeft(s);
    var r := TrimRight(t);
    assert Strip(s) == r;
    if r != [] {
      assert r[0] == t[0];
    }
    StripUntrimmed(r);
  }

  // ---------------------------------------------------------------------
  // decimal rendering, as in an f-string `{n}`

  function DigitChar(d: nat): char
    requires d < 10
  {
    ['0', '1', '2', '3', '4', '5', '6', '7', '8', '9'][d]
  }

  predicate IsDigit(c: char) {
    '0' <= c <= '9'
  }

  function DigitValue(c: char): nat
    requires IsDigit(c)
  {
    (c as int - '0' as int) as nat
  }

  /** Decimal rendering of `n` without leading zeros. */
  function NatToString(n: nat): (r: string)
    ensures r != []
    ensures forall i :: 0 <= i < |r| ==> IsDigit(r[i])
    ensures r[0] == '0' ==> n == 0
  {
    if n < 10 then [DigitChar(n)] else NatToString(n / 10) + [DigitChar(n % 10)]
  }

  /** Reads a string of decimal digits back as a number. */
  function ParseDigits(s: string): nat
    requires forall i :: 0 <= i < |s| ==> IsDigit(s[i])
  {
    if s == [] then 0 else 10 * ParseDigits(s[..|s| - 1]) + DigitValue(s[|s| - 1])
  }

  /** The rendering is read back exactly, so distinct counters give
      distinct strings. */
  lemma {:induction false} ParseNatToString(n: nat)
    ensures ParseDigits(NatToString(n)) == n
  {
    var r := NatToString(n);
    if n >= 10 {
      ParseNatToString(n / 10);
      assert r[..|r| - 1] == NatToString(n / 10);
    }
  }

  lemma NatToStringInjective(m: nat, n: nat)
    requires NatToString(m) == NatToString(n)
    ensures m == n
  {
    ParseNatToString(m);
    ParseNatToString(n);
  }
}
