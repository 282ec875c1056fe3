/** The few Python string built-ins the eBird script relies on, with their
    CPython meaning: `str.ljust`, negative slicing `s[-n:]` and `int(str)` in
    base 10. `Join` builds the `&`-separated query of the listing URL, and
    `Split` reads it back the way a server does. */
module PyStr {

  datatype Option<T> = None | Some(value: T)

  /** `s.ljust(width, fill)`: `s` followed by `fill` up to `width` characters;
      a string already that long comes back unchanged. */
  function LJust(s: string, width: nat, fill: char): (r: string)
    ensures |r| == if |s| < width then width else |s|
    ensures r[..|s|] == s
    ensures forall i :: |s| <= i < |r| ==> r[i] == fill
    ensures width <= |s| ==> r == s
  {
    if |s| < width then s + seq(width - |s|, _ => fill) else s
  }

  /** `s[-n:]` for n > 0: the last `n` characters, or all of `s` when it is
      shorter. (`s[-0:]` would be all of `s`.) */
  function Tail(s: string, n: nat): string
    requires n > 0
  {
    if |s| < n then s else s[|s| - n..]
  }

  /** `n` copies of `x`: what a loop that reads the same element `n` times sees. */
  function Repeat<T>(x: T, n: nat): (r: seq<T>)
    ensures |r| == n
    ensures forall i :: 0 <= i < n ==> r[i] == x
  {
    if n == 0 then [] else Repeat(x, n - 1) + [x]
  }

  /** Number of occurrences of `x` in `s`. */
  function Count<T(==)>(s: seq<T>, x: T): nat
  {
    if s == [] then 0 else Count(s[..|s| - 1], x) + (if s[|s| - 1] == x then 1 else 0)
  }

  lemma {:induction false} CountRepeat<T>(x: T, y: T, n: nat)
    ensures Count(Repeat(x, n), y) == if x == y then n else 0
  {
    if n > 0 {
      assert Repeat(x, n)[..n - 1] == Repeat(x, n - 1);
      CountRepeat(x, y, n - 1);
    }
  }

  lemma TakeSnoc<T>(s: seq<T>, i: nat)
    requires i < |s|
    ensures s[..i] + [s[i]] == s[..i + 1]
  {
  }

  lemma AppendAssoc<T>(a: seq<T>, b: seq<T>, c: seq<T>)
    ensures (a + b) + c == a + (b + c)
  {
  }

  lemma {:induction false} CountAppend<T>(a: seq<T>, b: seq<T>, x: T)
    ensures Count(a + b, x) == Count(a, x) + Count(b, x)
  {
    if b == [] {
      assert a + b == a;
    } else {
      assert (a + b)[..|a + b| - 1] == a + b[..|b| - 1];
      CountAppend(a, b[..|b| - 1], x);
    }
  }

  // ---------------------------------------------------------------------------
  // int(s) for a str argument, base 10
  // ---------------------------------------------------------------------------

  /** The characters `int()` skips around the digits of an ASCII string:
      space, tab, line feed, vertical tab, form feed and carriage return.
      The separator controls 0x1c-0x1f, white space for `str.isspace`, are
      not among them. */
  predicate IsSpace(c: char)
  {
    var k := c as int;
    k == 32 || 9 <= k <= 13
  }

  predicate IsDigit(c: char)
  {
    '0' <= c <= '9'
  }

  /** Index of the first character at or after `i` that is not white space. */
  function TextStart(s: string, i: nat): (j: nat)
    requires i <= |s|
    ensures i <= j <= |s|
    decreases |s| - i
  {
    if i < |s| && IsSpace(s[i]) then TextStart(s, i + 1) else i
  }

  /** Index just past the last character before `j`, and not before `lo`,
      that is not white space. */
  function TextEnd(s: string, lo: nat, j: nat): (k: nat)
    requires lo <= j <= |s|
    ensures lo <= k <= j
  {
    if lo < j && IsSpace(s[j - 1]) then TextEnd(s, lo, j - 1) else j
  }

  /** `s[lo..hi]` is a base-10 digit string in Python's grammar: digits,
      with single underscores allowed only between two digits. */
  predicate IsDigitRun(s: string, lo: nat, hi: nat)
    requires lo <= hi <= |s|
    decreases hi - lo
  {
    lo < hi && IsDigit(s[lo]) &&
    (lo + 1 == hi || IsDigitRun(s, lo + 1, hi) || (s[lo + 1] == '_' && IsDigitRun(s, lo + 2, hi)))
  }

  /** Value of the digits of `s[lo..hi]`, most significant first, skipping underscores. */
  function RunValue(s: string, lo: nat, hi: nat): nat
    requires lo <= hi <= |s|
    decreases hi - lo
  {
    if hi == lo then 0
    else if s[hi - 1] == '_' then RunValue(s, lo, hi - 1)
    else
      var d := s[hi - 1] as int - '0' as int;
      RunValue(s, lo, hi - 1) * 10 + (if 0 <= d <= 9 then d else 0)
  }

  /** `int(s)`: `None` where CPython raises `ValueError`. Text without a
      digit never parses. */
  function ParseInt(s: string): (r: Option<int>)
    ensures r.Some? ==> exists i :: 0 <= i < |s| && IsDigit(s[i])
  {
    var a := TextStart(s, 0);
    var b := TextEnd(s, a, |s|);
    var signed := a < b && (s[a] == '-' || s[a] == '+');
    var d := if signed then a + 1 else a;
    if IsDigitRun(s, d, b) then
      assert IsDigit(s[d]);
      var v: int := RunValue(s, d, b);
      Some(if signed && s[a] == '-' then -v else v)
    else None
  }

  function Pow10(n: nat): (r: nat)
    ensures r >= 1
  {
    if n == 0 then 1 else 10 * Pow10(n - 1)
  }

  lemma {:induction false} Pow10Grows(i: nat, j: nat)
    requires i <= j
    ensures Pow10(i) <= Pow10(j)
    decreases j - i
  {
    if i < j {
      Pow10Grows(i, j - 1);
    }
  }

  /** A run of n characters holds a value below 10^n. */
  lemma {:induction false} RunValueBound(s: string, lo: nat, hi: nat)
    requires lo <= hi <= |s|
    ensures RunValue(s, lo, hi) < Pow10(hi - lo)
    decreases hi - lo
  {
    if lo < hi {
      RunValueBound(s, lo, hi - 1);
      Pow10Grows(hi - 1 - lo, hi - lo);
      var v := RunValue(s, lo, hi - 1);
      assert v + 1 <= Pow10(hi - 1 - lo);
      assert 10 * (v + 1) <= Pow10(hi - lo);
    }
  }

  /** `int()` of at most four characters lies in -999..9999, and below 1000
      when there are fewer than four: a sign leaves room for three digits. */
  lemma ParseIntRange(s: string)
    requires |s| <= 4
    ensures ParseInt(s).Some? ==> -999 <= ParseInt(s).value <= 9999
    ensures ParseInt(s).Some? && |s| < 4 ==> ParseInt(s).value <= 999
  {
    var a := TextStart(s, 0);
    var b := TextEnd(s, a, |s|);
    var signed := a < b && (s[a] == '-' || s[a] == '+');
    var d := if signed then a + 1 else a;
    if IsDigitRun(s, d, b) {
      RunValueBound(s, d, b);
      assert Pow10(3) == 1000 && Pow10(4) == 10000;
      if signed || |s| < 4 {
        Pow10Grows(b - d, 3);
      } else {
        Pow10Grows(b - d, 4);
      }
    }
  }

  /** `str(n)` for a natural number: its shortest decimal text. */
  function Show(n: nat): (r: string)
    ensures |r| > 0 && forall i :: 0 <= i < |r| ==> IsDigit(r[i])
  {
    var d := [('0' as int + n % 10) as char];
    if n < 10 then d else Show(n / 10) + d
  }

  /** A year between 1000 and 9999 prints as four digits. */
  lemma ShowFourDigits(n: nat)
    requires 1000 <= n < 10000
    ensures |Show(n)| == 4
  {
    var a := n / 10;
    var b := a / 10;
    var c := b / 10;
    assert 1 <= c < 10;
    assert |Show(c)| == 1;
    assert |Show(b)| == 2;
    assert |Show(a)| == 3;
  }

  // ---------------------------------------------------------------------------
  // str.split and str.join on a one-character separator
  // ---------------------------------------------------------------------------

  lemma {:induction false} DigitsAreRun(s: string, lo: nat, hi: nat)
    requires lo < hi <= |s|
    requires forall i :: lo <= i < hi ==> IsDigit(s[i])
    ensures IsDigitRun(s, lo, hi)
    decreases hi - lo
  {
    if lo + 1 < hi {
      DigitsAreRun(s, lo + 1, hi);
    }
  }

  /** The value of a run depends only on the characters before its end. */
  lemma {:induction false} RunValuePrefix(s: string, t: string, hi: nat)
    requires hi <= |s| && hi <= |t| && s[..hi] == t[..hi]
    ensures RunValue(s, 0, hi) == RunValue(t, 0, hi)
  {
    if hi > 0 {
      assert s[hi - 1] == s[..hi][hi - 1] == t[..hi][hi - 1] == t[hi - 1];
      assert s[..hi - 1] == s[..hi][..hi - 1];
      assert t[..hi - 1] == t[..hi][..hi - 1];
      RunValuePrefix(s, t, hi - 1);
    }
  }

  lemma {:induction false} RunValueShow(n: nat)
    ensures RunValue(Show(n), 0, |Show(n)|) == n
  {
    var d := [('0' as int + n % 10) as char];
    if n >= 10 {
      var p := Show(n / 10);
      var s := p + d;
      RunValueShow(n / 10);
      assert s[..|p|] == p[..|p|];
      RunValuePrefix(s, p, |p|);
    }
  }

  /** `int(str(n)) == n` for every natural number. */
  lemma ParseShow(n: nat)
    ensures ParseInt(Show(n)) == Some(n)
  {
    var s := Show(n);
    assert !IsSpace(s[0]) && !IsSpace(s[|s| - 1]);
    assert TextStart(s, 0) == 0;
    assert TextEnd(s, 0, |s|) == |s|;
    assert s[0] != '-' && s[0] != '+';
    DigitsAreRun(s, 0, |s|);
    RunValueShow(n);
  }

  function IndexOf(s: string, c: char): (i: nat)
    requires c in s
    ensures i < |s| && s[i] == c && c !in s[..i]
  {
    if s[0] == c then 0 else 1 + IndexOf(s[1..], c)
  }

  /** `sep.join(parts)`. */
  function Join(parts: seq<string>, sep: char): string
  {
    if parts == [] then []
    else if |parts| == 1 then parts[0]
    else parts[0] + [sep] + Join(parts[1..], sep)
  }

  /** `s.split(sep)`: always at least one piece, none containing `sep`. */
  function Split(s: string, sep: char): (r: seq<string>)
    ensures |r| > 0
    ensures forall k :: 0 <= k < |r| ==> sep !in r[k]
    decreases |s|
  {
    if sep !in s then [s]
    else
      var i := IndexOf(s, sep);
      [s[..i]] + Split(s[i + 1..], sep)
  }

  lemma IndexOfAfter(p: string, sep: char, t: string)
    requires sep !in p
    ensures sep in p + [sep] + t && IndexOf(p + [sep] + t, sep) == |p|
  {
    var s := p + [sep] + t;
    assert s[|p|] == sep;
    var i := IndexOf(s, sep);
    assert s[..|p|] == p;
    assert i <= |p| by {
      assert forall j :: |p| < j <= |s| ==> s[..j][|p|] == sep;
    }
  }

  lemma SplitCons(p: string, sep: char, t: string)
    requires sep !in p
    ensures Split(p + [sep] + t, sep) == [p] + Split(t, sep)
  {
    var s := p + [sep] + t;
    IndexOfAfter(p, sep, t);
    assert s[..|p|] == p;
    assert s[|p| + 1..] == t;
  }

  /** Splitting a join gives back the pieces, provided none of them holds
      the separator. */
  lemma {:induction false} SplitJoin(parts: seq<string>, sep: char)
    requires |parts| > 0
    requires forall k :: 0 <= k < |parts| ==> sep !in parts[k]
    ensures Split(Join(parts, sep), sep) == parts
  {
    if |parts| > 1 {
      SplitCons(parts[0], sep, Join(parts[1..], sep));
      SplitJoin(parts[1..], sep);
      assert parts == [parts[0]] + parts[1..];
    }
  }
}
