/** String helpers the report assembly relies on: Go's strings.TrimSpace,
    strings.HasSuffix and strconv.Itoa, and the joins and separators that the
    loops of main.go build by appending and then trimming a suffix. */
module Text {

  /** White space as Go's unicode.IsSpace defines it, which is the set
      strings.TrimSpace strips: the ASCII spaces and controls \t \n \v \f \r,
      U+0085 (NEL), U+00A0 (NBSP) and the other Unicode White_Space runes. */
  predicate IsSpace(c: char) {
    var n := c as int;
    (9 <= n <= 13) || n == 0x20 || n == 0x85 || n == 0xA0 || n == 0x1680
    || (0x2000 <= n <= 0x200A) || n == 0x2028 || n == 0x2029 || n == 0x202F
    || n == 0x205F || n == 0x3000
  }

  predicate AllSpace(s: string) {
    forall i :: 0 <= i < |s| ==> IsSpace(s[i])
  }

  /** What remains once the leading white space is dropped. */
  function TrimLeft(s: string): (r: string)
    ensures |r| <= |s| && r == s[|s| - |r|..]
    ensures forall i :: 0 <= i < |s| - |r| ==> IsSpace(s[i])
    ensures r == [] || !IsSpace(r[0])
  {
    if s != [] && IsSpace(s[0]) then TrimLeft(s[1..]) else s
  }

  /** What remains once the trailing white space is dropped. */
  function TrimRight(s: string): (r: string)
    ensures |r| <= |s| && r == s[..|r|]
    ensures forall i :: |r| <= i < |s| ==> IsSpace(s[i])
    ensures r == [] || !IsSpace(r[|r| - 1])
  {
    if s != [] && IsSpace(s[|s| - 1]) then TrimRight(s[..|s| - 1]) else s
  }

  /** Go's strings.TrimSpace. */
  function TrimSpace(s: string): (r: string)
    ensures |r| <= |s|
    ensures r == [] || (!IsSpace(r[0]) && !IsSpace(r[|r| - 1]))
  {
    TrimRight(TrimLeft(s))
  }

  /** A string with no white space at either end. */
  predicate Trimmed(s: string) {
    s == [] || (!IsSpace(s[0]) && !IsSpace(s[|s| - 1]))
  }

  lemma {:induction false} TrimLeftDropsSpaces(a: string, m: string)
    requires AllSpace(a)
    requires m == [] || !IsSpace(m[0])
    ensures TrimLeft(a + m) == m
  {
    if a != [] {
      assert (a + m)[1..] == a[1..] + m;
      TrimLeftDropsSpaces(a[1..], m);
    }
  }

  lemma {:induction false} TrimRightDropsSpaces(m: string, b: string)
    requires AllSpace(b)
    requires m == [] || !IsSpace(m[|m| - 1])
    ensures TrimRight(m + b) == m
  {
    if b != [] {
      assert (m + b)[..|m + b| - 1] == m + b[..|b| - 1];
      TrimRightDropsSpaces(m, b[..|b| - 1]);
    }
  }

  /** TrimSpace is characterised independently of how it scans: whenever a
      string is white space, then a trimmed middle, then white space, the
      middle is what TrimSpace returns. */
  lemma TrimSpaceOfPadded(a: string, m: string, b: string)
    requires AllSpace(a) && AllSpace(b) && Trimmed(m)
    ensures TrimSpace(a + m + b) == m
  {
    assert a + m + b == a + (m + b);
    if m == [] {
      if a == [] {
        assert a + m + b == b;
        TrimLeftDropsSpaces(b, []);
        assert b + [] == b;
      } else {
        assert a + (m + b) == (a + b) + [];
        TrimLeftDropsSpaces(a + b, []);
      }
      TrimRightDropsSpaces([], []);
    } else {
      assert (m + b)[0] == m[0];
      TrimLeftDropsSpaces(a, m + b);
      TrimRightDropsSpaces(m, b);
    }
  }

  /** A string without white space at either end is its own trim. */
  lemma TrimSpaceOfTrimmed(s: string)
    requires Trimmed(s)
    ensures TrimSpace(s) == s
  {
    TrimSpaceOfPadded([], s, []);
    assert [] + s + [] == s;
  }

  /** Trimming an already trimmed string changes nothing. */
  lemma TrimSpaceIdempotent(s: string)
    ensures TrimSpace(TrimSpace(s)) == TrimSpace(s)
  {
    var r := TrimSpace(s);
    assert TrimLeft(r) == r;
    assert TrimRight(r) == r;
  }

  /** Go's strings.HasSuffix. */
  predicate HasSuffix(s: string, suffix: string) {
    |suffix| <= |s| && s[|s| - |suffix|..] == suffix
  }

  predicate IsDigit(c: char) {
    '0' <= c <= '9'
  }

  predicate AllDigits(s: string) {
    forall i :: 0 <= i < |s| ==> IsDigit(s[i])
  }

  function DigitChar(d: nat): (c: char)
    requires d < 10
    ensures IsDigit(c) && c as int - '0' as int == d
  {
    ('0' as int + d) as char
  }

  /** The decimal digits of n, most significant first, with no leading zero. */
  function NatToDecimal(n: nat): (r: string)
    ensures |r| >= 1 && AllDigits(r)
    ensures |r| > 1 ==> r[0] != '0'
  {
    if n < 10 then [DigitChar(n)] else NatToDecimal(n / 10) + [DigitChar(n % 10)]
  }

  /** Go's strconv.Itoa: a minus sign for negative values, then the digits. */
  function Itoa(n: int): (r: string)
    ensures |r| >= 1 && IsDigit(r[|r| - 1])
    ensures r[0] == '-' <==> n < 0
    ensures forall i :: 0 < i < |r| ==> IsDigit(r[i])
  {
    if n < 0 then "-" + NatToDecimal(-n) else NatToDecimal(n)
  }

  /** The value a string of decimal digits denotes. */
  function DecimalValue(s: string): nat
    requires AllDigits(s)
  {
    if s == [] then 0 else DecimalValue(s[..|s| - 1]) * 10 + (s[|s| - 1] as int - '0' as int)
  }

  /** Reads back what Itoa writes: an optional minus sign and decimal digits. */
  function Atoi(s: string): int
    requires |s| >= 1 && forall i :: 0 < i < |s| ==> IsDigit(s[i])
    requires s[0] == '-' || IsDigit(s[0])
  {
    if s[0] == '-' then -(DecimalValue(s[1..]) as int) else DecimalValue(s)
  }

  lemma {:induction false} DecimalRoundTrip(n: nat)
    ensures DecimalValue(NatToDecimal(n)) == n
  {
    if n >= 10 {
      var r := NatToDecimal(n);
      assert r[..|r| - 1] == NatToDecimal(n / 10);
      DecimalRoundTrip(n / 10);
    }
  }

  /** Itoa loses nothing: its decimal text reads back as the same integer. */
  lemma ItoaRoundTrip(n: int)
    ensures Atoi(Itoa(n)) == n
  {
    if n < 0 {
      assert Itoa(n)[1..] == NatToDecimal(-n);
      DecimalRoundTrip(-n);
    } else {
      DecimalRoundTrip(n);
    }
  }

  /** The elements separated by sep, with no separator before the first or
      after the last (Go's strings.Join). */
  function Join(xs: seq<string>, sep: string): string {
    if |xs| == 0 then "" else if |xs| == 1 then xs[0] else xs[0] + sep + Join(xs[1..], sep)
  }

  /** Every element followed by sep: what a loop doing `acc += x + sep` builds. */
  function Terminated(xs: seq<string>, sep: string): string {
    if xs == [] then "" else Terminated(xs[..|xs| - 1], sep) + xs[|xs| - 1] + sep
  }

  lemma {:induction false} JoinSnoc(xs: seq<string>, x: string, sep: string)
    requires |xs| >= 1
    ensures Join(xs + [x], sep) == Join(xs, sep) + sep + x
  {
    if |xs| == 1 {
      assert (xs + [x])[1..] == [x];
    } else {
      assert (xs + [x])[1..] == xs[1..] + [x];
      JoinSnoc(xs[1..], x, sep);
    }
  }

  /** Appending sep after every element and then cutting one sep off the end
      gives the join: the two loops of main.go depend on this. */
  /** One more element appended, followed by sep. */
  lemma TerminatedStep(xs: seq<string>, i: nat, sep: string)
    requires i < |xs|
    ensures Terminated(xs[..i + 1], sep) == Terminated(xs[..i], sep) + xs[i] + sep
  {
    assert xs[..i + 1][..i] == xs[..i];
  }

  lemma {:induction false} TerminatedIsJoin(xs: seq<string>, sep: string)
    requires |xs| >= 1
    ensures Terminated(xs, sep) == Join(xs, sep) + sep
  {
    var n := |xs|;
    if n == 1 {
      assert xs[..0] == [];
    } else {
      TerminatedIsJoin(xs[..n - 1], sep);
      assert xs[..n - 1] + [xs[n - 1]] == xs;
      JoinSnoc(xs[..n - 1], xs[n - 1], sep);
    }
  }

  /** Cutting the last |t| characters off s + t gives s back. */
  lemma DropSuffix(s: string, t: string)
    ensures HasSuffix(s + t, t) && (s + t)[..|s + t| - |t|] == s
  {
    assert (s + t)[|s + t| - |t|..] == t;
  }

  /** The pieces of s between occurrences of c (Go's strings.Split with a
      one-character separator); always at least one piece. */
  function Split(s: string, c: char): (r: seq<string>)
    ensures |r| >= 1
  {
    if s == [] then [""]
    else
      var rest := Split(s[1..], c);
      if s[0] == c then [""] + rest else [[s[0]] + rest[0]] + rest[1..]
  }

  lemma {:induction false} SplitNoSeparator(x: string, c: char)
    requires c !in x
    ensures Split(x, c) == [x]
  {
    if x != [] {
      SplitNoSeparator(x[1..], c);
      assert [x[0]] + x[1..] == x;
    }
  }

  lemma {:induction false} SplitAtSeparator(x: string, c: char, rest: string)
    requires c !in x
    ensures Split(x + [c] + rest, c) == [x] + Split(rest, c)
  {
    if x == [] {
      assert x + [c] + rest == [c] + rest;
      assert ([c] + rest)[1..] == rest;
    } else {
      assert (x + [c] + rest)[1..] == x[1..] + [c] + rest;
      SplitAtSeparator(x[1..], c, rest);
      assert [x[0]] + x[1..] == x;
    }
  }

  /** Splitting a join on its one-character separator recovers the elements,
      provided no element contains that character. */
  lemma {:induction false} SplitJoin(xs: seq<string>, c: char)
    requires |xs| >= 1
    requires forall i :: 0 <= i < |xs| ==> c !in xs[i]
    ensures Split(Join(xs, [c]), c) == xs
  {
    if |xs| == 1 {
      SplitNoSeparator(xs[0], c);
    } else {
      SplitJoin(xs[1..], c);
      SplitAtSeparator(xs[0], c, Join(xs[1..], [c]));
      assert [xs[0]] + xs[1..] == xs;
    }
  }

  /** The number of occurrences of c in s. */
  function CountChar(s: string, c: char): nat {
    if s == [] then 0 else (if s[0] == c then 1 else 0) + CountChar(s[1..], c)
  }

  lemma {:induction false} CountCharConcat(a: string, b: string, c: char)
    ensures CountChar(a + b, c) == CountChar(a, c) + CountChar(b, c)
  {
    if a == [] {
      assert a + b == b;
    } else {
      assert (a + b)[1..] == a[1..] + b;
      CountCharConcat(a[1..], b, c);
    }
  }

  lemma {:induction false} CountCharAbsent(s: string, c: char)
    requires c !in s
    ensures CountChar(s, c) == 0
  {
    if s != [] {
      CountCharAbsent(s[1..], c);
    }
  }

  /** A join holds exactly one c per separator when the elements hold none. */
  lemma {:induction false} JoinCountsSeparators(xs: seq<string>, sep: string, c: char)
    requires |xs| >= 1
    requires forall i :: 0 <= i < |xs| ==> c !in xs[i]
    requires CountChar(sep, c) == 1
    ensures CountChar(Join(xs, sep), c) == |xs| - 1
  {
    CountCharAbsent(xs[0], c);
    if |xs| > 1 {
      JoinCountsSeparators(xs[1..], sep, c);
      CountCharConcat(xs[0] + sep, Join(xs[1..], sep), c);
      CountCharConcat(xs[0], sep, c);
    }
  }
}
