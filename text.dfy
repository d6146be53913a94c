/**
 * The string primitives the adapters rely on: joining with a separator, splitting
 * at a character, first-occurrence search, ASCII lower-casing and decimal
 * rendering of unsigned integers. Strings are sequences of characters and all
 * indices are character indices.
 */
module Text {
  import opened Base

  /** `n` copies of `x`, as `std::iter::repeat(x).take(n)`. */
  function Repeat<T>(x: T, n: nat): (r: seq<T>)
    ensures |r| == n
    ensures forall i :: 0 <= i < n ==> r[i] == x
  {
    seq(n, _ => x)
  }

  lemma RepeatSnoc<T>(x: T, n: nat)
    ensures Repeat(x, n + 1) == Repeat(x, n) + [x]
  {
  }

  // ---------------------------------------------------------------------------
  // Join and split
  // ---------------------------------------------------------------------------

  /** The elements of `xs` with `sep` between neighbours, as `[String]::join(sep)`. */
  function Join(sep: string, xs: seq<string>): string
    decreases |xs|
  {
    if |xs| == 0 then ""
    else if |xs| == 1 then xs[0]
    else Join(sep, xs[..|xs| - 1]) + sep + xs[|xs| - 1]
  }

  lemma JoinSnoc(sep: string, xs: seq<string>, y: string)
    requires |xs| > 0
    ensures Join(sep, xs + [y]) == Join(sep, xs) + sep + y
  {
    assert (xs + [y])[..|xs|] == xs;
  }

  lemma {:induction false} JoinCons(sep: string, x: string, xs: seq<string>)
    requires |xs| > 0
    ensures Join(sep, [x] + xs) == x + sep + Join(sep, xs)
    decreases |xs|
  {
    var ys := [x] + xs;
    if |xs| == 1 {
      assert ys[..1] == [x];
    } else {
      assert ys[..|ys| - 1] == [x] + xs[..|xs| - 1];
      JoinCons(sep, x, xs[..|xs| - 1]);
    }
  }

  lemma Join2(sep: string, a: string, b: string)
    ensures Join(sep, [a, b]) == a + sep + b
  {
    assert [a, b][..1] == [a];
  }

  lemma Join3(sep: string, a: string, b: string, c: string)
    ensures Join(sep, [a, b, c]) == a + sep + b + sep + c
  {
    Join2(sep, a, b);
    assert [a, b, c][..2] == [a, b];
  }

  lemma Join4(sep: string, a: string, b: string, c: string, d: string)
    ensures Join(sep, [a, b, c, d]) == a + sep + b + sep + c + sep + d
  {
    Join3(sep, a, b, c);
    assert [a, b, c, d][..3] == [a, b, c];
  }

  lemma Join5(sep: string, a: string, b: string, c: string, d: string, e: string)
    ensures Join(sep, [a, b, c, d, e]) == a + sep + b + sep + c + sep + d + sep + e
  {
    Join4(sep, a, b, c, d);
    assert [a, b, c, d, e][..4] == [a, b, c, d];
  }

  /** A join contains a character only if the separator or one of the elements does. */
  lemma {:induction false} JoinExcludes(c: char, sep: string, xs: seq<string>)
    requires c !in sep
    requires forall i :: 0 <= i < |xs| ==> c !in xs[i]
    ensures c !in Join(sep, xs)
    decreases |xs|
  {
    if |xs| > 1 {
      JoinExcludes(c, sep, xs[..|xs| - 1]);
      assert Join(sep, xs) == Join(sep, xs[..|xs| - 1]) + sep + xs[|xs| - 1];
    }
  }

  /** The number of occurrences of `c` in `s`. */
  function Count(c: char, s: string): nat
  {
    if |s| == 0 then 0 else Count(c, s[..|s| - 1]) + (if s[|s| - 1] == c then 1 else 0)
  }

  lemma {:induction false} CountAppend(c: char, a: string, b: string)
    ensures Count(c, a + b) == Count(c, a) + Count(c, b)
    decreases |b|
  {
    if |b| > 0 {
      assert (a + b)[..|a + b| - 1] == a + b[..|b| - 1];
      CountAppend(c, a, b[..|b| - 1]);
    } else {
      assert a + b == a;
    }
  }

  lemma {:induction false} CountAbsent(c: char, s: string)
    requires c !in s
    ensures Count(c, s) == 0
    decreases |s|
  {
    if |s| > 0 {
      CountAbsent(c, s[..|s| - 1]);
    }
  }

  lemma CountAround(c: char, a: string, sep: string, b: string)
    requires c !in sep
    ensures Count(c, a + sep + b) == Count(c, a) + Count(c, b)
  {
    CountAppend(c, a + sep, b);
    CountAppend(c, a, sep);
    CountAbsent(c, sep);
  }

  lemma MulSucc(a: nat, m: nat)
    ensures (a + 1) * m == a * m + m
  {
  }

  /** A join of elements that each hold `m` copies of `c`, with a separator free of `c`, holds `|xs| * m`. */
  lemma {:induction false} CountJoin(c: char, sep: string, xs: seq<string>, m: nat)
    requires c !in sep
    requires forall i :: 0 <= i < |xs| ==> Count(c, xs[i]) == m
    ensures Count(c, Join(sep, xs)) == |xs| * m
    decreases |xs|
  {
    if |xs| >= 2 {
      var front := xs[..|xs| - 1];
      CountJoin(c, sep, front, m);
      CountAround(c, Join(sep, front), sep, xs[|xs| - 1]);
      calc {
        Count(c, Join(sep, xs));
        Count(c, Join(sep, front)) + m;
        (|xs| - 1) * m + m;
        { MulSucc(|xs| - 1, m); }
        |xs| * m;
      }
    }
  }

  /** The first index of `c` in `s`. */
  function IndexOf(c: char, s: string): (r: Option<nat>)
    ensures r.Some? ==> r.value < |s| && s[r.value] == c
    ensures r.Some? ==> forall j :: 0 <= j < r.value ==> s[j] != c
    ensures r.None? ==> c !in s
    decreases |s|
  {
    if |s| == 0 then None
    else if s[0] == c then Some(0)
    else match IndexOf(c, s[1..])
      case None => None
      case Some(i) => Some(i + 1)
  }

  /** An index holding `c` with no earlier `c` is the one `IndexOf` finds. */
  lemma IndexOfAt(c: char, s: string, k: nat)
    requires k < |s| && s[k] == c
    requires forall j :: 0 <= j < k ==> s[j] != c
    ensures IndexOf(c, s) == Some(k)
  {
    assert s[k] in s;
  }

  /** `s` cut at every `c`, as `str::split(c)`: always at least one piece. */
  function Split(c: char, s: string): (r: seq<string>)
    ensures |r| >= 1
    ensures forall i :: 0 <= i < |r| ==> c !in r[i]
    decreases |s|
  {
    match IndexOf(c, s)
    case None => [s]
    case Some(i) => [s[..i]] + Split(c, s[i + 1..])
  }

  /** Splitting undoes joining when no element contains the separator. */
  lemma {:induction false} SplitJoin(c: char, xs: seq<string>)
    requires |xs| > 0
    requires forall i :: 0 <= i < |xs| ==> c !in xs[i]
    ensures Split(c, Join([c], xs)) == xs
    decreases |xs|
  {
    if |xs| > 1 {
      var x, rest := xs[0], xs[1..];
      assert xs == [x] + rest;
      JoinCons([c], x, rest);
      var s := Join([c], xs);
      assert s == x + [c] + Join([c], rest);
      assert s[|x|] == c;
      assert s[..|x|] == x;
      assert forall j :: 0 <= j < |x| ==> s[j] == x[j] && x[j] in x;
      IndexOfAt(c, s, |x|);
      assert s[|x| + 1..] == Join([c], rest);
      SplitJoin(c, rest);
    }
  }

  // ---------------------------------------------------------------------------
  // First-occurrence search
  // ---------------------------------------------------------------------------

  /** `pat` occurs in `s` starting at index `i`. */
  predicate OccursAt(s: string, pat: string, i: nat)
  {
    i + |pat| <= |s| && s[i..i + |pat|] == pat
  }

  /** The first index at or after `from` where `pat` occurs in `s`. */
  function FindFrom(s: string, pat: string, from: nat): (r: Option<nat>)
    requires from <= |s|
    ensures r.Some? ==> from <= r.value && OccursAt(s, pat, r.value)
    ensures r.Some? ==> forall j :: from <= j < r.value ==> !OccursAt(s, pat, j)
    ensures r.None? ==> forall j :: from <= j ==> !OccursAt(s, pat, j)
    decreases |s| - from
  {
    if from + |pat| > |s| then None
    else if OccursAt(s, pat, from) then Some(from)
    else FindFrom(s, pat, from + 1)
  }

  /** The first index where `pat` occurs in `s`, as `str::find(pat)`. */
  function Find(s: string, pat: string): (r: Option<nat>)
    ensures r.Some? <==> exists j: nat :: OccursAt(s, pat, j)
    ensures r.Some? ==> OccursAt(s, pat, r.value) && forall j: nat :: j < r.value ==> !OccursAt(s, pat, j)
  {
    FindFrom(s, pat, 0)
  }

  // ---------------------------------------------------------------------------
  // Lower-casing
  // ---------------------------------------------------------------------------

  function LowerChar(c: char): char
  {
    if 'A' <= c <= 'Z' then (c as int + 32) as char else c
  }

  /** `s` with every ASCII capital replaced by its small letter; other characters are kept. */
  function ToLower(s: string): (r: string)
    ensures |r| == |s|
    ensures forall i :: 0 <= i < |s| ==> r[i] == LowerChar(s[i])
  {
    seq(|s|, i requires 0 <= i < |s| => LowerChar(s[i]))
  }

  /** Lower-casing commutes with slicing, so an index found in the lower-cased copy slices the original. */
  lemma LowerSlice(s: string, a: nat, b: nat)
    requires a <= b <= |s|
    ensures ToLower(s)[a..b] == ToLower(s[a..b])
  {
  }

  /** An occurrence of an already lower-case pattern survives lower-casing. */
  lemma LowerKeepsOccurrence(s: string, pat: string, i: nat)
    requires ToLower(pat) == pat
    requires OccursAt(s, pat, i)
    ensures OccursAt(ToLower(s), pat, i)
  {
    LowerSlice(s, i, i + |pat|);
  }

  // ---------------------------------------------------------------------------
  // Decimal numerals
  // ---------------------------------------------------------------------------

  predicate IsDigit(c: char)
  {
    '0' <= c <= '9'
  }

  predicate AllDigits(s: string)
  {
    forall i :: 0 <= i < |s| ==> IsDigit(s[i])
  }

  function DigitChar(d: nat): (c: char)
    requires d < 10
    ensures IsDigit(c)
  {
    ('0' as int + d) as char
  }

  function DigitValue(c: char): nat
    requires IsDigit(c)
  {
    c as int - '0' as int
  }

  /** Unpadded decimal rendering, as Rust's `{}` on an unsigned integer. */
  function NatToString(n: nat): (s: string)
    ensures |s| >= 1 && AllDigits(s)
    ensures s[0] == '0' <==> n == 0
    decreases n
  {
    if n < 10 then [DigitChar(n)] else NatToString(n / 10) + [DigitChar(n % 10)]
  }

  function DigitsValue(s: string): nat
    requires AllDigits(s)
  {
    if |s| == 0 then 0 else DigitsValue(s[..|s| - 1]) * 10 + DigitValue(s[|s| - 1])
  }

  /** The value of a non-empty run of decimal digits. */
  function ParseNat(s: string): Option<nat>
  {
    if |s| > 0 && AllDigits(s) then Some(DigitsValue(s)) else None
  }

  lemma {:induction false} DigitsValueOfNat(n: nat)
    ensures DigitsValue(NatToString(n)) == n
    decreases n
  {
    var s := NatToString(n);
    if n >= 10 {
      assert s[..|s| - 1] == NatToString(n / 10);
      DigitsValueOfNat(n / 10);
    }
  }

  /** Decimal rendering is undone by parsing, so it loses nothing. */
  lemma ParseNatToString(n: nat)
    ensures ParseNat(NatToString(n)) == Some(n)
  {
    DigitsValueOfNat(n);
  }

  /** A numeral holds none of the separators used by the date and time renderings. */
  lemma NumeralHasNoSeparator(n: nat, c: char)
    requires !IsDigit(c)
    ensures c !in NatToString(n)
  {
  }

  /** The decimal renderings of `ns`, in order. */
  function Numerals(ns: seq<nat>): (r: seq<string>)
    ensures |r| == |ns|
    ensures forall i :: 0 <= i < |ns| ==> r[i] == NatToString(ns[i])
  {
    seq(|ns|, i requires 0 <= i < |ns| => NatToString(ns[i]))
  }

  /** Every piece parsed as a decimal numeral, or `None` when one of them is not one. */
  function ParseNats(ps: seq<string>): (r: Option<seq<nat>>)
    ensures r.Some? ==> |r.value| == |ps|
    decreases |ps|
  {
    if |ps| == 0 then Some([])
    else match ParseNat(ps[0])
      case None => None
      case Some(n) =>
        match ParseNats(ps[1..])
        case None => None
        case Some(rest) => Some([n] + rest)
  }

  /** Parsing the renderings gives the numbers back. */
  lemma {:induction false} ParseNatsNumerals(ns: seq<nat>)
    ensures ParseNats(Numerals(ns)) == Some(ns)
    decreases |ns|
  {
    if |ns| > 0 {
      ParseNatToString(ns[0]);
      assert Numerals(ns)[1..] == Numerals(ns[1..]);
      ParseNatsNumerals(ns[1..]);
      assert ns == [ns[0]] + ns[1..];
    }
  }

  /** Joined with a non-digit, the renderings can be cut apart again. */
  lemma SplitNumerals(c: char, ns: seq<nat>)
    requires !IsDigit(c) && |ns| > 0
    ensures Split(c, Join([c], Numerals(ns))) == Numerals(ns)
  {
    forall i | 0 <= i < |ns|
      ensures c !in Numerals(ns)[i]
    {
      NumeralHasNoSeparator(ns[i], c);
    }
    SplitJoin(c, Numerals(ns));
  }

  /** Renderings joined by a non-digit are read back, piece by piece, as the numbers. */
  lemma ReadNumerals(c: char, ns: seq<nat>)
    requires !IsDigit(c) && |ns| > 0
    ensures ParseNats(Split(c, Join([c], Numerals(ns)))) == Some(ns)
  {
    SplitNumerals(c, ns);
    ParseNatsNumerals(ns);
  }

  /** Renderings joined by a non-digit hold no other non-digit. */
  lemma NumeralsExclude(c: char, sep: string, ns: seq<nat>)
    requires !IsDigit(c) && c !in sep
    ensures c !in Join(sep, Numerals(ns))
  {
    forall i | 0 <= i < |ns|
      ensures c !in Numerals(ns)[i]
    {
      NumeralHasNoSeparator(ns[i], c);
    }
    JoinExcludes(c, sep, Numerals(ns));
  }
}
