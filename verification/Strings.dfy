/** The handful of Python string and list operations the workflow relies on
    (`str.split`, `str.join`, `str.rfind`, slicing, negative indexing,
    `int()` and `str()` on integers), stated on Dafny sequences. */
module Strings {
  import opened Wrappers

  // ---------------------------------------------------------------------
  // Searching
  // ---------------------------------------------------------------------

  /** Position of the first `c` in `s`, or `|s|` when there is none. */
  function IndexOf(s: string, c: char): (i: nat)
    ensures i <= |s|
    ensures i < |s| ==> s[i] == c
    ensures forall j :: 0 <= j < i ==> s[j] != c
  {
    if |s| == 0 then 0
    else if s[0] == c then 0
    else 1 + IndexOf(s[1..], c)
  }

  /** Python's `s.rfind(c)`: position of the last `c`, or -1. */
  function LastIndexOf(s: string, c: char): (i: int)
    ensures -1 <= i < |s|
    ensures i >= 0 ==> s[i] == c
    ensures forall j :: i < j < |s| ==> s[j] != c
  {
    if |s| == 0 then -1
    else if s[|s| - 1] == c then |s| - 1
    else LastIndexOf(s[..|s| - 1], c)
  }

  /** Searching the concatenation `a + b` from the right finds `b`'s last `c`
      when `b` has one, and `a`'s otherwise. */
  lemma {:induction false} LastIndexOfAppend(a: string, b: string, c: char)
    ensures c in b ==> LastIndexOf(a + b, c) == |a| + LastIndexOf(b, c)
    ensures c !in b ==> LastIndexOf(a + b, c) == LastIndexOf(a, c)
    decreases |b|
  {
    if |b| == 0 {
      assert a + b == a;
    } else if b[|b| - 1] == c {
    } else {
      var b' := b[..|b| - 1];
      assert (a + b)[..|a + b| - 1] == a + b';
      assert c in b <==> c in b' by {
        if c in b {
          var k :| 0 <= k < |b| && b[k] == c;
          assert b'[k] == c;
        }
      }
      LastIndexOfAppend(a, b', c);
    }
  }

  /** Number of occurrences of `c` in `s`. */
  function Count(s: string, c: char): nat
  {
    if |s| == 0 then 0
    else (if s[0] == c then 1 else 0) + Count(s[1..], c)
  }

  lemma {:induction false} CountAppend(a: string, b: string, c: char)
    ensures Count(a + b, c) == Count(a, c) + Count(b, c)
    decreases |a|
  {
    if |a| == 0 {
      assert a + b == b;
    } else {
      assert (a + b)[1..] == a[1..] + b;
      CountAppend(a[1..], b, c);
    }
  }

  lemma {:induction false} CountAbsent(s: string, c: char)
    requires c !in s
    ensures Count(s, c) == 0
    decreases |s|
  {
    if |s| > 0 {
      CountAbsent(s[1..], c);
    }
  }

  // ---------------------------------------------------------------------
  // str.split / str.join with a one-character separator
  // ---------------------------------------------------------------------

  /** Python's `s.split(sep)` for a one-character `sep`: never empty, keeps
      empty fields, and no field contains the separator. */
  function Split(s: string, sep: char): (parts: seq<string>)
    ensures |parts| >= 1
    ensures forall k :: 0 <= k < |parts| ==> sep !in parts[k]
    decreases |s|
  {
    var i := IndexOf(s, sep);
    if i == |s| then
      [s]
    else
      [s[..i]] + Split(s[i + 1..], sep)
  }

  /** Python's `sep.join(parts)`. */
  function JoinWith(parts: seq<string>, sep: char): string
  {
    if |parts| == 0 then ""
    else if |parts| == 1 then parts[0]
    else parts[0] + [sep] + JoinWith(parts[1..], sep)
  }

  lemma JoinCons(t: string, rest: seq<string>, sep: char)
    requires |rest| >= 1
    ensures JoinWith([t] + rest, sep) == t + [sep] + JoinWith(rest, sep)
  {
    assert ([t] + rest)[1..] == rest;
  }

  /** A string with the separator splits at its first occurrence. */
  lemma SplitFirst(s: string, sep: char)
    requires IndexOf(s, sep) < |s|
    ensures var i := IndexOf(s, sep);
            && Split(s, sep) == [s[..i]] + Split(s[i + 1..], sep)
            && s == s[..i] + [sep] + s[i + 1..]
  {
  }

  /** Joining the fields of a split gives the original string back. */
  lemma {:induction false} JoinSplit(s: string, sep: char)
    ensures JoinWith(Split(s, sep), sep) == s
    decreases |s|
  {
    var i := IndexOf(s, sep);
    if i < |s| {
      var rest := s[i + 1..];
      JoinSplit(rest, sep);
      SplitFirst(s, sep);
      JoinCons(s[..i], Split(rest, sep), sep);
    }
  }

  /** A string without the separator splits into itself. */
  lemma SplitNoSep(s: string, sep: char)
    requires sep !in s
    ensures Split(s, sep) == [s]
  {
  }

  /** Splitting distributes over a separator placed between two strings. */
  lemma {:induction false} SplitAppend(a: string, b: string, sep: char)
    ensures Split(a + [sep] + b, sep) == Split(a, sep) + Split(b, sep)
    decreases |a|
  {
    var i := IndexOf(a, sep);
    if i == |a| {
      SplitAppendPlain(a, b, sep);
    } else {
      var a1 := a[i + 1..];
      SplitAppendStep(a, b, sep);
      assert a1 + ([sep] + b) == a1 + [sep] + b;
      SplitAppend(a1, b, sep);
      SplitFirst(a, sep);
      ConsAppend(a[..i], Split(a1, sep), Split(b, sep));
    }
  }

  lemma NotInAppend<T>(x: T, a: seq<T>, b: seq<T>)
    requires x !in a && x !in b
    ensures x !in a + b
  {
  }

  lemma AppendAssoc<T>(a: seq<T>, b: seq<T>, c: seq<T>)
    ensures a + (b + c) == a + b + c
  {
  }

  lemma ConsAppend<T>(x: T, p: seq<T>, q: seq<T>)
    ensures [x] + (p + q) == ([x] + p) + q
  {
  }

  /** The base case: `a` holds no separator. */
  lemma SplitAppendPlain(a: string, b: string, sep: char)
    requires IndexOf(a, sep) == |a|
    ensures Split(a + [sep] + b, sep) == [a] + Split(b, sep)
  {
    var s := a + [sep] + b;
    IndexOfPrefix(a, [sep] + b, sep);
    assert s == a + ([sep] + b);
    SplitFirst(s, sep);
    assert s[..|a|] == a;
    assert s[|a| + 1..] == b;
  }

  /** The step: the first field of `a` is the first field of `a + [sep] + b`. */
  lemma SplitAppendStep(a: string, b: string, sep: char)
    requires IndexOf(a, sep) < |a|
    ensures var i := IndexOf(a, sep);
            Split(a + [sep] + b, sep) == [a[..i]] + Split(a[i + 1..] + ([sep] + b), sep)
  {
    var s := a + [sep] + b;
    var i := IndexOf(a, sep);
    IndexOfPrefix(a, [sep] + b, sep);
    SliceAppend(a, [sep] + b, i);
    SliceAppend(a, [sep] + b, i + 1);
    assert s == a + ([sep] + b);
    SplitFirst(s, sep);
  }

  /** Slicing a concatenation inside its first part. */
  lemma SliceAppend<T>(a: seq<T>, c: seq<T>, i: int)
    requires 0 <= i <= |a|
    ensures (a + c)[..i] == a[..i]
    ensures (a + c)[i..] == a[i..] + c
  {
  }

  /** The first separator of `a + b` is `a`'s when `a` has one, else it is
      found at `|a|` plus its position in `b`. */
  lemma IndexOfPrefix(a: string, b: string, c: char)
    ensures IndexOf(a, c) < |a| ==> IndexOf(a + b, c) == IndexOf(a, c)
    ensures IndexOf(a, c) == |a| ==> IndexOf(a + b, c) == |a| + IndexOf(b, c)
  {
    var i := IndexOf(a + b, c);
    var ia := IndexOf(a, c);
    var ib := IndexOf(b, c);
    if ia < |a| {
      assert (a + b)[ia] == c;
    } else {
      assert |a| + ib < |a + b| ==> (a + b)[|a| + ib] == c;
      assert forall j :: 0 <= j < |a| + ib ==> (a + b)[j] != c by {
        forall j | 0 <= j < |a| + ib
          ensures (a + b)[j] != c
        {
          if j >= |a| {
            assert (a + b)[j] == b[j - |a|];
          }
        }
      }
    }
  }

  /** Splitting the join of separator-free fields gives the fields back. */
  lemma {:induction false} SplitJoin(parts: seq<string>, sep: char)
    requires |parts| >= 1
    requires forall k :: 0 <= k < |parts| ==> sep !in parts[k]
    ensures Split(JoinWith(parts, sep), sep) == parts
    decreases |parts|
  {
    if |parts| == 1 {
      SplitNoSep(parts[0], sep);
    } else {
      var rest := parts[1..];
      assert forall k :: 0 <= k < |rest| ==> sep !in rest[k] by {
        forall k | 0 <= k < |rest| ensures sep !in rest[k] {
          assert rest[k] == parts[k + 1];
        }
      }
      SplitJoin(rest, sep);
      var j := JoinWith(rest, sep);
      assert parts == [parts[0]] + rest;
      JoinCons(parts[0], rest, sep);
      SplitAppend(parts[0], j, sep);
      SplitNoSep(parts[0], sep);
      calc {
        Split(JoinWith(parts, sep), sep);
        Split(parts[0] + [sep] + j, sep);
        Split(parts[0], sep) + Split(j, sep);
        [parts[0]] + rest;
        parts;
      }
    }
  }

  // ---------------------------------------------------------------------
  // Python slicing and indexing
  // ---------------------------------------------------------------------

  /** Python's normalisation of a slice bound `i` against a length `n`:
      negative bounds count from the end, and both ends are clamped. */
  function SliceBound(i: int, n: nat): (b: nat)
    ensures b <= n
    ensures 0 <= i <= n ==> b == i
    ensures i < 0 && n + i >= 0 ==> b == n + i
    ensures i > n ==> b == n
    ensures n + i < 0 ==> b == 0
  {
    if i < 0 then (if n + i < 0 then 0 else n + i)
    else if i > n then n
    else i
  }

  /** Python's `s[start:stop]`. */
  function PySlice<T>(s: seq<T>, start: int, stop: int): seq<T>
  {
    var lo := SliceBound(start, |s|);
    var hi := SliceBound(stop, |s|);
    if lo < hi then s[lo..hi] else []
  }

  /** Python's `s[start:]`. */
  function PySuffix<T>(s: seq<T>, start: int): seq<T>
  {
    PySlice(s, start, |s|)
  }

  /** `(p + x)[len(p):]` strips exactly the prefix `p`. */
  lemma PySuffixStripsPrefix<T>(p: seq<T>, x: seq<T>)
    ensures PySuffix(p + x, |p|) == x
  {
    if |x| == 0 {
    } else {
      assert (p + x)[|p|..|p + x|] == x;
    }
  }

  /** Python's `xs[i]`: negative indices count from the end, and an index
      out of range raises IndexError, modelled as `None`. */
  function PyIndex<T>(xs: seq<T>, i: int): (r: Option<T>)
    ensures r.Some? <==> -|xs| <= i < |xs|
    ensures 0 <= i < |xs| ==> r == Some(xs[i])
    ensures -|xs| <= i < 0 ==> r == Some(xs[|xs| + i])
  {
    if 0 <= i < |xs| then Some(xs[i])
    else if -|xs| <= i < 0 then Some(xs[|xs| + i])
    else None
  }

  // ---------------------------------------------------------------------
  // str(n) and int(s) on integers
  // ---------------------------------------------------------------------

  predicate IsDigit(c: char) {
    '0' <= c <= '9'
  }

  predicate AllDigits(s: string) {
    forall k :: 0 <= k < |s| ==> IsDigit(s[k])
  }

  function DigitChar(d: nat): (c: char)
    requires d < 10
    ensures IsDigit(c)
  {
    ('0' as int + d) as char
  }

  function DigitValue(c: char): nat
    requires IsDigit(c)
  {
    c as int - '0' as int
  }

  /** Python's `str(n)` for a natural number: its decimal digits, with no
      leading zero. */
  function Decimal(n: nat): (s: string)
    ensures |s| >= 1
    ensures AllDigits(s)
    ensures |s| > 1 ==> s[0] != '0'
    decreases n
  {
    if n < 10 then [DigitChar(n)]
    else Decimal(n / 10) + [DigitChar(n % 10)]
  }

  /** The value of a string of decimal digits (leading zeros allowed, as
      Python's `int()` allows them). */
  function DigitsValue(s: string): nat
    requires AllDigits(s)
  {
    if |s| == 0 then 0
    else DigitsValue(s[..|s| - 1]) * 10 + DigitValue(s[|s| - 1])
  }

  /** Reading back the digits `Decimal` writes gives the number again. */
  lemma {:induction false} DigitsValueDecimal(n: nat)
    ensures DigitsValue(Decimal(n)) == n
    decreases n
  {
    if n >= 10 {
      var s := Decimal(n);
      assert s[..|s| - 1] == Decimal(n / 10);
      DigitsValueDecimal(n / 10);
    }
  }

  /** Python's `str(i)` for an integer. */
  function IntToString(i: int): (s: string)
    ensures |s| >= 1
    ensures i < 0 <==> s[0] == '-'
    ensures forall k :: 1 <= k < |s| ==> IsDigit(s[k])
  {
    if i < 0 then "-" + Decimal(-i) else Decimal(i)
  }

  /** Python's `int(s)` on an optional sign followed by ASCII digits; any other
      string raises ValueError, modelled as `None`. */
  function ParseInt(s: string): (r: Option<int>)
    ensures r.Some? <==>
      (|s| >= 1 && AllDigits(s)) ||
      (|s| >= 2 && (s[0] == '-' || s[0] == '+') && AllDigits(s[1..]))
    ensures r.Some? && s[0] == '-' ==> r.value <= 0
    ensures r.Some? && s[0] != '-' ==> r.value >= 0
  {
    if |s| >= 1 && AllDigits(s) then
      Some(DigitsValue(s))
    else if |s| >= 2 && s[0] == '-' && AllDigits(s[1..]) then
      Some(0 - DigitsValue(s[1..]))
    else if |s| >= 2 && s[0] == '+' && AllDigits(s[1..]) then
      Some(DigitsValue(s[1..]))
    else
      None
  }

  /** `int(str(i)) == i` for every integer. */
  lemma ParseIntToString(i: int)
    ensures ParseInt(IntToString(i)) == Some(i)
  {
    if i < 0 {
      ParseIntNegative(-i);
    } else {
      DigitsValueDecimal(i);
    }
  }

  lemma ParseIntNegative(n: nat)
    requires n > 0
    ensures ParseInt("-" + Decimal(n)) == Some(-(n as int))
  {
    var s := "-" + Decimal(n);
    assert s[1..] == Decimal(n);
    assert !IsDigit(s[0]);
    DigitsValueDecimal(n);
  }
}
