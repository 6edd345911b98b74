/**
  Small vocabulary shared by every component of the metrics pipelines:
  optional values, JavaScript error values, digit strings, sums, sorting
  and the sorted enumeration of a set of integers (the model's stand-in for
  `SELECT DISTINCT ... ORDER BY ... ASC`).
 */
module Common {

  datatype Option<T> = None | Some(value: T)

  /** A value thrown by JavaScript code: an `Error` (which has a message) or anything else. */
  datatype Thrown = ErrorValue(message: string) | OtherValue

  /** `error instanceof Error ? error.message : fallback` */
  function MessageOr(t: Thrown, fallback: string): string
  {
    match t
    case ErrorValue(m) => m
    case OtherValue => fallback
  }

  function Max(a: int, b: int): int
  {
    if a < b then b else a
  }

  predicate IsDigit(c: char)
  {
    '0' <= c <= '9'
  }

  predicate AllDigits(s: string)
  {
    forall i | 0 <= i < |s| :: IsDigit(s[i])
  }

  predicate StartsWith(s: string, p: string)
  {
    |p| <= |s| && s[..|p|] == p
  }

  /** Length of the longest run of decimal digits at the start of `s` (what `\d+` consumes). */
  function DigitRunLength(s: string): (n: nat)
    ensures n <= |s|
    ensures AllDigits(s[..n])
    ensures n < |s| ==> !IsDigit(s[n])
  {
    if |s| == 0 || !IsDigit(s[0]) then 0
    else
      var n := 1 + DigitRunLength(s[1..]);
      assert s[..n] == [s[0]] + s[1..][..n - 1];
      n
  }

  /** The leading run of digits of `s`. */
  function LeadingDigits(s: string): (d: string)
    ensures AllDigits(d) && StartsWith(s, d)
    ensures |d| < |s| ==> !IsDigit(s[|d|])
  {
    s[..DigitRunLength(s)]
  }

  /** Decimal value of a digit string (most significant digit first). */
  function DecimalValue(s: string): nat
    requires AllDigits(s)
  {
    if |s| == 0 then 0
    else 10 * DecimalValue(s[..|s| - 1]) + (s[|s| - 1] as int - '0' as int)
  }

  /** Decimal rendering of a natural number, as `String(n)` prints it. */
  function NatToString(n: nat): (s: string)
    ensures |s| > 0 && AllDigits(s)
    ensures DecimalValue(s) == n
    decreases n
  {
    var last := [('0' as int + n % 10) as char];
    if n < 10 then last
    else
      var s := NatToString(n / 10) + last;
      assert s[..|s| - 1] == NatToString(n / 10);
      s
  }

  /** Sum of `f` over a sequence, accumulated from the front as a JavaScript `reduce` does. */
  function SumBy<T>(s: seq<T>, f: T -> int): int
  {
    if |s| == 0 then 0 else SumBy(s[..|s| - 1], f) + f(s[|s| - 1])
  }

  lemma {:induction false} SumByAppend<T>(a: seq<T>, b: seq<T>, f: T -> int)
    ensures SumBy(a + b, f) == SumBy(a, f) + SumBy(b, f)
    decreases |b|
  {
    if |b| == 0 {
      assert a + b == a;
    } else {
      assert (a + b)[..|a + b| - 1] == a + b[..|b| - 1];
      SumByAppend(a, b[..|b| - 1], f);
    }
  }

  /** Elements of `s` satisfying `p`, in their original order (a SQL `WHERE` over a heap table). */
  function Filter<T>(s: seq<T>, p: T -> bool): (r: seq<T>)
    ensures |r| <= |s|
    ensures forall i | 0 <= i < |r| :: p(r[i]) && r[i] in s
    ensures forall i | 0 <= i < |s| && p(s[i]) :: s[i] in r
    ensures multiset(r) <= multiset(s)
  {
    if |s| == 0 then []
    else
      var rest := Filter(s[..|s| - 1], p);
      assert s == s[..|s| - 1] + [s[|s| - 1]];
      if p(s[|s| - 1]) then rest + [s[|s| - 1]] else rest
  }

  lemma {:induction false} FilterAppend<T>(a: seq<T>, b: seq<T>, p: T -> bool)
    ensures Filter(a + b, p) == Filter(a, p) + Filter(b, p)
    decreases |b|
  {
    if |b| == 0 {
      assert a + b == a;
    } else {
      assert (a + b)[..|a + b| - 1] == a + b[..|b| - 1];
      FilterAppend(a, b[..|b| - 1], p);
    }
  }

  /** `s` is in ascending order of `key`. */
  predicate SortedBy<T>(s: seq<T>, key: T -> int)
  {
    forall i, j | 0 <= i < j < |s| :: key(s[i]) <= key(s[j])
  }

  /** Stable ascending sort of `s` by an integer key (insertion sort). */
  function SortBy<T>(s: seq<T>, key: T -> int): (r: seq<T>)
    ensures multiset(r) == multiset(s)
    ensures |r| == |s|
    ensures SortedBy(r, key)
  {
    if |s| == 0 then []
    else
      var rest := SortBy(s[..|s| - 1], key);
      assert s == s[..|s| - 1] + [s[|s| - 1]];
      InsertBy(rest, s[|s| - 1], key)
  }

  lemma SortedByAppend<T>(s: seq<T>, x: T, key: T -> int)
    requires SortedBy(s, key)
    requires forall i | 0 <= i < |s| :: key(s[i]) <= key(x)
    ensures SortedBy(s + [x], key)
  {
  }

  /** Inserts `x` after every element whose key is at most `key(x)`. */
  function InsertBy<T>(s: seq<T>, x: T, key: T -> int): (r: seq<T>)
    requires SortedBy(s, key)
    ensures multiset(r) == multiset(s) + multiset{x}
    ensures |r| == |s| + 1
    ensures forall i | 0 <= i < |r| :: r[i] == x || r[i] in s
    ensures SortedBy(r, key)
  {
    if |s| == 0 then [x]
    else
      var last := s[|s| - 1];
      var init := s[..|s| - 1];
      assert s == init + [last];
      assert forall i | 0 <= i < |s| :: key(s[i]) <= key(last);
      if key(last) <= key(x) then
        SortedByAppend(s, x, key);
        s + [x]
      else
        assert SortedBy(init, key);
        var front := InsertBy(init, x, key);
        AppendLast(init, last, x, front, key);
        front + [last]
  }

  /** `last`, the greatest of a sorted `init + [last]`, also closes any sorted arrangement of `init` and a smaller `x`. */
  lemma AppendLast<T>(init: seq<T>, last: T, x: T, front: seq<T>, key: T -> int)
    requires SortedBy(init + [last], key) && key(x) < key(last) && SortedBy(front, key)
    requires forall i | 0 <= i < |front| :: front[i] == x || front[i] in init
    ensures SortedBy(front + [last], key)
  {
    var s := init + [last];
    forall i | 0 <= i < |front|
      ensures key(front[i]) <= key(last)
    {
      if front[i] != x {
        var j :| 0 <= j < |init| && init[j] == front[i];
        assert s[j] == init[j] && s[|init|] == last;
      }
    }
    SortedByAppend(front, last, key);
  }

  /** Sequences that are permutations of each other hold the same elements. */
  lemma SameElements<T>(a: seq<T>, b: seq<T>)
    requires multiset(a) == multiset(b)
    ensures forall x :: x in a <==> x in b
  {
    forall x
      ensures x in a <==> x in b
    {
      assert x in a <==> x in multiset(a);
      assert x in b <==> x in multiset(b);
    }
  }

  predicate StrictlyIncreasing(s: seq<int>)
  {
    forall i, j | 0 <= i < j < |s| :: s[i] < s[j]
  }

  lemma {:induction false} MinExists(s: set<int>)
    requires s != {}
    ensures exists m :: m in s && forall x | x in s :: m <= x
    decreases |s|
  {
    if forall z :: z !in s {
      assert false;
    }
    var y :| y in s;
    var rest := s - {y};
    if rest == {} {
      forall x | x in s
        ensures y <= x
      {
        assert x in rest || x == y;
      }
    } else {
      MinExists(rest);
      var m :| m in rest && forall x | x in rest :: m <= x;
      var least := if y < m then y else m;
      forall x | x in s
        ensures least <= x
      {
        if x != y {
          assert x in rest;
        }
      }
      assert least in s;
    }
  }

  /** Putting the least element of `s` in front of an ascending listing of the rest lists `s` in ascending order. */
  lemma ConsLeast(s: set<int>, m: int, tail: seq<int>)
    requires m in s && forall x | x in s :: m <= x
    requires |tail| == |s - {m}| && StrictlyIncreasing(tail)
    requires forall x :: x in tail <==> x in s - {m}
    ensures |[m] + tail| == |s|
    ensures StrictlyIncreasing([m] + tail)
    ensures forall x :: x in [m] + tail <==> x in s
  {
    var r := [m] + tail;
    forall i, j | 0 <= i < j < |r|
      ensures r[i] < r[j]
    {
      assert r[j] == tail[j - 1];
      assert tail[j - 1] in tail;
      if i > 0 {
        assert r[i] == tail[i - 1];
      }
    }
  }

  /** The elements of a finite set of integers in ascending order. */
  function SortedSet(s: set<int>): (r: seq<int>)
    ensures |r| == |s|
    ensures StrictlyIncreasing(r)
    ensures forall x :: x in r <==> x in s
    decreases |s|
  {
    if s == {} then []
    else
      MinExists(s);
      var m :| m in s && forall x | x in s :: m <= x;
      var tail := SortedSet(s - {m});
      ConsLeast(s, m, tail);
      [m] + tail
  }
}
