/** Value types and sequence/string helpers shared by every module of the model. */
module Common {

  /** A value that may be missing (a dictionary key that is absent, a `None`). */
  datatype Option<T> = None | Some(value: T) {
    function GetOr(default: T): T {
      match this
      case Some(v) => v
      case None => default
    }
  }

  /** The outcome of an operation that may raise. */
  datatype Result<T, E> = Success(value: T) | Failure(error: E)

  /** Concatenation of a sequence of sequences, in order. */
  function Flatten<T>(ss: seq<seq<T>>): seq<T>
  {
    if ss == [] then [] else ss[0] + Flatten(ss[1..])
  }

  lemma {:induction false} FlattenConcat<T>(a: seq<seq<T>>, b: seq<seq<T>>)
    ensures Flatten(a + b) == Flatten(a) + Flatten(b)
  {
    if a == [] {
      assert a + b == b;
    } else {
      assert (a + b)[1..] == a[1..] + b;
      FlattenConcat(a[1..], b);
    }
  }

  /** `f` applied to each element, the results concatenated in order. */
  function ConcatMap<A, B>(xs: seq<A>, f: A -> seq<B>): seq<B>
  {
    if xs == [] then [] else ConcatMap(xs[..|xs| - 1], f) + f(xs[|xs| - 1])
  }

  /** An element of the concatenation comes from one of the elements. */
  lemma {:induction false} ConcatMapMember<A, B>(xs: seq<A>, f: A -> seq<B>, y: B)
    ensures y in ConcatMap(xs, f) <==> exists k :: 0 <= k < |xs| && y in f(xs[k])
  {
    if xs != [] {
      var n := |xs| - 1;
      var init := xs[..n];
      ConcatMapMember(init, f, y);
      if y in ConcatMap(init, f) {
        var k :| 0 <= k < n && y in f(init[k]);
        assert init[k] == xs[k];
      }
      if exists k :: 0 <= k < |xs| && y in f(xs[k]) {
        var k :| 0 <= k < |xs| && y in f(xs[k]);
        if k < n {
          assert init[k] == xs[k];
        }
      }
    }
  }

  /** An element of the concatenation is an element of one of the parts. */
  lemma {:induction false} FlattenMember<T>(ss: seq<seq<T>>, x: T)
    ensures x in Flatten(ss) <==> exists i :: 0 <= i < |ss| && x in ss[i]
  {
    if ss != [] {
      FlattenMember(ss[1..], x);
      if x in Flatten(ss[1..]) {
        var i :| 0 <= i < |ss[1..]| && x in ss[1..][i];
        assert x in ss[i + 1];
      }
      if exists i :: 0 <= i < |ss| && x in ss[i] {
        var i :| 0 <= i < |ss| && x in ss[i];
        if i > 0 {
          assert x in ss[1..][i - 1];
        }
      }
    }
  }

  /**
   * Everything handed out, entry by entry: the items of each present entry,
   * absent entries contributing nothing.
   */
  function Assigned<T>(c: seq<Option<seq<T>>>): seq<T>
  {
    if c == [] then [] else c[0].GetOr([]) + Assigned(c[1..])
  }

  lemma {:induction false} AssignedConcat<T>(a: seq<Option<seq<T>>>, b: seq<Option<seq<T>>>)
    ensures Assigned(a + b) == Assigned(a) + Assigned(b)
  {
    if a == [] {
      assert a + b == b;
    } else {
      assert (a + b)[1..] == a[1..] + b;
      AssignedConcat(a[1..], b);
    }
  }

  /** Replacing one entry replaces its items in the multiset of what is handed out. */
  lemma {:induction false} AssignedUpdate<T>(c: seq<Option<seq<T>>>, i: nat, v: Option<seq<T>>)
    requires i < |c|
    ensures forall x :: multiset(Assigned(c[i := v]))[x] + multiset(c[i].GetOr([]))[x]
                     == multiset(Assigned(c))[x] + multiset(v.GetOr([]))[x]
  {
    var d := c[i := v];
    if i == 0 {
      assert d[1..] == c[1..];
      assert Assigned(d) == v.GetOr([]) + Assigned(c[1..]);
    } else {
      assert d[1..] == c[1..][i - 1 := v];
      assert c[1..][i - 1] == c[i];
      AssignedUpdate(c[1..], i - 1, v);
      assert Assigned(d) == c[0].GetOr([]) + Assigned(d[1..]);
    }
  }

  /** Nothing is handed out while every entry is absent. */
  lemma {:induction false} AssignedNone<T>(n: nat)
    ensures Assigned(seq<Option<seq<T>>>(n, _ => None)) == []
  {
    if n > 0 {
      var c: seq<Option<seq<T>>> := seq(n, _ => None);
      var d: seq<Option<seq<T>>> := seq(n - 1, _ => None);
      assert c[1..] == d;
      AssignedNone<T>(n - 1);
    }
  }

  // ---------------------------------------------------------------------------
  // Decimal numerals: Python's str() on a non-negative int and int() on digits.

  predicate IsDigit(c: char) {
    '0' <= c <= '9'
  }

  predicate AllDigits(s: string) {
    forall i :: 0 <= i < |s| ==> IsDigit(s[i])
  }

  function DigitChar(d: nat): (c: char)
    requires d < 10
    ensures IsDigit(c) && c as int - '0' as int == d
  {
    ('0' as int + d) as char
  }

  /** The value of a string of decimal digits; leading zeros are allowed. */
  function ParseNat(s: string): nat
    requires AllDigits(s)
  {
    if s == [] then 0 else 10 * ParseNat(s[..|s| - 1]) + (s[|s| - 1] as int - '0' as int)
  }

  /** The decimal representation of `n`, without leading zeros. */
  function NatToString(n: nat): (s: string)
    ensures s != [] && AllDigits(s)
    ensures |s| > 1 ==> s[0] != '0'
  {
    if n < 10 then [DigitChar(n)]
    else NatToString(n / 10) + [DigitChar(n % 10)]
  }

  /** `int(str(n)) == n`. */
  lemma {:induction false} ParseNatToString(n: nat)
    ensures ParseNat(NatToString(n)) == n
  {
    if n >= 10 {
      var s := NatToString(n);
      assert s[..|s| - 1] == NatToString(n / 10);
      ParseNatToString(n / 10);
    }
  }

  // ---------------------------------------------------------------------------
  // Python's ordering of str values: lexicographic by code point, a proper
  // prefix being smaller.

  predicate StrLess(a: string, b: string) {
    if a == [] then b != []
    else b != [] && (a[0] < b[0] || (a[0] == b[0] && StrLess(a[1..], b[1..])))
  }

  lemma {:induction false} StrLessIrreflexive(a: string)
    ensures !StrLess(a, a)
  {
    if a != [] {
      StrLessIrreflexive(a[1..]);
    }
  }

  // ---------------------------------------------------------------------------
  // str.join and str.split over a one-character separator.

  /** `sep.join(xs)`. */
  function Join(xs: seq<string>, sep: char): string
  {
    if xs == [] then []
    else if |xs| == 1 then xs[0]
    else xs[0] + [sep] + Join(xs[1..], sep)
  }

  /** `s.split(sep)`: the pieces between separators (at least one piece). */
  function Split(s: string, sep: char): (pieces: seq<string>)
    ensures |pieces| >= 1
    ensures forall i :: 0 <= i < |pieces| ==> sep !in pieces[i]
    decreases |s|
  {
    if sep !in s then [s]
    else
      var i := FirstIndex(s, sep);
      [s[..i]] + Split(s[i + 1..], sep)
  }

  /** The position of the first occurrence of `c` in `s`. */
  function FirstIndex(s: string, c: char): (i: nat)
    requires c in s
    ensures i < |s| && s[i] == c && c !in s[..i]
  {
    if s[0] == c then 0
    else
      assert c in s[1..];
      1 + FirstIndex(s[1..], c)
  }

  /** Splitting a joined list gives the list back when no item holds the separator. */
  lemma {:induction false} SplitJoin(xs: seq<string>, sep: char)
    requires xs != []
    requires forall i :: 0 <= i < |xs| ==> sep !in xs[i]
    ensures Split(Join(xs, sep), sep) == xs
  {
    if |xs| == 1 {
    } else {
      var s := Join(xs, sep);
      assert s == xs[0] + [sep] + Join(xs[1..], sep);
      assert s[|xs[0]|] == sep;
      assert s[..|xs[0]|] == xs[0];
      assert sep in s;
      var i := FirstIndex(s, sep);
      assert i == |xs[0]|;
      assert s[i + 1..] == Join(xs[1..], sep);
      SplitJoin(xs[1..], sep);
    }
  }
}
