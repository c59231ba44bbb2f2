/**
 * Group-level constraint generation of enoslib/service/netem/__init__.py:
 * group patterns `name[s-e]` are expanded, default constraints are made for
 * every ordered pair of groups, user constraints are expanded (with their
 * symmetric copies) and merged into the defaults in place.
 */
module Netem {
  import opened Common

  // ---------------------------------------------------------------------------
  // expand_groups: the pattern `(?P<name>.+)\[(?P<start>\d+)-(?P<end>\d+)\]`
  // under `re.match` (anchored at the start only). Digits are ASCII digits.

  /** The length of the run of digits of `s` starting at `i`. */
  function DigitRun(s: string, i: nat): (n: nat)
    requires i <= |s|
    ensures i + n <= |s|
    decreases |s| - i
  {
    if i < |s| && IsDigit(s[i]) then 1 + DigitRun(s, i + 1) else 0
  }

  /** The value of the `n` digits of `s` starting at `i`, read left to right as `int()` does. */
  function DigitsValue(s: string, i: nat, n: nat): nat
    requires i + n <= |s|
  {
    if n == 0 then 0
    else 10 * DigitsValue(s, i, n - 1) + (if IsDigit(s[i + n - 1]) then s[i + n - 1] as int - '0' as int else 0)
  }

  /** The value of the digits of `s` starting at `i`, and where they end, if there is one. */
  function Numeral(s: string, i: nat): Option<(nat, nat)>
    requires i <= |s|
  {
    var n := DigitRun(s, i);
    if n == 0 then None else Some((DigitsValue(s, i, n), i + n))
  }

  /** The bounds of a `[start-end]` starting at position `p` of `s`, if one does. */
  function BracketAt(s: string, p: nat): Option<(nat, nat)>
  {
    if p < |s| && s[p] == '[' then
      match Numeral(s, p + 1)
      case None => None
      case Some((start, q)) =>
        if q < |s| && s[q] == '-' then
          match Numeral(s, q + 1)
          case None => None
          case Some((end, r)) => if r < |s| && s[r] == ']' then Some((start, end)) else None
        else None
    else None
  }

  /** The greedy name: the largest `p` in `1..top` where a `[start-end]` starts. */
  function FindBracket(s: string, top: nat): (p: Option<nat>)
    ensures p.Some? ==> 1 <= p.value <= top
    decreases top
  {
    if top < 1 then None
    else if BracketAt(s, top).Some? then Some(top)
    else FindBracket(s, top - 1)
  }

  /** The search finds the largest place in `1..top` a bracket starts at, and only one. */
  lemma {:induction false} FindBracketSpec(s: string, top: nat)
    ensures var p := FindBracket(s, top);
      && (p.Some? ==> BracketAt(s, p.value).Some?)
      && (p.Some? ==> forall q :: p.value < q <= top ==> BracketAt(s, q).None?)
      && (p.None? ==> forall q :: 1 <= q <= top ==> BracketAt(s, q).None?)
    decreases top
  {
    if top >= 1 && BracketAt(s, top).None? {
      FindBracketSpec(s, top - 1);
    }
  }

  /** `.` does not match a newline: the name ends at the first one at the latest. */
  function NameLimit(s: string): (n: nat)
    ensures n <= |s| && '\n' !in s[..n]
  {
    if '\n' in s then FirstIndex(s, '\n') else |s|
  }

  /** The name and the bounds `re.match` finds in `grp`, if it matches. */
  function GroupPattern(grp: string): Option<(string, nat, nat)>
  {
    match FindBracket(grp, NameLimit(grp))
    case None => None
    case Some(p) =>
      match BracketAt(grp, p)
      case None => None
      case Some((start, end)) => Some((grp[..p], start, end))
  }

  /** `[name + str(x) for x in range(start, end + 1)]`. */
  function Numbered(name: string, start: nat, end: nat): seq<string>
  {
    seq(if start <= end then end - start + 1 else 0, i requires 0 <= i => name + NatToString(start + i))
  }

  /** `expand_groups(grp)`. */
  function ExpandGroups(grp: string): seq<string>
  {
    match GroupPattern(grp)
    case None => [grp]
    case Some((name, start, end)) => Numbered(name, start, end)
  }

  /** A run of `len` digits ended by a non-digit. */
  lemma {:induction false} DigitRunExact(s: string, i: nat, len: nat)
    requires i + len < |s| && !IsDigit(s[i + len])
    requires forall k :: i <= k < i + len ==> IsDigit(s[k])
    ensures DigitRun(s, i) == len
    decreases len
  {
    if len > 0 {
      DigitRunExact(s, i + 1, len - 1);
    }
  }

  /** `s` holds `part` from position `i` on. */
  ghost predicate HoldsAt(s: string, i: nat, part: string)
  {
    i + |part| <= |s| && forall k :: 0 <= k < |part| ==> s[i + k] == part[k]
  }

  /** A numeral held at `i` and followed by a non-digit is a digit run of its own length. */
  lemma NumeralRun(s: string, i: nat, num: string)
    requires AllDigits(num) && HoldsAt(s, i, num)
    requires i + |num| < |s| && !IsDigit(s[i + |num|])
    ensures DigitRun(s, i) == |num|
  {
    forall k | i <= k < i + |num| ensures IsDigit(s[k]) {
      assert s[i + (k - i)] == num[k - i];
    }
    DigitRunExact(s, i, |num|);
  }

  /** `grp` is `pre + "[" + a + "-" + b + "]" + post`, told character by character. */
  ghost predicate Written(grp: string, pre: string, a: string, b: string, post: string)
  {
    var p := |pre|;
    var q := p + 1 + |a|;
    var r := q + 1 + |b|;
    && |grp| == r + 1 + |post|
    && HoldsAt(grp, 0, pre)
    && grp[p] == '[' && HoldsAt(grp, p + 1, a)
    && grp[q] == '-' && HoldsAt(grp, q + 1, b)
    && grp[r] == ']' && HoldsAt(grp, r + 1, post)
  }

  /** The concatenation is `Written` out of its parts. */
  lemma Layout(pre: string, a: string, b: string, post: string)
    ensures Written(pre + "[" + a + "-" + b + "]" + post, pre, a, b, post)
  {
    var x1 := pre + "[";
    var x2 := x1 + a;
    var x3 := x2 + "-";
    var x4 := x3 + b;
    var x5 := x4 + "]";
    var grp := x5 + post;
    var p := |pre|;
    var q := p + 1 + |a|;
    var r := q + 1 + |b|;
    forall k | 0 <= k < |pre| ensures grp[k] == pre[k] {
      assert grp[k] == x5[k] == x4[k] == x3[k] == x2[k] == x1[k];
    }
    assert grp[p] == x5[p] == x4[p] == x3[p] == x2[p] == x1[p];
    forall k | 0 <= k < |a| ensures grp[p + 1 + k] == a[k] {
      assert grp[p + 1 + k] == x5[p + 1 + k] == x4[p + 1 + k] == x3[p + 1 + k] == x2[p + 1 + k];
    }
    assert grp[q] == x5[q] == x4[q] == x3[q];
    forall k | 0 <= k < |b| ensures grp[q + 1 + k] == b[k] {
      assert grp[q + 1 + k] == x5[q + 1 + k] == x4[q + 1 + k];
    }
    assert grp[r] == x5[r];
    forall k | 0 <= k < |post| ensures grp[r + 1 + k] == post[k] {
      assert grp[r + 1 + k] == post[k];
    }
  }

  /** Digits read in place have the value of the numeral they spell. */
  lemma {:induction false} DigitsValueParse(s: string, i: nat, num: string)
    requires AllDigits(num) && HoldsAt(s, i, num)
    ensures DigitsValue(s, i, |num|) == ParseNat(num)
    decreases |num|
  {
    if num != [] {
      var init := num[..|num| - 1];
      forall k | 0 <= k < |init| ensures s[i + k] == init[k] {
        assert init[k] == num[k];
      }
      DigitsValueParse(s, i, init);
      assert s[i + |num| - 1] == num[|num| - 1];
    }
  }

  /** The numeral `num` at `i`, followed by a non-digit. */
  lemma NumeralAt(s: string, i: nat, num: string)
    requires num != [] && AllDigits(num) && HoldsAt(s, i, num)
    requires i + |num| < |s| && !IsDigit(s[i + |num|])
    ensures Numeral(s, i) == Some((ParseNat(num), i + |num|))
  {
    NumeralRun(s, i, num);
    DigitsValueParse(s, i, num);
  }

  /** A `[`, a numeral, a `-`, a numeral and a `]` at `p`: a bracket with the numerals' values. */
  lemma BracketAtParts(grp: string, p: nat, start: nat, q: nat, end: nat, r: nat)
    requires p < q < r < |grp|
    requires grp[p] == '[' && Numeral(grp, p + 1) == Some((start, q))
    requires grp[q] == '-' && Numeral(grp, q + 1) == Some((end, r))
    requires grp[r] == ']'
    ensures BracketAt(grp, p) == Some((start, end))
  {
  }

  /** `[a-b]` written right after `pre`: a bracket with the values of the two numerals. */
  lemma BracketHeld(grp: string, pre: string, a: string, b: string, post: string)
    requires Written(grp, pre, a, b, post)
    requires a != [] && AllDigits(a) && b != [] && AllDigits(b)
    ensures BracketAt(grp, |pre|) == Some((ParseNat(a), ParseNat(b)))
  {
    var p := |pre|;
    NumeralAt(grp, p + 1, a);
    NumeralAt(grp, p + 2 + |a|, b);
    BracketAtParts(grp, p, ParseNat(a), p + 1 + |a|, ParseNat(b), p + 2 + |a| + |b|);
  }

  /** Past the bracket's `[`, a text with no other `[` has no bracket to start one. */
  lemma NoBracketAfter(grp: string, pre: string, a: string, b: string, post: string, t: nat)
    requires Written(grp, pre, a, b, post)
    requires AllDigits(a) && AllDigits(b) && '[' !in post && |pre| < t
    ensures BracketAt(grp, t).None?
  {
    var p := |pre|;
    var q := p + 1 + |a|;
    var r := q + 1 + |b|;
    if t < |grp| {
      if t < q {
        assert grp[p + 1 + (t - p - 1)] == a[t - p - 1];
      } else if q < t < r {
        assert grp[q + 1 + (t - q - 1)] == b[t - q - 1];
      } else if r < t {
        assert grp[r + 1 + (t - r - 1)] == post[t - r - 1];
      }
    }
  }

  /** The largest place a bracket starts at, within the name's limit, is what `re.match` finds. */
  lemma GroupPatternAt(grp: string, p: nat, start: nat, end: nat)
    requires 1 <= p <= NameLimit(grp) && BracketAt(grp, p) == Some((start, end))
    requires forall t :: p < t <= NameLimit(grp) ==> BracketAt(grp, t).None?
    ensures GroupPattern(grp) == Some((grp[..p], start, end))
  {
    FindBracketSpec(grp, NameLimit(grp));
  }

  /** The pattern read off a `Written` group. */
  lemma PatternWritten(grp: string, name: string, a: string, b: string, suffix: string)
    requires Written(grp, name, a, b, suffix)
    requires name != [] && '\n' !in name && '[' !in suffix
    requires a != [] && AllDigits(a) && b != [] && AllDigits(b)
    ensures GroupPattern(grp) == Some((name, ParseNat(a), ParseNat(b)))
  {
    var p := |name|;
    BracketHeld(grp, name, a, b, suffix);
    assert grp[..p] == name;
    var top := NameLimit(grp);
    assert p <= top by {
      if '\n' in grp {
        assert '\n' !in grp[..p];
      }
    }
    forall t | p < t <= top ensures BracketAt(grp, t).None? {
      NoBracketAfter(grp, name, a, b, suffix, t);
    }
    GroupPatternAt(grp, p, ParseNat(a), ParseNat(b));
  }

  /**
   * A group written `name[a-b]`, with `a` and `b` runs of digits, followed by
   * anything without a `[`, expands to `name + str(int(a))`, ...,
   * `name + str(int(b))`: the name is everything before the bracket and the
   * trailing text is ignored.
   */
  lemma ExpandPattern(name: string, a: string, b: string, suffix: string)
    requires name != [] && '\n' !in name && '[' !in suffix
    requires a != [] && AllDigits(a) && b != [] && AllDigits(b)
    ensures ExpandGroups(name + "[" + a + "-" + b + "]" + suffix) == Numbered(name, ParseNat(a), ParseNat(b))
  {
    Layout(name, a, b, suffix);
    PatternWritten(name + "[" + a + "-" + b + "]" + suffix, name, a, b, suffix);
  }

  /** `name[start-end]` written with `str` expands to the numbered names from `start` to `end`. */
  lemma ExpandNumbered(name: string, start: nat, end: nat, suffix: string)
    requires name != [] && '\n' !in name && '[' !in suffix
    ensures var r := ExpandGroups(name + "[" + NatToString(start) + "-" + NatToString(end) + "]" + suffix);
      && |r| == (if start <= end then end - start + 1 else 0)
      && forall i :: 0 <= i < |r| ==> r[i] == name + NatToString(start + i)
  {
    var r := ExpandGroups(name + "[" + NatToString(start) + "-" + NatToString(end) + "]" + suffix);
    assert r == Numbered(name, start, end) by {
      ParseNatToString(start);
      ParseNatToString(end);
      ExpandPattern(name, NatToString(start), NatToString(end), suffix);
    }
  }

  /** A group with no `[` in it is not a pattern: it expands to itself. */
  lemma ExpandPlain(grp: string)
    requires '[' !in grp
    ensures ExpandGroups(grp) == [grp]
  {
    forall q | 1 <= q <= NameLimit(grp) ensures BracketAt(grp, q).None? {
      if q < |grp| {
        assert grp[q] in grp;
      }
    }
    FindBracketSpec(grp, NameLimit(grp));
  }

  // ---------------------------------------------------------------------------
  // Constraint descriptions

  /** The values a description's fields hold. */
  datatype Value = Null | Bool(b: bool) | Int(i: int) | Str(s: string)

  /** Python's truth value of a field. */
  predicate Truthy(v: Value)
  {
    match v
    case Null => false
    case Bool(b) => b
    case Int(i) => i != 0
    case Str(s) => s != ""
  }

  /** A constraint dictionary: its `src`, its `dst` and all its other keys. */
  datatype Desc = Desc(src: string, dst: string, fields: map<string, Value>)

  /**
   * The `network_constraints` dictionary: the three defaults (absent or
   * present), the `except` list (an absent one is the empty list), the
   * `groups` list and the `constraints` list, each absent or present.
   */
  datatype NetworkConstraints = NetworkConstraints(
    defaultDelay: Option<Value>,
    defaultRate: Option<Value>,
    defaultLoss: Option<Value>,
    exceptGroups: seq<string>,
    groups: Option<seq<string>>,
    constraints: Option<seq<Desc>>)

  // ---------------------------------------------------------------------------
  // _expand_description

  /** `d` copied once per destination, from `src`. */
  function Row(src: string, dsts: seq<string>, d: Desc): seq<Desc>
  {
    seq(|dsts|, j requires 0 <= j < |dsts| => Desc(src, dsts[j], d.fields))
  }

  /** `d` copied once per source and destination, sources outermost. */
  function Product(srcs: seq<string>, dsts: seq<string>, d: Desc): seq<Desc>
  {
    if srcs == [] then [] else Product(srcs[..|srcs| - 1], dsts, d) + Row(srcs[|srcs| - 1], dsts, d)
  }

  /** The descriptions a user constraint stands for once its groups are expanded. */
  function Expanded(d: Desc): seq<Desc>
  {
    Product(ExpandGroups(d.src), ExpandGroups(d.dst), d)
  }

  /** One copy per source and destination. */
  lemma {:induction false} ProductLength(srcs: seq<string>, dsts: seq<string>, d: Desc)
    ensures |Product(srcs, dsts, d)| == |srcs| * |dsts|
  {
    if srcs != [] {
      ProductLength(srcs[..|srcs| - 1], dsts, d);
    }
  }

  /**
   * Sources outermost: the copies from the `i`-th source follow those from
   * the sources before it (`i * |dsts|` of them), and the `j`-th of them goes
   * to the `j`-th destination, keeping every other field.
   */
  lemma {:induction false} ProductElem(srcs: seq<string>, dsts: seq<string>, d: Desc, i: nat, j: nat)
    requires i < |srcs| && j < |dsts|
    ensures |Product(srcs[..i], dsts, d)| + j < |Product(srcs, dsts, d)|
    ensures Product(srcs, dsts, d)[|Product(srcs[..i], dsts, d)| + j] == Desc(srcs[i], dsts[j], d.fields)
  {
    var n := |srcs| - 1;
    if i < n {
      ProductElem(srcs[..n], dsts, d, i, j);
      assert srcs[..n][..i] == srcs[..i];
    } else {
      assert srcs[..i] == srcs[..n];
    }
  }

  /** A copy is in the product exactly when its source and destination are and its fields are `d`'s. */
  lemma {:induction false} ProductMember(srcs: seq<string>, dsts: seq<string>, d: Desc, e: Desc)
    ensures e in Product(srcs, dsts, d) <==> e.src in srcs && e.dst in dsts && e.fields == d.fields
  {
    if srcs != [] {
      var n := |srcs| - 1;
      ProductMember(srcs[..n], dsts, d, e);
      assert srcs == srcs[..n] + [srcs[n]];
      if e.src in srcs && e.dst in dsts && e.fields == d.fields && e.src == srcs[n] {
        var j :| 0 <= j < |dsts| && dsts[j] == e.dst;
        assert Row(srcs[n], dsts, d)[j] == e;
      }
    }
  }

  /**
   * `_expand_description(desc)`: the groups expanded, then a copy of `desc`
   * per pair; the loops build the sequence `Expanded` specifies.
   */
  method ExpandDescription(d: Desc) returns (descs: seq<Desc>)
    ensures descs == Expanded(d)
  {
    var srcs := ExpandGroups(d.src);
    var dsts := ExpandGroups(d.dst);
    descs := CopyPerPair(srcs, dsts, d);
  }

  /** The nested loops of `_expand_description`: sources outermost, a copy per destination. */
  method CopyPerPair(srcs: seq<string>, dsts: seq<string>, d: Desc) returns (descs: seq<Desc>)
    ensures descs == Product(srcs, dsts, d)
  {
    descs := [];
    for i := 0 to |srcs|
      invariant descs == Product(srcs[..i], dsts, d)
    {
      for j := 0 to |dsts|
        invariant descs == Product(srcs[..i], dsts, d) + Row(srcs[i], dsts[..j], d)
      {
        assert Row(srcs[i], dsts[..j + 1], d) == Row(srcs[i], dsts[..j], d) + [Desc(srcs[i], dsts[j], d.fields)];
        descs := descs + [Desc(srcs[i], dsts[j], d.fields)];
      }
      assert dsts[..|dsts|] == dsts;
      assert srcs[..i + 1][..i] == srcs[..i];
    }
    assert srcs[..|srcs|] == srcs;
  }

  // ---------------------------------------------------------------------------
  // _src_equals_dst_in_constraints

  /** Some expanded user constraint goes from `g` to `g` itself. */
  predicate SelfConstrained(cs: Option<seq<Desc>>, g: string)
  {
    cs.Some? && exists k, e :: 0 <= k < |cs.value| && e in Expanded(cs.value[k]) && e.src == g && e.dst == g
  }

  /** A self-constraint on `g` is a user constraint whose source and destination both expand to `g`. */
  lemma SelfConstrainedGroups(cs: Option<seq<Desc>>, g: string)
    ensures SelfConstrained(cs, g) <==>
      cs.Some? && exists k :: 0 <= k < |cs.value| && g in ExpandGroups(cs.value[k].src) && g in ExpandGroups(cs.value[k].dst)
  {
    if cs.Some? {
      forall k, e | 0 <= k < |cs.value| && e in Expanded(cs.value[k]) && e.src == g && e.dst == g
        ensures g in ExpandGroups(cs.value[k].src) && g in ExpandGroups(cs.value[k].dst)
      {
        ProductMember(ExpandGroups(cs.value[k].src), ExpandGroups(cs.value[k].dst), cs.value[k], e);
      }
      forall k | 0 <= k < |cs.value| && g in ExpandGroups(cs.value[k].src) && g in ExpandGroups(cs.value[k].dst)
        ensures SelfConstrained(cs, g)
      {
        var e := Desc(g, g, cs.value[k].fields);
        ProductMember(ExpandGroups(cs.value[k].src), ExpandGroups(cs.value[k].dst), cs.value[k], e);
      }
    }
  }

  /** Whether some description goes from `g` to `g`, looked for in order. */
  method FindSelfPair(descs: seq<Desc>, g: string) returns (found: bool)
    ensures found <==> exists t :: 0 <= t < |descs| && descs[t].src == g && descs[t].dst == g
  {
    for t := 0 to |descs|
      invariant forall t' :: 0 <= t' < t ==> !(descs[t'].src == g && descs[t'].dst == g)
    {
      if g == descs[t].src && descs[t].src == descs[t].dst {
        return true;
      }
    }
    return false;
  }

  /** `_src_equals_dst_in_constraints(network_constraints, grp1)`: the search with its early return. */
  method SrcEqualsDst(nc: NetworkConstraints, g: string) returns (b: bool)
    ensures b == SelfConstrained(nc.constraints, g)
  {
    if nc.constraints.None? {
      return false;
    }
    var cs := nc.constraints.value;
    for k := 0 to |cs|
      invariant forall k', e :: 0 <= k' < k && e in Expanded(cs[k']) ==> !(e.src == g && e.dst == g)
    {
      var descs := ExpandDescription(cs[k]);
      var found := FindSelfPair(descs, g);
      if found {
        return true;
      }
    }
    return false;
  }

  // ---------------------------------------------------------------------------
  // _generate_default_grp_constraints

  /** The groups: `groups` if given, else the role names, each expanded, flattened in order. */
  function Groups(roleNames: seq<string>, nc: NetworkConstraints): seq<string>
  {
    var gs := nc.groups.GetOr(roleNames);
    Flatten(seq(|gs|, i requires 0 <= i < |gs| => ExpandGroups(gs[i])))
  }

  /** The fields of a default constraint: the defaults, `None` when absent, and a loss of 0 when absent. */
  function DefaultFields(nc: NetworkConstraints): map<string, Value>
  {
    map["delay" := nc.defaultDelay.GetOr(Null), "rate" := nc.defaultRate.GetOr(Null), "loss" := nc.defaultLoss.GetOr(Int(0))]
  }

  /** The comprehension's filter on a pair of groups. */
  predicate Paired(nc: NetworkConstraints, g1: string, g2: string)
  {
    (g1 != g2 || SelfConstrained(nc.constraints, g1)) && g1 !in nc.exceptGroups && g2 !in nc.exceptGroups
  }

  /** `for grp2 in grps if ...`, for one `grp1`. */
  function DefaultRow(nc: NetworkConstraints, g1: string, grps: seq<string>): seq<Desc>
  {
    if grps == [] then []
    else
      var g2 := grps[|grps| - 1];
      DefaultRow(nc, g1, grps[..|grps| - 1]) + (if Paired(nc, g1, g2) then [Desc(g1, g2, DefaultFields(nc))] else [])
  }

  /** `for grp1 in g1s for grp2 in grps if ...`. */
  function DefaultPairs(nc: NetworkConstraints, g1s: seq<string>, grps: seq<string>): seq<Desc>
  {
    if g1s == [] then []
    else DefaultPairs(nc, g1s[..|g1s| - 1], grps) + DefaultRow(nc, g1s[|g1s| - 1], grps)
  }

  /** `_generate_default_grp_constraints(roles, network_constraints)`. */
  function DefaultConstraints(roleNames: seq<string>, nc: NetworkConstraints): seq<Desc>
  {
    var grps := Groups(roleNames, nc);
    DefaultPairs(nc, grps, grps)
  }

  lemma {:induction false} DefaultRowMember(nc: NetworkConstraints, g1: string, grps: seq<string>, e: Desc)
    ensures e in DefaultRow(nc, g1, grps) <==>
      e.src == g1 && e.dst in grps && Paired(nc, g1, e.dst) && e.fields == DefaultFields(nc)
  {
    if grps != [] {
      var n := |grps| - 1;
      DefaultRowMember(nc, g1, grps[..n], e);
      assert grps == grps[..n] + [grps[n]];
    }
  }

  lemma {:induction false} DefaultPairsMember(nc: NetworkConstraints, g1s: seq<string>, grps: seq<string>, e: Desc)
    ensures e in DefaultPairs(nc, g1s, grps) <==>
      e.src in g1s && e.dst in grps && Paired(nc, e.src, e.dst) && e.fields == DefaultFields(nc)
  {
    if g1s != [] {
      var n := |g1s| - 1;
      DefaultPairsMember(nc, g1s[..n], grps, e);
      DefaultRowMember(nc, g1s[n], grps, e);
      assert g1s == g1s[..n] + [g1s[n]];
    }
  }

  /** A group is one of the expansions of the given groups, or of the role names when none are given. */
  lemma GroupsMember(roleNames: seq<string>, nc: NetworkConstraints, g: string)
    ensures var gs := nc.groups.GetOr(roleNames);
      g in Groups(roleNames, nc) <==> exists i :: 0 <= i < |gs| && g in ExpandGroups(gs[i])
  {
    var gs := nc.groups.GetOr(roleNames);
    var ss := seq(|gs|, i requires 0 <= i < |gs| => ExpandGroups(gs[i]));
    assert Groups(roleNames, nc) == Flatten(ss);
    FlattenMember(ss, g);
    if g in Groups(roleNames, nc) {
      var i :| 0 <= i < |ss| && g in ss[i];
      assert g in ExpandGroups(gs[i]);
    }
    if exists i :: 0 <= i < |gs| && g in ExpandGroups(gs[i]) {
      var i :| 0 <= i < |gs| && g in ExpandGroups(gs[i]);
      assert g in ss[i];
    }
  }

  /**
   * The defaults are the ordered pairs of groups, with the default fields,
   * that leave out the groups in `except` and a group paired with itself
   * unless a user constraint goes from it to itself.
   */
  lemma DefaultMember(roleNames: seq<string>, nc: NetworkConstraints, e: Desc)
    ensures var grps := Groups(roleNames, nc);
      e in DefaultConstraints(roleNames, nc) <==>
        && e.src in grps && e.dst in grps
        && (e.src != e.dst || SelfConstrained(nc.constraints, e.src))
        && e.src !in nc.exceptGroups && e.dst !in nc.exceptGroups
        && e.fields == DefaultFields(nc)
  {
    var grps := Groups(roleNames, nc);
    DefaultPairsMember(nc, grps, grps, e);
  }

  // ---------------------------------------------------------------------------
  // _generate_actual_grp_constraints

  /** `"symetric" in desc and desc["symetric"]`. */
  predicate Symmetric(d: Desc)
  {
    "symetric" in d.fields && Truthy(d.fields["symetric"])
  }

  /** The copy with `src` and `dst` exchanged. */
  function Swapped(d: Desc): Desc
  {
    Desc(d.dst, d.src, d.fields)
  }

  /** What one expanded description adds: itself, then its swapped copy when symmetric. */
  function Copies(d: Desc): seq<Desc>
  {
    if Symmetric(d) then [d, Swapped(d)] else [d]
  }

  /** What a sequence of expanded descriptions adds, in order. */
  function WithSymmetric(ds: seq<Desc>): seq<Desc>
  {
    if ds == [] then [] else WithSymmetric(ds[..|ds| - 1]) + Copies(ds[|ds| - 1])
  }

  /** What one user constraint adds: its expansion, each symmetric description followed by its swapped copy. */
  function Contribution(c: Desc): seq<Desc>
  {
    WithSymmetric(Expanded(c))
  }

  /** The user constraints, expanded: none without a `constraints` key. */
  function Actual(nc: NetworkConstraints): seq<Desc>
  {
    match nc.constraints
    case None => []
    case Some(cs) => ConcatMap(cs, Contribution)
  }

  lemma {:induction false} WithSymmetricConcat(a: seq<Desc>, b: seq<Desc>)
    ensures WithSymmetric(a + b) == WithSymmetric(a) + WithSymmetric(b)
    decreases |b|
  {
    if b != [] {
      var n := |b| - 1;
      assert (a + b)[..|a + b| - 1] == a + b[..n];
      WithSymmetricConcat(a, b[..n]);
    } else {
      assert a + b == a;
    }
  }

  /**
   * Every expanded description is kept in order, and a symmetric one is
   * immediately followed by its swapped copy.
   */
  lemma WithSymmetricSplit(ds: seq<Desc>, k: nat)
    requires k < |ds|
    ensures WithSymmetric(ds) == WithSymmetric(ds[..k]) + Copies(ds[k]) + WithSymmetric(ds[k + 1..])
  {
    WithSymmetricPrefix(ds, k);
    WithSymmetricWhole(ds, k + 1);
  }

  /** The copies of a prefix one longer. */
  lemma WithSymmetricPrefix(ds: seq<Desc>, k: nat)
    requires k < |ds|
    ensures WithSymmetric(ds[..k + 1]) == WithSymmetric(ds[..k]) + Copies(ds[k])
  {
    assert ds[..k + 1][..k] == ds[..k];
  }

  /** The copies of a prefix, then those of the rest. */
  lemma WithSymmetricWhole(ds: seq<Desc>, k: nat)
    requires k <= |ds|
    ensures WithSymmetric(ds) == WithSymmetric(ds[..k]) + WithSymmetric(ds[k..])
  {
    assert ds == ds[..k] + ds[k..];
    WithSymmetricConcat(ds[..k], ds[k..]);
  }

  lemma {:induction false} WithSymmetricMember(ds: seq<Desc>, x: Desc)
    ensures x in WithSymmetric(ds) <==> exists e :: e in ds && x in Copies(e)
  {
    if ds != [] {
      var n := |ds| - 1;
      var init := ds[..n];
      WithSymmetricMember(init, x);
      assert ds == init + [ds[n]];
      if x in WithSymmetric(init) {
        var e :| e in init && x in Copies(e);
        assert e in ds;
      }
      if exists e :: e in ds && x in Copies(e) {
        var e :| e in ds && x in Copies(e);
        if e != ds[n] {
          assert e in init;
        }
      }
    }
  }

  /**
   * The actual constraints are the expanded user descriptions and, for the
   * symmetric ones, their swapped copies; nothing else.
   */
  lemma ActualMember(nc: NetworkConstraints, x: Desc)
    ensures x in Actual(nc) <==> (nc.constraints.Some? &&
      exists k :: 0 <= k < |nc.constraints.value| && exists e :: e in Expanded(nc.constraints.value[k]) && x in Copies(e))
  {
    if nc.constraints.Some? {
      var cs := nc.constraints.value;
      ConcatMapMember(cs, Contribution, x);
      forall k | 0 <= k < |cs|
        ensures x in Contribution(cs[k]) <==> exists e :: e in Expanded(cs[k]) && x in Copies(e)
      {
        WithSymmetricMember(Expanded(cs[k]), x);
      }
    }
  }

  /**
   * `_generate_actual_grp_constraints(network_constraints)`: the loops
   * appending each description and its swapped copy, building the sequence
   * `Actual` specifies.
   */
  method GenerateActual(nc: NetworkConstraints) returns (actual: seq<Desc>)
    ensures actual == Actual(nc)
  {
    if nc.constraints.None? {
      return [];
    }
    var cs := nc.constraints.value;
    actual := [];
    for k := 0 to |cs|
      invariant actual == ConcatMap(cs[..k], Contribution)
    {
      var descs := ExpandDescription(cs[k]);
      actual := AppendCopies(actual, descs);
      assert cs[..k + 1][..k] == cs[..k];
    }
    assert cs[..|cs|] == cs;
  }

  /** The inner loop: each description, then its swapped copy when symmetric. */
  method AppendCopies(acc: seq<Desc>, descs: seq<Desc>) returns (actual: seq<Desc>)
    ensures actual == acc + WithSymmetric(descs)
  {
    actual := acc;
    for t := 0 to |descs|
      invariant actual == acc + WithSymmetric(descs[..t])
    {
      var desc := descs[t];
      assert descs[..t + 1][..t] == descs[..t];
      actual := actual + [desc];
      if Symmetric(desc) {
        var sym := Desc(desc.dst, desc.src, desc.fields);
        actual := actual + [sym];
      }
    }
    assert descs[..|descs|] == descs;
  }

  // ---------------------------------------------------------------------------
  // _same, _merge_constraints, _build_grp_constraints

  /** `_same(g1, g2)`: the same source and the same destination. */
  predicate Same(g1: Desc, g2: Desc)
  {
    g1.src == g2.src && g1.dst == g2.dst
  }

  /** `c.update(o)` on a `c` that is `Same` as `o`: the override's fields win. */
  function Update(c: Desc, o: Desc): Desc
  {
    Desc(c.src, c.dst, c.fields + o.fields)
  }

  /** The first index from `i` on whose entry is `Same` as `o`. */
  function FirstSame(cs: seq<Desc>, o: Desc, i: nat): (r: Option<nat>)
    requires i <= |cs|
    ensures r.Some? ==> i <= r.value < |cs| && Same(o, cs[r.value])
    decreases |cs| - i
  {
    if i == |cs| then None
    else if Same(o, cs[i]) then Some(i)
    else FirstSame(cs, o, i + 1)
  }

  /** The search from `i` skips exactly the entries that are not `Same` as `o`. */
  lemma {:induction false} FirstSameSpec(cs: seq<Desc>, o: Desc, i: nat)
    requires i <= |cs|
    ensures var r := FirstSame(cs, o, i);
      && (r.Some? ==> forall j :: i <= j < r.value ==> !Same(o, cs[j]))
      && (r.None? ==> forall j :: i <= j < |cs| ==> !Same(o, cs[j]))
    decreases |cs| - i
  {
    if i < |cs| && !Same(o, cs[i]) {
      FirstSameSpec(cs, o, i + 1);
    }
  }

  /** One override: the first matching entry is updated, an unmatched override is dropped. */
  function MergeOne(cs: seq<Desc>, o: Desc): seq<Desc>
  {
    match FirstSame(cs, o, 0)
    case None => cs
    case Some(i) => cs[i := Update(cs[i], o)]
  }

  /** The overrides applied in order. */
  function MergeAll(cs: seq<Desc>, os: seq<Desc>): seq<Desc>
    decreases |os|
  {
    if os == [] then cs else MergeOne(MergeAll(cs, os[..|os| - 1]), os[|os| - 1])
  }

  /** Merging keeps the length and every entry's source and destination. */
  lemma {:induction false} MergeKeepsPairs(cs: seq<Desc>, os: seq<Desc>)
    ensures |MergeAll(cs, os)| == |cs|
    ensures forall i :: 0 <= i < |cs| ==> Same(MergeAll(cs, os)[i], cs[i])
    decreases |os|
  {
    if os != [] {
      MergeKeepsPairs(cs, os[..|os| - 1]);
    }
  }

  /** Within one override, an entry that is the first of its pair gets it exactly when it matches. */
  lemma MergeOneFirst(cs: seq<Desc>, o: Desc, i: nat)
    requires i < |cs| && forall j :: 0 <= j < i ==> !Same(cs[j], cs[i])
    ensures MergeOne(cs, o)[i] == if Same(o, cs[i]) then Update(cs[i], o) else cs[i]
  {
    FirstSameSpec(cs, o, 0);
  }

  /** Within one override, an entry whose pair comes earlier is left alone. */
  lemma MergeOneLater(cs: seq<Desc>, o: Desc, i: nat, j: nat)
    requires j < i < |cs| && Same(cs[j], cs[i])
    ensures MergeOne(cs, o)[i] == cs[i]
  {
    FirstSameSpec(cs, o, 0);
  }

  /** An entry no override matches is left as it was. */
  lemma {:induction false} MergeUnmatched(cs: seq<Desc>, os: seq<Desc>, i: nat)
    requires i < |cs| && forall k :: 0 <= k < |os| ==> !Same(os[k], cs[i])
    ensures i < |MergeAll(cs, os)| && MergeAll(cs, os)[i] == cs[i]
    decreases |os|
  {
    if os != [] {
      var n := |os| - 1;
      MergeUnmatched(cs, os[..n], i);
      MergeKeepsPairs(cs, os[..n]);
      var m := MergeAll(cs, os[..n]);
      assert !Same(os[n], m[i]);
      FirstSameSpec(m, os[n], 0);
    }
  }

  /** An entry whose pair occurs earlier in the list is never updated: the earlier one takes the overrides. */
  lemma {:induction false} MergeDuplicateUntouched(cs: seq<Desc>, os: seq<Desc>, i: nat, j: nat)
    requires j < i < |cs| && Same(cs[j], cs[i])
    ensures i < |MergeAll(cs, os)| && MergeAll(cs, os)[i] == cs[i]
    decreases |os|
  {
    if os != [] {
      var n := |os| - 1;
      MergeDuplicateUntouched(cs, os[..n], i, j);
      MergeKeepsPairs(cs, os[..n]);
      MergeOneLater(MergeAll(cs, os[..n]), os[n], i, j);
    }
  }

  /** The entries before the first of a pair still do not have its pair after merging. */
  lemma MergeStillFirst(cs: seq<Desc>, os: seq<Desc>, i: nat)
    requires i < |cs| && forall j :: 0 <= j < i ==> !Same(cs[j], cs[i])
    ensures i < |MergeAll(cs, os)| && forall j :: 0 <= j < i ==> !Same(MergeAll(cs, os)[j], MergeAll(cs, os)[i])
  {
    MergeKeepsPairs(cs, os);
    var m := MergeAll(cs, os);
    forall j | 0 <= j < i ensures !Same(m[j], m[i]) {
      assert Same(m[j], cs[j]) && Same(m[i], cs[i]);
    }
  }

  /**
   * The first entry of its pair ends up, for `key`, with the value of the
   * last matching override that sets it.
   */
  lemma {:induction false} MergeLastWins(cs: seq<Desc>, os: seq<Desc>, i: nat, key: string, k: nat)
    requires i < |cs| && forall j :: 0 <= j < i ==> !Same(cs[j], cs[i])
    requires k < |os| && Same(os[k], cs[i]) && key in os[k].fields
    requires forall k' :: k < k' < |os| && Same(os[k'], cs[i]) ==> key !in os[k'].fields
    ensures i < |MergeAll(cs, os)| && key in MergeAll(cs, os)[i].fields
    ensures MergeAll(cs, os)[i].fields[key] == os[k].fields[key]
    decreases |os|
  {
    var n := |os| - 1;
    var init := os[..n];
    var m := MergeAll(cs, init);
    MergeStillFirst(cs, init, i);
    MergeKeepsPairs(cs, init);
    MergeOneFirst(m, os[n], i);
    if k < n {
      forall k' | k < k' < |init| && Same(init[k'], cs[i]) ensures key !in init[k'].fields {
        assert init[k'] == os[k'];
      }
      assert init[k] == os[k];
      MergeLastWins(cs, init, i, key, k);
    }
  }

  /** The first entry of its pair keeps its own value for a key no matching override sets. */
  lemma {:induction false} MergeKeepsUnset(cs: seq<Desc>, os: seq<Desc>, i: nat, key: string)
    requires i < |cs| && forall j :: 0 <= j < i ==> !Same(cs[j], cs[i])
    requires forall k :: 0 <= k < |os| && Same(os[k], cs[i]) ==> key !in os[k].fields
    ensures i < |MergeAll(cs, os)| && (key in MergeAll(cs, os)[i].fields <==> key in cs[i].fields)
    ensures key in cs[i].fields ==> MergeAll(cs, os)[i].fields[key] == cs[i].fields[key]
    decreases |os|
  {
    MergeKeepsPairs(cs, os);
    if os != [] {
      var n := |os| - 1;
      var init := os[..n];
      var m := MergeAll(cs, init);
      forall k | 0 <= k < |init| && Same(init[k], cs[i]) ensures key !in init[k].fields {
        assert init[k] == os[k];
      }
      MergeKeepsUnset(cs, init, i, key);
      MergeStillFirst(cs, init, i);
      MergeKeepsPairs(cs, init);
      MergeOneFirst(m, os[n], i);
    }
  }

  /** `_merge_constraints(constraints, overrides)`: each override updates the first matching entry in place. */
  method MergeConstraints(a: array<Desc>, overrides: seq<Desc>)
    modifies a
    ensures a[..] == MergeAll(old(a[..]), overrides)
  {
    for k := 0 to |overrides|
      invariant a[..] == MergeAll(old(a[..]), overrides[..k])
    {
      MergeOverride(a, overrides[k]);
      assert overrides[..k + 1][..k] == overrides[..k];
    }
    assert overrides[..|overrides|] == overrides;
  }

  /** The inner `while` loop for one override, leaving at the first match. */
  method MergeOverride(a: array<Desc>, o: Desc)
    modifies a
    ensures a[..] == MergeOne(old(a[..]), o)
  {
    var i := 0;
    while i < a.Length
      invariant 0 <= i <= a.Length && a[..] == old(a[..])
      invariant FirstSame(a[..], o, 0) == FirstSame(a[..], o, i)
    {
      if Same(o, a[i]) {
        a[i] := Update(a[i], o);
        return;
      }
      i := i + 1;
    }
  }

  /**
   * `_build_grp_constraints(roles, network_constraints)`: the defaults, with
   * the user constraints merged in when there are any. The result has the
   * defaults' pairs, in the defaults' order.
   */
  method BuildGrpConstraints(roleNames: seq<string>, nc: NetworkConstraints) returns (r: seq<Desc>)
    ensures nc.constraints.None? ==> r == DefaultConstraints(roleNames, nc)
    ensures nc.constraints.Some? ==> r == MergeAll(DefaultConstraints(roleNames, nc), Actual(nc))
    ensures |r| == |DefaultConstraints(roleNames, nc)|
    ensures forall i :: 0 <= i < |r| ==> Same(r[i], DefaultConstraints(roleNames, nc)[i])
  {
    var defaults := DefaultConstraints(roleNames, nc);
    var a := new Desc[|defaults|](i requires 0 <= i < |defaults| => defaults[i]);
    assert a[..] == defaults;
    if nc.constraints.Some? {
      var actual := GenerateActual(nc);
      MergeConstraints(a, actual);
      MergeKeepsPairs(defaults, actual);
    }
    r := a[..];
  }
}
