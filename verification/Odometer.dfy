/** The odometer that runs through all tuples of the splits, and the assumption list
    it fills. */
module Odometer {
  import opened Numerals
  import opened Bits
  import opened Cubes

  // ----- the rank of a tuple -----

  /** The number of tuples. */
  function Product(splits: seq<nat>): nat {
    if splits == [] then 1 else Product(splits[..|splits| - 1]) * splits[|splits| - 1]
  }

  /** A tuple's position in mixed radix; the last digit is the fastest. */
  function Rank(splits: seq<nat>, t: seq<nat>): nat
    requires |t| == |splits|
  {
    if t == [] then 0
    else
      var n := |t| - 1;
      Rank(splits[..n], t[..n]) * splits[n] + t[n]
  }

  /** Lexicographic order of tuples. */
  predicate LexLess(t: seq<nat>, u: seq<nat>)
    requires |t| == |u|
  {
    t != [] && (t[0] < u[0] || (t[0] == u[0] && LexLess(t[1..], u[1..])))
  }

  lemma MulBound(a: nat, b: nat, m: nat, d: nat)
    requires a < b && d < m
    ensures a * m + d < b * m
  {
    assert a * m + m == (a + 1) * m <= b * m;
  }

  lemma {:induction false} RankBound(splits: seq<nat>, t: seq<nat>)
    requires InRange(splits, t)
    ensures Rank(splits, t) < Product(splits)
    decreases |t|
  {
    if t == [] {
    } else {
      var n := |t| - 1;
      RankBound(splits[..n], t[..n]);
      MulBound(Rank(splits[..n], t[..n]), Product(splits[..n]), splits[n], t[n]);
    }
  }

  /** The tuple at a position. */
  function Tuple(splits: seq<nat>, r: nat): (t: seq<nat>)
    requires forall i :: 0 <= i < |splits| ==> splits[i] > 0
    ensures |t| == |splits|
    decreases |splits|
  {
    if splits == [] then []
    else
      var n := |splits| - 1;
      Tuple(splits[..n], r / splits[n]) + [r % splits[n]]
  }

  lemma DivModOf(a: nat, m: nat, d: nat)
    requires d < m
    ensures (a * m + d) / m == a && (a * m + d) % m == d
  {
    var x := a * m + d;
    var q := x / m;
    assert x == m * q + x % m;
    assert m * (q - a) == d - x % m;
    if q > a { MulGap(m, q - a); }
    if q < a { MulGap(m, a - q); }
  }

  lemma MulGap(m: nat, k: nat)
    requires k > 0
    ensures m * k >= m
  {
  }

  /** Rank and Tuple are inverse on the tuples in range. */
  lemma {:induction false} TupleOfRank(splits: seq<nat>, t: seq<nat>)
    requires (forall i :: 0 <= i < |splits| ==> splits[i] > 0) && InRange(splits, t)
    ensures Tuple(splits, Rank(splits, t)) == t
    decreases |t|
  {
    if t == [] {
    } else {
      var n := |t| - 1;
      TupleOfRank(splits[..n], t[..n]);
      DivModOf(Rank(splits[..n], t[..n]), splits[n], t[n]);
    }
  }

  lemma {:induction false} RankOfTuple(splits: seq<nat>, r: nat)
    requires (forall i :: 0 <= i < |splits| ==> splits[i] > 0) && r < Product(splits)
    ensures InRange(splits, Tuple(splits, r)) && Rank(splits, Tuple(splits, r)) == r
    decreases |splits|
  {
    if splits == [] {
    } else {
      var n := |splits| - 1;
      var s, m := splits[..n], splits[n];
      var q, d := r / m, r % m;
      QuotientBelow(r, Product(s), m);
      RankOfTuple(s, q);
      DivModSum(r, m);
      RankSnoc(s, m, Tuple(s, q), d);
      assert splits == s + [m] && Tuple(splits, r) == Tuple(s, q) + [d];
    }
  }

  lemma DivModSum(r: nat, m: nat)
    requires m > 0
    ensures r == r / m * m + r % m && r % m < m
  {
  }

  lemma RankSnoc(splits: seq<nat>, m: nat, t: seq<nat>, d: nat)
    requires |t| == |splits|
    ensures Rank(splits + [m], t + [d]) == Rank(splits, t) * m + d
    ensures InRange(splits, t) && d < m ==> InRange(splits + [m], t + [d])
  {
    assert (splits + [m])[..|t|] == splits && (t + [d])[..|t|] == t;
  }

  lemma QuotientBelow(r: nat, p: nat, m: nat)
    requires m > 0 && r < p * m
    ensures r / m < p
  {
    var q := r / m;
    assert r == m * q + r % m;
    if q >= p {
      MulMonotone(m, p, q);
      assert false;
    }
  }

  lemma MulMonotone(m: nat, p: nat, q: nat)
    requires p <= q
    ensures m * p <= m * q
  {
  }

  lemma {:induction false} LexSnoc(t: seq<nat>, u: seq<nat>, d: nat, e: nat)
    requires |t| == |u|
    ensures LexLess(t + [d], u + [e]) <==> LexLess(t, u) || (t == u && d < e)
  {
    if t == [] {
      assert t + [d] == [d] && u + [e] == [e];
      assert [d][1..] == [] && [e][1..] == [];
    } else {
      assert (t + [d])[1..] == t[1..] + [d] && (u + [e])[1..] == u[1..] + [e];
      LexSnoc(t[1..], u[1..], d, e);
      assert t == u <==> t[0] == u[0] && t[1..] == u[1..] by {
        assert t == [t[0]] + t[1..] && u == [u[0]] + u[1..];
      }
    }
  }

  lemma MulOrder(a: nat, b: nat, m: nat, d: nat, e: nat)
    requires d < m && e < m
    ensures a * m + d < b * m + e <==> a < b || (a == b && d < e)
  {
    if a < b { MulBound(a, b, m, d); }
    if b < a { MulBound(b, a, m, e); }
  }

  lemma EmptyNotLess(t: seq<nat>, u: seq<nat>)
    requires t == [] && u == []
    ensures !LexLess(t, u)
  {
  }

  /** Positions follow the lexicographic order. */
  lemma {:induction false} RankOrder(splits: seq<nat>, t: seq<nat>, u: seq<nat>)
    requires (forall i :: 0 <= i < |splits| ==> splits[i] > 0) && InRange(splits, t) && InRange(splits, u)
    ensures Rank(splits, t) < Rank(splits, u) <==> LexLess(t, u)
    ensures Rank(splits, t) == Rank(splits, u) <==> t == u
    decreases |t|
  {
    hide Rank, LexLess, Tuple;
    if t == [] {
      assert t == u && !LexLess(t, u) by { EmptyNotLess(t, u); }
    } else {
      var n := |t| - 1;
      var s, p, q := splits[..n], t[..n], u[..n];
      RankOrder(s, p, q);
      LexSnoc(p, q, t[n], u[n]);
      assert t == p + [t[n]] && u == q + [u[n]] && splits == s + [splits[n]];
      RankSnoc(s, splits[n], p, t[n]);
      RankSnoc(s, splits[n], q, u[n]);
      MulOrder(Rank(s, p), Rank(s, q), splits[n], t[n], u[n]);
      MulOrder(Rank(s, q), Rank(s, p), splits[n], u[n], t[n]);
    }
  }

  /** The tuples 0, 1, ... up to the product are all tuples in range, each once, in
      lexicographic order. */
  lemma VisitsEachOnce(splits: seq<nat>, t: seq<nat>, i: nat, j: nat)
    requires (forall k :: 0 <= k < |splits| ==> splits[k] > 0) && i < Product(splits) && j < Product(splits)
    ensures InRange(splits, t) ==> Rank(splits, t) < Product(splits) && Tuple(splits, Rank(splits, t)) == t
    ensures LexLess(Tuple(splits, i), Tuple(splits, j)) <==> i < j
    ensures Tuple(splits, i) == Tuple(splits, j) <==> i == j
  {
    hide Rank, LexLess, Tuple, Product;
    if InRange(splits, t) {
      RankBound(splits, t);
      TupleOfRank(splits, t);
    }
    RankOfTuple(splits, i);
    RankOfTuple(splits, j);
    RankOrder(splits, Tuple(splits, i), Tuple(splits, j));
  }

  // ----- carrying -----

  lemma RankBump(splits: seq<nat>, t: seq<nat>)
    requires |t| == |splits| && t != []
    ensures Rank(splits, t[|t| - 1 := t[|t| - 1] + 1]) == Rank(splits, t) + 1
  {
    var n := |t| - 1;
    assert t[n := t[n] + 1][..n] == t[..n];
  }

  /** A carry out of digit d keeps the rank. */
  lemma {:induction false} RankCarry(splits: seq<nat>, t: seq<nat>, d: nat)
    requires |t| == |splits| && 0 < d < |t| && t[d] == splits[d]
    ensures Rank(splits, t[d := 0][d - 1 := t[d - 1] + 1]) == Rank(splits, t)
    decreases |t|
  {
    var n := |t| - 1;
    var u := t[d := 0][d - 1 := t[d - 1] + 1];
    if d == n {
      RankBump(splits[..n], t[..n]);
      assert u[..n] == t[..n][n - 1 := t[..n][n - 1] + 1];
      Distribute(Rank(splits[..n], t[..n]), splits[n]);
    } else {
      RankCarry(splits[..n], t[..n], d);
      assert u[..n] == t[..n][d := 0][d - 1 := t[..n][d - 1] + 1];
    }
  }

  lemma Distribute(a: nat, m: nat)
    ensures (a + 1) * m == a * m + m
  {
  }

  lemma Commute(a: nat, b: nat)
    ensures a * b == b * a
  {
  }

  /** A first digit at its split is past the last tuple. */
  lemma {:induction false} RankPast(splits: seq<nat>, t: seq<nat>)
    requires |t| == |splits| && t != [] && t[0] >= splits[0]
    ensures Rank(splits, t) >= Product(splits)
    decreases |t|
  {
    var n := |t| - 1;
    if n == 0 {
      assert splits[..0] == [] && t[..0] == [];
      assert Product([]) == 1 && Rank([], []) == 0;
    } else {
      var p, r := Product(splits[..n]), Rank(splits[..n], t[..n]);
      RankPast(splits[..n], t[..n]);
      assert Product(splits) == p * splits[n] && Rank(splits, t) == r * splits[n] + t[n];
      hide Rank, Product;
      MulMonotone(splits[n], p, r);
      Commute(p, splits[n]);
      Commute(r, splits[n]);
    }
  }

  // ----- the assumption list -----

  /** Literals since the last 0. */
  function Tail(ls: seq<int>): nat {
    if ls == [] || ls[|ls| - 1] == 0 then 0 else 1 + Tail(ls[..|ls| - 1])
  }

  function Zeros(ls: seq<int>): nat {
    if ls == [] then 0 else Zeros(ls[..|ls| - 1]) + (if ls[|ls| - 1] == 0 then 1 else 0)
  }

  /** The longest stretch of literals closed by a 0. */
  function Longest(ls: seq<int>): nat {
    if ls == [] then 0
    else
      var p := ls[..|ls| - 1];
      if ls[|ls| - 1] == 0 && Tail(p) > Longest(p) then Tail(p) else Longest(p)
  }

  /** The cubes of the first k tuples, each closed by a 0. */
  function Listing(vars: seq<int>, splits: seq<nat>, k: nat): seq<int>
    requires forall i :: 0 <= i < |splits| ==> splits[i] > 0
    decreases k
  {
    if k == 0 || TotalLength(splits) > |vars| then []
    else Listing(vars, splits, k - 1) + Cube(vars, splits, Tuple(splits, k - 1)) + [0]
  }

  /** Whether no split reads variables of different quantifiers. */
  predicate Uniform(vars: seq<int>) {
    forall i :: 0 <= i < |vars| - 1 ==> ((vars[i] < 0) == (vars[i + 1] < 0))
  }

  predicate Blockwise(vars: seq<int>, splits: seq<nat>)
    requires TotalLength(splits) <= |vars|
  {
    splits == [] ||
    (Uniform(vars[..Length(splits[0])]) && Blockwise(vars[Length(splits[0])..], splits[1..]))
  }

  predicate Fits(vars: seq<int>, splits: seq<nat>) {
    TotalLength(splits) <= |vars| && Blockwise(vars, splits)
  }

  class Config {
    var assumptions: seq<int>
    var count: nat
    var maxSize: nat
    var currentSize: nat

    ghost predicate Valid()
      reads this
    {
      count == Zeros(assumptions) && maxSize == Longest(assumptions) && currentSize == Tail(assumptions)
    }

    constructor ()
      ensures Valid() && assumptions == []
    {
      assumptions, count, maxSize, currentSize := [], 0, 0, 0;
    }

    method AddToAssumptions(assumption: int)
      requires Valid()
      modifies this
      ensures Valid() && assumptions == old(assumptions) + [assumption]
    {
      if assumption == 0 {
        if currentSize > maxSize {
          maxSize := currentSize;
        }
        count := count + 1;
        currentSize := 0;
      } else {
        currentSize := currentSize + 1;
      }
      assumptions := assumptions + [assumption];
      assert assumptions[..|assumptions| - 1] == old(assumptions);
    }
  }

  /** The total length, each split's by the mask logarithm. */
  method SummedLength(splits: seq<nat>) returns (l: nat)
    requires forall i :: 0 <= i < |splits| ==> splits[i] < WORD
    ensures l == TotalLength(splits)
  {
    l := 0;
    assert splits[..|splits|] == splits;
    for i := 0 to |splits|
      invariant l == TotalLength(splits[..i])
    {
      var c := CurrentLength(splits[i]);
      l := l + c;
      TotalLengthSnoc(splits, i);
    }
  }

  method CurrentLength(split: nat) returns (c: nat)
    requires split < WORD
    ensures c == Length(split)
  {
    if split != 0 {
      c := CeilLog2(split);
    } else {
      c := 1;
    }
  }

  lemma {:induction false} TotalLengthSnoc(splits: seq<nat>, i: nat)
    requires i < |splits|
    ensures TotalLength(splits[..i + 1]) == TotalLength(splits[..i]) + Length(splits[i])
    decreases |splits|
  {
    var a, b := splits[..i], splits[..i + 1];
    if i == 0 {
      assert b == [splits[0]] && b[1..] == [];
    } else {
      assert a[1..] == splits[1..][..i - 1] && b[1..] == splits[1..][..i];
      TotalLengthSnoc(splits[1..], i - 1);
    }
  }

  // ----- one tuple -----

  function GroupAt(vars: seq<int>, n: nat, j: nat): int
    requires j < |vars|
  {
    if Bit(n, |vars| - 1 - j) then Abs(vars[j]) else -(Abs(vars[j]) as int)
  }

  lemma {:induction false} GroupEntries(vars: seq<int>, n: nat)
    ensures forall j :: 0 <= j < |vars| ==> Group(vars, n)[j] == GroupAt(vars, n, j)
  {
    if vars == [] {
    } else {
      GroupEntries(vars[1..], n);
      assert forall j :: 1 <= j < |vars| ==> GroupAt(vars, n, j) == GroupAt(vars[1..], n, j - 1);
    }
  }

  lemma GroupAtIs(vars: seq<int>, n: nat, j: nat)
    requires j < |vars|
    ensures GroupAt(vars, n, j) == if Bit(n, |vars| - 1 - j) then Abs(vars[j]) else -(Abs(vars[j]) as int)
  {
  }

  /** The literals of one split, most significant bit first; refused where the
      quantifier changes within the split. */
  method FillGroup(assumption: array<int>, vars: seq<int>, start: nat, length: nat, n: nat) returns (ok: bool)
    requires start + length <= assumption.Length <= |vars|
    requires forall j :: start <= j < assumption.Length ==> assumption[j] == vars[j]
    modifies assumption
    ensures ok <==> Uniform(vars[start..start + length])
    ensures ok ==> assumption[start..start + length] == Group(vars[start..start + length], n)
    ensures forall j :: 0 <= j < start ==> assumption[j] == old(assumption[j])
    ensures forall j :: start + length <= j < assumption.Length ==> assumption[j] == old(assumption[j])
  {
    hide Group, GroupAt, Bit;
    ghost var group := vars[start..start + length];
    GroupEntries(group, n);
    var i := 0;
    while i < length
      invariant 0 <= i <= length
      invariant forall j :: 0 <= j < i && j < length - 1 ==> ((group[j] < 0) == (group[j + 1] < 0))
      invariant forall j :: 0 <= j < i ==> assumption[start + j] == GroupAt(group, n, j)
      invariant forall j :: start + i <= j < assumption.Length ==> assumption[j] == vars[j]
      invariant forall j :: 0 <= j < start ==> assumption[j] == old(assumption[j])
    {
      var at := start + i;
      if i < length - 1 && ((vars[at] < 0) != (vars[at + 1] < 0)) {
        assert group[i] == vars[at] && group[i + 1] == vars[at + 1];
        return false;
      }
      GroupAtIs(group, n, i);
      assert assumption[at] == group[i];
      if Bit(n, length - 1 - i) {
        assumption[at] := Abs(assumption[at]);
      } else {
        assumption[at] := -(Abs(assumption[at]) as int);
      }
      assert assumption[start + i] == GroupAt(group, n, i);
      i := i + 1;
    }
    ok := true;
  }

  lemma {:induction false} PrefixLength(splits: seq<nat>, i: nat)
    requires i <= |splits|
    ensures TotalLength(splits[..i]) <= TotalLength(splits)
    decreases |splits| - i
  {
    if i < |splits| {
      TotalLengthSnoc(splits, i);
      PrefixLength(splits, i + 1);
    } else {
      assert splits[..i] == splits;
    }
  }

  lemma CubeUnfold(vars: seq<int>, splits: seq<nat>, t: seq<nat>, rest: seq<nat>, u: seq<nat>)
    requires TotalLength(splits) <= |vars| && |t| == |splits| && splits != [] && splits[1..] == rest && t[1..] == u
    ensures var n := Length(splits[0]);
            TotalLength(splits) == n + TotalLength(rest) &&
            Cube(vars, splits, t) == Group(vars[..n], t[0]) + Cube(vars[n..], rest, u) &&
            (Blockwise(vars, splits) <==> Uniform(vars[..n]) && Blockwise(vars[n..], rest))
  {
  }

  /** One more split adds one more group. */
  lemma {:induction false} GroupSnoc(vars: seq<int>, splits: seq<nat>, t: seq<nat>, i: nat)
    requires i < |splits| == |t| && TotalLength(splits[..i + 1]) <= |vars|
    ensures var o := TotalLength(splits[..i]);
            var e := TotalLength(splits[..i + 1]);
            && o <= e && e == o + Length(splits[i])
            && Cube(vars, splits[..i + 1], t[..i + 1]) == Cube(vars, splits[..i], t[..i]) + Group(vars[o..e], t[i])
            && (Blockwise(vars, splits[..i + 1]) <==> Blockwise(vars, splits[..i]) && Uniform(vars[o..e]))
    decreases |splits|
  {
    hide Cube, Blockwise, Group, Uniform, Length, TotalLength;
    TotalLengthSnoc(splits, i);
    if i == 0 {
      FirstGroup(vars, splits, t);
    } else {
      var a, b := splits[..i], splits[..i + 1];
      var s, u := splits[1..], t[1..];
      assert a[1..] == s[..i - 1] && b[1..] == s[..i] && t[..i][1..] == u[..i - 1] && t[..i + 1][1..] == u[..i];
      CubeUnfold(vars, b, t[..i + 1], s[..i], u[..i]);
      CubeUnfold(vars, a, t[..i], s[..i - 1], u[..i - 1]);
      var n := Length(splits[0]);
      var v := vars[n..];
      GroupSnoc(v, s, u, i - 1);
      assert v[TotalLength(a) - n..TotalLength(b) - n] == vars[TotalLength(a)..TotalLength(b)];
    }
  }

  lemma FirstGroup(vars: seq<int>, splits: seq<nat>, t: seq<nat>)
    requires 0 < |splits| == |t| && TotalLength(splits[..1]) <= |vars|
    ensures TotalLength(splits[..0]) == 0 && TotalLength(splits[..1]) == Length(splits[0])
    ensures var e := TotalLength(splits[..1]);
            && Cube(vars, splits[..1], t[..1]) == Cube(vars, splits[..0], t[..0]) + Group(vars[0..e], t[0])
            && (Blockwise(vars, splits[..1]) <==> Blockwise(vars, splits[..0]) && Uniform(vars[0..e]))
  {
    assert splits[..1][1..] == [] && t[..1][1..] == [];
    assert TotalLength(splits[..1]) == Length(splits[0]) + TotalLength([]);
    CubeUnfold(vars, splits[..1], t[..1], [], []);
    var e := TotalLength(splits[..1]);
    assert vars[0..e] == vars[..e];
    hide Group, Uniform;
    assert Cube(vars[e..], [], []) == [] && Blockwise(vars[e..], []);
  }

  lemma {:induction false} BlockwisePrefix(vars: seq<int>, splits: seq<nat>, i: nat)
    requires i <= |splits| && TotalLength(splits) <= |vars|
    ensures TotalLength(splits[..i]) <= |vars| && (Blockwise(vars, splits) ==> Blockwise(vars, splits[..i]))
    decreases |splits| - i
  {
    PrefixLength(splits, i);
    if i < |splits| {
      PrefixLength(splits, i + 1);
      BlockwisePrefix(vars, splits, i + 1);
      GroupSnoc(vars, splits, seq(|splits|, j => 0), i);
    } else {
      assert splits[..i] == splits;
    }
  }

  /** Turns the tuple into an assumption set and lists it. */
  method StateToAssumption(cfg: Config, vars: seq<int>, splits: seq<nat>, state: array<nat>) returns (ok: bool)
    requires cfg.Valid() && state.Length == |splits| && forall i :: 0 <= i < |splits| ==> splits[i] < WORD
    modifies cfg
    ensures cfg.Valid() && (ok <==> Fits(vars, splits))
    ensures cfg.assumptions ==
              if ok then old(cfg.assumptions) + Cube(vars, splits, state[..]) + [0] else old(cfg.assumptions)
  {
    hide Cube, Blockwise, TotalLength, Zeros, Longest, Tail;
    var l := SummedLength(splits);
    if l > |vars| {
      return false;
    }
    var cube;
    ok, cube := TupleLiterals(vars, splits, state, l);
    if ok {
      AddAll(cfg, cube);
      cfg.AddToAssumptions(0);
    }
  }

  method AddAll(cfg: Config, cube: seq<int>)
    requires cfg.Valid()
    modifies cfg
    ensures cfg.Valid() && cfg.assumptions == old(cfg.assumptions) + cube
  {
    hide Zeros, Longest, Tail;
    for i := 0 to |cube|
      invariant cfg.Valid() && cfg.assumptions == old(cfg.assumptions) + cube[..i]
    {
      cfg.AddToAssumptions(cube[i]);
      assert cube[..i + 1] == cube[..i] + [cube[i]];
    }
    assert cube[..|cube|] == cube;
  }

  method TupleLiterals(vars: seq<int>, splits: seq<nat>, state: array<nat>, l: nat) returns (ok: bool, cube: seq<int>)
    requires state.Length == |splits| && (forall i :: 0 <= i < |splits| ==> splits[i] < WORD)
    requires l == TotalLength(splits) <= |vars|
    ensures ok <==> Blockwise(vars, splits)
    ensures ok ==> cube == Cube(vars, splits, state[..])
  {
    hide Cube, Blockwise, Uniform, Group, TotalLength;
    var assumption := new int[l](i requires 0 <= i < |vars| => vars[i]);
    var start := 0;
    cube := [];
    EmptyCube(vars, splits);
    for i := 0 to |splits|
      invariant start == TotalLength(splits[..i]) <= l
      invariant Blockwise(vars, splits[..i]) && assumption[..start] == Cube(vars, splits[..i], state[..i])
      invariant forall j :: start <= j < l ==> assumption[j] == vars[j]
    {
      PrefixLength(splits, i + 1);
      GroupSnoc(vars, splits, state[..], i);
      BlockwisePrefix(vars, splits, i + 1);
      assert state[..][..i] == state[..i] && state[..][..i + 1] == state[..i + 1];
      ghost var before := assumption[..start];
      var length := CurrentLength(splits[i]);
      ok := FillGroup(assumption, vars, start, length, state[i]);
      if !ok {
        return;
      }
      assert assumption[..start + length] == before + assumption[start..start + length];
      start := start + length;
    }
    assert splits[..|splits|] == splits && state[..|splits|] == state[..];
    ok, cube := true, assumption[..];
  }

  lemma EmptyCube(vars: seq<int>, splits: seq<nat>)
    ensures splits[..0] == [] && TotalLength(splits[..0]) == 0 && Blockwise(vars, splits[..0])
            && Cube(vars, splits[..0], []) == []
  {
  }

  // ----- the loop -----

  /** The digits after an increment of the last one, while the carry stands at d. */
  predicate Carrying(splits: seq<nat>, t: seq<nat>, d: nat) {
    && |t| == |splits| && d < |t| && t[d] <= splits[d]
    && forall i :: 0 <= i < |t| && i != d ==> t[i] < splits[i]
  }

  lemma {:induction false} ZeroRank(splits: seq<nat>, t: seq<nat>)
    requires |t| == |splits| && forall i :: 0 <= i < |t| ==> t[i] == 0
    ensures Rank(splits, t) == 0
    decreases |t|
  {
    if t == [] {
    } else {
      var n := |t| - 1;
      ZeroRank(splits[..n], t[..n]);
      assert 0 * splits[n] == 0;
    }
  }

  /** Increments the tuple: the carry never passes digit 0, which alone may reach its split. */
  method Advance(splits: seq<nat>, state: array<nat>, last: nat)
    requires splits != [] && last == |splits| - 1 && InRange(splits, state[..])
    modifies state
    ensures Carrying(splits, state[..], 0) && Rank(splits, state[..]) == old(Rank(splits, state[..])) + 1
  {
    ghost var t := state[..];
    RankBump(splits, t);
    state[last] := state[last] + 1;
    assert state[..] == t[last := t[last] + 1];
    var d := last;
    while state[d] == splits[d] + (if d == 0 then 1 else 0)
      invariant 0 <= d <= last && Carrying(splits, state[..], d)
      invariant Rank(splits, state[..]) == Rank(splits, t) + 1
      decreases d
    {
      assert d > 0;
      ghost var u := state[..];
      RankCarry(splits, u, d);
      state[d] := 0;
      if d > 0 {
        state[d - 1] := state[d - 1] + 1;
      }
      assert state[..] == u[d := 0][d - 1 := u[d - 1] + 1];
      d := d - 1;
    }
  }

  lemma ListingZero(vars: seq<int>, splits: seq<nat>)
    requires forall i :: 0 <= i < |splits| ==> splits[i] > 0
    ensures Listing(vars, splits, 0) == []
  {
  }

  lemma ListingStep(before: seq<int>, vars: seq<int>, splits: seq<nat>, k: nat, t: seq<nat>)
    requires (forall i :: 0 <= i < |splits| ==> splits[i] > 0) && Fits(vars, splits) && |t| == |splits|
    requires Tuple(splits, k) == t
    ensures before + Listing(vars, splits, k) + Cube(vars, splits, t) + [0] == before + Listing(vars, splits, k + 1)
  {
    hide Cube, Tuple, Blockwise, TotalLength;
    assert Listing(vars, splits, k + 1) == Listing(vars, splits, k) + Cube(vars, splits, t) + [0];
  }

  /** inflate_intsplits: lists the cubes of all tuples, in order, or fails. */
  method Inflate(cfg: Config, vars: seq<int>, splits: seq<nat>) returns (ok: bool)
    requires cfg.Valid() && splits != [] && forall i :: 0 <= i < |splits| ==> 0 < splits[i] <= INT_MAX
    modifies cfg
    ensures cfg.Valid() && (ok <==> Fits(vars, splits))
    ensures ok ==> cfg.assumptions == old(cfg.assumptions) + Listing(vars, splits, Product(splits))
    ensures !ok ==> cfg.assumptions == old(cfg.assumptions)
  {
    hide Rank, Product, Cube, Fits, Listing, Tuple, TotalLength, Zeros, Longest, Tail;
    var state := new nat[|splits|](i => 0);
    assert Listing(vars, splits, 0) == [] by { ListingZero(vars, splits); }
    var last := |splits| - 1;
    ghost var k: nat := 0;
    ZeroRank(splits, state[..]);
    RankBound(splits, state[..]);
    ok := true;
    while state[0] <= splits[0] - 1
      invariant ok && cfg.Valid() && fresh(state) && state.Length == |splits|
      invariant Carrying(splits, state[..], 0) && Rank(splits, state[..]) == k <= Product(splits)
      invariant k > 0 ==> Fits(vars, splits)
      invariant cfg.assumptions == old(cfg.assumptions) + Listing(vars, splits, k)
      decreases Product(splits) - k
    {
      RankBound(splits, state[..]);
      TupleOfRank(splits, state[..]);
      ok := StateToAssumption(cfg, vars, splits, state);
      if !ok {
        return;
      }
      ListingStep(old(cfg.assumptions), vars, splits, k, state[..]);
      Advance(splits, state, last);
      k := k + 1;
    }
    RankPast(splits, state[..]);
  }
}
