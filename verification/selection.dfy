/** Parent selection of geneticalgo/selection.py, stated on the list of the
    members' fitnesses: a selection returns positions in that list, which
    identify members. The random draws are parameters. */
module Selection {
  import opened Wrappers
  import opened Seqs
  import opened Sorting

  // --------------------------------------------------------------- roulette

  /** `a * b`, named so that its sign rules are proved once for two
      independent factors. */
  function Times(a: real, b: real): real
  {
    a * b
  }

  lemma TimesPositive(a: real, b: real)
    requires a > 0.0 && b > 0.0
    ensures Times(a, b) > 0.0
  {
  }

  lemma TimesNegative(a: real, b: real)
    requires a < 0.0 && b < 0.0
    ensures Times(a, b) > 0.0
  {
  }

  /** `f ** 2`. */
  function Square(x: real): real
  {
    Times(x, x)
  }

  /** A square is never negative, and is positive exactly off zero. */
  lemma SquareSign(x: real)
    ensures Square(x) >= 0.0
    ensures Square(x) > 0.0 <==> x != 0.0
  {
    if x > 0.0 {
      TimesPositive(x, x);
    } else if x < 0.0 {
      TimesNegative(x, x);
    }
  }

  /** `f ** 2` for every member. */
  function Squares(fits: seq<real>): (r: seq<real>)
    ensures |r| == |fits| && forall i :: 0 <= i < |fits| ==> r[i] == Square(fits[i])
  {
    if |fits| == 0 then [] else [Square(fits[0])] + Squares(fits[1..])
  }

  /** The squares sum to a positive total exactly when some fitness is
      nonzero, and never to a negative one. */
  lemma {:induction false} SquaresTotal(fits: seq<real>)
    ensures SumReal(Squares(fits)) >= 0.0
    ensures SumReal(Squares(fits)) > 0.0 <==> exists i :: 0 <= i < |fits| && fits[i] != 0.0
  {
    if |fits| > 0 {
      var sq := Squares(fits);
      SquaresTotal(fits[1..]);
      var head := Square(fits[0]);
      var tail := SumReal(Squares(fits[1..]));
      assert SumReal(sq) == head + tail;
      SquareSign(fits[0]);
      assert tail > 0.0 <==> exists i :: 1 <= i < |fits| && fits[i] != 0.0 by {
        if tail > 0.0 {
          var i :| 0 <= i < |fits[1..]| && fits[1..][i] != 0.0;
          assert fits[i + 1] != 0.0;
        }
        if exists i :: 1 <= i < |fits| && fits[i] != 0.0 {
          var i :| 1 <= i < |fits| && fits[i] != 0.0;
          assert fits[1..][i - 1] != 0.0;
        }
      }
    }
  }

  /** The roulette weights `max(f ** 2 / total, 0)`. */
  function RouletteWeights(fits: seq<real>, total: real): (w: seq<real>)
    requires total > 0.0
    ensures |w| == |fits| && forall i :: 0 <= i < |fits| ==> w[i] == Square(fits[i]) / total
  {
    seq(|fits|, i requires 0 <= i < |fits| => Square(fits[i]) / total)
  }

  /** With the squares' own total the weights form a distribution: none is
      negative and they sum to one. */
  lemma RouletteWeightsDistribution(fits: seq<real>)
    requires SumReal(Squares(fits)) > 0.0
    ensures var w := RouletteWeights(fits, SumReal(Squares(fits)));
      (forall i :: 0 <= i < |w| ==> w[i] >= 0.0) && SumReal(w) == 1.0
  {
    var total := SumReal(Squares(fits));
    var w := RouletteWeights(fits, total);
    forall i | 0 <= i < |w| ensures w[i] >= 0.0 {
      SquareSign(fits[i]);
      assert w[i] == Squares(fits)[i] / total && Squares(fits)[i] >= 0.0;
    }
    ScaledSum(Squares(fits), w, total);
    DivSelf(total);
  }

  /** A positive real divided by itself is one. */
  lemma DivSelf(t: real)
    requires t > 0.0
    ensures t / t == 1.0
  {
  }

  lemma {:induction false} ScaledSum(x: seq<real>, w: seq<real>, total: real)
    requires total > 0.0 && |w| == |x|
    requires forall i :: 0 <= i < |x| ==> w[i] == x[i] / total
    ensures SumReal(w) == SumReal(x) / total
  {
    if |x| > 0 {
      ScaledSum(x[1..], w[1..], total);
    }
  }

  /** `SumReal` of a prefix one longer adds the next entry. */
  lemma PrefixStep(w: seq<real>, j: nat)
    requires j < |w|
    ensures SumReal(w[..j + 1]) == SumReal(w[..j]) + w[j]
  {
    assert w[..j + 1] == w[..j] + [w[j]];
    SumRealAppend(w[..j], [w[j]]);
  }

  lemma PrefixWhole(w: seq<real>)
    ensures SumReal(w[..|w|]) == SumReal(w)
  {
    assert w[..|w|] == w;
  }

  /** The search from position `j` with the prefix total `acc` still at or
      below `u`. */
  function CdfFrom(w: seq<real>, u: real, j: nat, acc: real): (k: nat)
    requires j <= |w| && acc == SumReal(w[..j]) && acc <= u < SumReal(w)
    decreases |w| - j
    ensures j <= k < |w|
    ensures SumReal(w[..k]) <= u < SumReal(w[..k + 1])
  {
    PrefixWhole(w);
    assert j != |w|;
    PrefixStep(w, j);
    if acc + w[j] > u then j
    else CdfFrom(w, u, j + 1, acc + w[j])
  }

  /** `numpy.random.choice(population, p=w)` with the uniform draw `u`: the
      first position whose cumulative weight exceeds `u`. Its weight is
      therefore positive. */
  function CdfPick(w: seq<real>, u: real): (k: nat)
    requires 0.0 <= u < SumReal(w)
    ensures k < |w|
    ensures SumReal(w[..k]) <= u < SumReal(w[..k + 1])
    ensures w[k] > 0.0
  {
    assert w[..0] == [];
    var k := CdfFrom(w, u, 0, 0.0);
    PrefixStep(w, k);
    k
  }

  /** One roulette draw over the members' fitnesses. A zero total turns every
      weight into `nan` (or leaves no member to choose), which numpy rejects. */
  function RoulettePick(fits: seq<real>, u: real): (r: Result<nat>)
    requires 0.0 <= u < 1.0
    ensures r.Ok? <==> exists i :: 0 <= i < |fits| && fits[i] != 0.0
    ensures r.Err? ==> r.error == ValueError
    ensures r.Ok? ==> r.value < |fits| && fits[r.value] != 0.0
    ensures r.Ok? ==> SumReal(Squares(fits)) > 0.0
    ensures r.Ok? ==> var w := RouletteWeights(fits, SumReal(Squares(fits)));
      SumReal(w[..r.value]) <= u < SumReal(w[..r.value + 1])
  {
    var total := SumReal(Squares(fits));
    SquaresTotal(fits);
    if total == 0.0 then Err(ValueError)
    else
      RouletteWeightsDistribution(fits);
      var w := RouletteWeights(fits, total);
      var k := CdfPick(w, u);
      SquareSign(fits[k]);
      assert Square(fits[k]) / total > 0.0;
      Ok(k)
  }

  /** The list without position `j`, as `list.remove` and `list.pop(j)` leave it. */
  function Without<T>(s: seq<T>, j: nat): (r: seq<T>)
    requires j < |s|
    ensures |r| == |s| - 1
    ensures forall i :: 0 <= i < |r| ==> r[i] == s[Skip(i, j)]
  {
    s[..j] + s[j + 1..]
  }

  /** Position `i` of a list with position `j` removed, as a position of the
      original list. */
  function Skip(i: nat, j: nat): (p: nat)
    ensures p != j
  {
    if i < j then i else i + 1
  }

  /** `RouletteSelection._select_parents`: two roulette draws, the first
      parent removed from the working copy before the second. The parents
      are two different members, both with nonzero fitness, and the draws
      succeed exactly when there are two such members. */
  function RouletteParents(fits: seq<real>, u1: real, u2: real): (r: Result<seq<nat>>)
    requires 0.0 <= u1 < 1.0 && 0.0 <= u2 < 1.0
    ensures r.Ok? <==> exists i, j :: 0 <= i < j < |fits| && fits[i] != 0.0 && fits[j] != 0.0
    ensures r.Err? ==> r.error == ValueError
    ensures r.Ok? ==> |r.value| == 2 && r.value[0] != r.value[1]
    ensures r.Ok? ==> r.value[0] < |fits| && r.value[1] < |fits|
    ensures r.Ok? ==> fits[r.value[0]] != 0.0 && fits[r.value[1]] != 0.0
    ensures r.Ok? ==> RoulettePick(fits, u1) == Ok(r.value[0])
    ensures r.Ok? ==> RoulettePick(Without(fits, r.value[0]), u2).Ok?
    ensures r.Ok? ==> r.value[1] == Skip(RoulettePick(Without(fits, r.value[0]), u2).value, r.value[0])
  {
    var first := RoulettePick(fits, u1);
    if first.Err? then Err(first.error)
    else
      var j1 := first.value;
      var rest := Without(fits, j1);
      var second := RoulettePick(rest, u2);
      TwoNonzero(fits, j1);
      if second.Err? then Err(second.error)
      else
        var j2 := Skip(second.value, j1);
        Ok([j1, j2])
  }

  /** Besides the nonzero member at `j`, the list has another nonzero member
      exactly when the list without `j` has one. */
  lemma TwoNonzero(fits: seq<real>, j: nat)
    requires j < |fits| && fits[j] != 0.0
    ensures (exists i, k :: 0 <= i < k < |fits| && fits[i] != 0.0 && fits[k] != 0.0)
        <==> (exists i :: 0 <= i < |Without(fits, j)| && Without(fits, j)[i] != 0.0)
  {
    var rest := Without(fits, j);
    if exists i, k :: 0 <= i < k < |fits| && fits[i] != 0.0 && fits[k] != 0.0 {
      var i, k :| 0 <= i < k < |fits| && fits[i] != 0.0 && fits[k] != 0.0;
      var other := if i != j then i else k;
      var q := if other < j then other else other - 1;
      assert rest[q] == fits[Skip(q, j)] == fits[other];
    }
    if exists i :: 0 <= i < |rest| && rest[i] != 0.0 {
      var i :| 0 <= i < |rest| && rest[i] != 0.0;
      var p := Skip(i, j);
      assert fits[p] != 0.0;
      if p < j {
        assert 0 <= p < j < |fits|;
      } else {
        assert 0 <= j < p < |fits|;
      }
    }
  }

  // ------------------------------------------------------------------- rank

  /** The rank weights list: value `i` repeated `i` times for `i < n`. */
  function RankWeights(n: nat): (r: seq<nat>)
    ensures 2 * |r| == n * (n - 1)
    ensures forall k :: 0 <= k < |r| ==> r[k] < n
  {
    if n == 0 then []
    else
      var prev := RankWeights(n - 1);
      assert 2 * (|prev| + (n - 1)) == n * (n - 1);
      prev + seq(n - 1, _ => n - 1)
  }

  /** There is nothing to draw from exactly when there are fewer than two members. */
  lemma RankWeightsEmpty(n: nat)
    ensures |RankWeights(n)| == 0 <==> n < 2
  {
    if n >= 2 {
      assert n * (n - 1) >= 2;
    }
  }

  /** `RankSelection._select_parents` with the draws `d1` and `d2` of
      `randrange(0, len(weights))`. The members are sorted by ascending
      fitness; each draw indexes the sorted list directly, the first parent
      is popped before the second draw, and the weights list never shrinks.
      A draw past the end of the list is an index error. */
  function RankParents(fits: seq<real>, d1: nat, d2: nat): (r: Result<seq<nat>>)
    requires |RankWeights(|fits|)| > 0 ==> d1 < |RankWeights(|fits|)| && d2 < |RankWeights(|fits|)|
    ensures r.Ok? <==> |fits| >= 2 && d1 < |fits| && d2 < |fits| - 1
    ensures |fits| < 2 ==> r == Err(ValueError)
    ensures |fits| >= 2 && r.Err? ==> r.error == IndexError
    ensures r.Ok? ==> var order := SortPositions(fits, false);
      && |r.value| == 2 && r.value[0] == order[d1] && r.value[1] == Without(order, d1)[d2]
      && r.value[0] != r.value[1] && r.value[0] < |fits| && r.value[1] < |fits|
  {
    var n := |fits|;
    var order := SortPositions(fits, false);
    RangePermutation(order, n);
    RankWeightsEmpty(n);
    if |RankWeights(n)| == 0 then Err(ValueError)
    else if d1 >= n then Err(IndexError)
    else
      var rest := Without(order, d1);
      if d2 >= n - 1 then Err(IndexError)
      else
        SortedDistinct(fits, false, order);
        assert rest[d2] == order[Skip(d2, d1)];
        Ok([order[d1], rest[d2]])
  }

  /** From four members on the draw range `n (n - 1) / 2` exceeds the
      population, so even a first draw in range can be an index error. */
  lemma RankDrawOverruns(fits: seq<real>)
    requires |fits| >= 4
    ensures |RankWeights(|fits|)| > |fits|
    ensures RankParents(fits, |fits|, 0) == Err(IndexError)
  {
    var n := |fits|;
    assert 2 * |RankWeights(n)| == n * (n - 1) >= n * 3;
  }

  /** From three members on the second draw can overrun too: `n - 1` is in
      the draw range, but after the pop only `n - 1` positions are left. */
  lemma RankSecondDrawOverruns(fits: seq<real>)
    requires |fits| >= 3
    ensures |fits| - 1 < |RankWeights(|fits|)|
    ensures RankParents(fits, 0, |fits| - 1) == Err(IndexError)
  {
    var n := |fits|;
    assert 2 * |RankWeights(n)| == n * (n - 1) >= (n - 1) * 3;
  }

  // ------------------------------------------------------------- tournament

  /** `sample(population, k)` gives `k` distinct positions of the population. */
  predicate SampleFits(n: nat, k: int, picks: seq<nat>)
  {
    && |picks| == k
    && (forall j :: 0 <= j < |picks| ==> picks[j] < n)
    && (forall j, l :: 0 <= j < l < |picks| ==> picks[j] != picks[l])
  }

  /** The fitnesses of the sampled members, in sample order. */
  function SampleKeys(fits: seq<real>, picks: seq<nat>): (keys: seq<real>)
    requires forall j :: 0 <= j < |picks| ==> picks[j] < |fits|
    ensures |keys| == |picks| && forall j :: 0 <= j < |picks| ==> keys[j] == fits[picks[j]]
  {
    seq(|picks|, j requires 0 <= j < |picks| => fits[picks[j]])
  }

  /** `sorted(sample, key=fitness, reverse=True)`: the sampled members by
      descending fitness, ties kept in sample order. */
  function Ranked(fits: seq<real>, picks: seq<nat>): (r: seq<nat>)
    requires forall j :: 0 <= j < |picks| ==> picks[j] < |fits|
    ensures |r| == |picks|
    ensures forall i :: 0 <= i < |r| ==> r[i] == picks[SortPositions(SampleKeys(fits, picks), true)[i]]
  {
    var order := SortPositions(SampleKeys(fits, picks), true);
    RangePermutation(order, |picks|);
    seq(|picks|, i requires 0 <= i < |picks| => picks[order[i]])
  }

  /** The first `m` ranked members are distinct, in descending order of
      fitness, and at least as fit as every sampled member left out. */
  lemma RankedTop(fits: seq<real>, picks: seq<nat>, m: nat)
    requires SampleFits(|fits|, |picks|, picks) && m <= |picks|
    ensures var top := Ranked(fits, picks)[..m];
      && (forall i :: 0 <= i < |top| ==> top[i] in picks)
      && (forall i, j :: 0 <= i < j < |top| ==> top[i] != top[j] && fits[top[i]] >= fits[top[j]])
      && (forall i, j :: 0 <= i < |top| && 0 <= j < |picks| && picks[j] !in top ==> fits[picks[j]] <= fits[top[i]])
  {
    var keys := SampleKeys(fits, picks);
    var order := SortPositions(keys, true);
    RangePermutation(order, |picks|);
    SortedDistinct(keys, true, order);
    var top := Ranked(fits, picks)[..m];
    forall i | 0 <= i < |top| ensures top[i] in picks {
      assert top[i] == picks[order[i]];
    }
    forall i, j | 0 <= i < |top| && 0 <= j < |picks| && picks[j] !in top
      ensures fits[picks[j]] <= fits[top[i]]
    {
      assert j in order;
      var q :| 0 <= q < |order| && order[q] == j;
      assert q >= m;
      assert Precedes(keys, true, order[i], order[q]);
    }
    forall i, j | 0 <= i < j < |top| ensures top[i] != top[j] && fits[top[i]] >= fits[top[j]] {
      assert Precedes(keys, true, order[i], order[j]);
    }
  }

  /** `TournamentSelection._select_parents` with the sample `picks`: the
      sampled members sorted by descending fitness (ties in sample order),
      of which the first two are returned. Python's `sample` refuses a
      negative size or one above the population. */
  function TournamentParents(fits: seq<real>, size: int, picks: seq<nat>): (r: Result<seq<nat>>)
    requires 0 <= size <= |fits| ==> SampleFits(|fits|, size, picks)
    ensures r.Ok? <==> 0 <= size <= |fits|
    ensures r.Err? ==> r.error == ValueError
    ensures r.Ok? ==> |r.value| == (if size < 2 then size else 2)
    ensures r.Ok? ==> forall i :: 0 <= i < |r.value| ==> r.value[i] in picks && r.value[i] < |fits|
    ensures r.Ok? ==> forall i, j :: 0 <= i < j < |r.value| ==> r.value[i] != r.value[j] && fits[r.value[i]] >= fits[r.value[j]]
    ensures r.Ok? ==> forall i, j :: 0 <= i < |r.value| && 0 <= j < |picks| && picks[j] !in r.value ==>
      fits[picks[j]] <= fits[r.value[i]]
  {
    if size < 0 || size > |fits| then Err(ValueError)
    else
      var m := if size < 2 then size else 2;
      RankedTop(fits, picks, m);
      Ok(Ranked(fits, picks)[..m])
  }

  // --------------------------------------------------------------- strategy

  /** The selection strategy; `TournamentSelection` carries its size. */
  datatype Method = RouletteSelection | RankSelection | TournamentSelection(size: int)

  /** The draws one `_select_parents` call may consume. */
  datatype PairDraw = PairDraw(u1: real, u2: real, d1: nat, d2: nat, picks: seq<nat>)

  /** The draws lie in the ranges their random sources produce for `n` members. */
  predicate DrawFits(m: Method, n: nat, d: PairDraw)
  {
    match m
    case RouletteSelection => 0.0 <= d.u1 < 1.0 && 0.0 <= d.u2 < 1.0
    case RankSelection => |RankWeights(n)| > 0 ==> d.d1 < |RankWeights(n)| && d.d2 < |RankWeights(n)|
    case TournamentSelection(size) => 0 <= size <= n ==> SampleFits(n, size, d.picks)
  }

  /** `_select_parents` of the chosen strategy, on a copy of the members. */
  function SelectParents(m: Method, fits: seq<real>, d: PairDraw): (r: Result<seq<nat>>)
    requires DrawFits(m, |fits|, d)
    ensures r.Ok? ==> |r.value| <= 2 && forall i :: 0 <= i < |r.value| ==> r.value[i] < |fits|
    ensures r.Ok? && !m.TournamentSelection? ==> |r.value| == 2 && r.value[0] != r.value[1]
  {
    match m
    case RouletteSelection => RouletteParents(fits, d.u1, d.u2)
    case RankSelection => RankParents(fits, d.d1, d.d2)
    case TournamentSelection(size) => TournamentParents(fits, size, d.picks)
  }

  /** Draw `j` is the first whose pair cannot be selected. */
  predicate FirstFailure(pick: PairDraw --> Result<seq<nat>>, ds: seq<PairDraw>, j: nat)
    requires forall l :: 0 <= l < |ds| ==> pick.requires(ds[l])
  {
    && j < |ds| && pick(ds[j]).Err?
    && forall l :: 0 <= l < j ==> pick(ds[l]).Ok?
  }

  /** One pair per draw, in order. */
  function SelectAll(pick: PairDraw --> Result<seq<nat>>, ds: seq<PairDraw>): (r: Result<seq<seq<nat>>>)
    requires forall j :: 0 <= j < |ds| ==> pick.requires(ds[j])
    ensures r.Ok? <==> forall j :: 0 <= j < |ds| ==> pick(ds[j]).Ok?
    ensures r.Ok? ==> |r.value| == |ds|
    ensures r.Ok? ==> forall j :: 0 <= j < |ds| ==> r.value[j] == pick(ds[j]).value
    ensures r.Err? ==> exists j: nat :: FirstFailure(pick, ds, j) && pick(ds[j]) == Err(r.error)
  {
    if |ds| == 0 then Ok([])
    else
      var pair := pick(ds[0]);
      if pair.Err? then
        assert FirstFailure(pick, ds, 0);
        Err(pair.error)
      else
        var rest := SelectAll(pick, ds[1..]);
        if rest.Err? then
          var j: nat :| FirstFailure(pick, ds[1..], j) && pick(ds[1..][j]) == Err(rest.error);
          assert FirstFailure(pick, ds, j + 1);
          Err(rest.error)
        else
          var out := [pair.value] + rest.value;
          assert forall j :: 1 <= j < |ds| ==> out[j] == rest.value[j - 1] && ds[j] == ds[1..][j - 1];
          Ok(out)
  }

  /** `select_parent_generation(population, n)` with `pick` standing for the
      strategy's `_select_parents` on a fresh copy of the same members: draws
      pairs until there are `n` of them (none for `n <= 0`). A failing draw
      ends the loop with its error, the first failing draw's. */
  function SelectParentGeneration(pick: PairDraw --> Result<seq<nat>>, n: int, draws: seq<PairDraw>): (r: Result<seq<seq<nat>>>)
    requires n <= |draws| && forall k :: 0 <= k < |draws| ==> pick.requires(draws[k])
    ensures r.Ok? <==> forall k :: 0 <= k < n ==> pick(draws[k]).Ok?
    ensures r.Ok? ==> |r.value| == (if n < 0 then 0 else n)
    ensures r.Ok? ==> forall k :: 0 <= k < |r.value| ==> r.value[k] == pick(draws[k]).value
    ensures r.Err? ==> exists k: nat :: (k < n && pick(draws[k]) == Err(r.error)
      && forall l :: 0 <= l < k ==> pick(draws[l]).Ok?)
  {
    if n <= 0 then Ok([])
    else
      var r := SelectAll(pick, draws[..n]);
      if r.Err? then
        var k: nat :| FirstFailure(pick, draws[..n], k) && pick(draws[..n][k]) == Err(r.error);
        assert forall l :: 0 <= l <= k ==> draws[..n][l] == draws[l];
        assert k < n && pick(draws[k]) == Err(r.error) && forall l :: 0 <= l < k ==> pick(draws[l]).Ok?;
        r
      else r
  }

  /** `_select_parents` of the chosen strategy as a selector over a fixed
      fitness list. */
  function Selector(m: Method, fits: seq<real>): (pick: PairDraw --> Result<seq<nat>>)
    ensures forall d :: DrawFits(m, |fits|, d) ==> pick.requires(d) && pick(d) == SelectParents(m, fits, d)
  {
    d requires DrawFits(m, |fits|, d) => SelectParents(m, fits, d)
  }
}
