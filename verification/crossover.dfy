/** Crossover of geneticalgo/crossover.py: a rule of booleans, one per gene,
    says which parent each gene of the child comes from. The random draws
    behind each rule are parameters. */
module Crossover {
  import opened Wrappers
  import opened Chromosomes
  import Networks

  // ------------------------------------------------------------------ rules

  /** `OnePointCrossover.get_rule(n)` with the draw `t = randrange(0, n)`:
      the genes before `t` come from the first parent. An empty range has
      nothing to draw from. */
  function OnePointRule(n: nat, t: nat): (r: Result<seq<bool>>)
    requires n > 0 ==> t < n
    ensures r.Ok? <==> n > 0
    ensures r.Err? ==> r.error == ValueError
    ensures r.Ok? ==> |r.value| == n && forall i :: 0 <= i < n ==> (r.value[i] <==> i < t)
  {
    if n == 0 then Err(ValueError) else Ok(seq(n, i => i < t))
  }

  /** The number of `true` entries. */
  function CountTrue(s: seq<bool>): nat
  {
    if |s| == 0 then 0 else (if s[0] then 1 else 0) + CountTrue(s[1..])
  }

  /** A one-point rule holds exactly `t` leading trues and no other true. */
  lemma {:induction false} OnePointPrefix(n: nat, t: nat)
    requires 0 < n && t < n
    ensures CountTrue(OnePointRule(n, t).value) == t
    ensures OnePointRule(n, t).value == seq(t, _ => true) + seq(n - t, _ => false)
  {
    var r := OnePointRule(n, t).value;
    assert r == seq(t, _ => true) + seq(n - t, _ => false);
    CountTrueOfBlocks(t, n - t);
  }

  lemma {:induction false} CountTrueOfBlocks(a: nat, b: nat)
    ensures CountTrue(seq(a, _ => true) + seq(b, _ => false)) == a
    decreases a + b
  {
    var s := seq(a, _ => true) + seq(b, _ => false);
    if a > 0 {
      assert s[1..] == seq(a - 1, _ => true) + seq(b, _ => false);
      CountTrueOfBlocks(a - 1, b);
    } else if b > 0 {
      assert s[1..] == seq(0, _ => true) + seq(b - 1, _ => false);
      CountTrueOfBlocks(0, b - 1);
    }
  }

  /** One pass of the k-point loop: every sign from position `t` on is negated. */
  function FlipFrom(rule: seq<int>, t: nat): (r: seq<int>)
    ensures |r| == |rule|
    ensures forall i :: 0 <= i < |rule| ==> r[i] == (if i < t then rule[i] else -rule[i])
  {
    seq(|rule|, i requires 0 <= i < |rule| => if i < t then rule[i] else -rule[i])
  }

  /** The k-point loop over the cuts in the order given. */
  function FlipAll(rule: seq<int>, cuts: seq<nat>): (r: seq<int>)
    decreases |cuts|
    ensures |r| == |rule|
  {
    if |cuts| == 0 then rule else FlipAll(FlipFrom(rule, cuts[0]), cuts[1..])
  }

  /** How many cuts are at or before position `i`. */
  function CutsUpTo(cuts: seq<nat>, i: nat): nat
  {
    if |cuts| == 0 then 0 else (if cuts[0] <= i then 1 else 0) + CutsUpTo(cuts[1..], i)
  }

  /** After the loop, a sign has been negated once for every cut at or before
      its position; so the order of the cuts, which the source sorts first,
      does not matter. */
  lemma {:induction false} FlipAllParity(rule: seq<int>, cuts: seq<nat>, i: nat)
    requires i < |rule|
    decreases |cuts|
    ensures FlipAll(rule, cuts)[i] == (if CutsUpTo(cuts, i) % 2 == 0 then rule[i] else -rule[i])
  {
    if |cuts| > 0 {
      FlipAllParity(FlipFrom(rule, cuts[0]), cuts[1..], i);
    }
  }

  /** `sample(range(n), k)` gives `k` distinct positions of `0 .. n - 1`. */
  predicate CutsFit(n: nat, k: int, cuts: seq<nat>)
  {
    && |cuts| == k
    && (forall j :: 0 <= j < |cuts| ==> cuts[j] < n)
    && (forall j, l :: 0 <= j < l < |cuts| ==> cuts[j] != cuts[l])
  }

  /** `KPointCrossover.get_rule(n)` with the cuts drawn by
      `sample(range(n), k)`, which refuses a negative `k` or one above `n`.
      A gene comes from the first parent when an even number of cuts lie at
      or before it, the cut position itself included. */
  function KPointRule(n: nat, k: int, cuts: seq<nat>): (r: Result<seq<bool>>)
    requires 0 <= k <= n ==> CutsFit(n, k, cuts)
    ensures r.Ok? <==> 0 <= k <= n
    ensures r.Err? ==> r.error == ValueError
    ensures r.Ok? ==> |r.value| == n
    ensures r.Ok? ==> forall i :: 0 <= i < n ==> (r.value[i] <==> CutsUpTo(cuts, i) % 2 == 0)
  {
    if k < 0 || k > n then Err(ValueError)
    else
      var signs := FlipAll(seq(n, _ => 1), cuts);
      assert forall i :: 0 <= i < n ==> (signs[i] == 1 <==> CutsUpTo(cuts, i) % 2 == 0) by {
        forall i | 0 <= i < n ensures signs[i] == 1 <==> CutsUpTo(cuts, i) % 2 == 0 {
          FlipAllParity(seq(n, _ => 1), cuts, i);
        }
      }
      Ok(seq(n, i requires 0 <= i < n => signs[i] == 1))
  }

  /** With no cuts every gene comes from the first parent. */
  lemma KPointNoCuts(n: nat)
    ensures KPointRule(n, 0, []) == Ok(seq(n, _ => true))
  {
    var r := KPointRule(n, 0, []).value;
    assert forall i :: 0 <= i < n ==> CutsUpTo([], i) == 0;
    assert r == seq(n, _ => true);
  }

  /** Five genes cut at 1 and 3 take genes 0, 3 and 4 from the first parent. */
  lemma KPointExample()
    ensures KPointRule(5, 2, [1, 3]) == Ok([true, false, false, true, true])
    ensures KPointRule(5, 2, [3, 1]) == KPointRule(5, 2, [1, 3])
  {
    var cs: seq<nat> := [1, 3];
    var ds: seq<nat> := [3, 1];
    assert CutsUpTo(cs, 0) == 0 && CutsUpTo(cs, 1) == 1 && CutsUpTo(cs, 2) == 1;
    assert CutsUpTo(cs, 3) == 2 && CutsUpTo(cs, 4) == 2;
    assert forall i :: 0 <= i < 5 ==> CutsUpTo(ds, i) == CutsUpTo(cs, i);
    var r := KPointRule(5, 2, cs).value;
    assert r == [true, false, false, true, true];
    assert KPointRule(5, 2, ds).value == r;
  }

  /** `UniformCrossover.get_rule(n)` with the draws of `np.random.rand(n)`:
      a gene comes from the first parent when its draw exceeds one half. */
  function UniformRule(coins: seq<real>): (r: seq<bool>)
    ensures |r| == |coins| && forall i :: 0 <= i < |coins| ==> (r[i] <==> coins[i] > 0.5)
  {
    seq(|coins|, i requires 0 <= i < |coins| => coins[i] > 0.5)
  }

  /** The crossover strategy; `KPointCrossover` carries its `k`. */
  datatype Method = OnePointCrossover | KPointCrossover(k: int) | UniformCrossover

  /** The draws one `get_rule` call may consume: the one-point threshold,
      the k-point sample and the uniform coins. */
  datatype Draws = Draws(t: nat, cuts: seq<nat>, coins: seq<real>)

  /** The draws lie in the ranges their random sources produce for `n` genes. */
  predicate DrawsFit(m: Method, n: nat, d: Draws)
  {
    match m
    case OnePointCrossover => n > 0 ==> d.t < n
    case KPointCrossover(k) => 0 <= k <= n ==> CutsFit(n, k, d.cuts)
    case UniformCrossover => |d.coins| == n && forall i :: 0 <= i < n ==> 0.0 <= d.coins[i] < 1.0
  }

  /** `get_rule(n)` of the chosen strategy. */
  function GetRule(m: Method, n: nat, d: Draws): (r: Result<seq<bool>>)
    requires DrawsFit(m, n, d)
    ensures r.Ok? ==> |r.value| == n
  {
    match m
    case OnePointCrossover => OnePointRule(n, d.t)
    case KPointCrossover(k) => KPointRule(n, k, d.cuts)
    case UniformCrossover => Ok(UniformRule(d.coins))
  }

  // --------------------------------------------------------------- breeding

  /** Every gene the rule asks for from position `i` on can be read. */
  predicate Readable(p1: Chromosome, p2: Chromosome, rule: seq<bool>, i: nat)
  {
    forall j :: i <= j < |rule| ==> (if rule[j] then j < |p1.genes| else j < |p2.genes|)
  }

  /** The loop of `breed` from position `i`: gene `j` of the child is read
      from the parent the rule names and written with `inherit`. */
  function InheritFrom(child: Chromosome, p1: Chromosome, p2: Chromosome, rule: seq<bool>, i: nat): (r: Result<Chromosome>)
    requires |child.genes| == |rule| && i <= |rule|
    decreases |rule| - i
    ensures r.Ok? <==> Readable(p1, p2, rule, i)
    ensures r.Err? ==> r.error == IndexError
    ensures r.Ok? ==> var c := r.value;
      && |c.genes| == |rule|
      && (forall j :: 0 <= j < i ==> c.genes[j] == child.genes[j])
      && (forall j :: i <= j < |rule| ==> c.genes[j] == (if rule[j] then p1.genes[j] else p2.genes[j]))
      && c.length == child.length && c.fitness == child.fitness && c.net == child.net && c.detached == child.detached
      && (Consistent(child) ==> Consistent(c))
  {
    if i == |rule| then Ok(child)
    else
      var v :- if rule[i] then Gene(p1, i) else Gene(p2, i);
      var next := Inherit(child, v, i).value;
      InheritFrom(next, p1, p2, rule, i + 1)
  }

  /** `breed(p1, p2)` once the rule is known: a child of `n` zero genes is
      built with a fresh network and then filled position by position. */
  function BreedWith(p1: Chromosome, p2: Chromosome, rule: seq<bool>, base: Networks.Model): (r: Result<Chromosome>)
    ensures r.Ok? <==> Networks.SetParams(base, seq(|rule|, _ => 0.0)).Ok? && Readable(p1, p2, rule, 0)
    ensures r.Ok? ==> var c := r.value;
      && |c.genes| == |rule| && c.length == |rule| && c.fitness == 0.0
      && (forall j :: 0 <= j < |rule| ==> c.genes[j] == (if rule[j] then p1.genes[j] else p2.genes[j]))
      && c.detached.None? && Consistent(c)
  {
    var child :- NewChromosome(seq(|rule|, _ => 0.0), base);
    InheritFrom(child, p1, p2, rule, 0)
  }

  /** `CrossoverMethod.breed(p1, p2)`: asserts equal lengths, draws the rule
      for that many genes, and breeds the child from it. The child's network
      reads the child's genes. */
  function Breed(p1: Chromosome, p2: Chromosome, m: Method, d: Draws, base: Networks.Model): (r: Result<Chromosome>)
    requires DrawsFit(m, p1.length, d)
    ensures p1.length != p2.length ==> r == Err(AssertionError)
    ensures p1.length == p2.length && GetRule(m, p1.length, d).Err? ==> r == Err(GetRule(m, p1.length, d).error)
    ensures p1.length == p2.length && GetRule(m, p1.length, d).Ok? ==>
      r == BreedWith(p1, p2, GetRule(m, p1.length, d).value, base)
    ensures r.Ok? ==> var c := r.value;
      && |c.genes| == p1.length && c.length == p1.length && c.fitness == 0.0
      && c.detached.None? && Consistent(c)
  {
    if p1.length != p2.length then Err(AssertionError)
    else
      var rule :- GetRule(m, p1.length, d);
      BreedWith(p1, p2, rule, base)
  }

  /** Breeding from parents of `n` genes each succeeds for any rule of
      length `n` when the network takes `n` parameters, and each child gene
      is the gene of the parent the rule names. */
  lemma BreedFromWholeParents(p1: Chromosome, p2: Chromosome, rule: seq<bool>, base: Networks.Model)
    requires Networks.Initialized(base) && base.nParams == |rule|
    requires |p1.genes| == |p2.genes| == |rule|
    ensures BreedWith(p1, p2, rule, base).Ok?
    ensures forall j :: 0 <= j < |rule| ==>
      BreedWith(p1, p2, rule, base).value.genes[j] == (if rule[j] then p1.genes[j] else p2.genes[j])
  {
    Networks.SetParamsSucceeds(base, seq(|rule|, _ => 0.0));
  }

  /** One-point crossover at `t = 0` copies the second parent. */
  lemma OnePointAtZeroCopiesSecond(p1: Chromosome, p2: Chromosome, base: Networks.Model)
    requires p1.length == p2.length == |p1.genes| == |p2.genes| > 0
    requires Networks.Initialized(base) && base.nParams == p1.length
    ensures Breed(p1, p2, OnePointCrossover, Draws(0, [], []), base).Ok?
    ensures Breed(p1, p2, OnePointCrossover, Draws(0, [], []), base).value.genes == p2.genes
  {
    var rule := OnePointRule(p1.length, 0).value;
    BreedFromWholeParents(p1, p2, rule, base);
  }

  /** K-point crossover with no cuts copies the first parent. */
  lemma NoCutsCopiesFirst(p1: Chromosome, p2: Chromosome, base: Networks.Model)
    requires p1.length == p2.length == |p1.genes| == |p2.genes|
    requires Networks.Initialized(base) && base.nParams == p1.length
    ensures Breed(p1, p2, KPointCrossover(0), Draws(0, [], []), base).Ok?
    ensures Breed(p1, p2, KPointCrossover(0), Draws(0, [], []), base).value.genes == p1.genes
  {
    KPointNoCuts(p1.length);
    var rule := KPointRule(p1.length, 0, []).value;
    BreedFromWholeParents(p1, p2, rule, base);
  }
}
