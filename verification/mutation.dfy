/** Mutation of geneticalgo/mutation.py. Each strategy walks a chromosome
    and may overwrite genes in place; the random draws are parameters. */
module Mutation {
  import opened Wrappers
  import opened Chromosomes

  /** The draws of `NoisyMutation.mutate`: a `random()` per gene and the
      sign `choice([1, -1])` would pick for it. */
  predicate NoisyDrawsFit(n: nat, coins: seq<real>, signs: seq<int>)
  {
    && |coins| == n && |signs| == n
    && (forall i :: 0 <= i < |coins| ==> 0.0 <= coins[i] < 1.0)
    && (forall i :: 0 <= i < |signs| ==> signs[i] == 1 || signs[i] == -1)
  }

  /** The gene `NoisyMutation` leaves at position `i`. */
  function NoisyGene(g: real, rate: real, volume: real, coin: real, sign: int): real
  {
    if coin < rate then (1.0 + sign as real * volume) * g else g
  }

  /** The loop of `NoisyMutation.mutate` from position `i`: each gene is
      read first, and when its draw is below the rate it is scaled by
      `1 + s * volume`. */
  function NoisyFrom(c: Chromosome, rate: real, volume: real, coins: seq<real>, signs: seq<int>, i: nat): (r: Result<Chromosome>)
    requires NoisyDrawsFit(c.length, coins, signs) && i <= c.length
    decreases c.length - i
    ensures r.Ok? <==> c.length <= |c.genes|
    ensures r.Err? ==> r.error == IndexError
    ensures r.Ok? ==> var d := r.value;
      && |d.genes| == |c.genes| && d.length == c.length && d.fitness == c.fitness
      && d.net == c.net && d.detached == c.detached
      && (forall j :: 0 <= j < |c.genes| ==>
            d.genes[j] == (if i <= j < c.length then NoisyGene(c.genes[j], rate, volume, coins[j], signs[j]) else c.genes[j]))
      && (Consistent(c) ==> Consistent(d))
  {
    if i == c.length then
      if c.length <= |c.genes| then Ok(c) else Err(IndexError)
    else
      var g :- Gene(c, i);
      var next := if coins[i] < rate then Inherit(c, NoisyGene(g, rate, volume, coins[i], signs[i]), i).value else c;
      NoisyFrom(next, rate, volume, coins, signs, i + 1)
  }

  /** `NoisyMutation(rate, volume).mutate(c)`: gene `i` becomes
      `(1 + s * volume) * gene` exactly when its draw is below the rate, and
      the vector keeps its length. */
  function Noisy(c: Chromosome, rate: real, volume: real, coins: seq<real>, signs: seq<int>): (r: Result<Chromosome>)
    requires NoisyDrawsFit(c.length, coins, signs)
    ensures r.Ok? <==> c.length <= |c.genes|
    ensures r.Err? ==> r.error == IndexError
    ensures r.Ok? ==> var d := r.value;
      && |d.genes| == |c.genes| && d.length == c.length && d.fitness == c.fitness
      && d.net == c.net && d.detached == c.detached
      && (forall j :: 0 <= j < c.length ==>
            d.genes[j] == (if coins[j] < rate then (1.0 + signs[j] as real * volume) * c.genes[j] else c.genes[j]))
      && (forall j :: c.length <= j < |c.genes| ==> d.genes[j] == c.genes[j])
      && (Consistent(c) ==> Consistent(d))
  {
    NoisyFrom(c, rate, volume, coins, signs, 0)
  }

  /** Noisy mutation scales genes, so a zero gene stays zero. */
  lemma NoisyKeepsZeros(c: Chromosome, rate: real, volume: real, coins: seq<real>, signs: seq<int>, j: nat)
    requires NoisyDrawsFit(c.length, coins, signs) && c.length <= |c.genes|
    requires j < |c.genes| && c.genes[j] == 0.0
    ensures Noisy(c, rate, volume, coins, signs).value.genes[j] == 0.0
  {
  }

  /** With a rate of zero no draw is below the rate, and nothing changes. */
  lemma NoisyRateZero(c: Chromosome, volume: real, coins: seq<real>, signs: seq<int>)
    requires NoisyDrawsFit(c.length, coins, signs) && c.length <= |c.genes|
    ensures Noisy(c, 0.0, volume, coins, signs) == Ok(c)
  {
    NoisyFromModel(c, 0.0, volume, coins, signs, 0);
  }

  /** When no draw is below the rate the loop returns the chromosome as it was. */
  lemma {:induction false} NoisyFromModel(c: Chromosome, rate: real, volume: real, coins: seq<real>, signs: seq<int>, i: nat)
    requires NoisyDrawsFit(c.length, coins, signs) && i <= c.length <= |c.genes|
    requires forall j :: i <= j < c.length ==> !(coins[j] < rate)
    ensures NoisyFrom(c, rate, volume, coins, signs, i) == Ok(c)
    decreases c.length - i
  {
    if i < c.length {
      NoisyFromModel(c, rate, volume, coins, signs, i + 1);
    }
  }

  /** `FlipMutation.mutate(c)`: the branch taken for a draw below the rate
      subscripts the method `gene` instead of calling it, which is a type
      error; when no draw is below the rate nothing changes. */
  function Flip(c: Chromosome, rate: real, coins: seq<real>): (r: Result<Chromosome>)
    requires |coins| == c.length
    ensures r.Err? <==> exists i :: 0 <= i < c.length && coins[i] < rate
    ensures r.Err? ==> r.error == TypeError
    ensures r.Ok? ==> r.value == c
  {
    FlipFrom(c, rate, coins, 0)
  }

  function FlipFrom(c: Chromosome, rate: real, coins: seq<real>, i: nat): (r: Result<Chromosome>)
    requires |coins| == c.length && i <= c.length
    decreases c.length - i
    ensures r.Err? <==> exists j :: i <= j < c.length && coins[j] < rate
    ensures r.Err? ==> r.error == TypeError
    ensures r.Ok? ==> r.value == c
  {
    if i == c.length then Ok(c)
    else if coins[i] < rate then Err(TypeError)
    else FlipFrom(c, rate, coins, i + 1)
  }

  /** `sample(range(n), 2)`: two distinct positions below `n`. */
  predicate PairFits(n: nat, positions: (nat, nat))
  {
    positions.0 < n && positions.1 < n && positions.0 != positions.1
  }

  /** `SwapMutation.mutate(c)`: one draw against twice the rate; when it is
      below, two distinct positions are sampled (impossible with fewer than
      two genes) and both genes are read, then each is written back to the
      position it was read from, so the chromosome is unchanged. */
  function Swap(c: Chromosome, rate: real, coin: real, positions: (nat, nat)): (r: Result<Chromosome>)
    requires c.length >= 2 ==> PairFits(c.length, positions)
    ensures !(coin < 2.0 * rate) ==> r == Ok(c)
    ensures coin < 2.0 * rate && c.length < 2 ==> r == Err(ValueError)
    ensures coin < 2.0 * rate && c.length >= 2 ==>
      (r.Ok? <==> positions.0 < |c.genes| && positions.1 < |c.genes|)
    ensures r.Err? ==> r.error == ValueError || r.error == IndexError
    ensures r.Ok? ==> r.value == c
  {
    if !(coin < 2.0 * rate) then Ok(c)
    else if c.length < 2 then Err(ValueError)
    else
      var g1 :- Gene(c, positions.0);
      var g2 :- Gene(c, positions.1);
      var d := Inherit(c, g1, positions.0).value;
      var e := Inherit(d, g2, positions.1).value;
      assert e.genes == c.genes;
      Ok(e)
  }

  /** The mutation strategy with its rate and volume. */
  datatype Method = NoisyMutation(rate: real, volume: real)
                  | FlipMutation(rate: real, volume: real)
                  | SwapMutation(rate: real, volume: real)

  /** The draws one `mutate` call may consume. */
  datatype Draws = Draws(coins: seq<real>, signs: seq<int>, coin: real, positions: (nat, nat))

  /** The draws lie in the ranges their random sources produce for a
      chromosome of `n` genes. */
  predicate DrawsFit(m: Method, n: nat, d: Draws)
  {
    match m
    case NoisyMutation(_, _) => NoisyDrawsFit(n, d.coins, d.signs)
    case FlipMutation(_, _) => |d.coins| == n
    case SwapMutation(_, _) => n >= 2 ==> PairFits(n, d.positions)
  }

  /** `mutate(c)` of the chosen strategy. No strategy changes the length of
      the gene vector or the recorded length, and each keeps the network
      consistent with the chromosome. */
  function Mutate(m: Method, c: Chromosome, d: Draws): (r: Result<Chromosome>)
    requires DrawsFit(m, c.length, d)
    ensures r.Ok? ==> |r.value.genes| == |c.genes| && r.value.length == c.length
    ensures r.Ok? ==> r.value.net == c.net && r.value.detached == c.detached
    ensures r.Ok? && Consistent(c) ==> Consistent(r.value)
  {
    match m
    case NoisyMutation(rate, volume) => Noisy(c, rate, volume, d.coins, d.signs)
    case FlipMutation(rate, _) => Flip(c, rate, d.coins)
    case SwapMutation(rate, _) => Swap(c, rate, d.coin, d.positions)
  }
}
