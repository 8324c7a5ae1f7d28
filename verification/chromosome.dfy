/** The `Chromosome` class of geneticalgo/evolution.py: a gene vector and
    the network it configures. */
module Chromosomes {
  import opened Wrappers
  import Networks

  /** A chromosome. `net` is the network as configured when the chromosome
      was built. Its layers are numpy views of the gene array it was built
      with, so a write to a gene is a write to the network; `write_genes`
      rebinds the genes to another array and leaves the network `detached`
      on the old one. */
  datatype Chromosome = Chromosome(genes: seq<real>, length: nat, fitness: real,
                                   net: Networks.Model, detached: Option<seq<real>>)

  /** The flat vector the network's layers read. */
  function ModelParams(c: Chromosome): seq<real>
  {
    match c.detached
    case None => c.genes
    case Some(stale) => stale
  }

  /** The network can be configured from the vector it reads. */
  predicate Consistent(c: Chromosome)
  {
    Networks.SetParams(c.net, ModelParams(c)).Ok?
  }

  /** `Chromosome(genes, model, population)`: the length is the gene count,
      fitness starts at 0, and the model is configured with the genes, whose
      parameter-count assertion is the usual failure. */
  function NewChromosome(genes: seq<real>, base: Networks.Model): (r: Result<Chromosome>)
    ensures base.nParams != |genes| ==> r == Err(AssertionError)
    ensures r.Ok? <==> Networks.SetParams(base, genes).Ok?
    ensures r.Ok? ==> var c := r.value;
      && c.genes == genes && c.length == |genes| && c.fitness == 0.0
      && c.detached.None? && Consistent(c)
  {
    var configured :- Networks.SetParams(base, genes);
    assert Networks.SetParams(configured, genes).Ok? by {
      SetParamsAgain(base, genes);
    }
    Ok(Chromosome(genes, |genes|, 0.0, configured, None))
  }

  /** A configured network can be configured again with any vector the
      original accepted. */
  lemma SetParamsAgain(base: Networks.Model, v: seq<real>)
    requires Networks.SetParams(base, v).Ok?
    ensures Networks.SetParams(Networks.SetParams(base, v).value, v).Ok?
  {
    var m := Networks.SetParams(base, v).value;
    SetDenseAgain(base.dense, v);
    var rest := Networks.SetDense(base.dense, v).value.1;
    assert Networks.SetDense(m.dense, v).Ok? && Networks.SetDense(m.dense, v).value.1 == rest;
  }

  lemma {:induction false} SetDenseAgain(layers: seq<Networks.Layer>, v: seq<real>)
    requires Networks.SetDense(layers, v).Ok?
    ensures Networks.SetDense(Networks.SetDense(layers, v).value.0, v).Ok?
    ensures Networks.SetDense(Networks.SetDense(layers, v).value.0, v).value.1 == Networks.SetDense(layers, v).value.1
  {
    if |layers| > 0 {
      var out := Networks.SetDense(layers, v).value.0;
      var n := layers[0].nParams;
      assert out[0] == Networks.SetLayerParams(layers[0], v[..n]).value;
      assert out[1..] == Networks.SetDense(layers[1..], v[n..]).value.0;
      SetDenseAgain(layers[1..], v[n..]);
    }
  }

  /** `gene(p)`: reads a gene; numpy rejects a position past the end. */
  function Gene(c: Chromosome, p: nat): (r: Result<real>)
    ensures r.Ok? <==> p < |c.genes|
    ensures r.Ok? ==> r.value == c.genes[p]
    ensures r.Err? ==> r.error == IndexError
  {
    if p < |c.genes| then Ok(c.genes[p]) else Err(IndexError)
  }

  /** `inherit(v, p)`: overwrites gene `p` in place; a network still viewing
      the gene array sees the write too. */
  function Inherit(c: Chromosome, v: real, p: nat): (r: Result<Chromosome>)
    ensures r.Ok? <==> p < |c.genes|
    ensures r.Err? ==> r.error == IndexError
    ensures r.Ok? ==> var d := r.value;
      && |d.genes| == |c.genes| && d.genes[p] == v
      && (forall q :: 0 <= q < |c.genes| && q != p ==> d.genes[q] == c.genes[q])
      && d.length == c.length && d.fitness == c.fitness && d.net == c.net && d.detached == c.detached
      && (Consistent(c) ==> Consistent(d))
  {
    if p < |c.genes| then
      var d := c.(genes := c.genes[p := v]);
      AcceptsSameLength(c.net, ModelParams(c), ModelParams(d));
      Ok(d)
    else Err(IndexError)
  }

  lemma AcceptsSameLength(m: Networks.Model, v: seq<real>, w: seq<real>)
    requires |v| == |w|
    ensures Networks.SetParams(m, v).Ok? ==> Networks.SetParams(m, w).Ok?
  {
    if Networks.SetParams(m, v).Ok? {
      Networks.SetParamsLengthOnly(m, v, w);
    }
  }

  /** Writing a gene and reading it back gives the written value, and the
      other genes read as before. */
  lemma InheritThenGene(c: Chromosome, v: real, p: nat, q: nat)
    requires p < |c.genes|
    ensures Gene(Inherit(c, v, p).value, q) == (if q == p then Ok(v) else Gene(c, q))
  {
  }

  /** `write_genes(genes)`: rebinds the gene vector and nothing else, so the
      network keeps reading the array it was configured with. */
  function WriteGenes(c: Chromosome, genes: seq<real>): (r: Chromosome)
    ensures r.genes == genes
    ensures r.length == c.length && r.fitness == c.fitness && r.net == c.net
    ensures ModelParams(r) == ModelParams(c) && r.detached.Some?
    ensures Consistent(c) ==> Consistent(r)
  {
    c.(genes := genes, detached := Some(ModelParams(c)))
  }

  /** `model.get_score(features)` of the chromosome's network, which reads
      `ModelParams(c)`. */
  function Score(c: Chromosome, features: seq<real>): (r: Result<real>)
    ensures !Consistent(c) ==> r.Err?
    ensures Consistent(c) ==>
      r == Networks.GetScore(Networks.SetParams(c.net, ModelParams(c)).value, features)
  {
    var m :- Networks.SetParams(c.net, ModelParams(c));
    Networks.GetScore(m, features)
  }

  /** While the network views the gene array it scores with the genes: the
      score is that of the network configured with the current gene vector. */
  lemma AttachedScoresGenes(c: Chromosome, features: seq<real>)
    requires Consistent(c) && c.detached.None?
    ensures Score(c, features) == Networks.GetScore(Networks.SetParams(c.net, c.genes).value, features)
  {
  }
}
