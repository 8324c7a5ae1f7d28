/** The bot's network of geneticalgo/base_model.py: an input layer, dense
    layers and an output layer, configured from one flat parameter vector
    and scoring a feature vector by repeated dot products. */
module Networks {
  import opened Wrappers

  // ----------------------------------------------------------- vector maths

  /** A row-major matrix read back as one vector. */
  function Flatten(m: seq<seq<real>>): seq<real>
  {
    if |m| == 0 then [] else m[0] + Flatten(m[1..])
  }

  /** `v.reshape(rows, cols)`: consecutive runs of `cols` entries become the
      rows, so reading the rows back in order gives `v` again. */
  function Reshape(v: seq<real>, rows: nat, cols: nat): (m: seq<seq<real>>)
    requires |v| == rows * cols
    decreases rows
    ensures |m| == rows && forall i :: 0 <= i < rows ==> |m[i]| == cols
    ensures Flatten(m) == v
  {
    if rows == 0 then []
    else
      assert rows * cols == (rows - 1) * cols + cols;
      var rest := Reshape(v[cols..], rows - 1, cols);
      assert v == v[..cols] + v[cols..];
      [v[..cols]] + rest
  }

  /** `np.zeros([rows, cols])` */
  function Zeros(rows: nat, cols: nat): (m: seq<seq<real>>)
    ensures |m| == rows && forall i :: 0 <= i < rows ==> m[i] == seq(cols, _ => 0.0)
  {
    seq(rows, _ => seq(cols, _ => 0.0))
  }

  /** The sum of products of two vectors of one length. */
  function DotSum(a: seq<real>, b: seq<real>): real
    requires |a| == |b|
  {
    if |a| == 0 then 0.0 else a[0] * b[0] + DotSum(a[1..], b[1..])
  }

  /** `np.dot` of two vectors, which refuses vectors of different lengths. */
  function Dot(a: seq<real>, b: seq<real>): (r: Result<real>)
    ensures r.Ok? <==> |a| == |b|
    ensures r.Err? ==> r.error == ValueError
  {
    if |a| != |b| then Err(ValueError) else Ok(DotSum(a, b))
  }

  /** `z` is the entry-wise combination `a * x + b * y`. */
  predicate IsCombination(z: seq<real>, a: real, x: seq<real>, b: real, y: seq<real>)
  {
    |z| == |x| == |y| && forall i :: 0 <= i < |z| ==> z[i] == a * x[i] + b * y[i]
  }

  /** The entry-wise combination `a * x + b * y`. */
  function Combine(a: real, x: seq<real>, b: real, y: seq<real>): (r: seq<real>)
    requires |x| == |y|
    ensures IsCombination(r, a, x, b, y)
  {
    seq(|x|, i requires 0 <= i < |x| => a * x[i] + b * y[i])
  }

  /** A dot product is linear in its second argument. */
  lemma {:induction false} DotSumLinear(w: seq<real>, a: real, x: seq<real>, b: real, y: seq<real>, z: seq<real>)
    requires |w| == |z| && IsCombination(z, a, x, b, y)
    ensures DotSum(w, z) == a * DotSum(w, x) + b * DotSum(w, y)
  {
    if |w| > 0 {
      CombinationTail(z, a, x, b, y);
      DotSumLinear(w[1..], a, x[1..], b, y[1..], z[1..]);
      Distribute(w[0], a, x[0], b, y[0]);
      Regroup(a, b, w[0] * x[0], w[0] * y[0], DotSum(w[1..], x[1..]), DotSum(w[1..], y[1..]));
    }
  }

  lemma CombinationTail(z: seq<real>, a: real, x: seq<real>, b: real, y: seq<real>)
    requires |z| > 0 && IsCombination(z, a, x, b, y)
    ensures z[0] == a * x[0] + b * y[0] && IsCombination(z[1..], a, x[1..], b, y[1..])
  {
  }

  lemma Distribute(w: real, a: real, x: real, b: real, y: real)
    ensures w * (a * x + b * y) == a * (w * x) + b * (w * y)
  {
  }

  lemma Regroup(a: real, b: real, p: real, q: real, r: real, s: real)
    ensures (a * p + b * q) + (a * r + b * s) == a * (p + r) + b * (q + s)
  {
  }

  // ----------------------------------------------------------------- layers

  /** A `ModelLayer`: its node count, its parameter matrix, the shape numpy
      records for it (none while `params` is still the initial empty list)
      and its parameter count. */
  datatype Layer = Layer(nNodes: nat, params: seq<seq<real>>, shape: Option<(nat, nat)>, nParams: nat)

  /** `ModelLayer(n_nodes)` */
  function NewLayer(n: nat): (l: Layer)
    ensures l.nNodes == n && l.nParams == 0 && l.shape.None?
  {
    Layer(n, [], None, 0)
  }

  /** The layer holds an `nNodes x prev` matrix for some `prev`, and counts its entries. */
  predicate Configured(l: Layer)
  {
    l.shape.Some? && l.shape.value.0 == l.nNodes && l.nParams == l.nNodes * l.shape.value.1
  }

  /** `_initiate_params(prev)`: an `nNodes x prev` zero matrix and as many parameters. */
  function InitiateParams(l: Layer, prev: nat): (r: Layer)
    ensures Configured(r) && r.shape == Some((l.nNodes, prev))
    ensures r.nNodes == l.nNodes && r.nParams == l.nNodes * prev
    ensures Flatten(r.params) == seq(l.nNodes * prev, _ => 0.0)
  {
    var z := Zeros(l.nNodes, prev);
    ZerosFlatten(l.nNodes, prev);
    Layer(l.nNodes, z, Some((l.nNodes, prev)), l.nNodes * prev)
  }

  lemma {:induction false} ZerosFlatten(rows: nat, cols: nat)
    ensures Flatten(Zeros(rows, cols)) == seq(rows * cols, _ => 0.0)
  {
    if rows > 0 {
      assert Zeros(rows, cols)[1..] == Zeros(rows - 1, cols);
      ZerosFlatten(rows - 1, cols);
      assert rows * cols == cols + (rows - 1) * cols;
    }
  }

  /** `_set_params(v)`: asserts the parameter count, then reshapes `v` to
      the recorded shape. A layer never initiated still holds a plain list,
      which has no shape. */
  function SetLayerParams(l: Layer, v: seq<real>): (r: Result<Layer>)
    ensures r.Ok? <==> l.nParams == |v| && l.shape.Some? && |v| == l.shape.value.0 * l.shape.value.1
    ensures l.nParams != |v| ==> r == Err(AssertionError)
    ensures r.Ok? ==>
      && r.value.nNodes == l.nNodes && r.value.shape == l.shape && r.value.nParams == l.nParams
      && |r.value.params| == l.shape.value.0
      && (forall i :: 0 <= i < |r.value.params| ==> |r.value.params[i]| == l.shape.value.1)
      && Flatten(r.value.params) == v
  {
    if l.nParams != |v| then Err(AssertionError)
    else match l.shape
      case None => Err(AttributeError)
      case Some((rows, cols)) =>
        if |v| != rows * cols then Err(ValueError)
        else Ok(l.(params := Reshape(v, rows, cols)))
  }

  // ------------------------------------------------------------------ model

  /** A `BaseModel`: its layer dictionary and total parameter count. */
  datatype Model = Model(input: Option<Layer>, dense: seq<Layer>, output: Option<Layer>, nParams: nat)

  /** `BaseModel()` */
  function NewModel(): Model
  {
    Model(None, [], None, 0)
  }

  /** `add_layers(layers, initialize)`: asserts at least two layers; the last
      becomes the output, the first the input, and the ones between are
      appended to the dense layers in order. */
  function AddLayers(m: Model, layers: seq<Layer>, initialize: bool): (r: Result<Model>)
    ensures |layers| < 2 ==> r == Err(AssertionError)
    ensures |layers| >= 2 && !initialize ==> r == Ok(Model(Some(layers[0]),
      m.dense + layers[1..|layers| - 1], Some(layers[|layers| - 1]), m.nParams))
    ensures |layers| >= 2 && initialize ==> r == InitializeLayers(Model(Some(layers[0]),
      m.dense + layers[1..|layers| - 1], Some(layers[|layers| - 1]), m.nParams))
  {
    if |layers| < 2 then Err(AssertionError)
    else
      var arranged := Model(Some(layers[0]), m.dense + layers[1..|layers| - 1], Some(layers[|layers| - 1]), m.nParams);
      if initialize then InitializeLayers(arranged) else Ok(arranged)
  }

  /** The node count feeding dense layer `i`: the input's for the first,
      the previous dense layer's otherwise. */
  function FeedingNodes(inputNodes: nat, dense: seq<Layer>, i: nat): nat
    requires i <= |dense|
  {
    if i == 0 then inputNodes else dense[i - 1].nNodes
  }

  /** The dense-layer loop of `initialize_layers` starting from `prev` nodes. */
  function InitChain(layers: seq<Layer>, prev: nat): (r: seq<Layer>)
    ensures |r| == |layers|
    ensures forall i :: 0 <= i < |layers| ==>
      r[i] == InitiateParams(layers[i], FeedingNodes(prev, layers, i))
  {
    if |layers| == 0 then []
    else
      var rest := InitChain(layers[1..], layers[0].nNodes);
      assert forall i :: 1 <= i < |layers| ==>
        FeedingNodes(layers[0].nNodes, layers[1..], i - 1) == FeedingNodes(prev, layers, i);
      [InitiateParams(layers[0], prev)] + rest
  }

  /** Total parameters of a list of layers. */
  function ParamCount(layers: seq<Layer>): nat
  {
    if |layers| == 0 then 0 else layers[0].nParams + ParamCount(layers[1..])
  }

  /** Every layer is configured, and the model counts their parameters. */
  predicate Initialized(m: Model)
  {
    && m.input.Some? && m.output.Some?
    && (forall i :: 0 <= i < |m.dense| ==> Configured(m.dense[i]))
    && Configured(m.output.value)
    && m.nParams == ParamCount(m.dense) + m.output.value.nParams
  }

  /** `initialize_layers`: each dense layer, then the output, gets an
      `n_nodes x prev_n_nodes` matrix where `prev_n_nodes` is the node count
      of the layer before it; the model counts the dense and output
      parameters, the input contributing none. Reading a missing layer's
      node count fails. */
  function InitializeLayers(m: Model): (r: Result<Model>)
    ensures r.Ok? <==> m.input.Some? && m.output.Some?
    ensures r.Err? ==> r.error == AttributeError
    ensures r.Ok? ==> Initialized(r.value)
    ensures r.Ok? ==> var n := r.value;
      && n.input == m.input && |n.dense| == |m.dense|
      && (forall i :: 0 <= i < |m.dense| ==>
            n.dense[i] == InitiateParams(m.dense[i], FeedingNodes(m.input.value.nNodes, m.dense, i)))
      && n.output == Some(InitiateParams(m.output.value,
            FeedingNodes(m.input.value.nNodes, m.dense, |m.dense|)))
  {
    if m.input.None? then Err(AttributeError)
    else
      var dense := InitChain(m.dense, m.input.value.nNodes);
      var prev := FeedingNodes(m.input.value.nNodes, m.dense, |m.dense|);
      if m.output.None? then Err(AttributeError)
      else
        var output := InitiateParams(m.output.value, prev);
        Ok(Model(m.input, dense, Some(output), ParamCount(dense) + output.nParams))
  }

  /** The dense-layer loop of `set_params`: each layer takes the next
      `n_params` entries (Python slicing stops at the end), the rest is handed on. */
  function SetDense(layers: seq<Layer>, v: seq<real>): (r: Result<(seq<Layer>, seq<real>)>)
    ensures r.Ok? ==> |r.value.0| == |layers|
    ensures r.Ok? ==> forall i :: 0 <= i < |layers| ==> SameFrame(r.value.0[i], layers[i])
    ensures r.Ok? ==> |v| == ParamCount(layers) + |r.value.1|
  {
    if |layers| == 0 then Ok(([], v))
    else
      var n := layers[0].nParams;
      // a slice `v[:n]` shorter than `n` fails the layer's count assertion
      if |v| < n then Err(AssertionError)
      else
        var first :- SetLayerParams(layers[0], v[..n]);
        var rest :- SetDense(layers[1..], v[n..]);
        Ok(([first] + rest.0, rest.1))
  }

  /** Reading the configured dense layers back in order, followed by the
      remainder, gives the vector the loop was handed. */
  lemma {:induction false} SetDenseReadsBack(layers: seq<Layer>, v: seq<real>)
    requires SetDense(layers, v).Ok?
    ensures FlatAll(SetDense(layers, v).value.0) + SetDense(layers, v).value.1 == v
  {
    if |layers| > 0 {
      var n := layers[0].nParams;
      var first := SetLayerParams(layers[0], v[..n]).value;
      var rest := SetDense(layers[1..], v[n..]).value;
      assert SetDense(layers, v).value == ([first] + rest.0, rest.1);
      SetDenseReadsBack(layers[1..], v[n..]);
      FlatAllCons(first, rest.0);
      SplitJoin(Flatten(first.params), FlatAll(rest.0), rest.1, v, n);
    }
  }

  lemma SplitJoin(a: seq<real>, b: seq<real>, c: seq<real>, v: seq<real>, n: nat)
    requires n <= |v| && a == v[..n] && b + c == v[n..]
    ensures (a + b) + c == v
  {
    assert (a + b) + c == a + (b + c);
    assert v == v[..n] + v[n..];
  }

  lemma FlatAllCons(l: Layer, ls: seq<Layer>)
    ensures FlatAll([l] + ls) == Flatten(l.params) + FlatAll(ls)
  {
    assert ([l] + ls)[1..] == ls;
  }

  /** Two layers agree on everything but their parameter values. */
  predicate SameFrame(l: Layer, k: Layer)
  {
    l.nNodes == k.nNodes && l.shape == k.shape && l.nParams == k.nParams
  }

  /** The parameters of a list of layers read back in order. */
  function FlatAll(layers: seq<Layer>): seq<real>
  {
    if |layers| == 0 then [] else Flatten(layers[0].params) + FlatAll(layers[1..])
  }

  /** `set_params(v)`: asserts the total count, hands consecutive slices to
      the dense layers and the remainder to the output layer. Reading the
      layers' parameters back in order gives `v`. */
  function SetParams(m: Model, v: seq<real>): (r: Result<Model>)
    ensures m.nParams != |v| ==> r == Err(AssertionError)
    ensures r.Ok? ==> r.value.output.Some? && FlatAll(r.value.dense) + Flatten(r.value.output.value.params) == v
    ensures r.Ok? ==> r.value.input == m.input && |r.value.dense| == |m.dense| && r.value.nParams == m.nParams
    ensures r.Ok? && Initialized(m) ==> Initialized(r.value)
  {
    if m.nParams != |v| then Err(AssertionError)
    else
      var (dense, rest) :- SetDense(m.dense, v);
      if m.output.None? then Err(AttributeError)
      else
        var output :- SetLayerParams(m.output.value, rest);
        var r := Model(m.input, dense, Some(output), m.nParams);
        SetDenseReadsBack(m.dense, v);
        assert ParamCount(dense) == ParamCount(m.dense) by {
          ParamCountSameCounts(dense, m.dense);
        }
        Ok(r)
  }

  lemma {:induction false} ParamCountSameCounts(a: seq<Layer>, b: seq<Layer>)
    requires |a| == |b| && forall i :: 0 <= i < |a| ==> a[i].nParams == b[i].nParams
    ensures ParamCount(a) == ParamCount(b)
  {
    if |a| > 0 {
      ParamCountSameCounts(a[1..], b[1..]);
    }
  }

  /** On configured layers the dense loop never fails while enough entries remain. */
  lemma {:induction false} SetDenseSucceeds(layers: seq<Layer>, v: seq<real>)
    requires forall i :: 0 <= i < |layers| ==> Configured(layers[i])
    requires ParamCount(layers) <= |v|
    ensures SetDense(layers, v).Ok?
    ensures |SetDense(layers, v).value.1| == |v| - ParamCount(layers)
  {
    if |layers| > 0 {
      var n := layers[0].nParams;
      SetDenseSucceeds(layers[1..], v[n..]);
    }
  }

  /** On an initialized model `set_params` succeeds exactly when the vector
      has `n_params` entries. */
  lemma SetParamsSucceeds(m: Model, v: seq<real>)
    requires Initialized(m)
    ensures SetParams(m, v).Ok? <==> |v| == m.nParams
  {
    if |v| == m.nParams {
      SetDenseSucceeds(m.dense, v);
    }
  }

  /** Whether the dense loop accepts a vector depends only on its length. */
  lemma {:induction false} SetDenseLengthOnly(layers: seq<Layer>, v: seq<real>, w: seq<real>)
    requires |v| == |w| && SetDense(layers, v).Ok?
    ensures SetDense(layers, w).Ok? && |SetDense(layers, w).value.1| == |SetDense(layers, v).value.1|
  {
    if |layers| > 0 {
      var n := layers[0].nParams;
      SetDenseLengthOnly(layers[1..], v[n..], w[n..]);
    }
  }

  /** Whether `set_params` accepts a vector depends only on its length. */
  lemma SetParamsLengthOnly(m: Model, v: seq<real>, w: seq<real>)
    requires |v| == |w| && SetParams(m, v).Ok?
    ensures SetParams(m, w).Ok?
  {
    SetDenseLengthOnly(m.dense, v, w);
  }

  // ----------------------------------------------------------------- score

  /** One dense layer: `[np.dot(row, x) for row in params]`. */
  function LayerMap(rows: seq<seq<real>>, x: seq<real>): (r: Result<seq<real>>)
    ensures r.Ok? <==> forall i :: 0 <= i < |rows| ==> |rows[i]| == |x|
    ensures r.Err? ==> r.error == ValueError
    ensures r.Ok? ==> |r.value| == |rows|
    ensures r.Ok? ==> forall i :: 0 <= i < |rows| ==> r.value[i] == DotSum(rows[i], x)
  {
    if |rows| == 0 then Ok([])
    else
      var head :- Dot(rows[0], x);
      var rest :- LayerMap(rows[1..], x);
      assert forall i :: 1 <= i < |rows| ==> rows[i] == rows[1..][i - 1];
      Ok([head] + rest)
  }

  /** The dense loop of `get_score`. */
  function Forward(layers: seq<Layer>, x: seq<real>): Result<seq<real>>
  {
    if |layers| == 0 then Ok(x)
    else
      var y :- LayerMap(layers[0].params, x);
      Forward(layers[1..], y)
  }

  /** `get_score(features)`: the features pass through every dense layer,
      and the result is dotted with the output layer's first row. */
  function GetScore(m: Model, features: seq<real>): (r: Result<real>)
    ensures m.output.None? ==> r.Err?
    ensures r.Ok? ==> m.output.Some? && |m.output.value.params| > 0
  {
    var x :- Forward(m.dense, features);
    if m.output.None? then Err(AttributeError)
    else if |m.output.value.params| == 0 then Err(IndexError)
    else Dot(x, m.output.value.params[0])
  }

  /** A dense layer maps `a * x + b * y` to the same combination of images. */
  lemma {:induction false} LayerMapLinear(rows: seq<seq<real>>, a: real, x: seq<real>, b: real, y: seq<real>, z: seq<real>)
    requires IsCombination(z, a, x, b, y)
    requires LayerMap(rows, x).Ok?
    ensures LayerMap(rows, y).Ok? && LayerMap(rows, z).Ok?
    ensures IsCombination(LayerMap(rows, z).value, a, LayerMap(rows, x).value, b, LayerMap(rows, y).value)
  {
    if |rows| > 0 {
      LayerMapLinear(rows[1..], a, x, b, y, z);
      DotSumLinear(rows[0], a, x, b, y, z);
      CombinationCons(DotSum(rows[0], z), LayerMap(rows[1..], z).value, a,
                      DotSum(rows[0], x), LayerMap(rows[1..], x).value,
                      b, DotSum(rows[0], y), LayerMap(rows[1..], y).value);
    }
  }

  lemma CombinationCons(hz: real, tz: seq<real>, a: real, hx: real, tx: seq<real>, b: real, hy: real, ty: seq<real>)
    requires hz == a * hx + b * hy && IsCombination(tz, a, tx, b, ty)
    ensures IsCombination([hz] + tz, a, [hx] + tx, b, [hy] + ty)
  {
  }

  /** Whether a dense layer accepts a vector depends only on its length. */
  lemma LayerMapSameLength(rows: seq<seq<real>>, x: seq<real>, y: seq<real>)
    requires |x| == |y| && LayerMap(rows, x).Ok?
    ensures LayerMap(rows, y).Ok?
  {
  }

  lemma {:induction false} ForwardLinear(layers: seq<Layer>, a: real, x: seq<real>, b: real, y: seq<real>, z: seq<real>)
    requires IsCombination(z, a, x, b, y)
    requires Forward(layers, x).Ok?
    ensures Forward(layers, y).Ok? && Forward(layers, z).Ok?
    ensures IsCombination(Forward(layers, z).value, a, Forward(layers, x).value, b, Forward(layers, y).value)
  {
    if |layers| > 0 {
      var rows := layers[0].params;
      LayerMapLinear(rows, a, x, b, y, z);
      ForwardLinear(layers[1..], a, LayerMap(rows, x).value, b, LayerMap(rows, y).value, LayerMap(rows, z).value);
    }
  }

  /** `get_score` is linear: where it succeeds on `x`, it succeeds on every
      `y` of the same length and on `a * x + b * y`, with the combined score. */
  lemma GetScoreLinear(m: Model, a: real, x: seq<real>, b: real, y: seq<real>)
    requires |x| == |y|
    requires GetScore(m, x).Ok?
    ensures GetScore(m, y).Ok? && GetScore(m, Combine(a, x, b, y)).Ok?
    ensures GetScore(m, Combine(a, x, b, y)).value == a * GetScore(m, x).value + b * GetScore(m, y).value
  {
    var z := Combine(a, x, b, y);
    ForwardLinear(m.dense, a, x, b, y, z);
    var fx := Forward(m.dense, x).value;
    var fy := Forward(m.dense, y).value;
    var fz := Forward(m.dense, z).value;
    var w := m.output.value.params[0];
    DotSumSymmetric(fx, w);
    DotSumSymmetric(fy, w);
    DotSumSymmetric(fz, w);
    DotSumLinear(w, a, fx, b, fy, fz);
  }

  lemma {:induction false} DotSumSymmetric(u: seq<real>, v: seq<real>)
    requires |u| == |v|
    ensures DotSum(u, v) == DotSum(v, u)
  {
    if |u| > 0 {
      DotSumSymmetric(u[1..], v[1..]);
    }
  }

  // ------------------------------------------------------------ tetris bot

  /** The network of the Tetris bot with `a` inputs and `b` hidden nodes,
      built by `add_layers([ModelLayer(a), ModelLayer(b), ModelLayer(1)])`. */
  function BotModel(a: nat, b: nat): Result<Model>
  {
    AddLayers(NewModel(), [NewLayer(a), NewLayer(b), NewLayer(1)], true)
  }

  /** The bot's network has `a * b + b` parameters: a `b x a` hidden matrix
      and a `1 x b` output row. */
  lemma BotParamCount(a: nat, b: nat)
    ensures BotModel(a, b).Ok?
    ensures BotModel(a, b).value.nParams == a * b + b
  {
    var layers := [NewLayer(a), NewLayer(b), NewLayer(1)];
    assert layers[1..2] == [NewLayer(b)];
    var m := Model(Some(NewLayer(a)), [NewLayer(b)], Some(NewLayer(1)), 0);
    assert BotModel(a, b) == InitializeLayers(m);
    var r := InitializeLayers(m).value;
    assert r.dense[0].nParams == b * a;
    assert r.dense[1..] == [];
    assert ParamCount(r.dense) == b * a;
    assert r.output.value.nParams == 1 * b;
  }

  /** With ten heuristics and ten hidden nodes the network has the 110
      parameters each chromosome carries as genes. */
  lemma BotGeneCount()
    ensures BotModel(10, 10).Ok? && BotModel(10, 10).value.nParams == 110
  {
    BotParamCount(10, 10);
  }
}
