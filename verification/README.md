# Tetris bot with a genetic algorithm, in Dafny

This project models the core of a Python program that trains neural-network
Tetris bots with a genetic algorithm. The model covers two halves.

- **The game.** The 30 x 10 field with its stacking limit of 20 (`game/field.py`)
  and the seven tetrominoes (`game/tetromino.py`): shape matrices,
  orientation, bottom gaps, placing and removing pieces, the drop search,
  line clearing, the game-over test and the bot's move choice in
  `play_turn`. The board heuristics of `evaluations.py` are modelled with them.
- **The genetic algorithm.** The network of `geneticalgo/base_model.py`: layer
  set-up, the flat parameter layout and the score, which is linear in the
  features. The crossover, mutation and selection strategies and the
  `Population` bookkeeping of `geneticalgo/evolution.py`: building members,
  fitness, best member, elitism, one generation, the training loop, the
  stopping rule and loading saved genes.

Every random draw is a parameter, and its `requires` states the range of the
random source it stands for. So are the bot's score of a field and the
games that give a member its fitness. Python exceptions become
`Wrappers.Result` errors named after the exception (`AssertionError`,
`IndexError`, `ValueError`, `TypeError`, `KeyError`, `AttributeError`,
`UnboundLocalError`). Genes, fitness and weights are `real`.

The modules follow the source files:

| file | module | source |
|---|---|---|
| wrappers.dfy | Wrappers | `Result`, `Option`, ordered maps whose calls may raise |
| seqs.dfy | Seqs | sums, `max`, `min`, `count(0)`, first maximum |
| sorting.dfy | Sorting | Python's stable `sorted(..., key, reverse)` as an order of positions |
| tetromino.dfy | Tetrominoes | game/tetromino.py |
| field.dfy | Board | game/field.py |
| evaluations.dfy | Evaluations | evaluations.py |
| base_model.dfy | Networks | geneticalgo/base_model.py |
| chromosome.dfy | Chromosomes | `Chromosome` in geneticalgo/evolution.py |
| crossover.dfy | Crossover | geneticalgo/crossover.py |
| mutation.dfy | Mutation | geneticalgo/mutation.py |
| selection.dfy | Selection | geneticalgo/selection.py |
| evolution.dfy | Evolution | `Population` in geneticalgo/evolution.py |

Some behaviours of the code are surprising, and the model keeps them as they are:

- `SwapMutation` writes each gene back to the position it was read from,
  so a triggered swap changes nothing (`Mutation.Swap`).
- `FlipMutation` subscripts the bound method `chromosome.gene`, so any
  draw below the rate raises `TypeError` (`Mutation.Flip`).
- `RankSelection` draws an index from a range of n(n-1)/2 and uses it
  directly as a population position, so from three members on a draw in
  range can fail (`Selection.RankParents`, `Selection.RankDrawOverruns`,
  `Selection.RankSecondDrawOverruns`).
- K-point crossover negates the rule at each cut, the cut position
  included (`Crossover.KPointRule`).
- `row_sides` never updates `prev`, so it counts empty cells
  (`Evaluations.SidesAreEmptyCells`).
- `drop_tetromino` reads the loop variable `y` unbound when every covered
  column already reaches row 20 (`Board.LandingRow`).
- With cuts {1, 3}, k-point crossover of `[1,2,3,4,5]` and `[9,9,9,9,9]`
  gives `[1,9,9,4,5]` (`Crossover.KPointExample`).
- Roulette selection with every fitness zero divides numpy's `0.0` by a
  zero total, so every weight is `nan` (`max(nan, 0)` keeps it), and
  numpy's `choice` refuses the weights with `ValueError`; a draw from an
  empty remainder is refused the same way (`Selection.RoulettePick`).
- `place_tetromino` and `remove_tetromino` write through numpy slices, which
  clip at the top row and the right edge and broadcast axes of length 1. A
  flat I one row past the top is placed and removed as a no-op, an O cut off
  at the top fails the removal's assertion, and a vertical I past the right
  edge is removed as a no-op (`Board.BroadcastExamples`).


## Model

| member | source | states |
|---|---|---|
| Tetrominoes.Rot90 | game/tetromino.py:169 | `np.rot90` of a rectangular matrix is rectangular with rows and columns swapped |
| Tetrominoes.Rot90FourTimes | game/tetromino.py:167-170 | four quarter turns give the matrix back |
| Tetrominoes.ShapesMatchTable | game/tetromino.py:146-232 | the constructors' rotation loops build exactly the written-out orientation tables of the seven pieces |
| Tetrominoes.OrientationCounts | game/tetromino.py:146-232 | I has 2 orientations, J, L and T have 4, O has 1, S and Z have 2 |
| Tetrominoes.ShapeFacts | game/tetromino.py:4-12 | every orientation of every piece is a rectangle of at most 4 x 4 holding exactly four blocks, each of the piece's `color_list` colour |
| Tetrominoes.ShapesCycle | game/tetromino.py:146-232 | each orientation is the quarter turn of the one before, cyclically |
| Tetrominoes.NewTet | game/tetromino.py:73-80 | a fresh piece has the requested kind and orientation 0, which indexes its list of shapes |
| Tetrominoes.GetShape | game/tetromino.py:83-86 | the current orientation's matrix, a four-block shape of the piece's colour |
| Tetrominoes.Height | game/tetromino.py:88-96 | the hit-box of every orientation is between 1 and 4 rows high |
| Tetrominoes.Width | game/tetromino.py:88-101 | the hit-box of every orientation is between 1 and 4 columns wide |
| Tetrominoes.Rotate | game/tetromino.py:103-112 | the orientation stays a valid index into the shapes, and kind and position are unchanged |
| Tetrominoes.RotateFullTurn | game/tetromino.py:111-112 | rotating by the number of orientations changes nothing |
| Tetrominoes.RotateAdds | game/tetromino.py:111-112 | rotating by `a` then by `b` is rotating by `a + b` |
| Tetrominoes.RotateIsQuarterTurn | game/tetromino.py:93-112 | one rotation step turns the shape a quarter turn and swaps height and width |
| Tetrominoes.Place | game/tetromino.py:114-125 | `place` sets xloc and yloc and leaves kind, orientation and shape alone |
| Tetrominoes.GapsAfterRun | game/tetromino.py:132-140 | after the loop has visited `i` rows from the bottom, each counter is the run of empty cells directly above the last block seen |
| Tetrominoes.BottomGap | game/tetromino.py:127-140 | one entry per column, each the number of empty cells below the column's lowest block (matrix row 0 lies lowest on the field), less than the height |
| Tetrominoes.BottomGapUpsideDownL | game/tetromino.py:130 | the upside-down L gives (2, 0) |
| Tetrominoes.BottomGapHorizontalZ | game/tetromino.py:130 | the horizontal Z gives (1, 0, 0) |
| Tetrominoes.GetTetByName | game/tetromino.py:258-276 | a fresh piece of the named letter for the seven letters, `KeyError` for any other name |
| Tetrominoes.GetRandom | game/tetromino.py:278-281 | index 0..6 picks a piece that `get_tet_by_name` of its letter also builds |
| Tetrominoes.GetRandomCoversBag | game/tetromino.py:278-281 | every piece is reached by some index in 0..6 |
| Board.NewField | game/field.py:90-95 | a 30 x 10 all-zero grid, score 0, alive |
| Board.AddShape | game/field.py:118 | cells under the hit-box change by the shape's entry, every other cell is unchanged |
| Board.PlaceTetromino | game/field.py:100-118 | `AssertionError` exactly when the piece leaves the ten columns; otherwise `ValueError` exactly when a hit-box of more than one row passes the top row; a one-row piece wholly past the top changes nothing; inside the grid it adds the shape; score and alive are kept |
| Board.RemoveTetromino | game/field.py:120-138 | succeeds exactly when the view broadcasts against the shape, every broadcast cell matches, and the shape fits the view; `AssertionError` exactly when the comparison broadcasts but a cell differs, `ValueError` otherwise; inside the grid it succeeds exactly when the region equals the shape, then empties it and leaves every other cell; a clipped view that succeeds changes nothing |
| Board.SliceLen | game/field.py:118 | a numpy slice `[s:s+l]` of an axis of `n` entries has `l` entries when it fits, is clipped to `n - s` past the end, and is empty from a start past the end |
| Board.BroadcastInside | game/field.py:137 | inside the grid the view has the shape's size, comparison and subtraction broadcast, and the broadcast comparison is the cell-by-cell one |
| Board.BroadcastExamples | game/field.py:113-138 | a flat I past the top is placed and removed as a no-op; an O cut off at the top fails the removal's assertion; a vertical I past the right edge is removed as a no-op and fails the placement's assertion |
| Board.PlaceBelowLimit | game/field.py:117-118 | a piece inside the columns with its bottom row below 20 is placed, and the grid stays 30 x 10 |
| Board.PlaceThenRemove | game/field.py:113-138 | placing over an empty region and removing again restores the field |
| Board.RemoveThenPlace | game/field.py:113-138 | removing a piece that lies within the ten columns and placing it back restores the field, also past the top row |
| Board.CheckEndGame | game/field.py:140-143 | alive afterwards exactly when alive before and row 20 is empty; grid and score unchanged |
| Board.ColumnHeightUnique | game/field.py:191-197 | a column has a single height: one above its highest block, 0 when empty |
| Board.GroundLevel | game/field.py:184-197 | `_ground_level` returns the column height |
| Board.TopIndexFromHighest | game/field.py:238-242 | the inner scan of `drop_tetromino` ends at the highest block's row, or at 0 for an empty column |
| Board.TopIndexIsHeightLessOne | game/field.py:236-242 | the scan's row is one below the column height, 0 for an empty column |
| Board.MinTop | game/field.py:244 | `min_h` is a least top row over the covered columns and is attained by one of them |
| Board.Search | game/field.py:245-250 | the search stops at the first row from `min_h` where shape and blocks do not meet, and at row 19 when there is none |
| Board.LandingRow | game/field.py:236-250 | `UnboundLocalError` exactly when `min_h` is at least 20; otherwise a landing row in `[min_h, 20)` |
| Board.ValidRange | game/field.py:198-211 | holds exactly when the hit-box with its left edge at `x` lies inside the ten columns (at row 0 it then fits the grid) |
| Board.DropTetromino | game/field.py:213-255 | fails the `valid_range` assertion outside the columns, fails exactly when the landing search does, otherwise places the moved piece, clears lines and checks the end of the game |
| Board.NotFull | game/field.py:264 | every kept row is a row of the input that is not full, and the kept rows plus the full rows number the input's rows |
| Board.ClearRowsDeletesFullRows | game/field.py:262-267 | the top-down deletion loop over rows `k - 1 .. 0` equals deleting the full rows among them, keeping the others in order, appending as many empty rows and adding that many to the score |
| Board.CheckClearLine | game/field.py:257-267 | the grid stays 30 x 10, rows 0..20 are replaced by their rows that are not full, rows above 20 move down, empty rows fill the top, and the score rises by the number of full rows |
| Board.MovesFrom | game/field.py:318-322 | the moves tried are exactly the orientations with every left edge that keeps the piece inside the columns, listed by orientation and then by left edge |
| Board.Moves | game/field.py:316-322 | every orientation with every left edge inside the columns, in the loops' order |
| Board.MovesNonEmpty | game/field.py:318-322 | every piece has at least one move |
| Board.ScoreAll | game/field.py:323-333 | each outcome is scored in order, and the first failed drop aborts with its error |
| Board.ChooseBest | game/field.py:335-336 | `max` by score returns the move of the first highest-scoring outcome; when the moves are in loop order, every move listed before it scores strictly lower |
| Board.FirstBestBefore | game/field.py:316-336 | in loop order, every move listed before the first best one scores strictly lower |
| Board.PlayTurn | game/field.py:306-336 | succeeds exactly when every move's drop succeeds, and returns a move whose outcome scores highest and strictly above every move the loops try before it |
| Evaluations.HeightFromSpec | evaluations.py:9-15 | the heuristics' column scan ends one above the highest block, 0 for an empty column |
| Evaluations.ColumnHeight | evaluations.py:9-15 | the heuristics' column height agrees with `_ground_level` |
| Evaluations.Heights | evaluations.py:9-15 | ten heights, each the height of its column |
| Evaluations.MaxHeight | evaluations.py:8-16 | 1.5 times a column height that is at least every column's, at most 45 |
| Evaluations.AvgHeight | evaluations.py:19-27 | ten times the value is 1.5 times the sum of the heights |
| Evaluations.AvgAtMostMax | evaluations.py:8-27 | the average never exceeds the maximum |
| Evaluations.NGaps | evaluations.py:32-40 | never positive, divisible by 3, and 0 exactly when no column has an empty cell below its height |
| Evaluations.LinesCleared | evaluations.py:44-45 | an even number whose half is the field's score, the rows cleared so far |
| Evaluations.GapsZeroIffSolidBefore | evaluations.py:33-39 | the running count over the first `c` columns is 0 exactly when none of them has a hole |
| Evaluations.LinesClearedByClearing | evaluations.py:44-45 | after line clearing, `lines_cleared` rises by two per full row deleted |
| Evaluations.Evenness | evaluations.py:49-58 | never positive, and 0 exactly when all columns have one height |
| Evaluations.Neighbors | evaluations.py:83-87 | the differences to the existing neighbours, never empty on a field of width at least 2 |
| Evaluations.LowestColumnBump | evaluations.py:80-88 | the largest neighbour minimum is never negative, because of the lowest column |
| Evaluations.BumpinessOf | evaluations.py:72-89 | -2 times the largest of the columns' smallest neighbour differences, never positive |
| Evaluations.Bumpiness | evaluations.py:72-89 | `bumpiness` of the field is never positive |
| Evaluations.Spikiness | evaluations.py:92-100 | never positive, even, and 0 exactly when all columns have one height |
| Evaluations.EvenIffSmooth | evaluations.py:49-100 | evenness and spikiness are 0 together |
| Evaluations.SidesAreEmptyCells | evaluations.py:108-114 | with `prev` fixed at 1, a row's sides are its empty cells |
| Evaluations.SidesBeforeAreEmptyCells | evaluations.py:106-115 | summed over the rows, the sides are the empty cells |
| Evaluations.RowSides | evaluations.py:105-116 | minus the number of empty cells of the grid, between -300 and 0 |
| Evaluations.NewFieldRowSides | evaluations.py:105-116 | an empty field scores -300 |
| Evaluations.Death | evaluations.py:121-122 | 0 or -9999, and 0 exactly while alive |
| Evaluations.DeathAfterEndGame | evaluations.py:121-122 | after the end-of-game check, -9999 exactly when the game was lost or row 20 holds a block |
| Networks.Reshape | geneticalgo/base_model.py:70 | `reshape` into `rows x cols` reads back row-major as the vector |
| Networks.Dot | geneticalgo/base_model.py:53-54 | `np.dot` of vectors succeeds exactly on equal lengths |
| Networks.InitiateParams | geneticalgo/base_model.py:64-66 | an `nNodes x prev` zero matrix and `nNodes * prev` parameters |
| Networks.SetLayerParams | geneticalgo/base_model.py:68-70 | fails its assertion on a wrong count; succeeds exactly on the configured count and reshapes the vector to the layer's shape |
| Networks.AddLayers | geneticalgo/base_model.py:23-32 | fewer than two layers fail; the last becomes output, the first input, the rest dense in order, then initialised when asked |
| Networks.InitChain | geneticalgo/base_model.py:35-38 | each dense layer gets as many columns as the layer before it has nodes |
| Networks.InitializeLayers | geneticalgo/base_model.py:34-40 | every layer is configured from its predecessor, and the count is the dense layers' plus the output's, the input contributing none |
| Networks.SetDenseReadsBack | geneticalgo/base_model.py:45-47 | the dense layers read back in order, followed by the rest, give the input vector |
| Networks.SetParams | geneticalgo/base_model.py:42-49 | fails its assertion on a wrong length; otherwise the dense layers' and the output's parameters concatenate back to the vector |
| Networks.SetParamsSucceeds | geneticalgo/base_model.py:42-49 | on an initialised model `set_params` succeeds exactly on vectors of `n_params` entries |
| Networks.SetParamsLengthOnly | geneticalgo/base_model.py:42-49 | whether `set_params` accepts a vector depends only on its length |
| Networks.LayerMap | geneticalgo/base_model.py:53 | one dense layer maps a vector to the rows' dot products, and fails on a length mismatch |
| Networks.DotSumLinear | geneticalgo/base_model.py:53-54 | a dot product is linear in its second argument |
| Networks.LayerMapLinear | geneticalgo/base_model.py:53 | a dense layer maps a linear combination to the same combination of images |
| Networks.ForwardLinear | geneticalgo/base_model.py:52-53 | the dense chain is linear |
| Networks.GetScore | geneticalgo/base_model.py:51-54 | fails without an output layer; a score needs an output row |
| Networks.GetScoreLinear | geneticalgo/base_model.py:51-54 | `get_score(a x + b y) = a get_score(x) + b get_score(y)` wherever it succeeds on `x` |
| Networks.BotParamCount | geneticalgo/base_model.py:34-40 | a network of `a` inputs, `b` hidden nodes and one output has `a * b + b` parameters |
| Networks.BotGeneCount | main.py:14-58 | the bot's network of ten heuristics, ten hidden nodes and one output takes exactly the 110 genes the population is built with |
| Chromosomes.NewChromosome | geneticalgo/evolution.py:139-145 | length is the gene count and fitness 0; a wrong parameter count fails; the network is configured from the genes |
| Chromosomes.Gene | geneticalgo/evolution.py:151-152 | reads position `p`, `IndexError` past the end |
| Chromosomes.Inherit | geneticalgo/evolution.py:148-149 | overwrites position `p` only, `IndexError` past the end, and the network keeps reading the genes |
| Chromosomes.InheritThenGene | geneticalgo/evolution.py:148-152 | reading after a write gives the written value there and the old genes elsewhere |
| Chromosomes.WriteGenes | geneticalgo/evolution.py:161-162 | rebinds the genes only: length, fitness and the vector the network reads stay |
| Chromosomes.AttachedScoresGenes | geneticalgo/evolution.py:157-159 | while the network views the genes, it scores with the genes |
| Crossover.OnePointRule | geneticalgo/crossover.py:37-39 | `rule[i]` is `i < t`; `randrange(0, 0)` fails |
| Crossover.OnePointPrefix | geneticalgo/crossover.py:37-39 | exactly `t` leading trues and no other true |
| Crossover.FlipAllParity | geneticalgo/crossover.py:51-53 | after the loop an entry is negated once per cut at or before it |
| Crossover.KPointRule | geneticalgo/crossover.py:47-54 | fails unless `0 <= k <= n`; `rule[i]` holds exactly when an even number of cuts are at or before `i` |
| Crossover.KPointNoCuts | geneticalgo/crossover.py:51-54 | no cuts give an all-true rule |
| Crossover.KPointExample | geneticalgo/crossover.py:47-54 | cuts {1, 3} on five genes take genes 0, 3 and 4 from the first parent, in either draw order |
| Crossover.UniformRule | geneticalgo/crossover.py:61-62 | `rule[i]` is `coin[i] > 0.5`, one per gene |
| Crossover.GetRule | geneticalgo/crossover.py:29-62 | every strategy's rule has one entry per gene |
| Crossover.InheritFrom | geneticalgo/crossover.py:21-25 | child gene `j` is the first parent's when the rule is true and the second's otherwise, failing exactly when a named gene is missing |
| Crossover.BreedWith | geneticalgo/crossover.py:19-27 | a fresh child of `n` genes with fitness 0 and its own network, each gene taken from the parent the rule names |
| Crossover.Breed | geneticalgo/crossover.py:14-27 | unequal lengths fail the assertion, a failing rule fails the breed, otherwise the child is bred from the rule |
| Crossover.BreedFromWholeParents | geneticalgo/crossover.py:14-27 | with whole parents and a fitting network breeding always succeeds |
| Crossover.OnePointAtZeroCopiesSecond | geneticalgo/crossover.py:37-39 | threshold 0 copies the second parent |
| Crossover.NoCutsCopiesFirst | geneticalgo/crossover.py:47-54 | k = 0 copies the first parent |
| Mutation.NoisyFrom | geneticalgo/mutation.py:22-26 | from position `i` on, a gene is scaled by `1 + s * volume` exactly when its draw is below the rate, earlier genes stay |
| Mutation.Noisy | geneticalgo/mutation.py:22-30 | gene `j` becomes `(1 + s_j volume) g_j` exactly when `coin_j < rate`, the length stays, and the network keeps reading the genes |
| Mutation.NoisyKeepsZeros | geneticalgo/mutation.py:25-30 | a zero gene stays zero |
| Mutation.NoisyRateZero | geneticalgo/mutation.py:22-26 | a rate of 0 changes nothing |
| Mutation.Flip | geneticalgo/mutation.py:36-39 | `TypeError` exactly when some draw is below the rate, otherwise unchanged |
| Mutation.Swap | geneticalgo/mutation.py:45-51 | no trigger: unchanged; triggered with fewer than two genes: `ValueError`; otherwise unchanged |
| Mutation.Mutate | geneticalgo/mutation.py:14-51 | no strategy changes the gene count, the length or the network |
| Selection.SquaresTotal | geneticalgo/selection.py:28 | the squares' total is positive exactly when some fitness is nonzero |
| Selection.RouletteWeightsDistribution | geneticalgo/selection.py:28-29 | with a positive total the weights are non-negative and sum to 1 |
| Selection.CdfPick | geneticalgo/selection.py:30 | `choice` with draw `u` picks the position whose cumulative interval holds `u`, and its weight is positive |
| Selection.RoulettePick | geneticalgo/selection.py:27-30 | `ValueError` exactly when every fitness is zero; otherwise a member of nonzero fitness |
| Selection.RouletteParents | geneticalgo/selection.py:24-33 | succeeds exactly when two members have nonzero fitness; the first parent is the `u1` pick over all members, the second the `u2` pick over the others, so the two are distinct members of nonzero fitness |
| Selection.RankWeights | geneticalgo/selection.py:45-47 | the weights list has n(n-1)/2 entries, each below n |
| Selection.RankWeightsEmpty | geneticalgo/selection.py:45-51 | there is nothing to draw from exactly when there are fewer than two members |
| Selection.RankParents | geneticalgo/selection.py:40-57 | succeeds exactly when both draws index the ascending order, before and after the first pop; returns the two members at those places |
| Selection.RankDrawOverruns | geneticalgo/selection.py:50-55 | from four members on, the draw range exceeds the population and a legal draw fails with `IndexError` |
| Selection.RankSecondDrawOverruns | geneticalgo/selection.py:50-55 | from three members on, the second draw `n - 1` is in range but indexes past the list left after the pop, an `IndexError` |
| Selection.Ranked | geneticalgo/selection.py:66-71 | the sampled members in descending fitness order, ties by sample order |
| Selection.RankedTop | geneticalgo/selection.py:66-71 | the first entries of the ranking are distinct sampled members in descending fitness |
| Selection.TournamentParents | geneticalgo/selection.py:65-71 | `ValueError` for a size outside `0..n`; otherwise min(2, size) distinct sampled members, fittest first, none fitter left out |
| Selection.SelectParents | geneticalgo/selection.py:21-71 | every strategy returns at most two member positions; roulette and rank return two distinct ones |
| Selection.SelectAll | geneticalgo/selection.py:10-12 | one pair per draw in order; the first failing draw aborts with its error |
| Selection.SelectParentGeneration | geneticalgo/selection.py:8-13 | exactly `n` pairs for `n >= 0`, none for a negative `n`, or the first failing pair's error |
| Sorting.SortPositions | geneticalgo/evolution.py:127-128 | a permutation of the positions in strictly increasing (key, position) order, the stable sort |
| Sorting.SortedPermutationUnique | geneticalgo/evolution.py:127-128 | there is one such permutation, so the stable sort is determined |
| Seqs.ArgMaxFirst | geneticalgo/evolution.py:123 | `max` by key returns the first position of the largest value |
| Evolution.NewMembers | geneticalgo/evolution.py:32-40 | one chromosome per draw in order, or the first failure |
| Evolution.Init | geneticalgo/evolution.py:16-40 | `size` members of the drawn genes with fitness 0, generation 0, means 1, threshold 0; a network of the wrong count fails |
| Evolution.Scored | geneticalgo/evolution.py:66-70 | each member's fitness becomes its game score, played with the parameters its network reads |
| Evolution.BestFitness | geneticalgo/evolution.py:122-124 | the first member of highest fitness and the arithmetic mean; an empty population fails |
| Evolution.StoppingCondition | geneticalgo/evolution.py:117-120 | never before generation 10, never with a zero previous mean |
| Evolution.StoppingRelative | geneticalgo/evolution.py:117-120 | from generation 10 with a positive previous mean: `|mean - prev| / prev < threshold` |
| Evolution.StoppingExamples | geneticalgo/evolution.py:117-120 | a half-percent change stops at a one-percent threshold in generation 12, not in generation 8 |
| Evolution.Trunc | geneticalgo/evolution.py:129 | `int()` truncates toward zero |
| Evolution.SliceEnd | geneticalgo/evolution.py:130 | the length of `residents[:t]`, with a negative `t` counted from the end |
| Evolution.ElitePositions | geneticalgo/evolution.py:126-130 | `int(elitism * size)` members in stable descending order, each at least as fit as every member left out |
| Evolution.ElitesDistinct | geneticalgo/evolution.py:126-130 | the elites are distinct members |
| Evolution.EliteCountBounds | geneticalgo/evolution.py:129-130 | elitism 0 keeps none, elitism 1 keeps everyone |
| Evolution.ParentPairs | geneticalgo/evolution.py:87-89 | `size - len(elites)` pairs of member positions |
| Evolution.BreedChildren | geneticalgo/evolution.py:90 | one child per pair with `n_genes` genes and its own network |
| Evolution.MutateChildren | geneticalgo/evolution.py:91 | mutation keeps each child's gene count and network |
| Evolution.Children | geneticalgo/evolution.py:86-91 | `size - len(elites)` children of `n_genes` genes |
| Evolution.Step | geneticalgo/evolution.py:66-93 | an empty population fails; otherwise size and gene count are kept, generation rises by 1, the previous mean is the old mean, best and mean come from the scored members |
| Evolution.StepKeepsElites | geneticalgo/evolution.py:86-92 | the new population is the elites, taken from the scored members, followed by the children |
| Evolution.Successor | geneticalgo/evolution.py:92-93 | `elites + children` has `size` members and the generation advances |
| Evolution.TrainLoop | geneticalgo/evolution.py:44-97 | cycle 0 runs nothing; a positive cycle runs exactly that many generations; a run with a negative cycle ends only by the stopping rule |
| Evolution.Train | geneticalgo/evolution.py:42-103 | sets the threshold and runs the loop; with cycle 0 the verbose report of a population never trained fails |
| Evolution.UnlimitedRunsTenGenerations | geneticalgo/evolution.py:95-97 | an unlimited run from generation 0 that finishes has run at least ten generations |
| Evolution.LoadPopulation | geneticalgo/evolution.py:132-135 | asserts equal counts, then sets each member's genes; length and the vector the network reads stay |
| Evolution.LoadLeavesNetworkStale | geneticalgo/evolution.py:132-135 | a member whose loaded genes differ has a network that does not read its genes |
| Evolution.LoadedFitnessIgnoresLoadedGenes | geneticalgo/evolution.py:132-135 | the next fitness pass gives the same fitness whatever genes were loaded |
| Evolution.LoadPopulationConfigured | geneticalgo/evolution.py:132-135 | corrected load: each member gets its genes and a network reading them |
| Evolution.LoadConfiguredSucceeds | geneticalgo/evolution.py:132-135 | the corrected load succeeds on gene lists of the lengths the networks read |
| Evolution.LoadedConfiguredFitnessUsesLoadedGenes | geneticalgo/evolution.py:132-135 | after the corrected load the fitness pass plays the loaded genes |

## Left out

- Process-pool fitness evaluation and the queue helpers (geneticalgo/evolution.py:66-70, 165-169) are concurrency. A member's fitness is the parameter `play(i, params)`.
- `TetrisBot.get_fitness` and `Field.start_game` play whole random games with a display. They are the `play` parameter.
- The bot's scoring of a move, `bot.model.get_score(f.evaluations - self.evaluations)`, is the parameter `score: Field -> real` of `Board.PlayTurn`. `add_evaluation_function` and `update_evaluations` are not modelled; every heuristic is a pure function of the field.
- `smoothness` uses a standard deviation, i.e. a square root, which has no exact counterpart on `real`.
- The JSON save with file removal, the verbose prints inside the loop, dill pickling and main.py's file handling are I/O. The closing report's read of `best_model.fitness` is kept because it can fail.
- The matplotlib display and `copy()` (`deepcopy`) are left out. Under value semantics every field is already a copy.
- Every random source is a parameter with its range, not its distribution: `random()`, `choice`, `sample`, `randrange`, `randint`, `np.random.rand` and numpy's weighted `choice`.
- Floating point is modelled as `real`. There is no rounding, no overflow to infinity and no JSON round trip. A zero previous mean in the stopping rule is modelled as numpy's `inf`/`nan` comparing false.
- The training loop runs one generation per supplied `GenerationDraws`. A run that needs more generations than supplied ends as `OutOfDraws`, so an endless run with a negative cycle is not modelled.
- Evolution.Init: sizes are `nat`, so the negative sizes Python's `range` would accept as empty are not modelled.
- The `population` back-references, `model.chromosome = self` and `test` flags carry no behaviour and are not modelled.
- Board.PlaceTetromino: a negative `yloc`, which numpy would count from the end of the axis, is not modelled; pieces start at row 24 and `drop_tetromino` places them at rows from 0.
- Board.RemoveTetromino: negative `xloc` and `yloc` are not modelled, for the same reason.
- Comparing arrays of shapes that cannot be broadcast raises `ValueError` in current numpy and is modelled so; before numpy 1.25 the comparison returned a plain `False`, on which `.all()` raises `AttributeError`.
- Tetrominoes.NewTet: the starting location (4, 24) is part of the definition but not of the contract; no property depends on it.
- Crossover.KPointRule: the cuts are taken as drawn and `thresholds.sort()` is not modelled as a step. The parity rule does not depend on their order, as `Crossover.KPointExample` shows for one case.
- Mutation.Mutate: strategies return a new chromosome instead of changing the child in place, so `[mutate(child) ...]` is modelled as a map.
- Evolution.Successor: states `WellFormed` and the elite and child placement. The aliasing of elite objects shared between generations is not modelled.

## Findings

| source | as written | input that shows it | evidently intended | confidence | as-written member | corrected member |
|---|---|---|---|---|---|---|
| geneticalgo/evolution.py:132-135 | `load_population` calls `write_genes` (geneticalgo/evolution.py:161-162), which rebinds `genes` but leaves the network reading the array it was configured with, so the next fitness pass plays the old parameters | a freshly built member with genes `g` loaded with any `g' != g` | the loaded genes configure the network, as main.py:81-84 loads saved genes and then trains | not executed | Evolution.LoadedFitnessIgnoresLoadedGenes | Evolution.LoadedConfiguredFitnessUsesLoadedGenes |
