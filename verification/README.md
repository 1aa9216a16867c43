# Hive rules engine and AI bookkeeping in Dafny

This project models the Hive board game implementation in `HexGame`. It covers:

- the rules engine: axial hex cells, the board of piece stacks, turn and queen-deadline bookkeeping, placement and sliding rules, the five per-insect destination generators, queen-surrounded win detection and move application;
- the save-record writers and the replay reader;
- the discrete parts of the AI: legal-move generation, the 1220-slot position encoding, the phase dispatch of `getBestMove`, roulette selection, and the MCTS tree bookkeeping;
- the shapes of the neural network;
- the agents, and the evolutionary and self-play trainers.

Everything is a value. A board is a map from cells to non-empty stacks of pieces, and a game state is a record. Java exceptions become `Option`/`Result`, and so do the null results.

Some things are parameters rather than computed:

- every random draw: indices, coins, uniform and Gaussian streams;
- the wall clock of the MCTS search;
- `AIMove.hashCode`;
- the floating-point pieces: `exp`, `sqrt`, the UCT score and the value network's output as read by MCTS.

The source walks `board.keySet()` and other hash sets of cells. `HexCoord.hashCode` is `Objects.hash(q, r)`, so on a given JVM that order is fixed, but it is not lexicographic. The model walks the cells in lexicographic order of `(q, r)` instead. Two results are proved not to depend on the walk order: the hive's connectivity (`Connectivity.StartIndependent`) and the win check (`WinCheck.SearchOrderIrrelevant`). The order of the generated move list does depend on it; "## Left out" lists where that matters.

Java `double` arithmetic is modelled as exact `real` arithmetic, with no rounding. This covers the self-play rewards `0.99^k`, the fitness sums, the normalised weights that sum to exactly 1, the roulette's prefix sums, and the MCTS value backup and clamp.

The trainers' games take the move choice as a parameter `choose` (in `SelfPlay.PlaySelfPlayGame`, `SelfPlay.PlayFrom`, `Evolution.Play` and `Evolution.PlayGame`). It stands for the agents' `getBestMove`, whose phase dispatch is `HiveAI.GetBestMove`.

`GameState.clone()` is called by the MCTS engine but is not defined in `GameState.java`. Since states are values here, a clone is an independent copy.

Files and modules:

- `wrappers.dfy`: `Wrappers`, for `Option` and `Result`.
- `hex.dfy`: `Hex`, for `HexCoord`.
- `pieces.dfy`: `Pieces`, for `PieceType`, `Piece`.
- `board.dfy`, `connectivity.dfy`: `Boards`, `Connectivity`, for `HiveBoard`.
- `gamestate.dfy`: `GameStates`, for `GameState`.
- `placement.dfy`, `movement.dfy`, `movecalc.dfy`, `wincheck.dfy`: `Placement`, `Movement`, `MoveCalc`, `WinCheck`, for the validators, `MoveCalculator`, `WinConditionChecker`.
- `aimove.dfy`, `hiveai.dfy`, `mcts.dfy`, `network.dfy`: `AIMoves`, `HiveAI`, `Mcts`, `Network`, for the AI package.
- `agent.dfy`, `ranking.dfy`, `gameresult.dfy`, `experience.dfy`, `selfplay.dfy`, `selftraining.dfy`, `evolution.dfy`: `Agents`, `Ranking`, `GameResults`, `Experiences`, `SelfPlay`, `SelfPlayTraining`, `Evolution`, for the training package.
- `decimal.dfy`, `records.dfy`: `Decimal`, `Records`, for the save and replay formats.

## Behaviour worth knowing

- MCTS with a budget of one iteration or none returns no move, even when exactly one move is legal. The first iteration only evaluates the unvisited root (`Mcts.OneIterationFindsNothing`). Two iterations suffice (`Mcts.SingleMoveFound`).
- An exception from `execute` inside `SelfPlayTrainer.playSelfPlayGame` is not caught there, so it ends the whole training run (`SelfPlay.PlayFrom` returns `Err`). Only `EvolutionaryTrainer.playGame` catches exceptions, and it scores the game as a draw.
- A self-play game cut off at 100 plies keeps the result `ONGOING`. `assignRewards` then rewards every ply as a loser's ply (`SelfPlay.OngoingRewardedAsLoss`), and `train` counts the game as a draw.
- `GameBoard` imports `DataCollection.SaveGame`, not `Game.SaveGame`. The records the game writes therefore carry the doubled instance number (see Findings).

## Model

| member | source | states |
|---|---|---|
| Hex.NeighborsAreDirections | HexGame/src/Game/HexCoord.java:37-46 | neighbour `i` of a cell is the cell shifted by the `i`-th axial direction, in the order the source lists them |
| Hex.NeighborsDistinct | HexGame/src/Game/HexCoord.java:37-46 | the six neighbours are pairwise different and never the cell itself |
| Hex.AdjacentIffUnitOffset | HexGame/src/Game/HexCoord.java:37-46 | being in the neighbour list is the same as differing by one of the six unit axial offsets |
| Hex.AdjacentSymmetric | HexGame/src/Game/HexCoord.java:37-46 | if `b` is a neighbour of `a`, then `a` is a neighbour of `b` |
| Hex.EqualsComponentwise | HexGame/src/Game/HexCoord.java:25-35 | two cells are equal exactly when both axial components are equal |
| Hex.CommonNeighbors | HexGame/src/Game/MovementValidator.java:31-32 | the list kept by `retainAll` holds exactly the cells adjacent to both cells, and at most six of them |
| Hex.AdjacentCellsShareTwoNeighbors | HexGame/src/Game/MovementValidator.java:31-32 | two adjacent cells have exactly two common neighbours (the gate cells); the two differ, and neither is one of the pair |
| Hex.Enumerate | HexGame/src/Game/HiveBoard.java:98-100 | the order in which the board's cells are visited lists every cell exactly once and starts with the least cell |
| Pieces.Ordinal | HexGame/src/PieceType.java:1-6 | a type's ordinal is its position in the declaration order |
| Pieces.PiecesPerColor | HexGame/src/PieceType.java:2-6 | the per-type counts 1, 3, 2, 3, 2 add up to eleven pieces per colour |
| Pieces.SymbolsDistinct | HexGame/src/PieceType.java:2-6 | different types have different symbols and different ordinals |
| Pieces.NewPiece | HexGame/src/Game/Piece.java:12-17 | a new piece keeps the type, colour and instance it is given, has no position and sits at stack level 0 |
| Pieces.SetPosition | HexGame/src/Game/Piece.java:31-33 | sets the position and keeps the identity and the stack level |
| Pieces.SetStackLevel | HexGame/src/Game/Piece.java:39-41 | sets the stack level and keeps the identity and the position |
| Boards.TopPieceAt | HexGame/src/Game/HiveBoard.java:32-36 | there is a top piece exactly when the cell holds a non-empty stack, and it is a piece of that stack |
| Boards.PlacePieceFacts | HexGame/src/Game/HiveBoard.java:38-42 | placing adds exactly one piece, keeps every stack non-empty, and leaves the placed piece on top with its position set |
| Boards.PlacePiece | HexGame/src/Game/HiveBoard.java:38-42 | the cell joins the board; other cells keep their stacks |
| Boards.MovePiece | HexGame/src/Game/HiveBoard.java:44-55 | a move fails (the source throws) exactly when `from` holds no stack |
| Boards.MovePieceFacts | HexGame/src/Game/HiveBoard.java:44-55 | a move keeps the piece count and keeps every stack non-empty. The old top of `from` becomes the top of `to`, `from` loses only its top piece, and every other cell is untouched |
| Boards.SizeCountsCells | HexGame/src/Game/HiveBoard.java:20-22 | `size` counts cells, not pieces: with a stack of two or more it is strictly below the piece count |
| Boards.HasAdjacentPiece | HexGame/src/Game/HiveBoard.java:80-87 | true exactly when some neighbour is occupied |
| Boards.HasAdjacentPieceExcluding | HexGame/src/Game/HiveBoard.java:89-96 | true exactly when some neighbour other than `exclude` is occupied |
| Connectivity.Enqueue | HexGame/src/Game/HiveBoard.java:69-74 | the visited set grows by exactly the occupied neighbours. The queue keeps its old contents as a prefix and grows by one entry per newly visited cell |
| Connectivity.Search | HexGame/src/Game/HiveBoard.java:67-75 | the search only adds occupied cells to those already visited |
| Connectivity.IsHiveConnected | HexGame/src/Game/HiveBoard.java:57-78 | true on an empty board. Otherwise comparing the search's count with the board size answers exactly whether the only non-empty closed set of occupied cells is the whole board |
| Connectivity.ReachedAllIffConnected | HexGame/src/Game/HiveBoard.java:57-78 | from any occupied start, the search reaches every cell exactly when the hive is connected |
| Connectivity.StartIndependent | HexGame/src/Game/HiveBoard.java:63 | the unspecified first key does not matter: any two occupied starts give the same answer |
| GameStates.PieceSet | HexGame/src/Game/GameState.java:32-40 | a colour's set has eleven pieces: for every type, instances 1 up to the type's count, all unplaced and at stack level 0 |
| GameStates.InstancesComplete | HexGame/src/Game/GameState.java:35-37 | the inner loop yields exactly the pieces of one type and colour with instance 1 up to the count |
| GameStates.Initial | HexGame/src/Game/GameState.java:15-30 | the new game is an empty board with white to move at turn 0, no queen placed, and the full piece set in each reserve |
| GameStates.NextPlayer | HexGame/src/Game/GameState.java:54-62 | the other side moves next and the total turn count goes up by one. Board, reserves and queen flags are unchanged |
| GameStates.NextPlayerTurnInv | HexGame/src/Game/GameState.java:54-62 | `nextPlayer` keeps the turn bookkeeping consistent: the side counters add up to the total, white moves on even turns, and black is at most one move ahead |
| GameStates.InitialTurnInv | HexGame/src/Game/GameState.java:15-23 | the new game satisfies that bookkeeping invariant |
| GameStates.QueenDeadline | HexGame/src/Game/GameState.java:76-79 | a side without its queen is forced to place it on its fourth move (turn 6 for white, 7 for black), and nobody is forced before turn 6 |
| GameStates.MustPlaceQueenIgnoresTurn | HexGame/src/Game/GameState.java:76-79 | the rule does not look at the side to move: once white has missed its deadline, black is forced as well |
| GameStates.SetQueenPlaced | HexGame/src/Game/GameState.java:72-74 | sets the given colour's flag, and every other flag, the board, the reserves and the side to move stay as they were |
| GameStates.RemoveFirst | HexGame/src/Game/GameState.java:82 | `List.remove` drops one occurrence of the piece, or changes nothing when the piece is not in the list |
| GameStates.RemovePieceFromReserve | HexGame/src/Game/GameState.java:81-83 | only the reserve of the side to move changes; the other reserve, the board, the side and the flags are kept |
| Placement.ScanColors | HexGame/src/Game/PlacementValidator.java:28-40 | the colour loop succeeds exactly when an own-coloured top piece was seen and no occupied neighbour shows a foreign top piece |
| Placement.CanPlaceAt | HexGame/src/Game/PlacementValidator.java:10-41 | on an empty board only the origin is accepted, and an occupied cell never is. With one piece on the board any cell next to it is accepted. Otherwise a cell is accepted exactly when it touches an own-coloured top piece and no enemy top piece |
| Placement.AcceptedCellTouchesHive | HexGame/src/Game/PlacementValidator.java:10-41 | on a non-empty board an accepted cell is free and next to the hive |
| Movement.BreaksHive | HexGame/src/Game/MovementValidator.java:12-24 | a stacked piece never breaks the hive. Lifting a single piece breaks it exactly when the remaining cells are not connected; `to` is ignored |
| Movement.CanSlideToBasic | HexGame/src/Game/MovementValidator.java:26-43 | refuses a destination that holds exactly one piece; otherwise needs an occupied common neighbour and an occupied neighbour of the destination |
| Movement.CanSlideTo | HexGame/src/Game/MovementValidator.java:45-60 | a step is allowed exactly when the destination is free and is not `start`, exactly one common neighbour other than `start` is occupied, and the destination touches a piece other than the one at `start` |
| Movement.BlockedIsGateCount | HexGame/src/Game/MovementValidator.java:49-57 | the count over the retained list equals the number of distinct occupied gate cells other than `start` |
| MoveCalc.QueenMoves | HexGame/src/Game/MoveCalculator.java:39-47 | the queen's candidates are exactly the neighbours a basic slide reaches, each listed once, at most six |
| MoveCalc.BeetleMoves | HexGame/src/Game/MoveCalculator.java:114-122 | the beetle's candidates are exactly the occupied neighbours (climbing) and the neighbours a basic slide reaches, each listed once |
| MoveCalc.Jump | HexGame/src/Game/MoveCalculator.java:104-106 | the inner loop stops at the first free cell along the direction, and every cell it passed is occupied |
| MoveCalc.GrassFrom | HexGame/src/Game/MoveCalculator.java:101-109 | the direction loop yields one landing cell per occupied first cell, and exactly the landing cells of those directions |
| MoveCalc.GrasshopperMoves | HexGame/src/Game/MoveCalculator.java:97-112 | one destination per occupied neighbour, and every destination is free |
| MoveCalc.GrasshopperJumpsStraight | HexGame/src/Game/MoveCalculator.java:97-112 | the destinations are exactly the free cells two or more steps away in a straight line with every cell in between occupied |
| MoveCalc.AntScan | HexGame/src/Game/MoveCalculator.java:59-67 | the neighbour loop adds exactly the unvisited neighbours that `canSlideTo` accepts, each once |
| MoveCalc.AntSearch | HexGame/src/Game/MoveCalculator.java:57-68 | the breadth-first loop only appends to the moves. The result lists each cell once, never the start and never an occupied cell |
| MoveCalc.AntSearchSound | HexGame/src/Game/MoveCalculator.java:57-68 | the loop's result is a chain of slides from the start, and together with the start it is closed under one more slide |
| MoveCalc.AntMovesExact | HexGame/src/Game/MoveCalculator.java:49-71 | the ant's destinations are exactly the cells other than its own that a chain of `canSlideTo` slides reaches |
| MoveCalc.AntMovesReachable | HexGame/src/Game/MoveCalculator.java:49-71 | every destination the ant search lists is reachable by a chain of slides |
| MoveCalc.AntMovesComplete | HexGame/src/Game/MoveCalculator.java:49-71 | every cell other than the start that a chain of slides reaches is listed |
| MoveCalc.SpiderMoves | HexGame/src/Game/MoveCalculator.java:73-78 | no destination is the spider's own cell or an occupied cell |
| MoveCalc.BranchesMember | HexGame/src/Game/MoveCalculator.java:90-94 | a cell is found by the neighbour loop exactly when its branch through some unvisited, slidable neighbour finds it |
| MoveCalc.SpiderWalkExists | HexGame/src/Game/MoveCalculator.java:80-95 | every result at depth `d` ends a walk of `3 - d` slides that never revisits a cell and does not end at the start |
| MoveCalc.SpiderWalkFound | HexGame/src/Game/MoveCalculator.java:80-95 | the end of every such walk that is not the start is found |
| MoveCalc.SpiderMovesExact | HexGame/src/Game/MoveCalculator.java:73-95 | the spider's destinations are exactly the ends, other than its own cell, of three-slide walks that never revisit a cell |
| MoveCalc.RemoveBreaking | HexGame/src/Game/MoveCalculator.java:35 | `removeIf` keeps exactly the candidates whose move does not break the hive |
| MoveCalc.AllOrNothing | HexGame/src/Game/MoveCalculator.java:35 | since `breaksHive` ignores the destination, the filter keeps all candidates or none |
| MoveCalc.GetValidMoves | HexGame/src/Game/MoveCalculator.java:14-37 | fails (the source throws) exactly when there are candidates and `from` holds no stack. Otherwise the result is empty or the whole candidate list, and it is the whole list exactly when there are none, the piece is stacked, or the rest of the hive stays connected |
| WinCheck.ScanQueens | HexGame/src/Game/WinConditionChecker.java:19-37 | the loop's two flags are set exactly when the scanned cells hold a surrounded queen of that colour (the bottom piece of its stack, with all six neighbours occupied) |
| WinCheck.CheckWin | HexGame/src/Game/WinConditionChecker.java:15-51 | a draw exactly when both queens are surrounded. Black wins exactly when only the white queen is, white wins exactly when only the black queen is, and there is no result exactly when neither is |
| WinCheck.SearchOrderIrrelevant | HexGame/src/Game/WinConditionChecker.java:19 | the unspecified order of the cell scan does not matter: every cell is visited |
| WinCheck.SearchWinCondition | HexGame/src/AI/MCTSEngine.java:281-320 | the tree search's copy reports no result exactly when no queen is surrounded, and on a board without empty stacks it agrees with `checkWin` |
| AIMoves.NewMove | HexGame/src/AI/AIMove.java:17-23 | a new move keeps its piece, origin, destination and kind, and its score starts at zero |
| AIMoves.FindIndex | HexGame/src/AI/AIMove.java:47-60 | returns the index of the first reserve piece that matches, or -1 exactly when none matches |
| AIMoves.FindActualPiece | HexGame/src/AI/AIMove.java:35-63 | a movement reads the top piece at `from`. A placement finds nothing exactly when the colour's reserve has no piece of that kind. Otherwise it returns a reserve piece of that kind and colour, with the requested instance whenever the reserve holds it |
| AIMoves.Execute | HexGame/src/AI/AIMove.java:65-82 | a movement fails exactly when `from` is missing or unoccupied, and otherwise only moves the stack top. A placement with no matching piece changes nothing. Otherwise the found piece is placed and removed from the mover's reserve, and its colour's queen flag is set when it is the queen. The opponent's reserve and flag, the side to move and the turn count stay as they were |
| AIMoves.ExecuteConservesPieces | HexGame/src/AI/AIMove.java:65-82 | a move by the side to move keeps the number of pieces on the board plus in both reserves |
| AIMoves.PlaceForOpponentKeepsReserve | HexGame/src/AI/AIMove.java:74-75 | placing a piece of the colour not to move leaves it in its owner's reserve, so the count of pieces in play grows by one |
| AIMoves.ExecuteKeepsStacks | HexGame/src/AI/AIMove.java:65-82 | executing keeps every board stack non-empty |
| HiveAI.Candidates | HexGame/src/AI/HiveAI.java:103-104 | the candidate list holds exactly the cells next to some occupied cell |
| HiveAI.PlacementScan | HexGame/src/AI/HiveAI.java:102-113 | the `checked` loop keeps exactly the candidates that were not checked before and that `canPlaceAt` accepts, each once |
| HiveAI.ValidPlacementCoords | HexGame/src/AI/HiveAI.java:92-116 | the placement cells are exactly the cells `canPlaceAt` accepts, each listed once; on an empty board that is the origin alone |
| HiveAI.PlacementMoves | HexGame/src/AI/HiveAI.java:56-68 | the reserve loop yields exactly the placements of a reserve piece that may be played now (only the queen once the queen rule applies) onto a cell `canPlaceAt` accepts |
| HiveAI.MovementMoves | HexGame/src/AI/HiveAI.java:71-84 | the board loop yields exactly the moves of a top piece of the colour to one of its valid destinations |
| HiveAI.GeneratedExactlyLegal | HexGame/src/AI/HiveAI.java:51-87 | a move is generated exactly when it is legal, where legality is stated without the loops: a placement of a playable reserve piece on an accepted cell, or, once the colour's queen is down, a move of the colour's top piece to a valid destination |
| HiveAI.GeneratedPlacement | HexGame/src/AI/HiveAI.java:56-68 | a placement is generated exactly when it places a playable reserve piece on an accepted cell |
| HiveAI.GeneratedMovement | HexGame/src/AI/HiveAI.java:71-84 | a board move is generated exactly when the colour's queen is down and it moves one of the colour's top pieces to a valid destination |
| HiveAI.MovedExactly | HexGame/src/AI/HiveAI.java:73-83 | over every cell of the board, the movement loop yields exactly the moves of the colour's top pieces to their valid destinations |
| HiveAI.EncodeGameState | HexGame/src/AI/HiveAI.java:121-151 | the encoding has 1220 entries. Entry `10k + j` is 1 exactly when cell `k` of the 11 x 11 window has a top piece in slot `j` (own colour 0-4, other colour 5-9, by type). Entries 1210-1214 are the turn, the queen flags, the reserve size and the board size, scaled as in the source, and the rest are zero |
| HiveAI.OneHotPerCell | HexGame/src/AI/HiveAI.java:129-141 | a top piece inside the window sets exactly one of its cell's ten entries |
| HiveAI.EarlyGameMove | HexGame/src/AI/HiveAI.java:174-195 | the heuristic finds a move exactly when there is one. On turn 0 it plays the first generated move to the origin, if there is one. Otherwise, when the queen is due, it plays the first queen move, if there is one. Otherwise it plays the move at the random index |
| HiveAI.FirstMove | HexGame/src/AI/HiveAI.java:177-190 | the search loops return a wanted move with no wanted move before it in the list, and nothing exactly when no move is wanted |
| HiveAI.SampleIndex | HexGame/src/AI/HiveAI.java:214-223 | the cumulative loop returns the first index whose running total reaches the target, and index 0 when none does |
| HiveAI.SampleIsInverseCdf | HexGame/src/AI/HiveAI.java:200-224 | with positive weights and a draw in [0, 1), the chosen move is the one whose share of the running total contains the scaled draw |
| HiveAI.SelectMoveFromPolicy | HexGame/src/AI/HiveAI.java:200-224 | there is a sampled move exactly when there is a move. It is the first move whose running total of softmax weights reaches the draw scaled to the total, and move 0 when none does |
| HiveAI.SampleFirst | HexGame/src/AI/HiveAI.java:214-223 | the move at the sampled index is the first move whose running total reaches the target, or move 0 when none does |
| HiveAI.BlendedMove | HexGame/src/AI/HiveAI.java:156-169 | takes the tree search's move when the coin is below 0.7 and the search found one; otherwise it samples the policy, which yields a move exactly when there is one |
| HiveAI.GetBestMove | HexGame/src/AI/HiveAI.java:25-46 | no move when there is no legal move. Before turn 4 there is a move exactly when a legal one exists, and it is legal. From turn 4 to 11 the move is the blend of the 100-iteration search for the player to move and the policy sample: the search's move when the coin is below 0.7 and the search found one, otherwise a legal move. From turn 12 the move is the 200-iteration search's |
| Network.Initial | HexGame/src/AI/NeuralNetwork.java:32-53 | the new network has the 1220-512-256-128-64 shapes. Every bias is 0, and weight (l, i, j) is its Gaussian draw scaled by sqrt(2 / fan-in) |
| Network.Build | HexGame/src/AI/NeuralNetwork.java:33-42 | the network built from element descriptions has the architecture's shapes and carries exactly the described weights and biases |
| Network.Relu | HexGame/src/AI/NeuralNetwork.java:139-141 | the result is the input when the input is positive and 0 otherwise, so never negative |
| Network.ReluDerivative | HexGame/src/AI/NeuralNetwork.java:143-145 | 1 exactly when the input is positive, 0 otherwise |
| Network.Sigmoid | HexGame/src/AI/NeuralNetwork.java:147-149 | for any positive exponential the result lies strictly between 0 and 1 |
| Network.LayerOut | HexGame/src/AI/NeuralNetwork.java:62-76 | a layer has one output per neuron; hidden outputs are never negative, and the last layer's lie strictly between 0 and 1 |
| Network.Forward | HexGame/src/AI/NeuralNetwork.java:58-82 | fails (the source indexes out of bounds) exactly when the input is longer than 1220. Otherwise it gives 64 outputs, each strictly between 0 and 1 |
| Network.Activations | HexGame/src/AI/NeuralNetwork.java:89-104 | the training forward pass records five activations, the input first, each as wide as its layer |
| Network.UpdateLayer | HexGame/src/AI/NeuralNetwork.java:114-119 | each weight of layer `l` moves by minus the learning rate times its delta times its input activation, and each bias by minus the learning rate times its delta. The other layers are unchanged and the shapes are kept |
| Network.Backward | HexGame/src/AI/NeuralNetwork.java:109-133 | the backward pass keeps the network's shapes |
| Network.Train | HexGame/src/AI/NeuralNetwork.java:87-134 | succeeds exactly when the input has 1220 entries and the gradient 64 (any other length throws), and keeps the shapes |
| Network.TrainZeroGradient | HexGame/src/AI/NeuralNetwork.java:107-133 | a zero output gradient leaves every weight and bias unchanged |
| Network.Clone | HexGame/src/AI/NeuralNetwork.java:192-204 | a deep copy is equal to the original |
| Network.Crossover | HexGame/src/AI/NeuralNetwork.java:232-251 | the child keeps the shapes; each weight and bias comes from this network when its coin is heads and from the other otherwise |
| Network.CrossoverInherits | HexGame/src/AI/NeuralNetwork.java:236-248 | every element of a child is the same-position element of one of its parents |
| Network.CrossoverSelf | HexGame/src/AI/NeuralNetwork.java:232-251 | crossing a network with itself gives it back, whatever the coins |
| Network.Mutate | HexGame/src/AI/NeuralNetwork.java:209-227 | keeps the shapes. Each element moves by its Gaussian draw times the strength when its uniform draw is below the rate, and stays otherwise |
| Network.MutateRateZero | HexGame/src/AI/NeuralNetwork.java:215-222 | with non-negative uniform draws, a rate of 0 or below changes nothing |
| Network.MutateStrengthZero | HexGame/src/AI/NeuralNetwork.java:216-223 | a strength of 0 changes nothing, whatever the draws |
| Agents.NewAgent | HexGame/src/AI/Training/AIAgent.java:17-24 | a new agent keeps its networks and id, and all its counters start at zero |
| Agents.Clone | HexGame/src/AI/Training/AIAgent.java:26-31 | the clone has the same networks and id with fresh counters, and keeps the shapes |
| Agents.Mutate | HexGame/src/AI/Training/AIAgent.java:33-36 | both networks are mutated with the same rate and strength, and the id and counters are kept |
| Agents.MutateStrengthZero | HexGame/src/AI/Training/AIAgent.java:33-36 | an agent mutated with strength 0 is unchanged |
| Ranking.ArgMax | HexGame/src/AI/MCTSEngine.java:78-98 | the strict `>` loop picks the first index holding the largest value |
| Mcts.SelectChild | HexGame/src/AI/MCTSEngine.java:75-99 | no child exactly when the node is a leaf. Otherwise the chosen child has the highest score, and every earlier child scores strictly less |
| Mcts.BestMove | HexGame/src/AI/MCTSEngine.java:260-272 | no move for a root without children. Otherwise the move of a child with the most visits, every earlier child having strictly fewer |
| Mcts.Expand | HexGame/src/AI/MCTSEngine.java:104-131 | one fresh child per move, in order, at most 50. Each prior is the network's output at that index when there is one, and one over the number of kept moves otherwise |
| Mcts.UniformPriorsSumToOne | HexGame/src/AI/MCTSEngine.java:124-125 | without network priors the children's priors add up to 1 |
| Mcts.Evaluate | HexGame/src/AI/MCTSEngine.java:136-156 | a position that is not finished gets the value network's output, and the result lies in [0, 1] whenever that output does |
| Mcts.EvaluateFinished | HexGame/src/AI/MCTSEngine.java:138-145 | a finished position scores 0.5 exactly when both queens are surrounded. It scores 1 exactly when only the opponent's queen is, and 0 exactly when only the own queen is |
| Mcts.Clamp | HexGame/src/AI/MCTSEngine.java:203 | the result lies in [0, 1], is the score itself when the score does, and is the nearer bound otherwise |
| Mcts.ScoreOfOutcome | HexGame/src/AI/MCTSEngine.java:138-145 | the finished-game score is 0.5 exactly when both queens are surrounded, 1 exactly when only the opponent's is, and 0 exactly when only the own queen is |
| Mcts.Apply | HexGame/src/AI/MCTSEngine.java:46 | executing a tree move gives the executed position and keeps every stack non-empty. Where `execute` fails, a case tree moves do not reach, the position is kept rather than an exception raised |
| Mcts.Visit | HexGame/src/AI/MCTSEngine.java:38-65 | one iteration adds one visit and the backed-up value, which lies in [0, 1], to the node, and keeps the tree well counted. Descending keeps the node's list of moves |
| Mcts.Settle | HexGame/src/AI/MCTSEngine.java:50-65 | the end of a descent adds one visit and the backed-up value. It keeps the tree well counted and expands exactly when the position is not finished and the node was visited before |
| Mcts.ExpandAndBackup | HexGame/src/AI/MCTSEngine.java:51-65 | expanding appends the generated moves' children and backs up a value in [0, 1] |
| Mcts.Backup | HexGame/src/AI/MCTSEngine.java:248-255 | backpropagation adds one visit and a value in [0, 1] to the node, keeps its moves and keeps it well counted |
| Mcts.CreditFirst | HexGame/src/AI/MCTSEngine.java:248-255 | going up one level flips the value: the node receives one minus the value its child received |
| Mcts.CreditChild | HexGame/src/AI/MCTSEngine.java:248-255 | a child that gained one visit, and a value in [0, 1] for the parent, keep a well-counted parent well counted |
| Mcts.Grow | HexGame/src/AI/MCTSEngine.java:31-66 | after `k` iterations the root has exactly `k` visits and the tree is well counted: every node's children share at most its visits, and its accumulated value lies between 0 and its visit count |
| Mcts.RootShare | HexGame/src/AI/MCTSEngine.java:31-66 | after `k` iterations the root's children share at most `k` visits and the root's value lies in [0, k] |
| Mcts.IterationCap | HexGame/src/AI/MCTSEngine.java:27 | at most 100 iterations and at most the requested number, and exactly the requested number when it lies in 0..100 |
| Mcts.Root | HexGame/src/AI/MCTSEngine.java:342-359 | a fresh node has no visits and no children, and is well counted |
| Mcts.Search | HexGame/src/AI/MCTSEngine.java:23-70 | runs up to the cap and stops early only at a tenth iteration whose clock reading timed out. The answer is the best move of the tree after the iterations run, and a budget of at most one iteration never yields a move |
| Mcts.OneIterationFindsNothing | HexGame/src/AI/MCTSEngine.java:51-69 | the first iteration only evaluates the unvisited root, so one iteration or none never yields a move |
| Mcts.SingleMoveFound | HexGame/src/AI/MCTSEngine.java:23-70 | with exactly one legal move in an unfinished position, two or more iterations return that move |
| Mcts.SecondIterationExpands | HexGame/src/AI/MCTSEngine.java:50-59 | the second iteration expands the root into the legal moves |
| Mcts.LaterIterationsKeepRootMoves | HexGame/src/AI/MCTSEngine.java:43-48 | once the root has children in an unfinished position, later iterations descend and never change the root's moves |
| Mcts.RootMovesKept | HexGame/src/AI/MCTSEngine.java:43-59 | a root with the single move found by the second iteration keeps exactly that move for every later iteration |
| Agents.CloneForgetsScore | HexGame/src/AI/Training/AIAgent.java:26-31 | a clone depends only on the networks and id it copies: agents that differ only in their counters have equal clones, and cloning twice gives the same agent as cloning once |
| GameResults.TournamentReading | HexGame/src/AI/Training/EvolutionaryTrainer.java:185-189 | the message ends the game exactly when it contains "Draw", "White wins" or "Black wins", and a message that ends the game never reads as `ONGOING` |
| GameResults.SelfPlayReading | HexGame/src/AI/Training/SelfPlayTrainer.java:101-109 | the result is never `ONGOING`, and it is a black win exactly when the message contains neither "Draw" nor "White wins" |
| GameResults.ContainsPart | HexGame/src/AI/Training/SelfPlayTrainer.java:103-105 | a message that contains a word also contains every piece of that word |
| GameResults.NoDrawWithWinner | HexGame/src/AI/Training/EvolutionaryTrainer.java:345-351 | neither of the two win messages contains "Draw" |
| GameResults.BlackWinIsNotWhiteWin | HexGame/src/AI/Training/EvolutionaryTrainer.java:347-348 | the black-win message does not contain "White wins" |
| GameResults.ReadingsInvertMessage | HexGame/src/AI/Training/EvolutionaryTrainer.java:183-189 | both trainers read each of the three win messages back as the outcome that produced it |
| Experiences.ExtendHistory | HexGame/src/AI/Training/SelfPlayTrainer.java:89-113 | one more ply of an unfinished game keeps the list a history of the game. It has at most 100 unrewarded experiences, all but the last are `ONGOING`, and the last records the board's outcome |
| SelfPlay.Encode | HexGame/src/AI/Training/SelfPlayTrainer.java:90-92 | the encodings before and after the move are the position encoding from the mover's side: 1220 features, the board window's one-hot top pieces, then the game-phase scalars |
| SelfPlay.Ply | HexGame/src/AI/Training/SelfPlayTrainer.java:86-113 | a ply fails exactly when `execute` throws. Otherwise it yields the executed position and an experience with both encodings full, no reward, the move made, and the result the new board announces |
| SelfPlay.PlaySelfPlayGame | HexGame/src/AI/Training/SelfPlayTrainer.java:77-119 | a completed game leaves a history of at most 100 unrewarded experiences. All but the last are `ONGOING`, and the last records what the final board announces |
| SelfPlay.PlayFrom | HexGame/src/AI/Training/SelfPlayTrainer.java:82-116 | from any turn, continuing a history of the game keeps it a history of the game, up to the move limit |
| SelfPlay.AssignRewards | HexGame/src/AI/Training/SelfPlayTrainer.java:124-149 | the backward loop with its running discount gives ply `i` of `n` the closed-form reward: a half in a draw, 0.99 to the power n-1-i for the winner's plies, and the complement for the others. Nothing else in the experience changes |
| SelfPlay.PowBounds | HexGame/src/AI/Training/SelfPlayTrainer.java:147 | every power of the discount lies in (0, 1] |
| SelfPlay.RewardFacts | HexGame/src/AI/Training/SelfPlayTrainer.java:124-149 | every reward lies in [0, 1]. In a decided game the last ply gets 1 when the winner made it and 0 otherwise |
| SelfPlay.PowAntitone | HexGame/src/AI/Training/SelfPlayTrainer.java:147 | the running discount only shrinks: a higher power of 0.99 is never larger |
| SelfPlay.RewardsTrend | HexGame/src/AI/Training/SelfPlayTrainer.java:133-148 | in a decided game the winner's rewards never decrease towards the last ply, and the other side's never increase |
| SelfPlay.OngoingRewardedAsLoss | HexGame/src/AI/Training/SelfPlayTrainer.java:126-144 | a game cut off at the move limit rewards every ply as a loser's ply, and the last one gets 0 |
| SelfPlay.AddToBuffer | HexGame/src/AI/Training/SelfPlayTrainer.java:42-46 | the buffer holds the newest `min(old + new, 10000)` experiences of the old buffer followed by the game |
| SelfPlay.AddKeepsNewest | HexGame/src/AI/Training/SelfPlayTrainer.java:42-46 | a game no longer than the buffer ends up whole at the end of the buffer |
| SelfPlayTraining.MoveIndex | HexGame/src/AI/Training/SelfPlayTrainer.java:216-219 | the index always lies in [0, 64), even for the hash code whose absolute value stays negative. It is the hash code, or its negation, modulo 64 |
| SelfPlayTraining.MaxOrZero | HexGame/src/AI/Training/SelfPlayTrainer.java:165-168 | the result is at least 0 and at least every output. It is 0 or one of the outputs |
| SelfPlayTraining.TargetVector | HexGame/src/AI/Training/SelfPlayTrainer.java:173-177 | the current outputs with only the taken action's entry replaced by the TD target, and only when the index lies inside the outputs |
| SelfPlayTraining.Difference | HexGame/src/AI/Training/SelfPlayTrainer.java:180-183 | each gradient entry is the output minus the target |
| SelfPlayTraining.PolicyGradientAtAction | HexGame/src/AI/Training/SelfPlayTrainer.java:170-183 | the policy gradient is zero everywhere except at the taken action, where it is the output minus the TD target |
| SelfPlayTraining.FirstOutput | HexGame/src/AI/Training/SelfPlayTrainer.java:189-191 | a 64-wide vector with the value at output 0 and zeros elsewhere |
| SelfPlayTraining.PolicyStep | HexGame/src/AI/Training/SelfPlayTrainer.java:162-186 | the policy step succeeds exactly when the encoding before the move is full and the one after it is no longer, and it keeps the network's shape |
| SelfPlayTraining.PolicyStepAtTarget | HexGame/src/AI/Training/SelfPlayTrainer.java:162-186 | a policy whose output for the action already equals the TD target is left unchanged |
| SelfPlayTraining.ValueStepAsWritten | HexGame/src/AI/Training/SelfPlayTrainer.java:188-192 | the value step as written, with a one-element target and gradient, throws for every network and experience |
| SelfPlayTraining.ValueStepAlwaysThrows | HexGame/src/AI/Training/SelfPlayTrainer.java:189-192 | that step throws for every network and experience, because `train` reads a gradient entry for each of the 64 outputs |
| SelfPlayTraining.ValueStep | HexGame/src/AI/Training/SelfPlayTrainer.java:189-192 | the value step with the error at output 0 and zeros elsewhere succeeds exactly when the encoding before the move is full, and it keeps the network's shape |
| SelfPlayTraining.ValueStepAtTarget | HexGame/src/AI/Training/SelfPlayTrainer.java:189-192 | a value network whose output already equals the reward is left unchanged |
| SelfPlayTraining.ValueHalf | HexGame/src/AI/Training/SelfPlayTrainer.java:188-192 | the value step a training loop runs: the as-written one never succeeds, and the corrected one succeeds exactly when the encoding before the move is full, keeping the network's shape |
| SelfPlayTraining.TrainStep | HexGame/src/AI/Training/SelfPlayTrainer.java:157-193 | one sample is the policy step, then the value step. As written (`AsWritten`) the value step throws, so no sample ever completes. With the corrected value step, a sample trains both networks exactly when its encodings fit the network |
| SelfPlayTraining.TrainSamples | HexGame/src/AI/Training/SelfPlayTrainer.java:157-193 | the loop over the samples stops at the first sample that throws. As written it completes only on an empty batch. With the corrected step it completes exactly when every sample is trainable, and both networks keep their shape |
| SelfPlayTraining.AllTrainableEvery | HexGame/src/AI/Training/SelfPlayTrainer.java:157-193 | the recursive test is the same as "every sample is trainable" |
| SelfPlayTraining.Sample | HexGame/src/AI/Training/SelfPlayTrainer.java:159 | the k-th sample is the buffer entry at the k-th pick |
| SelfPlayTraining.TrainOnBatch | HexGame/src/AI/Training/SelfPlayTrainer.java:154-194 | as written, a batch of 64 samples always throws. With the corrected value step it trains both networks exactly when every sampled experience is trainable |
| SelfPlayTraining.Learn | HexGame/src/AI/Training/SelfPlayTrainer.java:49-51 | as written, training on the buffer always throws. With the corrected value step it succeeds exactly when every sampled experience is trainable, and the networks keep their shape |
| SelfPlayTraining.Store | HexGame/src/AI/Training/SelfPlayTrainer.java:39-46 | the buffer grows by the game's length, up to 10000 |
| SelfPlayTraining.AfterGame | HexGame/src/AI/Training/SelfPlayTrainer.java:34-67 | one game adds one to the three counters together and keeps the buffer within 10000. It leaves the networks alone while fewer than 64 experiences are buffered, and throws on an empty game. As written, the game that brings the buffer to 64 experiences throws, so every run that continues has fewer than 64 buffered |
| Evolution.InitialPopulation | HexGame/src/AI/Training/EvolutionaryTrainer.java:28-42 | agents 0 to size-1, unscored and well shaped. Initialisation always seeds with 42, so every agent carries one and the same network as both policy and value |
| Evolution.UpdateFitness | HexGame/src/AI/Training/EvolutionaryTrainer.java:200-214 | exactly one counter moves: draws exactly on a draw, wins exactly on a won game. The networks are kept, and fitness stays the wins plus half the draws |
| Evolution.TallyUpdate | HexGame/src/AI/Training/EvolutionaryTrainer.java:99-150 | replacing one agent changes a population total by the change in that agent's counter |
| Evolution.TallyPositive | HexGame/src/AI/Training/EvolutionaryTrainer.java:141-146 | a positive population total has an agent with a positive counter |
| Evolution.ScoreGame | HexGame/src/AI/Training/EvolutionaryTrainer.java:129-133 | every agent's win, loss and draw counters grow by exactly what `GameCount` credits it for this game: the white agent is credited as white, its opponent as black, and the same agent twice when it meets itself. Between two different agents, a white win adds a win to the agent and a loss to the opponent, a black win the reverse, and a draw a draw to both. Nobody else changes and no network changes; the population gains two games played |
| Evolution.GameCredits | HexGame/src/AI/Training/EvolutionaryTrainer.java:129-133 | the two successive updates of one game add, agent by agent, the credits `GameCount` counts, with the three result cases spelled out for two different agents |
| Evolution.Reset | HexGame/src/AI/Training/EvolutionaryTrainer.java:98-104 | every agent keeps its networks and loses its score |
| Evolution.Opponent | HexGame/src/AI/Training/EvolutionaryTrainer.java:121-126 | the opponent is a member of the population, never the agent itself unless it is alone. It is the drawn agent unless the draw hit the agent itself |
| Evolution.Tournament | HexGame/src/AI/Training/EvolutionaryTrainer.java:106-138 | after the round robin, each agent's wins, losses and draws are exactly `TournamentCount`: the games it won, lost and drew over all rounds, as white in its own round and as the drawn opponent in the others. In total twice the agents times the games were played, the wins equal the losses, and every fitness is the agent's points |
| Evolution.Round | HexGame/src/AI/Training/EvolutionaryTrainer.java:116-137 | one agent's games add to each agent's wins, losses and draws exactly `RoundCount`: the games it won, lost and drew in this round, as white or as the drawn opponent (the next agent when the draw is the agent itself). Each game adds two games played and keeps the wins equal to the losses |
| Evolution.ZeroTallies | HexGame/src/AI/Training/EvolutionaryTrainer.java:98-104 | an unscored population has no games, wins or losses |
| Evolution.MaxFitness | HexGame/src/AI/Training/EvolutionaryTrainer.java:141-144 | the largest fitness of the population, held by some agent |
| Evolution.Normalize | HexGame/src/AI/Training/EvolutionaryTrainer.java:140-150 | only fitness changes, so every win, loss and draw counter is kept. With a positive maximum every fitness is divided into [0, 1], the best gets 1 and the order is kept. Otherwise nothing changes |
| Evolution.ScaleBounds | HexGame/src/AI/Training/EvolutionaryTrainer.java:146-150 | dividing by the positive maximum puts every fitness in [0, 1], and some fitness becomes 1 |
| Evolution.ScaleKeepsOrder | HexGame/src/AI/Training/EvolutionaryTrainer.java:146-150 | dividing by a positive number keeps the order of fitness in both directions |
| Evolution.EvaluateFitness | HexGame/src/AI/Training/EvolutionaryTrainer.java:94-151 | the networks are kept, each agent's counters are exactly the games it won, lost and drew in this tournament (`TournamentCount`, after the reset), every fitness lies in [0, 1], and the fitness order is the order of points. Once a game is played, the best agent has fitness 1 |
| Evolution.NormalizedPoints | HexGame/src/AI/Training/EvolutionaryTrainer.java:140-150 | after normalisation, fitness compares as the points do |
| Evolution.SomeoneScored | HexGame/src/AI/Training/EvolutionaryTrainer.java:129-146 | after at least one game some agent has a positive fitness, so the division always happens |
| Evolution.TalliesIgnoreFitness | HexGame/src/AI/Training/EvolutionaryTrainer.java:146-150 | rescaling fitness leaves every counter total alone |
| Evolution.Insert | HexGame/src/AI/Training/EvolutionaryTrainer.java:57 | inserting into a list sorted by descending fitness keeps it sorted and adds exactly that agent. Among agents of its fitness the new agent comes first, and the others keep their order |
| Evolution.SortByFitness | HexGame/src/AI/Training/EvolutionaryTrainer.java:57 | the result is sorted by descending fitness and is a permutation of the population. The sort is stable: the agents of each fitness keep their order |
| Evolution.SelectParent | HexGame/src/AI/Training/EvolutionaryTrainer.java:219-235 | the parent is one of the five drawn agents, with a fitness no lower than any of them, and every earlier draw is strictly less fit |
| Evolution.Crossover | HexGame/src/AI/Training/EvolutionaryTrainer.java:240-249 | the child mixes each network of its parents, and has id -1 and no score |
| Evolution.Breed | HexGame/src/AI/Training/EvolutionaryTrainer.java:72-76 | a child is well shaped, has id -1 and no score, and is the mutation, at rate 0.1 and strength 0.05, of the parents' crossover |
| Evolution.BreedUniform | HexGame/src/AI/Training/EvolutionaryTrainer.java:71-77 | in a population where every agent carries the same networks, as the initial one does, a child is just a mutation of those networks |
| Evolution.UniformParents | HexGame/src/AI/Training/EvolutionaryTrainer.java:219-235 | in such a population both parents carry those networks |
| Evolution.Elites | HexGame/src/AI/Training/EvolutionaryTrainer.java:66-68 | clones of the first five agents, or of all of them when there are fewer, with fresh scores |
| Evolution.Children | HexGame/src/AI/Training/EvolutionaryTrainer.java:71-77 | one bred child per set of draws, each with id -1 and no score |
| Evolution.NextGeneration | HexGame/src/AI/Training/EvolutionaryTrainer.java:63-79 | the population keeps its size. It is made of the elite clones followed by bred children, all unscored and well shaped |
| Evolution.Generation | HexGame/src/AI/Training/EvolutionaryTrainer.java:50-79 | the evaluated population keeps the networks of the input, agent by agent, and carries the tournament's counts. The ranking is a permutation of it (equal multisets), sorted by descending fitness in [0, 1], stable among equal fitness. The next generation is exactly the elites of the ranking followed by the children bred from it, keeps the size, and starts with clones of the fittest |
| Evolution.Play | HexGame/src/AI/Training/EvolutionaryTrainer.java:160-194 | the game ends with a surrounded queen exactly when the final board announces one, and then with the announced result. It is a draw otherwise, and a timeout comes after exactly 100 plies |
| Evolution.PlayGame | HexGame/src/AI/Training/EvolutionaryTrainer.java:156-195 | a white win exactly when only the black queen ends surrounded. A black win exactly when only the white queen does. A draw exactly when both are, or when the game ended by no move, an exception or the move limit |
| Evolution.CheckWinAnnounced | HexGame/src/AI/Training/EvolutionaryTrainer.java:320-354 | the announced result says which queens are surrounded, in both directions |
| Evolution.Evolve | HexGame/src/AI/Training/EvolutionaryTrainer.java:47-89 | an empty population throws, because the statistics and the final save read its first agent. Otherwise the population keeps its size and every agent keeps well-shaped networks. After at least one generation, every agent is unscored |
| Records.PieceToken | HexGame/src/Game/Piece.java:48-51 | the colour letter, the type symbol and the decimal instance number. The token has no comma and no blank |
| Records.ColorOfPrefix | HexGame/src/DataCollection/ReplayGames.java:103-108 | only 'W' and 'B' name a colour, and each names the colour whose prefix it is |
| Records.KindOfSymbol | HexGame/src/DataCollection/ReplayGames.java:110-118 | only the five symbols S, G, Q, A and B name a type, and each names the type with that symbol |
| Records.ParsePiece | HexGame/src/DataCollection/ReplayGames.java:97-122 | a trimmed token shorter than three characters is rejected. An accepted one is a new piece whose colour and type letters match the first two characters in upper case, and whose instance is the rest read as an `int` |
| Records.ParsePieceRoundTrip | HexGame/src/DataCollection/ReplayGames.java:97-122 | reading back a piece's `toString` gives a new piece with the same type, colour and instance |
| Records.RecordLine | HexGame/src/Game/SaveGame.java:7 | a move line never contains a line break |
| Records.SaveRecord | HexGame/src/Game/SaveGame.java:6-13 | one line: the move line followed by exactly one newline |
| Records.DataCollectionRecord | HexGame/src/DataCollection/SaveGame.java:9-16 | the line written with the instance number appended a second time, ending in a newline |
| Records.AppendMove | HexGame/src/Game/SaveGame.java:8-9 | the log in append mode: the old log is kept as a prefix, and the new line follows it |
| Records.ParseRecord | HexGame/src/DataCollection/ReplayGames.java:50-59 | fewer than three fields are rejected. An accepted line has a piece token in field 0 and `int` coordinates in fields 1 and 2 |
| Records.RecordRoundTrip | HexGame/src/DataCollection/ReplayGames.java:48-59 | a line written by `Game.SaveGame` reads back as the same piece identity and the same cell |
| Records.DataCollectionRecordMisread | HexGame/src/DataCollection/SaveGame.java:10 | a line written by `DataCollection.SaveGame` for a piece with instance `i` from 1 to 9 reads back as instance `11 * i` on the right cell |
| Records.MisreadFields | HexGame/src/DataCollection/SaveGame.java:10 | the doubled line splits into the doubled token and the two coordinates, and each field reads as stated |
| Records.DoubledTokenToken | HexGame/src/DataCollection/SaveGame.java:10 | the doubled token is the colour letter, the type symbol and the digit twice |
| Records.DoubledTokenMisread | HexGame/src/DataCollection/ReplayGames.java:120 | the doubled token parses as instance eleven times the digit |
| Records.DoubledDigitValue | HexGame/src/DataCollection/ReplayGames.java:120 | two equal digits `k` read as `11 * k` |
| Records.RemoveMatching | HexGame/src/DataCollection/ReplayGames.java:70-77 | exactly the pieces with a different type, colour or instance remain |
| Records.ReplayPlace | HexGame/src/Game/GameBoard.java:194-207 | the piece goes on top of the cell and its colour's queen flag is set when it is a queen. The turn passes, and only the piece's own reserve loses the pieces of that identity |
| Records.ProcessMove | HexGame/src/DataCollection/ReplayGames.java:48-85 | the move fails exactly when the line does not parse. Otherwise the parsed piece is placed on the parsed cell and the turn count goes up by one |
| Records.ReplaySavedMove | HexGame/src/DataCollection/ReplayGames.java:48-85 | replaying a saved move puts a new piece of the saved identity on top of the saved cell, adds one piece to the board, and leaves no piece of that identity in its colour's reserve |
| Decimal.DigitChar | HexGame/src/Game/Piece.java:50 | the character of a digit is a decimal digit |
| Decimal.NatToString | HexGame/src/Game/Piece.java:50 | at least one decimal digit, with no leading zero |
| Decimal.IntToString | HexGame/src/Game/SaveGame.java:7 | the text starts with a minus exactly for negative numbers, and the rest is decimal digits |
| Decimal.DigitsRoundTrip | HexGame/src/DataCollection/ReplayGames.java:120 | the digits of a natural number read back as the number |
| Decimal.ParseInt | HexGame/src/DataCollection/ReplayGames.java:57-58 | a text is accepted exactly when it is an optional sign and at least one decimal digit whose signed value fits in an `int`, and that value is the result |
| Decimal.ParseIntRoundTrip | HexGame/src/DataCollection/ReplayGames.java:57-58 | the text of every `int` reads back as that `int` |
| Decimal.Trim | HexGame/src/DataCollection/ReplayGames.java:98 | the result is a slice of the text with only characters up to U+0020 around it, and it has no such character at either end. A text without blanks is kept as it is |
| Decimal.TrimAround | HexGame/src/DataCollection/ReplayGames.java:98 | blanks removed from the front and then from the back surround what is left |
| Decimal.TrimStart | HexGame/src/DataCollection/ReplayGames.java:98 | a suffix of the text starting with a non-blank, and everything dropped before it is a blank |
| Decimal.TrimEnd | HexGame/src/DataCollection/ReplayGames.java:98 | a prefix of the text ending with a non-blank, and everything dropped after it is a blank |
| Decimal.UpperCase | HexGame/src/DataCollection/ReplayGames.java:103 | capitals stay as they are, and each small letter a to z becomes the capital 32 below it. A character that becomes a different capital is a small letter or the long s becoming S |
| Decimal.SplitAll | HexGame/src/DataCollection/ReplayGames.java:50 | at least one field, no field contains a comma, and joining the fields with commas gives the text back |
| Decimal.CommaIndex | HexGame/src/DataCollection/ReplayGames.java:50 | the position of the first comma |
| Decimal.DropTrailingEmpty | HexGame/src/DataCollection/ReplayGames.java:50 | a prefix of the fields that does not end with an empty field, and only empty fields are dropped |
| Decimal.DropTrailingJoin | HexGame/src/DataCollection/ReplayGames.java:50 | dropping trailing empty fields removes only commas from the end of the joined text |
| Decimal.JoinSnoc | HexGame/src/DataCollection/ReplayGames.java:50 | joining fields with one more field at the end adds a comma and that field |
| Decimal.Split | HexGame/src/DataCollection/ReplayGames.java:50 | no field contains a comma, and a text without a comma is its own single field. With a comma, the last field is not empty. The fields joined with commas are a prefix of the text, and only commas follow that prefix |
| Decimal.SplitJoin3 | HexGame/src/DataCollection/ReplayGames.java:50-58 | joining three comma-free fields with commas, the last one non-empty, splits back into the same three fields |
| Decimal.CommaUnique | HexGame/src/DataCollection/ReplayGames.java:50 | the first comma is the only comma with no comma before it |

## Left out

- The Swing user interface (`GameBoard` event handling, `GameRenderer`, `HiveGame`, `HexMouseListener`, the menus): presentation only.
- `HexCoord.toPixel`, `fromPixel` and `hexRound`: floating-point pixel geometry for drawing.
- All file input and output: `saveToFile`/`loadFromFile`, `saveCheckpoint`, `exportStats`, `exportTrainingData`, `saveBestAgent`, and the file rename in `WinConditionChecker.checkWin`. The save writers are modelled as the text they append (`Records.AppendMove`).
- `ReplayGames.replay`: a thread that reads the file line by line with delays. `processMove` is modelled for one line.
- Network weights loaded from a file, and the fallback to fresh weights: no file system here.
- `LLMIntegration`, `TrainingCoordinator`, `DebugTrainer`, `DetailedGameDebug`, `SimpleTest`, `QuickAITest` and the `Main` programs: console driver programs outside the core.
- Floating-point network arithmetic. `exp` is a parameter, the Gaussian and uniform draws are streams, and only the results' shapes, element provenance and zero-gradient fixed points are proved.
- `MCTSEngine.heuristicEval`, `countMobility` and `evaluatePosition` beyond the final clamp: they are used only when there is no value network, which `HiveAI` always supplies. The clamp itself is `Mcts.Clamp`.
- The UCT score of `selectChild`: a real-valued parameter, which the argmax consumes.
- The softmax with temperature 0.5 in `selectMoveFromPolicy`: the weights are a parameter. The roulette over them is modelled.
- The timeout of the MCTS search: an oracle asked every tenth iteration (`Mcts.ClockChecked`).
- `printGenerationStats`, `calculateDiversity`, `getBestAgent` and the console output of `train`: reporting only.
- Object identity of `Piece`: pieces are values. The source calls `setPosition` on a piece object that may still be listed in a reserve; the model changes only the copy on the board.
- The MCTS engine kept inside a `HiveAI`: it is built around the networks present at construction. After `crossover` or `clone` replaces an agent's networks, the source's engine still holds the old ones. The model passes network outputs to MCTS as an oracle and does not track which networks the engine holds.
- Evolution.Tournament: the game results are parameters instead of `playGame` between the two agents' full AIs. `Evolution.PlayGame` models a single game on its own.
- SelfPlayTraining.Store: states only the buffer's length; the contents are the contracts of `SelfPlay.AssignRewards` and `SelfPlay.AddToBuffer`.
- SelfPlayTraining.Learn: states when training succeeds and that shapes are kept, not the trained weights. With `AsWritten` it never succeeds, since the value step throws (see Findings).
- The order of the legal-move list. It follows the lexicographic walk of the cells, not the JVM's hash order. The moves offered are the same, but every choice made by position in the list can differ from the source's. These choices are: the 50-child cut of an MCTS expansion (`MCTSEngine.java:109`), the descent into child 0 (`MCTSEngine.java:54`), the prior `priors[i]` given to the i-th move (`MCTSEngine.java:125`), the early-game random index (`HiveAI.java:194`) and the policy fallback `moves.get(0)` (`HiveAI.java:223`).
- Decimal.ParseInt: accepts ASCII digits only, whereas Java's `Integer.parseInt` also accepts other Unicode decimal digits. No writer produces those.
- Decimal.UpperCase: maps ASCII letters and the long s; the other characters are kept, since no other upper-case result can be one of the letters the reader compares with.

## Findings

| source | as written | input that shows it | evidently intended | confidence | as-written member | corrected member |
|---|---|---|---|---|---|---|
| HexGame/src/DataCollection/SaveGame.java:10 | the record appends the instance number after `toString()`, which already ends with it | a white queen, instance 1, on (0, 0) is written as `WQ11,0,0` and replays as instance 11 | `toString() + "," + q + "," + r`, as `Game/SaveGame.java` writes it | not executed | Records.DataCollectionRecordMisread | Records.RecordRoundTrip |
| HexGame/src/AI/Training/SelfPlayTrainer.java:189-192 | the value network is trained with a one-element target and gradient | any experience, as soon as the buffer holds 64: `train` reads `delta[i]` for all 64 outputs (NeuralNetwork.java:113-118), throws `ArrayIndexOutOfBoundsException`, and nothing catches it | a 64-wide gradient holding the value error at output 0 and zeros elsewhere | not executed | SelfPlayTraining.ValueStepAlwaysThrows | SelfPlayTraining.ValueStepAtTarget |
