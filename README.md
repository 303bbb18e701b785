# Chess rules engine: a Dafny model

This project models the rules core of a small Ruby chess program:

- `Board` (board.rb) keeps an 8x8 grid and changes it in place. It sets up the starting position, tells whether a
  move is valid, makes moves, and decides check and checkmate.
- The piece classes (pieces.rb) compute each piece's candidate squares. `Queen`, `Bishop` and `Rook` slide
  along vectors. `Knight` and `King` step by fixed offsets. `Pawn` has separate quiet-move and capture offsets,
  and it drops its two-square advance after its first move.

There are three modules, one per file:

- `Pieces` (pieces.dfy) holds the pieces and their geometry as pure functions.
  - A piece is a value: `NonPawn(kind, color, position)` or `Pawn(color, position, moveDiff)`.
  - `PossibleMoves` follows `possible_moves`, including the order of its result.
- `Rules` (rules.dfy) holds each Board operation as a pure function over a grid value
  (`seq<seq<Option<Piece>>>`), and the lemmas about them.
- `Chessboard` (board.dfy) holds `class Board` over an `array2<Option<Piece>>`.
  - Its methods run the source's loops on the array.
  - Each method is proved to compute the matching `Rules` function of the grid's contents, `Cells()`.

Outcomes follow Ruby's control flow:

- `Ok(v)` is a normal return.
- `Raised(e)` is a `MoveError`. The error is one of `NoPieceAtPosition`, `CannotCaptureOwnPiece`,
  `CannotMoveThere`, `PieceInTheWay` or `LeavesInCheck`.
- `Crashed` is the `NoMethodError` Ruby raises when `piece_in_the_way?` reads a row past the end of the grid.

Several behaviours of the code are modelled as written:

- **Shared row or column.** `piece_in_the_way?` runs `return 0` inside `map!` whenever the two squares share a row
  or a column. Ruby treats 0 as true, so every orthogonal slide fails with "Piece in the way". A Rook therefore
  never has a valid move (`Rules.RookNeverMoves`).
- **Unaligned squares.** When the two squares are not on one line, the walk towards `to` can take one step off
  the board. The squares it collects are then read with Ruby's array indexing:
  - a row or column index from -8 to -1 wraps around;
  - a column index past the end reads as empty;
  - a row index past the end crashes.
  Because `valid_nonpawn_move?` tests obstruction before it tests `possible_moves`, `check?` can reach this
  crash from on-board squares (`Rules.OffDiagonalWalkCrashes`). `move` calls `check?` after `valid_move?`
  passes, so a valid move can end the game with this crash, since `chess.rb` rescues only MoveError
  (`Rules.ValidMoveCrashesInCheck`).
- **Check in `move`.** `move` tests `check?` on the position before the move, not after it. A side in check can
  make no move at all (`Rules.NoMoveOutOfCheck`).
- **Checkmate.** `checkmate?` decides on the first candidate move alone. It answers true when there is no
  candidate. Otherwise its answer equals `check?` (`Rules.CheckmateByFirstCandidate`).

Standard chess also has promotion, stalemate and a legality test made after the move. This code implements
none of them, and neither does the model.

## Model

| member | source | states |
|---|---|---|
| Pieces.VectorsShape | pieces.rb:41-105 | four vectors for a Bishop or a Rook and eight otherwise, never null; a Bishop's are diagonal, a Rook's orthogonal, each of a Queen's and a King's reaches a neighbouring square, a Knight's are the (1, 2) and (2, 1) jumps |
| Pieces.SlidingVectorIsQueens | pieces.rb:41-70 | every Bishop or Rook vector is also a Queen vector |
| Pieces.InitialMoveDiff | pieces.rb:111-121 | a new pawn's offsets are the one-square then the two-square advance in its colour's forward direction |
| Pieces.CaptureDiff | pieces.rb:111-121 | a pawn's two capture offsets are distinct, one row forward and one column to either side |
| Pieces.NewPawn | pieces.rb:111-121 | `Pawn.new` stands on the given square with the given colour and two quiet offsets, in a valid state |
| Pieces.OnBoardOnly | pieces.rb:13-17 | the filter never makes the list longer |
| Pieces.Ray | pieces.rb:28-38 | one vector gives seven squares |
| Pieces.Rays | pieces.rb:28-38 | the unfiltered list has seven squares per vector |
| Pieces.Steps | pieces.rb:75-82 | the unfiltered list has one square per offset |
| Pieces.RawMovesCount | pieces.rb:28-131 | before filtering: seven squares per vector for a sliding piece, eight for a Knight or a King, one per offset for a pawn |
| Pieces.Opponent | board.rb:156 | the opposing colour is never the colour given |
| Pieces.OnBoardOnlyMembers | pieces.rb:13-17 | `possible_moves_on_board` keeps exactly the squares with both coordinates in 0..7 |
| Pieces.OnBoardOnlyAppend | pieces.rb:13-17 | the filter keeps the original order: filtering a concatenation concatenates the filtered parts |
| Pieces.PossibleMoves | pieces.rb:13-17 | every square `possible_moves` returns is on the board |
| Pieces.SlidingMovesExactly | pieces.rb:28-38 | a sliding piece's moves are exactly the on-board squares `pos + k*v`, v one of its vectors, 1 <= k <= 7 |
| Pieces.SlidingExcludesOwnSquare | pieces.rb:28-38 | a sliding piece never lists its own square |
| Pieces.RookTargetsOnLine | pieces.rb:62-70 | every square a Rook's vectors reach shares its row or its column |
| Pieces.RookInCorner | pieces.rb:28-38 | a Rook on [0, 0] yields the 14 squares of column 0 and row 0, in vector order |
| Pieces.StepsMembers | pieces.rb:75-82 | a stepping piece's raw moves are exactly its position plus each offset |
| Pieces.KnightInCorner | pieces.rb:85-94 | a Knight on [0, 0] yields exactly [1, 2] then [2, 1] |
| Pieces.KingMovesAdjacent | pieces.rb:96-105 | a King yields at most 8 squares, each on the board, adjacent and distinct from its own |
| Pieces.PawnDirections | pieces.rb:107-131 | quiet squares lie one or two rows ahead on the pawn's column, capture squares one row ahead on a neighbouring column; ahead is row + 1 for Black, row - 1 for White |
| Pieces.PawnQuietAndCaptureDisjoint | pieces.rb:123-131 | no square is both a quiet move and a capture of the same pawn |
| Pieces.UnmovedPawnAdvances | pieces.rb:111-131 | a new pawn offers the one-square then the two-square advance, where on the board |
| Pieces.PawnFirstMoveDropsDouble | pieces.rb:133-138 | after its first move a pawn keeps only the one-square offset |
| Pieces.PawnMoveIdempotent | pieces.rb:133-138 | a moved pawn has one quiet offset, and later moves leave it unchanged |
| Pieces.MoveChangesOnlyPosition | pieces.rb:9-11 | `move` changes the position only, and for a pawn at most pops its offset list |
| Pieces.MovePiece | pieces.rb:133-138 | the moved piece stands on the target and keeps its colour |
| Pieces.Dup | pieces.rb:140-145 | `dup` yields an equal piece; a pawn keeps its current offsets |
| Rules.BackRank | board.rb:42-49 | the back rank has its King on column 4 and its Queen on column 3, one of each |
| Rules.InitialCell | board.rb:41-67 | rows 0, 1, 6 and 7 are occupied and the others empty; each piece records its square, the pieces on rows 0-1 are black, and pawns stand exactly on rows 1 and 6 |
| Rules.InitialGrid | board.rb:41-67 | the starting grid is 8x8 |
| Rules.AnyOccupied | board.rb:97-102 | the scan of the collected squares never raises a MoveError: it answers or crashes |
| Rules.WalkShape | board.rb:88-96 | the walk is a chain of single steps from the start, never collects `to`, and only its last square can be off the board |
| Rules.InTheWay | board.rb:82-103 | `piece_in_the_way?` never raises a MoveError |
| Rules.ValidPawnMove | board.rb:127-139 | an own-colour target raises "Can't capture own piece"; the test never crashes; a normal return is true, and any other failure raises "That piece cannot move there." |
| Rules.ValidNonpawnMove | board.rb:141-153 | an own-colour target raises "Can't capture own piece" first; for a sliding piece `piece_in_the_way?` is asked next, so its crash or "Piece in the way" wins over the membership test; otherwise the move passes or raises "That piece cannot move there."; only a sliding piece can crash, and a normal return is true |
| Rules.KingPosition | board.rb:216-222 | the returned square is on the board and holds a King of the colour |
| Rules.AttackScan | board.rb:159-166 | the loop of `check?` never raises a MoveError |
| Rules.InCheck | board.rb:155-167 | `check?` never raises a MoveError: it rescues every one `valid_move?` raises |
| Rules.MoveOutcome | board.rb:105-116 | with no piece `move` raises "No piece at that position"; a MoveError raised by `valid_move?`, or its crash, reaches the caller unchanged; after a passing `valid_move?`, `check?` answering true raises "This leaves ... in check!" and a crash of `check?` crashes `move`; it succeeds only when `valid_move?` passes and `check?` answered false on the board before the move, and then `to` holds the moved piece |
| Rules.MovesFrom | board.rb:173-180 | each collected pair starts at the piece's square, ends on the board and passes `valid_move?` |
| Rules.CandidatesOf | board.rb:172-181 | each collected pair starts at the square of a listed piece and passes `valid_move?` |
| Rules.Candidates | board.rb:169-181 | each candidate moves a piece of that colour and passes `valid_move?` |
| Rules.Checkmate | board.rb:169-191 | `checkmate?` is true when there is no candidate, and it never raises a MoveError |
| Rules.SlidingMoveNeverCrashes | board.rb:141-153 | a sliding piece tested against one of its own possible moves never crashes |
| Rules.RubyIndex | board.rb:73-75 | Ruby array indexing: an index in 0..7 is itself, and every index it accepts lands in 0..7 |
| Rules.RubyCell | board.rb:73-75 | reading an on-board square returns that cell, and reading never raises a MoveError |
| Rules.AnyOccupiedOnBoard | board.rb:97-102 | over on-board squares the scan answers whether one of them is occupied |
| Rules.InTheWayOnLine | board.rb:82-87 | two squares on a common row or column always count as blocked |
| Rules.WalkDiagonal | board.rb:88-96 | from a square to another k diagonal steps away, the walk collects exactly the k - 1 squares strictly between |
| Rules.InTheWayDiagonal | board.rb:82-103 | on a diagonal, `piece_in_the_way?` is true iff some square strictly between is occupied |
| Rules.SlidingTargetNeverCrashes | board.rb:82-103 | towards a square on one of the Queen's lines the walk never leaves the board |
| Rules.OffDiagonalWalkCrashes | board.rb:88-103 | a Bishop on [6, 0] tested against [7, 2] with [7, 1] empty walks to [8, 2] and crashes |
| Rules.ValidMove | board.rb:118-125 | `valid_move?` never returns false, and only a sliding piece can crash |
| Rules.OwnCaptureRaisedFirst | board.rb:127-153 | a target of the mover's own colour raises "Can't capture own piece" before any other test |
| Rules.PawnMoveValidIff | board.rb:127-139 | a pawn move is valid iff the target is not its own colour and lies in its capture squares when occupied, its quiet squares when empty |
| Rules.SteppingMoveValidIff | board.rb:141-153 | a Knight or King move is valid iff the target is not its own colour and is one of its possible moves |
| Rules.SlidingMoveValidIff | board.rb:141-153 | a sliding move is valid iff the target is not its own colour, nothing is in the way, and the target is a possible move |
| Rules.OrthogonalSlideAlwaysBlocked | board.rb:141-153 | a slide along a row or column raises "Piece in the way" unless the target is its own colour |
| Rules.RookNeverMoves | board.rb:141-153 | no Rook move is ever valid |
| Rules.DiagonalSlideValidIff | board.rb:141-153 | a diagonal Bishop or Queen move is valid iff the target is not its own colour and every square between is empty |
| Rules.PiecesOfMembers | board.rb:224-232 | `get_pieces` lists exactly the pieces of that colour standing on their own squares |
| Rules.KingPositionIsFirst | board.rb:216-222 | `get_king_position` returns the first King of the colour in row-major order |
| Rules.InitialLayout | board.rb:41-67 | after `generate_pieces` every piece records its square, rows 0-1 are all black, rows 6-7 all white and rows 2-5 empty |
| Rules.InitialKingsUnique | board.rb:41-67 | the starting position has exactly one King per colour, on [0, 4] and [7, 4] |
| Rules.InitialKings | board.rb:41-67 | `get_king_position` finds Black's King on [0, 4] and White's on [7, 4] |
| Rules.AttackScanFalse | board.rb:159-166 | the scan answers false iff every opposing piece's `valid_move?` onto the King raises |
| Rules.AttackScanTrue | board.rb:159-166 | the scan answers true only when some opposing piece has a valid move onto the King |
| Rules.InCheckExact | board.rb:155-167 | `check?` is false iff every opposing piece's `valid_move?` onto the King raises; it is true only when one passes; when one passes the answer is true or a crash, because an earlier sliding piece can crash the scan first |
| Rules.AttackScanCrashed | board.rb:159-166 | the scan crashes only when some attacker's `valid_move?` crashes, and does crash when one crashes and none passes: the rescue catches MoveError only |
| Rules.AttackScanWithoutSlidersAnswers | board.rb:159-166 | without sliding attackers `check?` always answers |
| Rules.Commit | board.rb:109-111 | after a committed move `to` holds the moved piece, `from` is empty and every other square is unchanged |
| Rules.CommitPreservesConsistent | board.rb:109-111 | a committed move keeps every piece's recorded position equal to its square |
| Rules.ValidMoveLeavesSquare | board.rb:118-153 | a valid move never targets its own square |
| Rules.MoveSucceedsIff | board.rb:105-116 | `move` succeeds iff there is a piece, `valid_move?` passes and the mover is not in check; the new grid is the committed one |
| Rules.ValidMoveCrashesInCheck | board.rb:105-116 | with Black King [0, 0], Black Bishop [5, 0], White King [7, 4] and White Knight [7, 6], the Knight's move to [5, 5] passes `valid_move?`, `check?` crashes on the Bishop's walk to row 8, and so `move` crashes |
| Rules.NoMoveOutOfCheck | board.rb:105-116 | a side in check can make no move, and a valid move then raises "leaves in check" |
| Rules.MovesFromMembers | board.rb:173-180 | one piece contributes exactly the pairs of its position and a target that passes `valid_move?` |
| Rules.CandidatesOfMembers | board.rb:172-181 | the collected pairs are exactly the valid moves of the listed pieces |
| Rules.CandidatesExact | board.rb:169-181 | `checkmate?`'s candidates are exactly the valid moves of that colour's pieces to their possible squares |
| Rules.PossibleMoveNeverCrashes | board.rb:173-178 | testing a piece's own possible move never crashes, so rescuing MoveError suffices |
| Rules.CheckmateByFirstCandidate | board.rb:182-190 | `checkmate?` is true with no candidates and otherwise equals `check?` |
| Chessboard.WalkBetween | board.rb:88-96 | the `while` loop collects exactly the walk's squares |
| Chessboard.Board.constructor | board.rb:11-14 | a new board holds the starting position |
| Chessboard.Board.GeneratePieces | board.rb:41-67 | rows 0, 1, 6 and 7 receive the starting pieces and the other rows are untouched |
| Chessboard.Board.PlaceBackRank | board.rb:42-49 | one back rank receives Rook, Knight, Bishop, Queen, King, Bishop, Knight, Rook and the other rows are untouched |
| Chessboard.Board.GetPieceAt | board.rb:69-71 | returns the cell at the square |
| Chessboard.Board.PositionEmpty | board.rb:73-75 | on the board it answers whether the cell is empty; elsewhere it follows Ruby's indexing and crashes on a missing row |
| Chessboard.Board.PieceInTheWay | board.rb:82-103 | computes `piece_in_the_way?` of the grid |
| Chessboard.Board.ScanBetween | board.rb:97-102 | the scan returns true at the first occupied square and false when all are empty |
| Chessboard.Board.ValidPawnMoveAt | board.rb:127-139 | computes `valid_pawn_move?` of the grid |
| Chessboard.Board.ValidNonpawnMoveAt | board.rb:141-153 | computes `valid_nonpawn_move?` of the grid |
| Chessboard.Board.ValidMoveAt | board.rb:118-125 | computes `valid_move?` of the grid |
| Chessboard.Board.GetPieces | board.rb:224-232 | lists the colour's pieces in row-major order |
| Chessboard.Board.GetKingPosition | board.rb:216-222 | returns the first King of the colour in row-major order, or none |
| Chessboard.Board.IsInCheck | board.rb:155-167 | computes `check?` of the grid |
| Chessboard.Board.ScanAttacks | board.rb:159-166 | the loop stops at the first attacker with a valid move and skips those that raise |
| Chessboard.Board.Move | board.rb:105-116 | a failed move leaves the grid unchanged; a successful one leaves the committed grid, and the board stays consistent |
| Chessboard.Board.PlacePiece | board.rb:109-111 | the three assignments produce the committed grid and keep the board consistent |
| Chessboard.Board.DupBoard | board.rb:193-204 | the copy is a new board over a new array with the same contents |
| Chessboard.Board.ValidMovesOf | board.rb:173-180 | one piece's possible moves are filtered through `valid_move?`, in order |
| Chessboard.Board.TryMove | board.rb:174-179 | one turn of the inner loop keeps the possible move exactly when `valid_move?` passes |
| Chessboard.Board.CollectMoves | board.rb:172-181 | the pieces' valid moves are concatenated in order |
| Chessboard.Board.AppendMovesOf | board.rb:173-180 | one turn of the collecting loop appends the valid moves of the next piece |
| Chessboard.Board.CandidateMoves | board.rb:169-181 | collects exactly `checkmate?`'s candidate list |
| Chessboard.Board.MoveOnCopy | board.rb:183-185 | `move` on a copy gives the move's outcome on this grid, and this board's cells are unchanged |
| Chessboard.Board.Checkmate | board.rb:169-191 | computes `checkmate?` of the grid |

## Left out

- `print_board`, the `mark` letters and the `colorize`/`debugger` requires: terminal output only.
- `chess.rb` (the interactive turn loop and algebraic input) and `work.rb` (an unrelated script): input and output around the core.
- Promotion, stalemate and a check test after the move: standard chess has them, but this code does not.
- `position_on_board?` is the predicate `OnBoard` itself, so it has no separate contract.
- `iterate_board` is not a member of its own: each caller's nested row and column loops are written out.
- Piece objects are values. Ruby's object identity and aliasing of pieces between cells is not modelled; `dup` makes independent copies anyway.
- Chessboard.Board.Move: requires on-board squares, because off-board input arrives only through `chess.rb`.
- Chessboard.Board.Move: requires the mover's King on the board. Without one, `get_king_position` returns the integer 8 and `check?` would index with it.
- Chessboard.Board.IsInCheck: requires the King on the board, for the same reason.
- Chessboard.Board.Checkmate: requires the King on the board, for the same reason.
- Chessboard.Board.Move: evaluates `check?` once. The source evaluates it a second time in the `elsif`, on the unchanged board, so both calls give the same answer.
- Chessboard.Board.ValidMoveAt: requires a piece on `from`, because every caller passes an occupied square. On an empty one Ruby would call a method on nil.
- Chessboard.Board.ValidMovesOf: a `Crashed` result would be skipped like a MoveError, where Ruby would let the NoMethodError escape. `Rules.PossibleMoveNeverCrashes` shows this cannot arise.
