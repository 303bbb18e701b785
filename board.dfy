/** `Board`: the 8x8 grid the engine mutates in place, and the methods that read and
    change it. Each method runs the source's loops on the array and is proved to compute
    the corresponding function of module Rules on the grid's contents, `Cells()`.
    `iterate_board`, which takes a block, appears as the nested row/column loops of
    each of its callers. */
module Chessboard {
  import opened Pieces
  import opened Rules

  /** Two grids with the same 64 cells are the same grid. */
  lemma SameCells(a: Grid, b: Grid)
    requires WellFormed(a) && WellFormed(b)
    requires forall r, c :: 0 <= r < 8 && 0 <= c < 8 ==> a[r][c] == b[r][c]
    ensures a == b
  {
    forall r | 0 <= r < 8
      ensures a[r] == b[r]
    {
    }
  }

  /** The grid a successful move leaves, cell by cell. */
  lemma CommitCells(g: Grid, from: Square, to: Square, p: Piece, h: Grid)
    requires WellFormed(g) && WellFormed(h) && OnBoard(from) && OnBoard(to)
    requires forall r, c :: 0 <= r < 8 && 0 <= c < 8 ==>
               h[r][c] == if r == to.row && c == to.col then Some(MovePiece(p, to))
                          else if r == from.row && c == from.col then None
                          else g[r][c]
    ensures h == Commit(g, from, to, p)
  {
    var after := Commit(g, from, to, p);
    forall r, c | 0 <= r < 8 && 0 <= c < 8
      ensures h[r][c] == after[r][c]
    {
      assert after[r][c] == At(after, Square(r, c));
      assert g[r][c] == At(g, Square(r, c));
    }
    SameCells(h, after);
  }

  // Solver hints. The four sequence facts below need no proof; calling them at the point of use
  // hands the solver the one equation it needs there, which keeps the loops' proofs small.

  lemma SuffixTail<T>(s: seq<T>, i: int)
    requires 0 <= i < |s|
    ensures s[i..][1..] == s[i + 1..]
  {
  }

  lemma WholePrefix<T>(s: seq<T>)
    ensures s[..|s|] == s
  {
  }

  lemma AppendNil(a: seq<Square>)
    ensures a + [] == a
  {
  }

  lemma AppendAssoc(a: seq<Square>, b: seq<Square>, c: seq<Square>)
    ensures a + (b + c) == (a + b) + c
  {
  }

  /** One pass of the loop of `WalkBetween` that takes a step keeps its invariant. A solver
      hint, called so that the loop body need not unfold `Walk` itself. */
  lemma WalkAdvance(acc: seq<Square>, pos: Square, v: Vector, to: Square, total: seq<Square>)
    requires v.dr == 1 || v.dr == -1
    requires acc + Walk(pos, v, to) == total
    requires pos != to && Step(pos, v) != to && OnBoard(pos)
    ensures (acc + [Step(pos, v)]) + Walk(Step(pos, v), v, to) == total
  {
    WalkUnfold(pos, v, to);
    AppendAssoc(acc, [Step(pos, v)], Walk(Step(pos, v), v, to));
  }

  /** When the loop of `WalkBetween` stops, what it has collected is the whole walk. A solver
      hint like `WalkAdvance`. */
  lemma WalkStops(acc: seq<Square>, pos: Square, v: Vector, to: Square, total: seq<Square>)
    requires v.dr == 1 || v.dr == -1
    requires acc + Walk(pos, v, to) == total
    requires pos == to || Step(pos, v) == to || !OnBoard(pos)
    ensures acc == total
  {
    WalkUnfold(pos, v, to);
    AppendNil(acc);
  }

  /** The `while` loop of `piece_in_the_way?`: collects the squares stepped through from
      `from` towards `to`. */
  method WalkBetween(from: Square, vector: Vector, to: Square) returns (positionsBetween: seq<Square>)
    requires vector.dr == 1 || vector.dr == -1
    ensures positionsBetween == Walk(from, vector, to)
  {
    positionsBetween := [];
    var position := from;
    while position != to
      invariant positionsBetween + Walk(position, vector, to) == Walk(from, vector, to)
      decreases if vector.dr == 1 then 8 - position.row else position.row + 1
    {
      var next := Step(position, vector);
      if next == to || !OnBoard(position) {
        WalkStops(positionsBetween, position, vector, to, Walk(from, vector, to));
        return;
      }
      WalkAdvance(positionsBetween, position, vector, to, Walk(from, vector, to));
      positionsBetween := positionsBetween + [next];
      position := next;
    }
    WalkStops(positionsBetween, position, vector, to, Walk(from, vector, to));
  }

  class Board {
    var grid: array2<Option<Piece>>

    /** The grid is 8x8 and every piece on it records its own square. */
    predicate Valid()
      reads this, grid
    {
      grid.Length0 == 8 && grid.Length1 == 8 && Consistent(Cells())
    }

    /** The contents of the grid, row by row. */
    function Cells(): (g: Grid)
      reads this, grid
      requires grid.Length0 == 8 && grid.Length1 == 8
      ensures WellFormed(g)
    {
      var a := grid;
      seq(8, r requires 0 <= r < 8 reads a => seq(8, c requires 0 <= c < 8 reads a => a[r, c]))
    }

    /** Cell (r, c) of `Cells()` is the array element [r, c]. */
    lemma CellsMatchGrid()
      requires grid.Length0 == 8 && grid.Length1 == 8
      ensures forall r, c :: 0 <= r < 8 && 0 <= c < 8 ==> Cells()[r][c] == grid[r, c]
    {
    }

    /** `Board.new`: an empty grid, then `generate_pieces`. */
    constructor ()
      ensures Valid() && Cells() == InitialGrid()
      ensures fresh(grid)
    {
      grid := new Option<Piece>[8, 8]((r, c) => None);
      new;
      GeneratePieces();
      InitialGridWellFormed();
      CellsMatchGrid();
      SameCells(Cells(), InitialGrid());
      InitialLayout();
    }

    /** `generate_pieces`: fills rows 0, 1, 6 and 7 and leaves the other rows alone. */
    method GeneratePieces()
      requires grid.Length0 == 8 && grid.Length1 == 8
      modifies grid
      ensures forall r, c :: 0 <= r < 8 && 0 <= c < 8 ==>
                grid[r, c] == if r == 0 || r == 1 || r == 6 || r == 7 then InitialCell(r, c) else old(grid[r, c])
    {
      PlaceBackRank(0, Black);

      for index := 0 to 8
        invariant forall c :: 0 <= c < 8 ==> grid[0, c] == InitialCell(0, c)
        invariant forall c :: 0 <= c < index ==> grid[1, c] == InitialCell(1, c)
        invariant forall r, c :: 0 <= r < 8 && 0 <= c < 8 && r != 0 && (r != 1 || index <= c) ==>
                    grid[r, c] == old(grid[r, c])
      {
        grid[1, index] := Some(NewPawn(Square(1, index), Black));
      }

      PlaceBackRank(7, White);

      for index := 0 to 8
        invariant forall r, c :: 0 <= r < 8 && 0 <= c < 8 && (r == 0 || r == 1 || r == 7) ==> grid[r, c] == InitialCell(r, c)
        invariant forall c :: 0 <= c < index ==> grid[6, c] == InitialCell(6, c)
        invariant forall r, c :: 0 <= r < 8 && 0 <= c < 8 && 2 <= r <= 6 && (r != 6 || index <= c) ==>
                    grid[r, c] == old(grid[r, c])
      {
        grid[6, index] := Some(NewPawn(Square(6, index), White));
      }
    }

    /** The eight assignments of `generate_pieces` that set up one back rank. */
    method PlaceBackRank(row: int, color: Color)
      requires grid.Length0 == 8 && grid.Length1 == 8 && ((row == 0 && color == Black) || (row == 7 && color == White))
      modifies grid
      ensures forall c :: 0 <= c < 8 ==> grid[row, c] == InitialCell(row, c)
      ensures forall r, c :: 0 <= r < 8 && 0 <= c < 8 && r != row ==> grid[r, c] == old(grid[r, c])
    {
      grid[row, 0] := Some(NonPawn(Rook, color, Square(row, 0)));
      grid[row, 1] := Some(NonPawn(Knight, color, Square(row, 1)));
      grid[row, 2] := Some(NonPawn(Bishop, color, Square(row, 2)));
      grid[row, 3] := Some(NonPawn(Queen, color, Square(row, 3)));
      grid[row, 4] := Some(NonPawn(King, color, Square(row, 4)));
      grid[row, 5] := Some(NonPawn(Bishop, color, Square(row, 5)));
      grid[row, 6] := Some(NonPawn(Knight, color, Square(row, 6)));
      grid[row, 7] := Some(NonPawn(Rook, color, Square(row, 7)));
    }

    /** `get_piece_at_position`. */
    function GetPieceAt(s: Square): (p: Option<Piece>)
      reads this, grid
      requires Valid() && OnBoard(s)
      ensures p == At(Cells(), s)
    {
      grid[s.row, s.col]
    }

    /** `position_empty?` on any integer pair, with Ruby's indexing: an unindexable row fails. */
    function PositionEmpty(s: Square): (r: Outcome<bool>)
      reads this, grid
      requires Valid()
      ensures OnBoard(s) ==> r == Ok(At(Cells(), s).None?)
      ensures r.Crashed? <==> RubyCell(Cells(), s).Crashed?
      ensures r.Ok? ==> (r.value <==> RubyCell(Cells(), s).value.None?)
    {
      match RubyIndex(s.row)
      case None => Crashed
      case Some(row) =>
        match RubyIndex(s.col)
        case None => Ok(true)
        case Some(col) => Ok(grid[row, col].None?)
    }

    /** `piece_in_the_way?`: computes the unit vector, walks from `from` towards `to`
        collecting squares, then looks for an occupied one. */
    method PieceInTheWay(from: Square, to: Square) returns (r: Outcome<bool>)
      requires Valid() && OnBoard(from)
      ensures r == InTheWay(Cells(), from, to)
    {
      var dr, dc := to.row - from.row, to.col - from.col;
      if dr == 0 || dc == 0 {
        return Ok(true);
      }
      var vector := Vector(Sign(dr), Sign(dc));
      var positionsBetween := WalkBetween(from, vector, to);
      r := ScanBetween(positionsBetween);
    }

    /** The second loop of `piece_in_the_way?`: the first square that `position_empty?` finds
        occupied answers true; a crash of the Ruby indexing ends the scan. */
    method ScanBetween(squares: seq<Square>) returns (r: Outcome<bool>)
      requires Valid()
      ensures r == AnyOccupied(Cells(), squares)
    {
      for i := 0 to |squares|
        invariant AnyOccupied(Cells(), squares) == AnyOccupied(Cells(), squares[i..])
      {
        var empty := PositionEmpty(squares[i]);
        if empty.Crashed? {
          return Crashed;
        }
        if !empty.value {
          return Ok(true);
        }
        SuffixTail(squares, i);
      }
      return Ok(false);
    }

    /** `valid_pawn_move?`. */
    method ValidPawnMoveAt(piece: Piece, to: Square) returns (r: Outcome<bool>)
      requires Valid() && OnBoard(to) && piece.Pawn?
      ensures r == ValidPawnMove(Cells(), piece, to)
    {
      var target := GetPieceAt(to);
      if target.Some? && target.value.color == piece.color {
        return Raised(CannotCaptureOwnPiece);
      } else if target.Some? && to !in PossibleMoves(piece, true) {
        return Raised(CannotMoveThere);
      } else if target.None? && to !in PossibleMoves(piece) {
        return Raised(CannotMoveThere);
      }
      return Ok(true);
    }

    /** `valid_nonpawn_move?`. */
    method ValidNonpawnMoveAt(piece: Piece, from: Square, to: Square) returns (r: Outcome<bool>)
      requires Valid() && OnBoard(from) && OnBoard(to) && piece.NonPawn?
      ensures r == ValidNonpawnMove(Cells(), piece, from, to)
    {
      var target := GetPieceAt(to);
      if target.Some? && target.value.color == piece.color {
        return Raised(CannotCaptureOwnPiece);
      }
      if IsSliding(piece) {
        var blocked := PieceInTheWay(from, to);
        if blocked.Crashed? {
          return Crashed;
        }
        if blocked.value {
          return Raised(MoveError.PieceInTheWay);
        }
      }
      if to !in PossibleMoves(piece) {
        return Raised(CannotMoveThere);
      }
      return Ok(true);
    }

    /** `valid_move?`. */
    method ValidMoveAt(from: Square, to: Square) returns (r: Outcome<bool>)
      requires Valid() && OnBoard(from) && OnBoard(to) && At(Cells(), from).Some?
      ensures r == ValidMove(Cells(), from, to)
    {
      var piece := GetPieceAt(from).value;
      if piece.Pawn? {
        r := ValidPawnMoveAt(piece, to);
      } else {
        r := ValidNonpawnMoveAt(piece, from, to);
      }
    }

    /** `get_pieces(color)`: the pieces of that colour in board order. */
    method GetPieces(color: Color) returns (pieces: seq<Piece>)
      requires grid.Length0 == 8 && grid.Length1 == 8
      ensures pieces == PiecesOf(Cells(), color)
    {
      ghost var g := Cells();
      pieces := [];
      for row := 0 to 8
        invariant pieces == PiecesBefore(g, color, row)
      {
        for column := 0 to 8
          invariant pieces == PiecesBefore(g, color, row) + RowPieces(g, color, row, column)
        {
          var piece := grid[row, column];
          if piece.Some? && piece.value.color == color {
            pieces := pieces + [piece.value];
          }
        }
      }
    }

    /** `get_king_position(color)`: the position of the first King of that colour in board
        order, or None where the source's loop runs out and returns the Integer 8. */
    method GetKingPosition(color: Color) returns (position: Option<Square>)
      requires grid.Length0 == 8 && grid.Length1 == 8
      ensures position == KingBefore(Cells(), color, 8)
    {
      ghost var g := Cells();
      for row := 0 to 8
        invariant KingBefore(g, color, row) == None
      {
        for column := 0 to 8
          invariant KingInRow(g, color, row, column) == None
        {
          var piece := grid[row, column];
          if IsKingOf(piece, color) {
            KingInRowStable(g, color, row, column + 1, 8);
            KingBeforeStable(g, color, row + 1, 8);
            return Some(piece.value.position);
          }
        }
      }
      return None;
    }

    /** `check?(color)`: tries `valid_move?` from every opposing piece onto color's King,
        rescuing MoveErrors. */
    method IsInCheck(color: Color) returns (r: Outcome<bool>)
      requires Valid() && KingPresent(Cells(), color)
      ensures r == InCheck(Cells(), color)
    {
      var oppColor := Opponent(color);
      var oppPieces := GetPieces(oppColor);
      var myKingPosition := GetKingPosition(color);
      r := ScanAttacks(myKingPosition.value, oppPieces);
    }

    /** The loop of `check?`: the first of ps whose `valid_move?` onto the King succeeds answers
        true, a crash ends the scan, and a MoveError rescued moves on to the next piece. */
    method ScanAttacks(king: Square, ps: seq<Piece>) returns (r: Outcome<bool>)
      requires Valid() && OnBoard(king)
      requires forall p :: p in ps ==> OnBoard(p.position) && At(Cells(), p.position) == Some(p)
      ensures r == AttackScan(Cells(), king, ps)
    {
      for i := 0 to |ps|
        invariant AttackScan(Cells(), king, ps) == AttackScan(Cells(), king, ps[i..])
      {
        var oppPiece := ps[i];
        assert oppPiece in ps;
        var valid := ValidMoveAt(oppPiece.position, king);
        AttackScanStep(Cells(), king, ps, i);
        if valid.Ok? {
          return Ok(true);
        }
        if valid.Crashed? {
          return Crashed;
        }
      }
      return Ok(false);
    }

    /** `move(from, to)`: validates, refuses a mover already in check, then empties `from`,
        moves the piece and places it on `to`. A failed call leaves the grid untouched. */
    method Move(from: Square, to: Square) returns (r: Outcome<bool>)
      requires Valid() && OnBoard(from) && OnBoard(to)
      requires At(Cells(), from).Some? ==> KingPresent(Cells(), At(Cells(), from).value.color)
      modifies grid
      ensures Valid()
      ensures var out := MoveOutcome(old(Cells()), from, to);
              (out.Ok? ==> r == Ok(true) && Cells() == out.value) &&
              (out.Raised? ==> r == Raised(out.error) && Cells() == old(Cells())) &&
              (out.Crashed? ==> r == Crashed && Cells() == old(Cells()))
    {
      ghost var g := Cells();
      var piece := GetPieceAt(from);
      if piece.None? {
        assert MoveOutcome(g, from, to) == Raised(NoPieceAtPosition);
        return Raised(NoPieceAtPosition);
      }
      var valid := ValidMoveAt(from, to);
      if !valid.Ok? {
        assert MoveOutcome(g, from, to) == if valid.Crashed? then Crashed else Raised(valid.error);
        return valid;
      }
      var check := IsInCheck(piece.value.color);
      if check.Crashed? {
        assert MoveOutcome(g, from, to) == Crashed;
        return Crashed;
      }
      if check.value {
        assert MoveOutcome(g, from, to) == Raised(LeavesInCheck);
        return Raised(LeavesInCheck);
      }
      assert MoveOutcome(g, from, to) == Ok(Commit(g, from, to, piece.value));
      PlacePiece(from, to, piece.value);
      return Ok(true);
    }

    /** The three assignments that end a successful `move`: empty `from`, move the piece, put
        it on `to`. */
    method PlacePiece(from: Square, to: Square, piece: Piece)
      requires Valid() && OnBoard(from) && OnBoard(to) && At(Cells(), from) == Some(piece)
      modifies grid
      ensures Valid() && Cells() == Commit(old(Cells()), from, to, piece)
    {
      ghost var g := Cells();
      CellsMatchGrid();
      grid[from.row, from.col] := None;
      grid[to.row, to.col] := Some(MovePiece(piece, to));
      forall r, c | 0 <= r < 8 && 0 <= c < 8
        ensures grid[r, c] == if r == to.row && c == to.col then Some(MovePiece(piece, to))
                              else if r == from.row && c == from.col then None
                              else g[r][c]
      {
      }
      CellsMatchGrid();
      CommitCells(g, from, to, piece, Cells());
      CommitPreservesConsistent(g, from, to, piece);
    }

    /** `dup_board`: a new Board whose grid holds a copy of every piece. */
    method DupBoard() returns (b: Board)
      requires Valid()
      ensures fresh(b) && fresh(b.grid)
      ensures b.Valid() && b.Cells() == Cells()
    {
      var duppedGrid := new Option<Piece>[8, 8]((r, c) => None);
      for row := 0 to 8
        invariant forall r, c :: 0 <= r < row && 0 <= c < 8 ==> duppedGrid[r, c] == grid[r, c]
        invariant forall r, c :: row <= r < 8 && 0 <= c < 8 ==> duppedGrid[r, c] == None
      {
        for column := 0 to 8
          invariant forall r, c :: 0 <= r < row && 0 <= c < 8 ==> duppedGrid[r, c] == grid[r, c]
          invariant forall c :: 0 <= c < column ==> duppedGrid[row, c] == grid[row, c]
          invariant forall r, c :: 0 <= r < 8 && 0 <= c < 8 && (r > row || (r == row && c >= column)) ==>
                      duppedGrid[r, c] == None
        {
          var piece := grid[row, column];
          if piece.Some? {
            duppedGrid[row, column] := Some(Dup(piece.value));
          }
        }
      }
      b := new Board();
      b.grid := duppedGrid;
      b.CellsMatchGrid();
      CellsMatchGrid();
      SameCells(b.Cells(), Cells());
    }

    /** The inner loop of `checkmate?(color)`: the squares of one piece's `possible_moves`
        that pass `valid_move?`, in order; a MoveError rescued means the square is skipped. */
    method ValidMovesOf(piece: Piece) returns (found: seq<Candidate>)
      requires Valid() && OnBoard(piece.position) && At(Cells(), piece.position) == Some(piece)
      ensures found == MovesFrom(Cells(), piece, PossibleMoves(piece))
    {
      var moves := PossibleMoves(piece);
      found := [];
      for j := 0 to |moves|
        invariant found == MovesFrom(Cells(), piece, moves[..j])
      {
        found := TryMove(piece, moves, j, found);
      }
      WholePrefix(moves);
    }

    /** One pass of the inner loop of `checkmate?`: the j-th possible move is kept when
        `valid_move?` accepts it. Only a MoveError is rescued; a crash cannot arise here
        (`PossibleMoveNeverCrashes`). */
    method TryMove(piece: Piece, moves: seq<Square>, j: int, before: seq<Candidate>) returns (after: seq<Candidate>)
      requires Valid() && OnBoard(piece.position) && At(Cells(), piece.position) == Some(piece)
      requires forall m :: m in moves ==> OnBoard(m)
      requires 0 <= j < |moves|
      requires before == MovesFrom(Cells(), piece, moves[..j])
      ensures after == MovesFrom(Cells(), piece, moves[..j + 1])
    {
      var valid := ValidMoveAt(piece.position, moves[j]);
      after := before;
      if valid.Ok? {
        after := before + [Candidate(piece.position, moves[j])];
      }
      MovesFromPrefix(Cells(), piece, moves, j);
    }

    /** The first half of `checkmate?(color)`: for each of color's pieces in board order, the
        moves `ValidMovesOf` finds, concatenated. */
    method CandidateMoves(color: Color) returns (possibleMoves: seq<Candidate>)
      requires Valid()
      ensures possibleMoves == Candidates(Cells(), color)
    {
      var myPieces := GetPieces(color);
      PiecesOfOnGrid(Cells(), color);
      possibleMoves := CollectMoves(myPieces);
    }

    /** The loop over the pieces inside `checkmate?`. */
    method CollectMoves(ps: seq<Piece>) returns (possibleMoves: seq<Candidate>)
      requires Valid()
      requires forall q :: q in ps ==> OnBoard(q.position) && At(Cells(), q.position) == Some(q)
      ensures possibleMoves == CandidatesOf(Cells(), ps)
    {
      possibleMoves := [];
      for i := 0 to |ps|
        invariant possibleMoves == CandidatesOf(Cells(), ps[..i])
      {
        possibleMoves := AppendMovesOf(ps, i, possibleMoves);
      }
      WholePrefix(ps);
    }

    /** One turn of the collecting loop: the i-th piece's valid moves join the list. */
    method AppendMovesOf(ps: seq<Piece>, i: int, before: seq<Candidate>) returns (after: seq<Candidate>)
      requires Valid() && 0 <= i < |ps|
      requires forall q :: q in ps ==> OnBoard(q.position) && At(Cells(), q.position) == Some(q)
      requires before == CandidatesOf(Cells(), ps[..i])
      ensures after == CandidatesOf(Cells(), ps[..i + 1])
    {
      var piece := ps[i];
      assert piece in ps;
      var found := ValidMovesOf(piece);
      CandidatesOfPrefix(Cells(), ps, i);
      after := before + found;
    }

    /** The second half of `checkmate?(color)`: `dup`, then `move` on the copy. The board
        itself is not changed. */
    method MoveOnCopy(from: Square, to: Square) returns (r: Outcome<bool>)
      requires Valid() && OnBoard(from) && OnBoard(to)
      requires At(Cells(), from).Some? ==> KingPresent(Cells(), At(Cells(), from).value.color)
      ensures Cells() == old(Cells())
      ensures var out := MoveOutcome(old(Cells()), from, to);
              (out.Ok? ==> r == Ok(true)) &&
              (out.Raised? ==> r == Raised(out.error)) &&
              (out.Crashed? ==> r == Crashed)
    {
      ghost var g := Cells();
      CellsMatchGrid();
      var duppedBoard := DupBoard();
      assert duppedBoard.grid != grid;
      r := duppedBoard.Move(from, to);
      assert unchanged(this, grid);
      CellsMatchGrid();
      assert forall r, c :: 0 <= r < 8 && 0 <= c < 8 ==> Cells()[r][c] == g[r][c];
      SameCells(Cells(), g);
    }

    /** `checkmate?(color)`: collects the candidate moves, then tries the first one on a copy of
        the board; the answer is whether that move raised. The board itself is not changed. */
    method Checkmate(color: Color) returns (r: Outcome<bool>)
      requires Valid() && KingPresent(Cells(), color)
      ensures r == Rules.Checkmate(Cells(), color)
    {
      ghost var g := Cells();
      var possibleMoves := CandidateMoves(color);
      if possibleMoves == [] {
        return Ok(true);
      }
      var first := possibleMoves[0];
      assert first in Candidates(g, color);
      ghost var out := MoveOutcome(g, first.from, first.to);
      var outcome := MoveOnCopy(first.from, first.to);
      if outcome.Raised? {
        assert out.Raised?;
        return Ok(true);
      }
      if outcome.Crashed? {
        assert out.Crashed?;
        return Crashed;
      }
      assert out.Ok?;
      return Ok(false);
    }
  }
}
