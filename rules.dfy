/** The rules `Board` applies, stated as functions of the grid's contents. The grid is a
    value here: eight rows of eight cells, each empty or holding a piece. The class in
    board.dfy runs the same rules step by step on a mutable 8x8 array and is proved to
    compute these functions.

    Errors: `raise MoveError, ...` becomes `Raised(e)`. Where the source's own code
    fails with a Ruby NoMethodError (indexing the row `nil` past the bottom of the
    grid), the outcome is `Crashed`; it is not a MoveError, so no `rescue MoveError`
    catches it. */
module Rules {
  import opened Pieces

  datatype Option<T> = None | Some(value: T)

  /** The messages of the MoveErrors the board raises. */
  datatype MoveError =
    | NoPieceAtPosition       // "No piece at that position"
    | CannotCaptureOwnPiece   // "Can't capture own piece"
    | CannotMoveThere         // "That piece cannot move there."
    | PieceInTheWay           // "Piece in the way"
    | LeavesInCheck           // "This leaves <color> in check!"

  /** What a call does: returns a value, raises a MoveError, or fails with a Ruby error. */
  datatype Outcome<T> = Ok(value: T) | Raised(error: MoveError) | Crashed

  type Grid = seq<seq<Option<Piece>>>

  predicate WellFormed(g: Grid)
  {
    |g| == 8 && forall r :: 0 <= r < 8 ==> |g[r]| == 8
  }

  /** `get_piece_at_position`. */
  function At(g: Grid, s: Square): Option<Piece>
    requires WellFormed(g) && OnBoard(s)
  {
    g[s.row][s.col]
  }

  /** Every piece records the square it stands on, and every pawn's offsets are in a state
      `Pawn.new` and `Pawn#move` can produce. `Board#move` keeps this true. */
  predicate Consistent(g: Grid)
  {
    WellFormed(g) &&
    forall r, c :: 0 <= r < 8 && 0 <= c < 8 && g[r][c].Some? ==>
      g[r][c].value.position == Square(r, c) && PieceValid(g[r][c].value)
  }

  // ---------------------------------------------------------------------------
  // The starting position (`generate_pieces`)

  /** The piece kinds of the back rank, column by column. */
  function BackRank(col: int): (k: Kind)
    requires 0 <= col < 8
    ensures k == King <==> col == 4
    ensures k == Queen <==> col == 3
  {
    if col == 0 || col == 7 then Rook
    else if col == 1 || col == 6 then Knight
    else if col == 2 || col == 5 then Bishop
    else if col == 3 then Queen
    else King
  }

  /** What `generate_pieces` puts on square [r, c]: Black on rows 0 and 1, White on rows 6 and 7. */
  function InitialCell(r: int, c: int): (cell: Option<Piece>)
    requires 0 <= c < 8
    ensures cell.Some? <==> r == 0 || r == 1 || r == 6 || r == 7
    ensures cell.Some? ==>
              cell.value.position == Square(r, c) && PieceValid(cell.value) &&
              (cell.value.color == Black <==> r <= 1) && (cell.value.Pawn? <==> r == 1 || r == 6)
  {
    if r == 0 then Some(NonPawn(BackRank(c), Black, Square(0, c)))
    else if r == 1 then Some(NewPawn(Square(1, c), Black))
    else if r == 6 then Some(NewPawn(Square(6, c), White))
    else if r == 7 then Some(NonPawn(BackRank(c), White, Square(7, c)))
    else None
  }

  function InitialGrid(): (g: Grid)
    ensures WellFormed(g)
  {
    seq(8, r => seq(8, c requires 0 <= c < 8 => InitialCell(r, c)))
  }

  // ---------------------------------------------------------------------------
  // `piece_in_the_way?`

  /** Ruby's `array[i]` on an eight-element array: negative indices down to -8 count from
      the end, and any other index outside 0..7 gives nil. */
  function RubyIndex(i: int): (r: Option<int>)
    ensures r.Some? ==> 0 <= r.value < 8
    ensures 0 <= i < 8 ==> r == Some(i)
  {
    if 0 <= i < 8 then Some(i)
    else if -8 <= i < 0 then Some(i + 8)
    else None
  }

  /** `@grid[position[0]][position[1]]` for any integer pair: a row index Ruby resolves to
      nil makes `nil[...]` fail; a column index it resolves to nil reads as an empty cell. */
  function RubyCell(g: Grid, s: Square): (r: Outcome<Option<Piece>>)
    requires WellFormed(g)
    ensures OnBoard(s) ==> r == Ok(At(g, s))
    ensures !r.Raised?
  {
    match RubyIndex(s.row)
    case None => Crashed
    case Some(row) =>
      match RubyIndex(s.col)
      case None => Ok(None)
      case Some(col) => Ok(g[row][col])
  }

  /** The scan of `positions_between`: true at the first occupied square, a failure at the
      first square whose row Ruby cannot index, false when all are empty. */
  function AnyOccupied(g: Grid, ss: seq<Square>): (r: Outcome<bool>)
    requires WellFormed(g)
    ensures !r.Raised?
  {
    if ss == [] then Ok(false)
    else
      var cell := RubyCell(g, ss[0]);
      if cell.Crashed? then Crashed
      else if cell.value.Some? then Ok(true)
      else AnyOccupied(g, ss[1..])
  }

  /** `element / element.abs` for a non-zero element. */
  function Sign(x: int): int
  {
    if x > 0 then 1 else -1
  }

  /** The squares the `while` loop of `piece_in_the_way?` collects: it steps by v from pos,
      stops before reaching `to`, and stops after the first step taken from an off-board
      square, so the last square collected may lie one step off the board. */
  function Walk(pos: Square, v: Vector, to: Square): seq<Square>
    requires v.dr == 1 || v.dr == -1
    decreases if v.dr == 1 then 8 - pos.row else pos.row + 1
  {
    if pos == to then []
    else
      var next := Step(pos, v);
      if next == to then []
      else if !OnBoard(pos) then []
      else [next] + Walk(next, v, to)
  }

  /** One step of the walk, as the loop takes it. A solver hint: it holds by the definition of
      `Walk`, and the loop of `WalkBetween` calls it instead of unfolding `Walk` itself. */
  lemma WalkUnfold(pos: Square, v: Vector, to: Square)
    requires v.dr == 1 || v.dr == -1
    ensures pos == to ==> Walk(pos, v, to) == []
    ensures pos != to && (Step(pos, v) == to || !OnBoard(pos)) ==> Walk(pos, v, to) == []
    ensures pos != to && Step(pos, v) != to && OnBoard(pos) ==>
              Walk(pos, v, to) == [Step(pos, v)] + Walk(Step(pos, v), v, to)
  {
  }

  /** The walk is a chain of single steps from pos that never collects `to`, and every square
      it collects except the last is on the board. */
  lemma {:induction false} WalkShape(pos: Square, v: Vector, to: Square)
    requires v.dr == 1 || v.dr == -1
    ensures var r := Walk(pos, v, to);
            to !in r &&
            (r != [] ==> r[0] == Step(pos, v)) &&
            (forall i :: 0 < i < |r| ==> r[i] == Step(r[i - 1], v)) &&
            (forall i :: 0 <= i < |r| - 1 ==> OnBoard(r[i]))
    decreases if v.dr == 1 then 8 - pos.row else pos.row + 1
  {
    var next := Step(pos, v);
    if pos != to && next != to && OnBoard(pos) {
      WalkShape(next, v, to);
      var rest := Walk(next, v, to);
      assert Walk(pos, v, to) == [next] + rest;
      assert forall i :: 1 <= i < |rest| + 1 ==> ([next] + rest)[i] == rest[i - 1];
    }
  }

  /** `piece_in_the_way?`. When the two squares share a row or a column, the `return 0` inside
      `map!` leaves the method with 0, which Ruby treats as true; otherwise the walk's squares
      are scanned. */
  function InTheWay(g: Grid, from: Square, to: Square): (r: Outcome<bool>)
    requires WellFormed(g)
    ensures !r.Raised?
  {
    var dr, dc := to.row - from.row, to.col - from.col;
    if dr == 0 || dc == 0 then Ok(true)
    else AnyOccupied(g, Walk(from, Vector(Sign(dr), Sign(dc)), to))
  }

  // ---------------------------------------------------------------------------
  // `valid_move?`

  /** `valid_pawn_move?`: a pawn captures along its capture offsets and moves quietly along
      its move offsets; it never looks for pieces in between. */
  function ValidPawnMove(g: Grid, p: Piece, to: Square): (r: Outcome<bool>)
    requires WellFormed(g) && OnBoard(to) && p.Pawn?
    ensures At(g, to).Some? && At(g, to).value.color == p.color ==> r == Raised(CannotCaptureOwnPiece)
    ensures !r.Crashed?
    ensures r.Ok? ==> r.value
    ensures !(At(g, to).Some? && At(g, to).value.color == p.color) && !r.Ok? ==> r == Raised(CannotMoveThere)
  {
    var target := At(g, to);
    if target.Some? && target.value.color == p.color then Raised(CannotCaptureOwnPiece)
    else if target.Some? && to !in PossibleMoves(p, true) then Raised(CannotMoveThere)
    else if target.None? && to !in PossibleMoves(p) then Raised(CannotMoveThere)
    else Ok(true)
  }

  /** `valid_nonpawn_move?`: own capture first, then (for a sliding piece) the obstruction
      test, and only then whether the piece can reach the square at all. */
  function ValidNonpawnMove(g: Grid, p: Piece, from: Square, to: Square): (r: Outcome<bool>)
    requires WellFormed(g) && OnBoard(to) && p.NonPawn?
    ensures At(g, to).Some? && At(g, to).value.color == p.color ==> r == Raised(CannotCaptureOwnPiece)
    ensures r.Crashed? ==> IsSliding(p)
    ensures r.Ok? ==> r.value
    ensures !(At(g, to).Some? && At(g, to).value.color == p.color) ==>
              if !IsSliding(p) then r.Ok? || r == Raised(CannotMoveThere)
              else if InTheWay(g, from, to).Crashed? then r == Crashed
              else if InTheWay(g, from, to).value then r == Raised(PieceInTheWay)
              else r.Ok? || r == Raised(CannotMoveThere)
  {
    var target := At(g, to);
    if target.Some? && target.value.color == p.color then Raised(CannotCaptureOwnPiece)
    else if IsSliding(p) then
      var blocked := InTheWay(g, from, to);
      if blocked.Crashed? then Crashed
      else if blocked.value then Raised(PieceInTheWay)
      else if to !in PossibleMoves(p) then Raised(CannotMoveThere)
      else Ok(true)
    else if to !in PossibleMoves(p) then Raised(CannotMoveThere)
    else Ok(true)
  }

  /** `valid_move?`: dispatches on the class of the piece standing on `from`. It never
      returns false: it returns true or raises. */
  function ValidMove(g: Grid, from: Square, to: Square): (r: Outcome<bool>)
    requires WellFormed(g) && OnBoard(from) && OnBoard(to) && At(g, from).Some?
    ensures r.Ok? ==> r.value
    ensures r.Crashed? ==> IsSliding(At(g, from).value)
  {
    var p := At(g, from).value;
    if p.Pawn? then ValidPawnMove(g, p, to) else ValidNonpawnMove(g, p, from, to)
  }

  // ---------------------------------------------------------------------------
  // Enumerating the board (`iterate_board`, `get_pieces`, `get_king_position`)

  /** The pieces of that colour among the first n cells of one row, left to right. */
  function RowPieces(g: Grid, color: Color, row: int, n: int): (r: seq<Piece>)
    requires WellFormed(g) && 0 <= row < 8 && 0 <= n <= 8
    ensures forall p :: p in r ==> p.color == color
    ensures Consistent(g) ==> forall p :: p in r ==> OnBoard(p.position) && At(g, p.position) == Some(p)
  {
    if n == 0 then []
    else
      var cell := g[row][n - 1];
      RowPieces(g, color, row, n - 1) + (if cell.Some? && cell.value.color == color then [cell.value] else [])
  }

  /** `get_pieces(color)` stopped after the first `rows` rows of `iterate_board`. */
  function PiecesBefore(g: Grid, color: Color, rows: int): (r: seq<Piece>)
    requires WellFormed(g) && 0 <= rows <= 8
    ensures forall p :: p in r ==> p.color == color
    ensures Consistent(g) ==> forall p :: p in r ==> OnBoard(p.position) && At(g, p.position) == Some(p)
  {
    if rows == 0 then [] else PiecesBefore(g, color, rows - 1) + RowPieces(g, color, rows - 1, 8)
  }

  /** `get_pieces(color)`: the pieces of that colour in board order. */
  function PiecesOf(g: Grid, color: Color): seq<Piece>
    requires WellFormed(g)
  {
    PiecesBefore(g, color, 8)
  }

  /** Every piece `get_pieces` lists stands on its own square. */
  lemma PiecesOfOnGrid(g: Grid, color: Color)
    requires Consistent(g)
    ensures forall p :: p in PiecesOf(g, color) ==> OnBoard(p.position) && At(g, p.position) == Some(p)
  {
  }

  predicate IsKingOf(cell: Option<Piece>, color: Color)
  {
    cell.Some? && cell.value.NonPawn? && cell.value.kind == King && cell.value.color == color
  }

  /** The position of the first King of that colour among the first n cells of one row. */
  function KingInRow(g: Grid, color: Color, row: int, n: int): (r: Option<Square>)
    requires WellFormed(g) && 0 <= row < 8 && 0 <= n <= 8
    ensures Consistent(g) && r.Some? ==> OnBoard(r.value) && IsKingOf(At(g, r.value), color)
  {
    if n == 0 then None
    else
      var before := KingInRow(g, color, row, n - 1);
      if before.Some? then before
      else if IsKingOf(g[row][n - 1], color) then Some(g[row][n - 1].value.position)
      else None
  }

  /** The position of the first King of that colour in the first `rows` rows, in board order. */
  function KingBefore(g: Grid, color: Color, rows: int): (r: Option<Square>)
    requires WellFormed(g) && 0 <= rows <= 8
    ensures Consistent(g) && r.Some? ==> OnBoard(r.value) && IsKingOf(At(g, r.value), color)
  {
    if rows == 0 then None
    else
      var before := KingBefore(g, color, rows - 1);
      if before.Some? then before else KingInRow(g, color, rows - 1, 8)
  }

  /** The board holds a King of that colour. Without one, `get_king_position` returns the
      Integer 8 that `8.times` yields; that case is outside this model. */
  predicate KingPresent(g: Grid, color: Color)
    requires WellFormed(g)
  {
    KingBefore(g, color, 8).Some?
  }

  /** `get_king_position(color)`. */
  function KingPosition(g: Grid, color: Color): (k: Square)
    requires Consistent(g) && KingPresent(g, color)
    ensures OnBoard(k) && IsKingOf(At(g, k), color)
  {
    KingBefore(g, color, 8).value
  }

  // ---------------------------------------------------------------------------
  // `check?`

  /** The loop of `check?`: true at the first piece whose `valid_move?` onto the King's square
      returns; a MoveError moves on to the next piece; a Ruby failure ends the call. */
  function AttackScan(g: Grid, king: Square, ps: seq<Piece>): (r: Outcome<bool>)
    requires WellFormed(g) && OnBoard(king)
    requires forall p :: p in ps ==> OnBoard(p.position) && At(g, p.position) == Some(p)
    ensures !r.Raised?
  {
    if ps == [] then Ok(false)
    else match ValidMove(g, ps[0].position, king)
      case Ok(_) => Ok(true)
      case Raised(_) => AttackScan(g, king, ps[1..])
      case Crashed => Crashed
  }

  /** One turn of the scan, from the i-th piece on. A solver hint for the loop of `ScanAttacks`:
      it holds by the definition of `AttackScan`. */
  lemma AttackScanStep(g: Grid, king: Square, ps: seq<Piece>, i: int)
    requires WellFormed(g) && OnBoard(king) && 0 <= i < |ps|
    requires forall p :: p in ps ==> OnBoard(p.position) && At(g, p.position) == Some(p)
    ensures AttackScan(g, king, ps[i..]) ==
            match ValidMove(g, ps[i].position, king)
            case Ok(_) => Ok(true)
            case Raised(_) => AttackScan(g, king, ps[i + 1..])
            case Crashed => Crashed
  {
    assert ps[i..][0] == ps[i];
    assert ps[i..][1..] == ps[i + 1..];
  }

  /** `check?(color)`: does some opposing piece pass `valid_move?` onto color's King? */
  function InCheck(g: Grid, color: Color): (r: Outcome<bool>)
    requires Consistent(g) && KingPresent(g, color)
    ensures !r.Raised?
  {
    AttackScan(g, KingPosition(g, color), PiecesOf(g, Opponent(color)))
  }

  // ---------------------------------------------------------------------------
  // `move`

  /** The three assignments of a successful `move`: empty `from`, move the piece, place it on `to`. */
  function Commit(g: Grid, from: Square, to: Square, p: Piece): (r: Grid)
    requires WellFormed(g) && OnBoard(from) && OnBoard(to)
    ensures WellFormed(r)
    ensures At(r, to) == Some(MovePiece(p, to))
    ensures from != to ==> At(r, from) == None
    ensures forall s :: OnBoard(s) && s != from && s != to ==> At(r, s) == At(g, s)
  {
    var g1 := g[from.row := g[from.row][from.col := None]];
    g1[to.row := g1[to.row][to.col := Some(MovePiece(p, to))]]
  }

  /** What `move(from, to)` does to the grid: the new grid when it returns, or how it fails.
      `check?` is evaluated before the piece moves, on the unchanged board. */
  function MoveOutcome(g: Grid, from: Square, to: Square): (r: Outcome<Grid>)
    requires Consistent(g) && OnBoard(from) && OnBoard(to)
    requires At(g, from).Some? ==> KingPresent(g, At(g, from).value.color)
    ensures At(g, from).None? ==> r == Raised(NoPieceAtPosition)
    ensures At(g, from).Some? && ValidMove(g, from, to).Raised? ==> r == Raised(ValidMove(g, from, to).error)
    ensures At(g, from).Some? && ValidMove(g, from, to).Crashed? ==> r == Crashed
    ensures At(g, from).Some? && ValidMove(g, from, to).Ok? ==>
              (InCheck(g, At(g, from).value.color) == Ok(true) ==> r == Raised(LeavesInCheck)) &&
              (InCheck(g, At(g, from).value.color).Crashed? ==> r == Crashed)
    ensures r.Ok? ==>
              At(g, from).Some? && ValidMove(g, from, to).Ok? && InCheck(g, At(g, from).value.color) == Ok(false) &&
              WellFormed(r.value) && At(r.value, to) == Some(MovePiece(At(g, from).value, to))
  {
    match At(g, from)
    case None => Raised(NoPieceAtPosition)
    case Some(p) =>
      match ValidMove(g, from, to)
      case Raised(e) => Raised(e)
      case Crashed => Crashed
      case Ok(_) =>
        var check := InCheck(g, p.color);
        if check.Crashed? then Crashed
        else if check.value then Raised(LeavesInCheck)
        else Ok(Commit(g, from, to, p))
  }

  // ---------------------------------------------------------------------------
  // `checkmate?`

  datatype Candidate = Candidate(from: Square, to: Square)

  /** The moves to the squares ms, in order, that pass `valid_move?` for the piece p. */
  function MovesFrom(g: Grid, p: Piece, ms: seq<Square>): (r: seq<Candidate>)
    requires WellFormed(g) && OnBoard(p.position) && At(g, p.position) == Some(p)
    requires forall m :: m in ms ==> OnBoard(m)
    ensures forall x :: x in r ==> x.from == p.position && OnBoard(x.to) && ValidMove(g, x.from, x.to).Ok?
  {
    if ms == [] then []
    else
      var last := ms[|ms| - 1];
      MovesFrom(g, p, ms[..|ms| - 1]) +
      (if ValidMove(g, p.position, last).Ok? then [Candidate(p.position, last)] else [])
  }

  /** The list `checkmate?` builds from the pieces ps, piece by piece. */
  function CandidatesOf(g: Grid, ps: seq<Piece>): (r: seq<Candidate>)
    requires WellFormed(g)
    requires forall p :: p in ps ==> OnBoard(p.position) && At(g, p.position) == Some(p)
    ensures forall x :: x in r ==>
              OnBoard(x.from) && OnBoard(x.to) && At(g, x.from).Some? &&
              At(g, x.from).value in ps && ValidMove(g, x.from, x.to).Ok?
  {
    if ps == [] then []
    else
      var last := ps[|ps| - 1];
      assert forall p :: p in ps[..|ps| - 1] ==> p in ps;
      var rest := CandidatesOf(g, ps[..|ps| - 1]);
      var mine := MovesFrom(g, last, PossibleMoves(last));
      rest + mine
  }

  /** The `[position, move]` pairs `checkmate?` collects for color's pieces. */
  function Candidates(g: Grid, color: Color): (r: seq<Candidate>)
    requires Consistent(g)
    ensures forall x :: x in r ==>
              OnBoard(x.from) && OnBoard(x.to) && At(g, x.from).Some? &&
              At(g, x.from).value.color == color && ValidMove(g, x.from, x.to).Ok?
  {
    CandidatesOf(g, PiecesOf(g, color))
  }

  /** `checkmate?(color)`: true when there is no candidate; otherwise the first candidate
      is tried on a copy of the board, and the answer is whether that move raised. */
  function Checkmate(g: Grid, color: Color): (r: Outcome<bool>)
    requires Consistent(g) && KingPresent(g, color)
    ensures Candidates(g, color) == [] ==> r == Ok(true)
    ensures !r.Raised?
  {
    var cs := Candidates(g, color);
    if cs == [] then Ok(true)
    else match MoveOutcome(g, cs[0].from, cs[0].to)
      case Raised(_) => Ok(true)
      case Ok(_) => Ok(false)
      case Crashed => Crashed
  }

  // ---------------------------------------------------------------------------
  // Properties of `piece_in_the_way?`

  /** Over on-board squares the scan answers exactly whether one of them is occupied. */
  lemma {:induction false} AnyOccupiedOnBoard(g: Grid, ss: seq<Square>)
    requires WellFormed(g)
    requires forall s :: s in ss ==> OnBoard(s)
    ensures AnyOccupied(g, ss) == Ok(exists i :: 0 <= i < |ss| && At(g, ss[i]).Some?)
  {
    if ss != [] {
      AnyOccupiedOnBoard(g, ss[1..]);
      if At(g, ss[0]).None? {
        assert forall i :: 1 <= i < |ss| ==> ss[i] == ss[1..][i - 1];
      }
    }
  }

  predicate IsDiagonal(v: Vector)
  {
    (v.dr == 1 || v.dr == -1) && (v.dc == 1 || v.dc == -1)
  }

  /** `k * d` for a unit d, written without multiplication. */
  function Times(k: int, d: int): int
  {
    if d == 1 then k else if d == -1 then -k else 0
  }

  /** `pos + k * v` for a diagonal v, written without multiplication. */
  function Along(pos: Square, v: Vector, k: int): Square
  {
    Square(pos.row + Times(k, v.dr), pos.col + Times(k, v.dc))
  }

  /** A solver hint: `Along` is `Shift` with the product written through `Times`, which keeps
      the multiplication out of the induction of `WalkDiagonal`. */
  lemma AlongIsShift(pos: Square, v: Vector, k: int)
    requires IsDiagonal(v)
    ensures Along(pos, v, k) == Shift(pos, v, k)
  {
    if v.dr == 1 { assert k * v.dr == k; } else { assert k * v.dr == -k; }
    if v.dc == 1 { assert k * v.dc == k; } else { assert k * v.dc == -k; }
  }

  /** From an on-board square to another one k diagonal steps away, the walk collects exactly
      the k - 1 squares strictly between them, all on the board. */
  lemma {:induction false} WalkDiagonal(pos: Square, v: Vector, k: int)
    requires IsDiagonal(v) && 1 <= k
    requires OnBoard(pos) && OnBoard(Along(pos, v, k))
    ensures |Walk(pos, v, Along(pos, v, k))| == k - 1
    ensures forall i :: 0 <= i < k - 1 ==> Walk(pos, v, Along(pos, v, k))[i] == Along(pos, v, i + 1)
    ensures forall i :: 1 <= i <= k ==> OnBoard(Along(pos, v, i))
    decreases k
  {
    var to := Along(pos, v, k);
    var next := Step(pos, v);
    assert next == Along(pos, v, 1);
    assert to != pos;
    WalkUnfold(pos, v, to);
    if k > 1 {
      assert to.row != next.row;
      assert to == Along(next, v, k - 1);
      WalkDiagonal(next, v, k - 1);
      var w := Walk(next, v, to);
      assert Walk(pos, v, to) == [next] + w;
      forall i | 1 <= i < k - 1
        ensures Walk(pos, v, to)[i] == Along(pos, v, i + 1)
      {
        assert Walk(pos, v, to)[i] == w[i - 1] == Along(next, v, i);
      }
      forall i | 2 <= i <= k
        ensures OnBoard(Along(pos, v, i))
      {
        assert Along(pos, v, i) == Along(next, v, i - 1);
      }
    }
  }

  /** Between two squares on one diagonal, `piece_in_the_way?` answers whether a square strictly
      between them is occupied. */
  lemma InTheWayDiagonal(g: Grid, from: Square, v: Vector, k: int)
    requires WellFormed(g) && IsDiagonal(v) && 1 <= k
    requires OnBoard(from) && OnBoard(Along(from, v, k))
    ensures forall i :: 1 <= i <= k ==> OnBoard(Along(from, v, i))
    ensures InTheWay(g, from, Along(from, v, k)) == Ok(exists i :: 1 <= i < k && At(g, Along(from, v, i)).Some?)
  {
    var to := Along(from, v, k);
    assert Vector(Sign(to.row - from.row), Sign(to.col - from.col)) == v;
    WalkDiagonal(from, v, k);
    var w := Walk(from, v, to);
    assert forall s :: s in w ==> OnBoard(s);
    AnyOccupiedOnBoard(g, w);
    if exists i :: 0 <= i < |w| && At(g, w[i]).Some? {
      var i :| 0 <= i < |w| && At(g, w[i]).Some?;
      assert Along(from, v, i + 1) == w[i];
    }
    if exists i :: 1 <= i < k && At(g, Along(from, v, i)).Some? {
      var i :| 1 <= i < k && At(g, Along(from, v, i)).Some?;
      assert w[i - 1] == Along(from, v, i);
    }
  }

  /** Two squares on one row or one column always count as blocked: the `return 0` leaves
      `piece_in_the_way?` before any square is looked at. */
  lemma InTheWayOnLine(g: Grid, from: Square, to: Square)
    requires WellFormed(g)
    requires from.row == to.row || from.col == to.col
    ensures InTheWay(g, from, to) == Ok(true)
  {
  }

  // ---------------------------------------------------------------------------
  // Properties of `valid_move?`

  /** The own-capture test comes first, for every kind of piece. */
  lemma OwnCaptureRaisedFirst(g: Grid, from: Square, to: Square)
    requires WellFormed(g) && OnBoard(from) && OnBoard(to) && At(g, from).Some?
    requires At(g, to).Some? && At(g, to).value.color == At(g, from).value.color
    ensures ValidMove(g, from, to) == Raised(CannotCaptureOwnPiece)
  {
  }

  /** A pawn's move is valid exactly when it lands on an empty square along its move
      offsets, or on an opposing piece along its capture offsets; it never fails otherwise. */
  lemma PawnMoveValidIff(g: Grid, from: Square, to: Square)
    requires WellFormed(g) && OnBoard(from) && OnBoard(to) && At(g, from).Some? && At(g, from).value.Pawn?
    ensures var p, target := At(g, from).value, At(g, to);
            (ValidMove(g, from, to).Ok? <==>
              (target.None? && to in PossibleMoves(p)) ||
              (target.Some? && target.value.color != p.color && to in PossibleMoves(p, true))) &&
            !ValidMove(g, from, to).Crashed?
  {
  }

  /** A Knight's or a King's move is valid exactly when the target is not its own colour and
      its offsets reach it; what stands in between never matters. */
  lemma SteppingMoveValidIff(g: Grid, from: Square, to: Square)
    requires WellFormed(g) && OnBoard(from) && OnBoard(to) && At(g, from).Some?
    requires At(g, from).value.NonPawn? && !IsSlidingKind(At(g, from).value.kind)
    ensures var p, target := At(g, from).value, At(g, to);
            (ValidMove(g, from, to).Ok? <==>
              !(target.Some? && target.value.color == p.color) && to in PossibleMoves(p)) &&
            !ValidMove(g, from, to).Crashed?
  {
  }

  /** A Queen's, Bishop's or Rook's move is valid exactly when the target is not its own colour,
      `piece_in_the_way?` returns false, and its vectors reach the target. */
  lemma SlidingMoveValidIff(g: Grid, from: Square, to: Square)
    requires WellFormed(g) && OnBoard(from) && OnBoard(to) && At(g, from).Some? && IsSliding(At(g, from).value)
    ensures var p, target := At(g, from).value, At(g, to);
            ValidMove(g, from, to).Ok? <==>
              !(target.Some? && target.value.color == p.color) &&
              InTheWay(g, from, to) == Ok(false) && to in PossibleMoves(p)
  {
  }

  /** A sliding piece moving along a row or a column always gets "Piece in the way" (unless the
      target is its own colour), however empty the line is. */
  lemma OrthogonalSlideAlwaysBlocked(g: Grid, from: Square, to: Square)
    requires WellFormed(g) && OnBoard(from) && OnBoard(to) && At(g, from).Some? && IsSliding(At(g, from).value)
    requires from.row == to.row || from.col == to.col
    requires !(At(g, to).Some? && At(g, to).value.color == At(g, from).value.color)
    ensures ValidMove(g, from, to) == Raised(PieceInTheWay)
  {
    InTheWayOnLine(g, from, to);
  }

  /** Consequently a Rook never makes a valid move: every square its vectors reach shares its
      row or its column. */
  lemma RookNeverMoves(g: Grid, from: Square, to: Square)
    requires Consistent(g) && OnBoard(from) && OnBoard(to) && At(g, from).Some?
    requires At(g, from).value.NonPawn? && At(g, from).value.kind == Rook
    ensures !ValidMove(g, from, to).Ok?
  {
    var p := At(g, from).value;
    SlidingMoveValidIff(g, from, to);
    if to in PossibleMoves(p) {
      RookTargetsOnLine(p, to);
      InTheWayOnLine(g, from, to);
    }
  }

  /** A Bishop or a Queen moving k squares along a diagonal: the move is valid exactly when the
      target is not its own colour and every square strictly between is empty. */
  lemma DiagonalSlideValidIff(g: Grid, from: Square, v: Vector, k: int)
    requires Consistent(g) && OnBoard(from) && At(g, from).Some?
    requires var p := At(g, from).value; p.NonPawn? && (p.kind == Bishop || p.kind == Queen)
    requires IsDiagonal(v) && 1 <= k <= 7 && OnBoard(Along(from, v, k))
    ensures forall i :: 1 <= i <= k ==> OnBoard(Along(from, v, i))
    ensures var p, to := At(g, from).value, Along(from, v, k);
            ValidMove(g, from, to).Ok? <==>
              !(At(g, to).Some? && At(g, to).value.color == p.color) &&
              forall i :: 1 <= i < k ==> At(g, Along(from, v, i)).None?
  {
    var p, to := At(g, from).value, Along(from, v, k);
    InTheWayDiagonal(g, from, v, k);
    AlongIsShift(from, v, k);
    assert v in Vectors(p.kind);
    SlidingMovesExactly(p, to);
  }

  /** The walk can leave the board: a Bishop on [6, 0] asked to reach [7, 2] (not on its
      diagonal) with [7, 1] empty walks [7, 1], then [8, 2], and `@grid[8]` is nil. */
  lemma OffDiagonalWalkCrashes(g: Grid)
    requires WellFormed(g)
    requires At(g, Square(6, 0)) == Some(NonPawn(Bishop, White, Square(6, 0)))
    requires At(g, Square(7, 1)).None? && !(At(g, Square(7, 2)).Some? && At(g, Square(7, 2)).value.color == White)
    ensures Walk(Square(6, 0), Vector(1, 1), Square(7, 2)) == [Square(7, 1), Square(8, 2)]
    ensures ValidMove(g, Square(6, 0), Square(7, 2)) == Crashed
  {
    assert Walk(Square(8, 2), Vector(1, 1), Square(7, 2)) == [];
    assert Walk(Square(7, 1), Vector(1, 1), Square(7, 2)) == [Square(8, 2)];
    var w := [Square(7, 1), Square(8, 2)];
    assert InTheWay(g, Square(6, 0), Square(7, 2)) == AnyOccupied(g, w);
    assert RubyCell(g, w[0]) == Ok(None);
    assert RubyCell(g, Square(8, 2)) == Crashed;
    assert AnyOccupied(g, w) == AnyOccupied(g, w[1..]);
    assert w[1..] == [Square(8, 2)];
  }

  // ---------------------------------------------------------------------------
  // Properties of the enumeration

  lemma {:induction false} RowPiecesMembers(g: Grid, color: Color, row: int, n: int, p: Piece)
    requires Consistent(g) && 0 <= row < 8 && 0 <= n <= 8
    ensures p in RowPieces(g, color, row, n) <==>
            p.color == color && OnBoard(p.position) && At(g, p.position) == Some(p) &&
            p.position.row == row && p.position.col < n
  {
    if n > 0 {
      RowPiecesMembers(g, color, row, n - 1, p);
      if OnBoard(p.position) && p.position == Square(row, n - 1) {
        assert At(g, p.position) == g[row][n - 1];
      }
    }
  }

  /** The first `rows` rows contribute exactly the pieces of that colour standing in them. */
  lemma {:induction false} PiecesBeforeMembers(g: Grid, color: Color, rows: int, p: Piece)
    requires Consistent(g) && 0 <= rows <= 8
    ensures p in PiecesBefore(g, color, rows) <==>
            p.color == color && OnBoard(p.position) && At(g, p.position) == Some(p) && p.position.row < rows
  {
    if rows > 0 {
      PiecesBeforeMembers(g, color, rows - 1, p);
      RowPiecesMembers(g, color, rows - 1, 8, p);
    }
  }

  /** `get_pieces(color)` lists exactly the pieces of that colour on the board. */
  lemma PiecesOfMembers(g: Grid, color: Color, p: Piece)
    requires Consistent(g)
    ensures p in PiecesOf(g, color) <==> p.color == color && OnBoard(p.position) && At(g, p.position) == Some(p)
  {
    PiecesBeforeMembers(g, color, 8, p);
  }

  /** Once a King is found in a row, later cells of the row do not change the answer. */
  lemma {:induction false} KingInRowStable(g: Grid, color: Color, row: int, m: int, n: int)
    requires WellFormed(g) && 0 <= row < 8 && 0 <= m <= n <= 8
    requires KingInRow(g, color, row, m).Some?
    ensures KingInRow(g, color, row, n) == KingInRow(g, color, row, m)
    decreases n - m
  {
    if m < n {
      KingInRowStable(g, color, row, m, n - 1);
    }
  }

  /** Once a King is found, later rows do not change the answer. */
  lemma {:induction false} KingBeforeStable(g: Grid, color: Color, m: int, n: int)
    requires WellFormed(g) && 0 <= m <= n <= 8
    requires KingBefore(g, color, m).Some?
    ensures KingBefore(g, color, n) == KingBefore(g, color, m)
    decreases n - m
  {
    if m < n {
      KingBeforeStable(g, color, m, n - 1);
    }
  }

  lemma {:induction false} KingInRowNone(g: Grid, color: Color, row: int, n: int)
    requires WellFormed(g) && 0 <= row < 8 && 0 <= n <= 8
    requires forall c :: 0 <= c < n ==> !IsKingOf(g[row][c], color)
    ensures KingInRow(g, color, row, n) == None
  {
    if n > 0 {
      KingInRowNone(g, color, row, n - 1);
    }
  }

  lemma {:induction false} KingBeforeNone(g: Grid, color: Color, rows: int)
    requires WellFormed(g) && 0 <= rows <= 8
    requires forall r, c :: 0 <= r < rows && 0 <= c < 8 ==> !IsKingOf(g[r][c], color)
    ensures KingBefore(g, color, rows) == None
  {
    if rows > 0 {
      KingBeforeNone(g, color, rows - 1);
      KingInRowNone(g, color, rows - 1, 8);
    }
  }

  /** `get_king_position` answers the first square in board order holding a King of that colour. */
  lemma KingPositionIsFirst(g: Grid, color: Color, s: Square)
    requires Consistent(g) && OnBoard(s) && IsKingOf(At(g, s), color)
    requires forall r, c :: 0 <= r < 8 && 0 <= c < 8 && (r < s.row || (r == s.row && c < s.col)) ==>
               !IsKingOf(g[r][c], color)
    ensures KingPresent(g, color) && KingPosition(g, color) == s
  {
    KingBeforeNone(g, color, s.row);
    KingInRowNone(g, color, s.row, s.col);
    assert KingInRow(g, color, s.row, s.col + 1) == Some(s);
    KingInRowStable(g, color, s.row, s.col + 1, 8);
    assert KingBefore(g, color, s.row + 1) == Some(s);
    KingBeforeStable(g, color, s.row + 1, 8);
  }

  // ---------------------------------------------------------------------------
  // The starting position

  lemma InitialGridWellFormed()
    ensures WellFormed(InitialGrid())
    ensures forall r, c :: 0 <= r < 8 && 0 <= c < 8 ==> InitialGrid()[r][c] == InitialCell(r, c)
  {
  }

  /** Every piece `generate_pieces` creates records its own square, and rows 2 to 5 are empty. */
  lemma InitialLayout()
    ensures Consistent(InitialGrid())
    ensures forall s :: OnBoard(s) && 2 <= s.row <= 5 ==> At(InitialGrid(), s).None?
    ensures forall s :: OnBoard(s) && s.row <= 1 ==> At(InitialGrid(), s).Some? && At(InitialGrid(), s).value.color == Black
    ensures forall s :: OnBoard(s) && s.row >= 6 ==> At(InitialGrid(), s).Some? && At(InitialGrid(), s).value.color == White
  {
    InitialGridWellFormed();
  }

  /** `generate_pieces` places exactly one King of each colour: Black's on [0, 4], White's on [7, 4]. */
  lemma InitialKingsUnique()
    ensures forall s :: OnBoard(s) ==> (IsKingOf(At(InitialGrid(), s), Black) <==> s == Square(0, 4))
    ensures forall s :: OnBoard(s) ==> (IsKingOf(At(InitialGrid(), s), White) <==> s == Square(7, 4))
  {
    InitialGridWellFormed();
  }

  /** Each side starts with its King on column 4 of its back rank; `get_king_position` finds it. */
  lemma InitialKings()
    ensures Consistent(InitialGrid())
    ensures KingPresent(InitialGrid(), Black) && KingPosition(InitialGrid(), Black) == Square(0, 4)
    ensures KingPresent(InitialGrid(), White) && KingPosition(InitialGrid(), White) == Square(7, 4)
  {
    InitialLayout();
    KingPositionIsFirst(InitialGrid(), Black, Square(0, 4));
    KingPositionIsFirst(InitialGrid(), White, Square(7, 4));
  }

  // ---------------------------------------------------------------------------
  // Properties of `check?`

  /** The scan ends false exactly when every piece raised. */
  lemma {:induction false} AttackScanFalse(g: Grid, king: Square, ps: seq<Piece>)
    requires WellFormed(g) && OnBoard(king)
    requires forall p :: p in ps ==> OnBoard(p.position) && At(g, p.position) == Some(p)
    ensures AttackScan(g, king, ps) == Ok(false) <==> forall p :: p in ps ==> ValidMove(g, p.position, king).Raised?
  {
    if ps != [] {
      var rest := ps[1..];
      assert forall p :: p in ps <==> p == ps[0] || p in rest;
      AttackScanFalse(g, king, rest);
    }
  }

  /** The scan ends true only when some piece passed `valid_move?`. */
  lemma {:induction false} AttackScanTrue(g: Grid, king: Square, ps: seq<Piece>)
    requires WellFormed(g) && OnBoard(king)
    requires forall p :: p in ps ==> OnBoard(p.position) && At(g, p.position) == Some(p)
    ensures AttackScan(g, king, ps) == Ok(true) ==> exists p :: p in ps && ValidMove(g, p.position, king).Ok?
  {
    if ps != [] {
      var rest := ps[1..];
      assert forall p :: p in rest ==> p in ps;
      AttackScanTrue(g, king, rest);
    }
  }

  /** `check?(color)` is false exactly when every opposing piece raises a MoveError trying to
      reach color's King, and true only when one of them passes `valid_move?`. */
  lemma InCheckExact(g: Grid, color: Color)
    requires Consistent(g) && KingPresent(g, color)
    ensures var k := KingPosition(g, color);
            (InCheck(g, color) == Ok(false) <==>
              forall s :: OnBoard(s) && At(g, s).Some? && At(g, s).value.color == Opponent(color) ==>
                ValidMove(g, s, k).Raised?) &&
            (InCheck(g, color) == Ok(true) ==>
              exists s :: OnBoard(s) && At(g, s).Some? && At(g, s).value.color == Opponent(color) &&
                ValidMove(g, s, k).Ok?) &&
            ((exists s :: OnBoard(s) && At(g, s).Some? && At(g, s).value.color == Opponent(color) &&
                ValidMove(g, s, k).Ok?) ==>
              InCheck(g, color) != Ok(false))
  {
    var k, ps := KingPosition(g, color), PiecesOf(g, Opponent(color));
    AttackScanFalse(g, k, ps);
    AttackScanTrue(g, k, ps);
    if InCheck(g, color) == Ok(false) {
      forall s | OnBoard(s) && At(g, s).Some? && At(g, s).value.color == Opponent(color)
        ensures ValidMove(g, s, k).Raised?
      {
        PiecesOfMembers(g, Opponent(color), At(g, s).value);
      }
    }
  }

  /** Only a sliding piece can make `check?` fail: with none among the opponent's pieces it
      always answers. */
  lemma {:induction false} AttackScanWithoutSlidersAnswers(g: Grid, king: Square, ps: seq<Piece>)
    requires WellFormed(g) && OnBoard(king)
    requires forall p :: p in ps ==> OnBoard(p.position) && At(g, p.position) == Some(p) && !IsSliding(p)
    ensures AttackScan(g, king, ps).Ok?
  {
    if ps != [] {
      assert ps[0] in ps;
      AttackScanWithoutSlidersAnswers(g, king, ps[1..]);
    }
  }

  /** The scan crashes only when some piece's `valid_move?` crashes, and it does crash when one
      does and none passes: the rescue in `check?` catches MoveError and nothing else. */
  lemma {:induction false} AttackScanCrashed(g: Grid, king: Square, ps: seq<Piece>)
    requires WellFormed(g) && OnBoard(king)
    requires forall p :: p in ps ==> OnBoard(p.position) && At(g, p.position) == Some(p)
    ensures AttackScan(g, king, ps) == Crashed ==> exists p :: p in ps && ValidMove(g, p.position, king) == Crashed
    ensures (forall p :: p in ps ==> !ValidMove(g, p.position, king).Ok?) &&
            (exists p :: p in ps && ValidMove(g, p.position, king) == Crashed) ==>
              AttackScan(g, king, ps) == Crashed
  {
    if ps != [] {
      var rest := ps[1..];
      assert forall p :: p in ps <==> p == ps[0] || p in rest;
      AttackScanCrashed(g, king, rest);
    }
  }

  // ---------------------------------------------------------------------------
  // Properties of `move`

  lemma CommitPreservesConsistent(g: Grid, from: Square, to: Square, p: Piece)
    requires Consistent(g) && OnBoard(from) && OnBoard(to) && At(g, from) == Some(p)
    ensures Consistent(Commit(g, from, to, p))
  {
    var r: Grid := Commit(g, from, to, p);
    MoveChangesOnlyPosition(p, to);
    forall row: int, col: int | 0 <= row < 8 && 0 <= col < 8 && r[row][col].Some?
      ensures r[row][col].value.position == Square(row, col) && PieceValid(r[row][col].value)
    {
      assert r[row][col] == At(r, Square(row, col));
      assert g[row][col] == At(g, Square(row, col));
    }
  }

  /** A piece can never move onto its own square: `valid_move?` sees its own colour there. */
  lemma ValidMoveLeavesSquare(g: Grid, from: Square, to: Square)
    requires WellFormed(g) && OnBoard(from) && OnBoard(to) && At(g, from).Some?
    requires ValidMove(g, from, to).Ok?
    ensures from != to
  {
  }

  /** `move` succeeds exactly when a piece stands on `from`, `valid_move?` passes, and the mover
      is not in check before the move; the piece then leaves `from` for `to`, carrying `to` as
      its position, every other square is unchanged, and the grid stays consistent. */
  lemma MoveSucceedsIff(g: Grid, from: Square, to: Square)
    requires Consistent(g) && OnBoard(from) && OnBoard(to)
    requires At(g, from).Some? ==> KingPresent(g, At(g, from).value.color)
    ensures MoveOutcome(g, from, to).Ok? <==>
            At(g, from).Some? && ValidMove(g, from, to).Ok? && InCheck(g, At(g, from).value.color) == Ok(false)
    ensures MoveOutcome(g, from, to).Ok? ==>
              var g', p := MoveOutcome(g, from, to).value, At(g, from).value;
              Consistent(g') && At(g', from) == None && At(g', to) == Some(MovePiece(p, to)) &&
              forall s :: OnBoard(s) && s != from && s != to ==> At(g', s) == At(g, s)
  {
    if MoveOutcome(g, from, to).Ok? {
      ValidMoveLeavesSquare(g, from, to);
      CommitPreservesConsistent(g, from, to, At(g, from).value);
    }
  }

  /** A player in check cannot move at all: every move either fails validation or raises
      "This leaves ... in check!", because `check?` looks at the board before the move. */
  lemma NoMoveOutOfCheck(g: Grid, from: Square, to: Square)
    requires Consistent(g) && OnBoard(from) && OnBoard(to) && At(g, from).Some?
    requires KingPresent(g, At(g, from).value.color)
    requires InCheck(g, At(g, from).value.color) == Ok(true)
    ensures !MoveOutcome(g, from, to).Ok?
    ensures ValidMove(g, from, to).Ok? ==> MoveOutcome(g, from, to) == Raised(LeavesInCheck)
  {
  }

  /** The board of `ValidMoveCrashesInCheck`: Black King [0, 0], Black Bishop [5, 0], White King
      [7, 4], White Knight [7, 6], and every other square empty. */
  ghost predicate CrashBoard(g: Grid)
  {
    Consistent(g) &&
    At(g, Square(0, 0)) == Some(NonPawn(King, Black, Square(0, 0))) &&
    At(g, Square(5, 0)) == Some(NonPawn(Bishop, Black, Square(5, 0))) &&
    At(g, Square(7, 4)) == Some(NonPawn(King, White, Square(7, 4))) &&
    At(g, Square(7, 6)) == Some(NonPawn(Knight, White, Square(7, 6))) &&
    forall s :: OnBoard(s) && At(g, s).Some? ==>
      s == Square(0, 0) || s == Square(5, 0) || s == Square(7, 4) || s == Square(7, 6)
  }

  /** A Knight on [7, 6] lists [5, 5] among its possible moves. */
  lemma KnightReachesFiveFive(knight: Piece)
    requires knight.NonPawn? && knight.kind == Knight && knight.position == Square(7, 6)
    ensures Square(5, 5) in PossibleMoves(knight)
  {
    var raw := RawMoves(knight, false);
    assert raw[6] == Square(5, 5);
    OnBoardOnlyMembers(raw);
  }

  /** A White Knight on [7, 6] may move to an empty [5, 5]. */
  lemma CrashBoardKnightMove(g: Grid)
    requires WellFormed(g)
    requires At(g, Square(7, 6)) == Some(NonPawn(Knight, White, Square(7, 6))) && At(g, Square(5, 5)).None?
    ensures ValidMove(g, Square(7, 6), Square(5, 5)) == Ok(true)
  {
    KnightReachesFiveFive(At(g, Square(7, 6)).value);
    SteppingMoveValidIff(g, Square(7, 6), Square(5, 5));
  }

  /** On that board White's King stands on [7, 4]. */
  lemma CrashBoardWhiteKing(g: Grid)
    requires CrashBoard(g)
    ensures KingPresent(g, White) && KingPosition(g, White) == Square(7, 4)
  {
    forall r, c | 0 <= r < 8 && 0 <= c < 8 && (r < 7 || (r == 7 && c < 4))
      ensures !IsKingOf(g[r][c], White)
    {
      assert g[r][c] == At(g, Square(r, c));
    }
    KingPositionIsFirst(g, White, Square(7, 4));
  }

  /** A Black King on [0, 0] cannot reach [7, 4]. */
  lemma CrashBoardBlackKing(g: Grid)
    requires WellFormed(g) && At(g, Square(0, 0)) == Some(NonPawn(King, Black, Square(0, 0)))
    ensures ValidMove(g, Square(0, 0), Square(7, 4)).Raised?
  {
    KingMovesAdjacent(At(g, Square(0, 0)).value);
    SteppingMoveValidIff(g, Square(0, 0), Square(7, 4));
  }

  /** A Black Bishop on [5, 0] tested against White's [7, 4], with [6, 1] and [7, 2] empty, walks
      [6, 1], [7, 2], [8, 3] and reads row 8, which is nil. */
  lemma CrashBoardBishop(g: Grid)
    requires WellFormed(g) && At(g, Square(5, 0)) == Some(NonPawn(Bishop, Black, Square(5, 0)))
    requires At(g, Square(7, 4)).Some? && At(g, Square(7, 4)).value.color == White
    requires At(g, Square(6, 1)).None? && At(g, Square(7, 2)).None?
    ensures ValidMove(g, Square(5, 0), Square(7, 4)) == Crashed
  {
    assert Walk(Square(8, 3), Vector(1, 1), Square(7, 4)) == [];
    assert Walk(Square(7, 2), Vector(1, 1), Square(7, 4)) == [Square(8, 3)];
    assert Walk(Square(6, 1), Vector(1, 1), Square(7, 4)) == [Square(7, 2), Square(8, 3)];
    var w := [Square(6, 1), Square(7, 2), Square(8, 3)];
    assert InTheWay(g, Square(5, 0), Square(7, 4)) == AnyOccupied(g, w);
    assert AnyOccupied(g, w) == AnyOccupied(g, w[1..]);
    assert AnyOccupied(g, w[1..]) == AnyOccupied(g, w[2..]);
    assert w[2..] == [Square(8, 3)];
  }

  /** On that board `get_pieces(:black)` lists the King and the Bishop and nothing else. */
  lemma CrashBoardBlackPieces(g: Grid)
    requires CrashBoard(g)
    ensures forall p :: p in PiecesOf(g, Black) ==>
              p == NonPawn(King, Black, Square(0, 0)) || p == NonPawn(Bishop, Black, Square(5, 0))
    ensures NonPawn(Bishop, Black, Square(5, 0)) in PiecesOf(g, Black)
  {
    forall p | p in PiecesOf(g, Black)
      ensures p == NonPawn(King, Black, Square(0, 0)) || p == NonPawn(Bishop, Black, Square(5, 0))
    {
      PiecesOfMembers(g, Black, p);
    }
    PiecesOfMembers(g, Black, NonPawn(Bishop, Black, Square(5, 0)));
  }

  /** On that board White's `check?` crashes: Black's pieces are the King, which raises, and the
      Bishop, whose walk crashes. */
  lemma CrashBoardInCheck(g: Grid)
    requires CrashBoard(g)
    ensures KingPresent(g, White) && InCheck(g, White) == Crashed
  {
    CrashBoardWhiteKing(g);
    assert At(g, Square(6, 1)).None? && At(g, Square(7, 2)).None?;
    CrashBoardBlackKing(g);
    CrashBoardBishop(g);
    CrashBoardBlackPieces(g);
    var ps, k := PiecesOf(g, Black), Square(7, 4);
    PiecesOfOnGrid(g, Black);
    assert forall p :: p in ps ==> !ValidMove(g, p.position, k).Ok?;
    assert NonPawn(Bishop, Black, Square(5, 0)) in ps && ValidMove(g, Square(5, 0), k) == Crashed;
    AttackScanCrashed(g, k, ps);
  }

  /** A legal move can end the game with a NoMethodError: `move` asks `check?` after
      `valid_move?` passes, and on `CrashBoard` White's `check?` crashes on the Bishop's walk. */
  lemma ValidMoveCrashesInCheck(g: Grid)
    requires CrashBoard(g)
    ensures ValidMove(g, Square(7, 6), Square(5, 5)) == Ok(true)
    ensures KingPresent(g, White) && InCheck(g, White) == Crashed
    ensures MoveOutcome(g, Square(7, 6), Square(5, 5)) == Crashed
  {
    assert At(g, Square(5, 5)).None?;
    CrashBoardKnightMove(g);
    CrashBoardInCheck(g);
  }

  // ---------------------------------------------------------------------------
  // Properties of `checkmate?`

  lemma {:induction false} MovesFromMembers(g: Grid, p: Piece, ms: seq<Square>, x: Candidate)
    requires WellFormed(g) && OnBoard(p.position) && At(g, p.position) == Some(p)
    requires forall m :: m in ms ==> OnBoard(m)
    ensures x in MovesFrom(g, p, ms) <==> x.from == p.position && x.to in ms && ValidMove(g, x.from, x.to).Ok?
  {
    if ms != [] {
      var init, last := ms[..|ms| - 1], ms[|ms| - 1];
      assert ms == init + [last];
      MovesFromMembers(g, p, init, x);
      assert MovesFrom(g, p, ms) ==
             MovesFrom(g, p, init) + (if ValidMove(g, p.position, last).Ok? then [Candidate(p.position, last)] else []);
    }
  }

  lemma {:induction false} CandidatesOfMembers(g: Grid, ps: seq<Piece>, x: Candidate)
    requires WellFormed(g)
    requires forall p :: p in ps ==> OnBoard(p.position) && At(g, p.position) == Some(p)
    ensures x in CandidatesOf(g, ps) <==>
            exists p :: p in ps && x.from == p.position && x.to in PossibleMoves(p) && ValidMove(g, x.from, x.to).Ok?
  {
    if ps != [] {
      var init, last := ps[..|ps| - 1], ps[|ps| - 1];
      assert forall p :: p in ps <==> p in init || p == last by {
        assert ps == init + [last];
      }
      CandidatesOfMembers(g, init, x);
      MovesFromMembers(g, last, PossibleMoves(last), x);
    }
  }

  /** Taking one more square of ms appends it when `valid_move?` accepts it. */
  lemma MovesFromPrefix(g: Grid, p: Piece, ms: seq<Square>, j: int)
    requires WellFormed(g) && OnBoard(p.position) && At(g, p.position) == Some(p)
    requires forall m :: m in ms ==> OnBoard(m)
    requires 0 <= j < |ms|
    ensures MovesFrom(g, p, ms[..j + 1]) ==
            MovesFrom(g, p, ms[..j]) + (if ValidMove(g, p.position, ms[j]).Ok? then [Candidate(p.position, ms[j])] else [])
  {
    assert ms[..j + 1][..j] == ms[..j];
  }

  /** Taking one more piece of ps appends that piece's valid moves. */
  lemma CandidatesOfPrefix(g: Grid, ps: seq<Piece>, i: int)
    requires WellFormed(g) && 0 <= i < |ps|
    requires forall q :: q in ps ==> OnBoard(q.position) && At(g, q.position) == Some(q)
    ensures CandidatesOf(g, ps[..i + 1]) == CandidatesOf(g, ps[..i]) + MovesFrom(g, ps[i], PossibleMoves(ps[i]))
  {
    assert ps[..i + 1][..i] == ps[..i];
  }

  /** The candidates of `checkmate?` are exactly the moves of color's pieces to squares their
      `possible_moves` list that pass `valid_move?`. */
  lemma CandidatesExact(g: Grid, color: Color, x: Candidate)
    requires Consistent(g)
    ensures x in Candidates(g, color) <==>
            OnBoard(x.from) && At(g, x.from).Some? && At(g, x.from).value.color == color &&
            x.to in PossibleMoves(At(g, x.from).value) && ValidMove(g, x.from, x.to).Ok?
  {
    var ps := PiecesOf(g, color);
    CandidatesOfMembers(g, ps, x);
    if OnBoard(x.from) && At(g, x.from).Some? {
      PiecesOfMembers(g, color, At(g, x.from).value);
    }
  }

  /** Testing a square from `possible_moves` never makes `valid_move?` fail: a sliding piece's
      target lies on a row, a column or a diagonal through it, so the walk stays on the board. */
  lemma PossibleMoveNeverCrashes(g: Grid, p: Piece, m: Square)
    requires Consistent(g) && OnBoard(p.position) && At(g, p.position) == Some(p)
    requires m in PossibleMoves(p)
    ensures !ValidMove(g, p.position, m).Crashed?
  {
    if IsSliding(p) {
      SlidingMoveNeverCrashes(g, p, m);
      assert ValidMove(g, p.position, m) == ValidNonpawnMove(g, p, p.position, m);
    }
  }

  /** The sliding half of the above: the target lies on one of the piece's lines. */
  lemma SlidingMoveNeverCrashes(g: Grid, p: Piece, m: Square)
    requires WellFormed(g) && OnBoard(p.position) && OnBoard(m) && IsSliding(p)
    requires m in PossibleMoves(p)
    ensures !ValidNonpawnMove(g, p, p.position, m).Crashed?
  {
    SlidingMovesExactly(p, m);
    var v, k :| v in Vectors(p.kind) && 1 <= k <= 7 && m == Shift(p.position, v, k);
    SlidingVectorIsQueens(p.kind, v);
    SlidingTargetNeverCrashes(g, p.position, v, k);
  }

  /** A Queen has every vector of a Bishop and of a Rook. */
  lemma SlidingVectorIsQueens(k: Kind, v: Vector)
    requires IsSlidingKind(k) && v in Vectors(k)
    ensures v in Vectors(Queen)
  {
  }

  lemma SlidingTargetNeverCrashes(g: Grid, from: Square, v: Vector, k: int)
    requires WellFormed(g) && OnBoard(from) && OnBoard(Shift(from, v, k)) && 1 <= k
    requires v in Vectors(Queen)
    ensures InTheWay(g, from, Shift(from, v, k)).Ok?
  {
    if IsDiagonal(v) {
      AlongIsShift(from, v, k);
      InTheWayDiagonal(g, from, v, k);
    } else {
      assert v.dr == 0 || v.dc == 0;
      assert Shift(from, v, k).row == from.row || Shift(from, v, k).col == from.col;
    }
  }

  /** `checkmate?` decides on its first candidate: with no candidate it is true; otherwise that
      candidate passes `valid_move?` again on the copy, so `move` raises exactly when the mover
      is in check, and the answer is `check?(color)`. */
  lemma CheckmateByFirstCandidate(g: Grid, color: Color)
    requires Consistent(g) && KingPresent(g, color)
    ensures Checkmate(g, color) == if Candidates(g, color) == [] then Ok(true) else InCheck(g, color)
  {
    var cs := Candidates(g, color);
    if cs != [] {
      assert cs[0] in cs;
    }
  }
}
