/** The pieces of the engine: their colour, their square, and the squares their
    movement geometry offers, before any look at the board. Ruby's class
    hierarchy (SlidingPiece, SteppingPiece, Pawn) becomes a datatype with a kind
    tag; a Pawn carries its mutable list of quiet offsets. */
module Pieces {

  datatype Color = Black | White

  function Opponent(c: Color): (o: Color)
    ensures o != c
  {
    if c == White then Black else White
  }

  /** A square, or a candidate square before it is filtered: Ruby's [row, column] pair. */
  datatype Square = Square(row: int, col: int)

  /** A direction vector or a step offset: [row delta, column delta]. */
  datatype Vector = Vector(dr: int, dc: int)

  /** The coordinate test shared by `position_on_board?` and `possible_moves_on_board`. */
  predicate OnBoard(s: Square)
  {
    0 <= s.row <= 7 && 0 <= s.col <= 7
  }

  /** `pos + k * v`. */
  function Shift(pos: Square, v: Vector, k: int): Square
  {
    Square(pos.row + k * v.dr, pos.col + k * v.dc)
  }

  /** The kinds that are not pawns. Queen, Bishop and Rook slide; Knight and King step. */
  datatype Kind = Queen | Bishop | Rook | Knight | King

  predicate IsSlidingKind(k: Kind)
  {
    k == Queen || k == Bishop || k == Rook
  }

  datatype Piece =
    | NonPawn(kind: Kind, color: Color, position: Square)
    | Pawn(color: Color, position: Square, moveDiff: seq<Vector>)

  predicate IsSliding(p: Piece)
  {
    p.NonPawn? && IsSlidingKind(p.kind)
  }

  /** `@move_vector` of a sliding kind, `@move_diff` of a stepping kind, in source order. */
  function Vectors(k: Kind): seq<Vector>
  {
    match k
    case Queen => [Vector(1, 1), Vector(1, -1), Vector(-1, 1), Vector(-1, -1),
                   Vector(1, 0), Vector(-1, 0), Vector(0, 1), Vector(0, -1)]
    case Bishop => [Vector(1, 1), Vector(1, -1), Vector(-1, 1), Vector(-1, -1)]
    case Rook => [Vector(1, 0), Vector(-1, 0), Vector(0, 1), Vector(0, -1)]
    case Knight => [Vector(1, 2), Vector(-1, 2), Vector(2, 1), Vector(2, -1),
                    Vector(1, -2), Vector(-1, -2), Vector(-2, -1), Vector(-2, 1)]
    case King => [Vector(1, 1), Vector(1, -1), Vector(-1, 1), Vector(-1, -1),
                  Vector(1, 0), Vector(-1, 0), Vector(0, 1), Vector(0, -1)]
  }

  /** The row direction a pawn of colour c advances in. */
  function Forward(c: Color): int
  {
    if c == Black then 1 else -1
  }

  /** A new pawn's `@move_diff`: one and two squares forward. */
  function InitialMoveDiff(c: Color): (md: seq<Vector>)
    ensures |md| == 2 && md[0] == Vector(Forward(c), 0) && md[1] == Vector(2 * Forward(c), 0)
  {
    if c == Black then [Vector(1, 0), Vector(2, 0)] else [Vector(-1, 0), Vector(-2, 0)]
  }

  /** A pawn's `@capture_diff`: the two forward diagonals. It is never changed. */
  function CaptureDiff(c: Color): (cd: seq<Vector>)
    ensures |cd| == 2 && cd[0] != cd[1]
    ensures forall v :: v in cd ==> v.dr == Forward(c) && (v.dc == 1 || v.dc == -1)
  {
    if c == Black then [Vector(1, 1), Vector(1, -1)] else [Vector(-1, 1), Vector(-1, -1)]
  }

  /** `Pawn.new(position, color)`. */
  function NewPawn(pos: Square, c: Color): (q: Piece)
    ensures q.Pawn? && q.position == pos && q.color == c && |q.moveDiff| == 2 && PieceValid(q)
  {
    Pawn(c, pos, InitialMoveDiff(c))
  }

  /** The states a pawn's `@move_diff` can be in: as created, or after its last entry was popped. */
  predicate PieceValid(p: Piece)
  {
    p.Pawn? ==> p.moveDiff == InitialMoveDiff(p.color) || p.moveDiff == InitialMoveDiff(p.color)[..1]
  }

  /** `possible_moves_on_board`: keeps the on-board squares, in order. */
  function OnBoardOnly(s: seq<Square>): (r: seq<Square>)
    ensures |r| <= |s|
  {
    if s == [] then [] else (if OnBoard(s[0]) then [s[0]] else []) + OnBoardOnly(s[1..])
  }

  /** The filter keeps exactly the on-board squares of its input. */
  lemma {:induction false} OnBoardOnlyMembers(s: seq<Square>)
    ensures forall x :: x in OnBoardOnly(s) <==> x in s && OnBoard(x)
  {
    if s != [] {
      OnBoardOnlyMembers(s[1..]);
    }
  }

  /** `pos + d`: the square one offset of a stepping piece or a pawn leads to. */
  function Step(pos: Square, d: Vector): Square
  {
    Square(pos.row + d.dr, pos.col + d.dc)
  }

  /** The seven squares `pos + i * v` for i = 1 .. 7, in increasing i. */
  function Ray(pos: Square, v: Vector): (r: seq<Square>)
    ensures |r| == 7
  {
    seq(7, i => Shift(pos, v, i + 1))
  }

  /** The unfiltered list a sliding piece builds: seven squares per vector, vector by vector. */
  function Rays(pos: Square, vs: seq<Vector>): (r: seq<Square>)
    ensures |r| == 7 * |vs|
  {
    if vs == [] then [] else Ray(pos, vs[0]) + Rays(pos, vs[1..])
  }

  /** The unfiltered list a stepping piece or a pawn builds: one square per offset, in order. */
  function Steps(pos: Square, ds: seq<Vector>): (r: seq<Square>)
    ensures |r| == |ds|
  {
    seq(|ds|, i requires 0 <= i < |ds| => Step(pos, ds[i]))
  }

  /** The list `possible_moves` builds before filtering it. */
  function RawMoves(p: Piece, capturing: bool): seq<Square>
  {
    match p
    case NonPawn(k, _, pos) => if IsSlidingKind(k) then Rays(pos, Vectors(k)) else Steps(pos, Vectors(k))
    case Pawn(c, pos, md) => Steps(pos, if capturing then CaptureDiff(c) else md)
  }

  /** How long the unfiltered list is: seven squares per vector for a sliding piece, eight
      for a Knight or a King, one per offset for a pawn. */
  lemma RawMovesCount(p: Piece, capturing: bool)
    ensures IsSliding(p) ==> |RawMoves(p, capturing)| == 7 * |Vectors(p.kind)|
    ensures p.NonPawn? && !IsSlidingKind(p.kind) ==> |RawMoves(p, capturing)| == 8
    ensures p.Pawn? ==> |RawMoves(p, capturing)| == if capturing then 2 else |p.moveDiff|
  {
  }

  /** `possible_moves`, and for a pawn `possible_moves(capturing)`; only a pawn takes the flag. */
  function PossibleMoves(p: Piece, capturing: bool := false): (r: seq<Square>)
    requires !capturing || p.Pawn?
    ensures forall x :: x in r ==> OnBoard(x)
  {
    OnBoardOnlyMembers(RawMoves(p, capturing));
    OnBoardOnly(RawMoves(p, capturing))
  }

  /** `Piece#move` and `Pawn#move`: the position becomes `to`; a pawn that still has
      two quiet offsets pops the last one. */
  function MovePiece(p: Piece, to: Square): (q: Piece)
    ensures q.position == to && q.color == p.color
  {
    match p
    case NonPawn(k, c, _) => NonPawn(k, c, to)
    case Pawn(c, _, md) => Pawn(c, to, if |md| == 2 then md[..1] else md)
  }

  /** `dup`: a new piece of the same class built from a copy of the position and the
      colour; a pawn then takes a copy of the original's `@move_diff`. */
  function Dup(p: Piece): (q: Piece)
    ensures q == p
  {
    match p
    case NonPawn(k, c, pos) => NonPawn(k, c, Square(pos.row, pos.col))
    case Pawn(c, pos, md) => NewPawn(Square(pos.row, pos.col), c).(moveDiff := md)
  }

  // ---------------------------------------------------------------------------
  // Properties of the geometry

  /** Filtering a concatenation filters each part: the filter keeps the original order. */
  lemma {:induction false} OnBoardOnlyAppend(a: seq<Square>, b: seq<Square>)
    ensures OnBoardOnly(a + b) == OnBoardOnly(a) + OnBoardOnly(b)
  {
    if a == [] {
      assert a + b == b;
    } else {
      var head := if OnBoard(a[0]) then [a[0]] else [];
      var x, y := OnBoardOnly(a[1..]), OnBoardOnly(b);
      assert (a + b)[0] == a[0];
      assert (a + b)[1..] == a[1..] + b;
      OnBoardOnlyAppend(a[1..], b);
      assert OnBoardOnly(a + b) == head + (x + y);
      assert head + (x + y) == (head + x) + y;
    }
  }


  lemma RayMembers(pos: Square, v: Vector, x: Square)
    ensures x in Ray(pos, v) <==> exists i :: 1 <= i <= 7 && x == Shift(pos, v, i)
  {
    if exists i :: 1 <= i <= 7 && x == Shift(pos, v, i) {
      var i :| 1 <= i <= 7 && x == Shift(pos, v, i);
      assert Ray(pos, v)[i - 1] == x;
    }
  }

  lemma {:induction false} RaysMembers(pos: Square, vs: seq<Vector>, x: Square)
    ensures x in Rays(pos, vs) <==> exists v, i :: v in vs && 1 <= i <= 7 && x == Shift(pos, v, i)
  {
    if vs != [] {
      RayMembers(pos, vs[0], x);
      RaysMembers(pos, vs[1..], x);
      if x in Rays(pos, vs) {
        if x in Ray(pos, vs[0]) {
          var i :| 1 <= i <= 7 && x == Shift(pos, vs[0], i);
          assert vs[0] in vs;
        } else {
          var v, i :| v in vs[1..] && 1 <= i <= 7 && x == Shift(pos, v, i);
          assert v in vs;
        }
      } else {
        forall v, i | v in vs && 1 <= i <= 7
          ensures x != Shift(pos, v, i)
        {
          if v != vs[0] {
            assert v in vs[1..];
          }
        }
      }
    }
  }

  /** The vectors of each kind: four for a Bishop or a Rook, eight otherwise, never the null
      vector; a Bishop's are diagonal, a Rook's orthogonal, each of a Queen's and a King's
      reaches a neighbouring square, and a Knight's are the (1, 2) and (2, 1) jumps. */
  lemma VectorsShape(k: Kind)
    ensures |Vectors(k)| == if k == Bishop || k == Rook then 4 else 8
    ensures forall v :: v in Vectors(k) ==> v != Vector(0, 0)
    ensures IsSlidingKind(k) || k == King ==> forall v :: v in Vectors(k) ==> -1 <= v.dr <= 1 && -1 <= v.dc <= 1
    ensures k == Bishop ==> forall v :: v in Vectors(k) ==> v.dr != 0 && v.dc != 0
    ensures k == Rook ==> forall v :: v in Vectors(k) ==> v.dr == 0 || v.dc == 0
    ensures k == Knight ==> forall v :: v in Vectors(k) ==>
              ((v.dr == 1 || v.dr == -1) && (v.dc == 2 || v.dc == -2)) ||
              ((v.dr == 2 || v.dr == -2) && (v.dc == 1 || v.dc == -1))
  {
  }

  /** A sliding piece offers exactly the on-board squares `pos + k * v`, v one of its
      vectors and k in 1..7. */
  lemma SlidingMovesExactly(p: Piece, x: Square)
    requires IsSliding(p)
    ensures x in PossibleMoves(p) <==>
            OnBoard(x) && exists v, k :: v in Vectors(p.kind) && 1 <= k <= 7 && x == Shift(p.position, v, k)
  {
    RaysMembers(p.position, Vectors(p.kind), x);
    OnBoardOnlyMembers(RawMoves(p, false));
  }

  /** Every square a Rook's vectors reach shares its row or its column. */
  lemma RookTargetsOnLine(p: Piece, to: Square)
    requires p.NonPawn? && p.kind == Rook && to in PossibleMoves(p)
    ensures to.row == p.position.row || to.col == p.position.col
  {
    SlidingMovesExactly(p, to);
    var v, k :| v in Vectors(Rook) && 1 <= k <= 7 && to == Shift(p.position, v, k);
    if v.dr == 0 {
      assert k * v.dr == 0;
    } else {
      assert v.dc == 0;
      assert k * v.dc == 0;
    }
  }

  /** A sliding piece never offers its own square. */
  lemma SlidingExcludesOwnSquare(p: Piece)
    requires IsSliding(p)
    ensures p.position !in PossibleMoves(p)
  {
    SlidingMovesExactly(p, p.position);
  }

  lemma {:induction false} AllOnBoard(s: seq<Square>)
    requires forall x :: x in s ==> OnBoard(x)
    ensures OnBoardOnly(s) == s
  {
    if s != [] {
      AllOnBoard(s[1..]);
    }
  }

  lemma {:induction false} NoneOnBoard(s: seq<Square>)
    requires forall x :: x in s ==> !OnBoard(x)
    ensures OnBoardOnly(s) == []
  {
    if s != [] {
      NoneOnBoard(s[1..]);
    }
  }

  /** Filtering a list whose front lies wholly off the board filters only the rest. */
  lemma FilterDropFront(a: seq<Square>, b: seq<Square>)
    requires forall x :: x in a ==> !OnBoard(x)
    ensures OnBoardOnly(a + b) == OnBoardOnly(b)
  {
    OnBoardOnlyAppend(a, b);
    NoneOnBoard(a);
  }

  /** Filtering a list whose front lies wholly on the board keeps that front. */
  lemma FilterKeepFront(a: seq<Square>, b: seq<Square>)
    requires forall x :: x in a ==> OnBoard(x)
    ensures OnBoardOnly(a + b) == a + OnBoardOnly(b)
  {
    OnBoardOnlyAppend(a, b);
    AllOnBoard(a);
  }

  /** Filtering four parts of which the second and the fourth lie wholly off the board. */
  lemma FilterFour(a: seq<Square>, b: seq<Square>, c: seq<Square>, d: seq<Square>)
    requires forall x :: x in a ==> OnBoard(x)
    requires forall x :: x in b ==> !OnBoard(x)
    requires forall x :: x in c ==> OnBoard(x)
    requires forall x :: x in d ==> !OnBoard(x)
    ensures OnBoardOnly(a + (b + (c + (d + [])))) == a + c
  {
    FilterDropFront(d, []);
    FilterKeepFront(c, d + []);
    FilterDropFront(b, c + (d + []));
    FilterKeepFront(a, b + (c + (d + [])));
  }

  lemma RaysOfFour(pos: Square, vs: seq<Vector>)
    requires |vs| == 4
    ensures Rays(pos, vs) == Ray(pos, vs[0]) + (Ray(pos, vs[1]) + (Ray(pos, vs[2]) + (Ray(pos, vs[3]) + [])))
  {
    var vs1, vs2, vs3 := vs[1..], vs[2..], vs[3..];
    assert vs1[1..] == vs2 && vs2[1..] == vs3 && vs3[1..] == [];
    assert Rays(pos, vs3) == Ray(pos, vs[3]) + [];
    assert Rays(pos, vs2) == Ray(pos, vs[2]) + Rays(pos, vs3);
    assert Rays(pos, vs1) == Ray(pos, vs[1]) + Rays(pos, vs2);
  }

  /** The four rays of a Rook on [0, 0], in source order. */
  lemma RookCornerRays(o: Square, vs: seq<Vector>)
    requires o == Square(0, 0) && vs == Vectors(Rook)
    ensures Ray(o, vs[0]) == [Square(1, 0), Square(2, 0), Square(3, 0), Square(4, 0), Square(5, 0), Square(6, 0), Square(7, 0)]
    ensures Ray(o, vs[1]) == [Square(-1, 0), Square(-2, 0), Square(-3, 0), Square(-4, 0), Square(-5, 0), Square(-6, 0), Square(-7, 0)]
    ensures Ray(o, vs[2]) == [Square(0, 1), Square(0, 2), Square(0, 3), Square(0, 4), Square(0, 5), Square(0, 6), Square(0, 7)]
    ensures Ray(o, vs[3]) == [Square(0, -1), Square(0, -2), Square(0, -3), Square(0, -4), Square(0, -5), Square(0, -6), Square(0, -7)]
  {
  }

  /** The filter applied to the four rays of a Rook on [0, 0]. */
  lemma RookCornerFilter(r0: seq<Square>, r1: seq<Square>, r2: seq<Square>, r3: seq<Square>)
    requires r0 == [Square(1, 0), Square(2, 0), Square(3, 0), Square(4, 0), Square(5, 0), Square(6, 0), Square(7, 0)]
    requires r1 == [Square(-1, 0), Square(-2, 0), Square(-3, 0), Square(-4, 0), Square(-5, 0), Square(-6, 0), Square(-7, 0)]
    requires r2 == [Square(0, 1), Square(0, 2), Square(0, 3), Square(0, 4), Square(0, 5), Square(0, 6), Square(0, 7)]
    requires r3 == [Square(0, -1), Square(0, -2), Square(0, -3), Square(0, -4), Square(0, -5), Square(0, -6), Square(0, -7)]
    ensures OnBoardOnly(r0 + (r1 + (r2 + (r3 + [])))) ==
            [Square(1, 0), Square(2, 0), Square(3, 0), Square(4, 0), Square(5, 0), Square(6, 0), Square(7, 0),
             Square(0, 1), Square(0, 2), Square(0, 3), Square(0, 4), Square(0, 5), Square(0, 6), Square(0, 7)]
  {
    FilterFour(r0, r1, r2, r3);
  }

  lemma RookCornerFiltered(o: Square, vs: seq<Vector>)
    requires o == Square(0, 0) && vs == Vectors(Rook)
    ensures OnBoardOnly(Rays(o, vs)) ==
            [Square(1, 0), Square(2, 0), Square(3, 0), Square(4, 0), Square(5, 0), Square(6, 0), Square(7, 0),
             Square(0, 1), Square(0, 2), Square(0, 3), Square(0, 4), Square(0, 5), Square(0, 6), Square(0, 7)]
  {
    var r0, r1, r2, r3 := Ray(o, vs[0]), Ray(o, vs[1]), Ray(o, vs[2]), Ray(o, vs[3]);
    RaysOfFour(o, vs);
    assert Rays(o, vs) == r0 + (r1 + (r2 + (r3 + [])));
    RookCornerRays(o, vs);
    RookCornerFilter(r0, r1, r2, r3);
  }

  /** A Rook on the corner [0, 0] offers column 0 downwards, then row 0 rightwards: 14 squares. */
  lemma RookInCorner(p: Piece)
    requires p.NonPawn? && p.kind == Rook && p.position == Square(0, 0)
    ensures PossibleMoves(p) ==
            [Square(1, 0), Square(2, 0), Square(3, 0), Square(4, 0), Square(5, 0), Square(6, 0), Square(7, 0),
             Square(0, 1), Square(0, 2), Square(0, 3), Square(0, 4), Square(0, 5), Square(0, 6), Square(0, 7)]
  {
    RookCornerFiltered(p.position, Vectors(p.kind));
  }

  lemma StepsMembers(pos: Square, ds: seq<Vector>, x: Square)
    ensures x in Steps(pos, ds) <==> exists d :: d in ds && x == Step(pos, d)
  {
    if exists d :: d in ds && x == Step(pos, d) {
      var d :| d in ds && x == Step(pos, d);
      var i :| 0 <= i < |ds| && ds[i] == d;
      assert Steps(pos, ds)[i] == x;
    }
  }

  /** A Knight on the corner [0, 0] offers exactly [1, 2] and [2, 1], in that order. */
  lemma KnightInCorner(p: Piece)
    requires p.NonPawn? && p.kind == Knight && p.position == Square(0, 0)
    ensures PossibleMoves(p) == [Square(1, 2), Square(2, 1)]
  {
    var head := [Square(1, 2), Square(-1, 2), Square(2, 1)];
    var tail := [Square(2, -1), Square(1, -2), Square(-1, -2), Square(-2, -1), Square(-2, 1)];
    assert RawMoves(p, false) == head + tail;
    OnBoardOnlyAppend(head, tail);
    NoneOnBoard(tail);
  }

  /** A King offers at most eight squares, each on the board and adjacent to its own. */
  lemma KingMovesAdjacent(p: Piece)
    requires p.NonPawn? && p.kind == King
    ensures |PossibleMoves(p)| <= 8
    ensures forall x :: x in PossibleMoves(p) ==>
              OnBoard(x) && x != p.position &&
              -1 <= x.row - p.position.row <= 1 && -1 <= x.col - p.position.col <= 1
  {
    OnBoardOnlyMembers(RawMoves(p, false));
    forall x | x in PossibleMoves(p)
      ensures x != p.position && -1 <= x.row - p.position.row <= 1 && -1 <= x.col - p.position.col <= 1
    {
      StepsMembers(p.position, Vectors(King), x);
    }
  }

  /** Where a valid pawn's quiet and capturing moves lie: quiet moves straight ahead by one or
      two rows, captures one row ahead on a neighbouring column; "ahead" is +1 for Black. */
  lemma PawnDirections(p: Piece)
    requires p.Pawn? && PieceValid(p)
    ensures forall x :: x in PossibleMoves(p) ==>
              x.col == p.position.col &&
              (x.row == p.position.row + Forward(p.color) || x.row == p.position.row + 2 * Forward(p.color))
    ensures forall x :: x in PossibleMoves(p, true) ==>
              x.row == p.position.row + Forward(p.color) &&
              (x.col == p.position.col + 1 || x.col == p.position.col - 1)
  {
    OnBoardOnlyMembers(RawMoves(p, false));
    OnBoardOnlyMembers(RawMoves(p, true));
    forall x | x in PossibleMoves(p)
      ensures x.col == p.position.col &&
              (x.row == p.position.row + Forward(p.color) || x.row == p.position.row + 2 * Forward(p.color))
    {
      StepsMembers(p.position, p.moveDiff, x);
    }
    forall x | x in PossibleMoves(p, true)
      ensures x.row == p.position.row + Forward(p.color) &&
              (x.col == p.position.col + 1 || x.col == p.position.col - 1)
    {
      StepsMembers(p.position, CaptureDiff(p.color), x);
    }
  }

  /** A pawn can never reach one square both quietly and by capture. */
  lemma PawnQuietAndCaptureDisjoint(p: Piece, x: Square)
    requires p.Pawn? && PieceValid(p)
    ensures !(x in PossibleMoves(p) && x in PossibleMoves(p, true))
  {
    PawnDirections(p);
  }

  /** An unmoved pawn offers the one- and the two-square advance, each when on the board. */
  lemma UnmovedPawnAdvances(pos: Square, c: Color)
    ensures PossibleMoves(NewPawn(pos, c)) ==
            OnBoardOnly([Square(pos.row + Forward(c), pos.col), Square(pos.row + 2 * Forward(c), pos.col)])
  {
    assert Steps(pos, InitialMoveDiff(c)) ==
           [Square(pos.row + Forward(c), pos.col), Square(pos.row + 2 * Forward(c), pos.col)];
  }

  /** A pawn's first move drops the two-square offset, leaving only the one-square advance;
      further moves keep that list. */
  lemma PawnFirstMoveDropsDouble(pos: Square, c: Color, to: Square, later: Square)
    ensures var moved := MovePiece(NewPawn(pos, c), to);
            moved.moveDiff == [Vector(Forward(c), 0)] &&
            PossibleMoves(moved) == OnBoardOnly([Square(to.row + Forward(c), to.col)]) &&
            MovePiece(moved, later).moveDiff == moved.moveDiff
  {
    var moved := MovePiece(NewPawn(pos, c), to);
    if c == Black {
      assert moved.moveDiff == [Vector(1, 0)];
    } else {
      assert moved.moveDiff == [Vector(-1, 0)];
    }
    assert Steps(to, moved.moveDiff) == [Square(to.row + Forward(c), to.col)];
  }

  /** Dropping the offset happens at most once: moving a valid pawn twice leaves the
      list the first move left, and the piece stays valid. */
  lemma PawnMoveIdempotent(p: Piece, a: Square, b: Square)
    requires p.Pawn? && PieceValid(p)
    ensures PieceValid(MovePiece(p, a))
    ensures MovePiece(MovePiece(p, a), b).moveDiff == MovePiece(p, a).moveDiff
    ensures |MovePiece(p, a).moveDiff| == 1
  {
  }

  /** `Piece#move` changes only the position; `Pawn#move` also only shortens its quiet offsets. */
  lemma MoveChangesOnlyPosition(p: Piece, to: Square)
    ensures p.NonPawn? ==> MovePiece(p, to) == NonPawn(p.kind, p.color, to)
    ensures p.Pawn? ==> MovePiece(p, to).Pawn? && MovePiece(p, to).moveDiff <= p.moveDiff
    ensures PieceValid(p) ==> PieceValid(MovePiece(p, to))
  {
  }
}
