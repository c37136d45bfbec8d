/** Static evaluation: material plus piece-square bonus for every piece,
    white's total minus black's, in centipawns. The sums take the packed
    piece-square tables as a parameter, as GetPSTValue does; the bot
    evaluates with CompressedMGPSTs. */
module Evaluation {
  import opened ChessApi
  import opened PieceSquareTables

  /** Middlegame material values of Pawn, Knight, Bishop, Rook, Queen, King. */
  const MgPieceValues: seq<int> := [82, 337, 365, 477, 1025, 32000]

  /** What one piece adds to its own side's sum. */
  function PieceWorth(psts: seq<seq<ULong>>, pieceType: PieceType, square: Square, white: bool): (w: int)
    requires IsPackedTable(psts) && pieceType != NoPiece
    ensures MgPieceValues[pieceType - 1] - 128 <= w <= MgPieceValues[pieceType - 1] + 127
  {
    MgPieceValues[pieceType - 1] + GetPSTValue(psts, pieceType, square, white)
  }

  /** The sum over the first j squares of one piece list, as the inner loop
      accumulates it. */
  function ListWorth(psts: seq<seq<ULong>>, squares: seq<Square>, j: nat, pieceType: PieceType, white: bool): int
    requires IsPackedTable(psts) && pieceType != NoPiece && j <= |squares|
  {
    if j == 0 then 0
    else ListWorth(psts, squares, j - 1, pieceType, white) + PieceWorth(psts, pieceType, squares[j - 1], white)
  }

  /** The sum over the first j squares ignores whatever follows them. */
  lemma {:induction false} ListWorthOfPrefix(psts: seq<seq<ULong>>, squares: seq<Square>, more: seq<Square>, j: nat, pieceType: PieceType, white: bool)
    requires IsPackedTable(psts) && pieceType != NoPiece && j <= |squares|
    ensures ListWorth(psts, squares + more, j, pieceType, white) == ListWorth(psts, squares, j, pieceType, white)
  {
    if j > 0 {
      ListWorthOfPrefix(psts, squares, more, j - 1, pieceType, white);
    }
  }

  /** The whole of one piece list. */
  function ListTotal(psts: seq<seq<ULong>>, squares: seq<Square>, pieceType: PieceType, white: bool): int
    requires IsPackedTable(psts) && pieceType != NoPiece
  {
    ListWorth(psts, squares, |squares|, pieceType, white)
  }

  /** The sum over the piece lists of types 1..upTo, as the outer loop
      accumulates it, counting the first n pieces. */
  function KindsWorth(psts: seq<seq<ULong>>, pieces: seq<Piece>, n: nat, white: bool, upTo: nat): int
    requires IsPackedTable(psts) && n <= |pieces| && upTo <= 6
  {
    if upTo == 0 then 0
    else KindsWorth(psts, pieces, n, white, upTo - 1) + ListTotal(psts, SquaresOf(pieces, n, upTo, white), upTo, white)
  }

  /** Reference sum, with no grouping by type: the first n pieces of the
      side, in board order, each of a type from 1 to upTo. */
  function SideWorth(psts: seq<seq<ULong>>, pieces: seq<Piece>, n: nat, white: bool, upTo: nat): (w: int)
    requires IsPackedTable(psts) && n <= |pieces|
    ensures -MinPieceWorth * n <= w <= MaxPieceWorth * n
  {
    if n == 0 then 0
    else SideWorth(psts, pieces, n - 1, white, upTo) + Contribution(psts, pieces[n - 1], white, upTo)
  }

  /** The most a piece can take away from its side's sum (a pawn, 82, with
      the lowest bonus, -128) and the most it can add (a king, 32000, with the
      highest bonus, 127). */
  const MinPieceWorth := 46
  const MaxPieceWorth := 32127

  /** One side's sum with the bot's middlegame tables: every piece of the
      side once. Each piece moves it by at most MaxPieceWorth, so for a board
      of at most 32 pieces it stays far inside a 32-bit int. */
  function MgSideWorth(pieces: seq<Piece>, white: bool): (w: int)
    ensures -MinPieceWorth * |pieces| <= w <= MaxPieceWorth * |pieces|
  {
    CompressedMGPSTsIsPacked();
    SideWorth(CompressedMGPSTs, pieces, |pieces|, white, King)
  }

  /** Evaluate(board): positive favours white. It lies within
      MaxPieceWorth + MinPieceWorth per piece on the board. */
  function StaticEval(p: Position): (v: int)
    ensures -(MaxPieceWorth + MinPieceWorth) * |p.pieces| <= v <= (MaxPieceWorth + MinPieceWorth) * |p.pieces|
  {
    MgSideWorth(p.pieces, true) - MgSideWorth(p.pieces, false)
  }

  /** What a piece adds to the sum over the types 1..upTo of its side. */
  function Contribution(psts: seq<seq<ULong>>, piece: Piece, white: bool, upTo: nat): int
    requires IsPackedTable(psts)
  {
    if piece.isWhite == white && 1 <= piece.pieceType <= upTo then PieceWorth(psts, piece.pieceType, piece.square, white) else 0
  }

  /** One piece list's sum over the first n pieces is that over the first
      n - 1 plus the n-th piece when it is on that list. */
  lemma ListWorthOfLast(psts: seq<seq<ULong>>, pieces: seq<Piece>, n: nat, pieceType: PieceType, white: bool)
    requires IsPackedTable(psts) && pieceType != NoPiece && 0 < n <= |pieces|
    ensures ListTotal(psts, SquaresOf(pieces, n, pieceType, white), pieceType, white)
         == ListTotal(psts, SquaresOf(pieces, n - 1, pieceType, white), pieceType, white)
            + (if pieces[n - 1].pieceType == pieceType && pieces[n - 1].isWhite == white then PieceWorth(psts, pieceType, pieces[n - 1].square, white) else 0)
  {
    var last := pieces[n - 1];
    var before := SquaresOf(pieces, n - 1, pieceType, white);
    if last.pieceType == pieceType && last.isWhite == white {
      ListWorthOfPrefix(psts, before, [last.square], |before|, pieceType, white);
    } else {
      assert before + [] == before;
    }
  }

  /** The sum over the types 1..upTo of the first n pieces is that of the
      first n - 1 plus the n-th piece's own contribution. */
  lemma {:induction false} KindsWorthOfLast(psts: seq<seq<ULong>>, pieces: seq<Piece>, n: nat, white: bool, upTo: nat)
    requires IsPackedTable(psts) && 0 < n <= |pieces| && upTo <= 6
    ensures KindsWorth(psts, pieces, n, white, upTo)
         == KindsWorth(psts, pieces, n - 1, white, upTo) + Contribution(psts, pieces[n - 1], white, upTo)
  {
    if upTo > 0 {
      KindsWorthOfLast(psts, pieces, n, white, upTo - 1);
      ListWorthOfLast(psts, pieces, n, upTo, white);
    }
  }

  lemma {:induction false} NoPiecesNoWorth(psts: seq<seq<ULong>>, pieces: seq<Piece>, white: bool, upTo: nat)
    requires IsPackedTable(psts) && upTo <= 6
    ensures KindsWorth(psts, pieces, 0, white, upTo) == 0
  {
    if upTo > 0 {
      NoPiecesNoWorth(psts, pieces, white, upTo - 1);
    }
  }

  /** The loop's grouping by piece type adds up every piece of the side once. */
  lemma {:induction false} KindsWorthIsSideWorth(psts: seq<seq<ULong>>, pieces: seq<Piece>, n: nat, white: bool, upTo: nat)
    requires IsPackedTable(psts) && n <= |pieces| && upTo <= 6
    ensures KindsWorth(psts, pieces, n, white, upTo) == SideWorth(psts, pieces, n, white, upTo)
  {
    if n == 0 {
      NoPiecesNoWorth(psts, pieces, white, upTo);
    } else {
      KindsWorthIsSideWorth(psts, pieces, n - 1, white, upTo);
      KindsWorthOfLast(psts, pieces, n, white, upTo);
    }
  }

  /** The same position with the colours swapped and the board turned over. */
  function ColourFlipped(p: Position): Position {
    p.(pieces := FlipPieces(p.pieces))
  }

  function FlipPieces(pieces: seq<Piece>): (flipped: seq<Piece>)
    ensures |flipped| == |pieces|
  {
    seq(|pieces|, i requires 0 <= i < |pieces| => Piece(pieces[i].pieceType, !pieces[i].isWhite, MirrorSquare(pieces[i].square)))
  }

  lemma FlippedPieceWorth(psts: seq<seq<ULong>>, pieceType: PieceType, square: Square, white: bool)
    requires IsPackedTable(psts) && pieceType != NoPiece
    ensures PieceWorth(psts, pieceType, MirrorSquare(square), white) == PieceWorth(psts, pieceType, square, !white)
  {
    if white {
      BlackReadsMirroredSquare(psts, pieceType, square);
    } else {
      BlackReadsMirroredSquare(psts, pieceType, MirrorSquare(square));
      MirrorSquareInvolution(square);
    }
  }

  lemma {:induction false} FlipSwapsSides(psts: seq<seq<ULong>>, pieces: seq<Piece>, n: nat, white: bool, upTo: nat)
    requires IsPackedTable(psts) && n <= |pieces|
    ensures SideWorth(psts, FlipPieces(pieces), n, white, upTo) == SideWorth(psts, pieces, n, !white, upTo)
  {
    if n > 0 {
      FlipSwapsSides(psts, pieces, n - 1, white, upTo);
      var last := pieces[n - 1];
      var flipped := FlipPieces(pieces)[n - 1];
      assert flipped == Piece(last.pieceType, !last.isWhite, MirrorSquare(last.square));
      if last.pieceType != NoPiece {
        FlippedPieceWorth(psts, last.pieceType, last.square, white);
      }
      assert Contribution(psts, flipped, white, upTo) == Contribution(psts, last, !white, upTo);
    }
  }

  /** The evaluation is antisymmetric under swapping colours and mirroring ranks. */
  lemma ColourFlipNegates(p: Position)
    ensures StaticEval(ColourFlipped(p)) == -StaticEval(p)
  {
    CompressedMGPSTsIsPacked();
    FlipSwapsSides(CompressedMGPSTs, p.pieces, |p.pieces|, true, King);
    FlipSwapsSides(CompressedMGPSTs, p.pieces, |p.pieces|, false, King);
  }
}
