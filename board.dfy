/** The entities of the chess front end: pieces, moves, board squares and the two sides. */
module Board {

  datatype Color = White | Black

  datatype Position = Position(x: int, y: int)

  /** ChessPiece.  `kind` is the piece's type string ("pawn", "knight", ...). */
  datatype Piece = Piece(id: int, kind: string, position: Position, color: Color, encryptedData: string)

  /** ChessMove: source and destination squares, a timestamp in seconds and the mover's address. */
  datatype Move = Move(from: Position, to: Position, timestamp: int, player: string)

  /** An entry of the visible-tiles list. */
  datatype Tile = Tile(x: int, y: int)

  /** The side to move after `c`: the ternary flip of the current player. */
  function Opponent(c: Color): (r: Color)
    ensures r != c
  {
    if c == White then Black else White
  }

  lemma OpponentTwice(c: Color)
    ensures Opponent(Opponent(c)) == c
  {
  }

  predicate OnBoard(t: Tile) {
    0 <= t.x <= 7 && 0 <= t.y <= 7
  }

  function Abs(n: int): nat {
    if n < 0 then -n else n
  }

  /** How far a piece sees: a pawn 1 square, a knight 2, every other type 3. */
  function SightRange(kind: string): (r: nat)
    ensures 1 <= r <= 3
    ensures r == 1 <==> kind == "pawn"
    ensures r == 2 <==> kind == "knight"
  {
    if kind == "pawn" then 1 else if kind == "knight" then 2 else 3
  }

  /** The tile lies within Chebyshev distance SightRange of the piece. */
  predicate WithinSight(p: Piece, t: Tile) {
    Abs(p.position.x - t.x) <= SightRange(p.kind) && Abs(p.position.y - t.y) <= SightRange(p.kind)
  }

  predicate DistinctIds(ps: seq<Piece>) {
    forall i, j :: 0 <= i < j < |ps| ==> ps[i].id != ps[j].id
  }
}
