/**
 * The state change of a completed move: the selected piece's position is overwritten,
 * one move record is appended to the log, and the turn passes to the other side.
 * There is no check of chess legality: any destination is accepted.
 */
module Moves {
  import opened Wrappers
  import opened Board

  /** Replaces the position of every piece carrying the selected id; the rest stay as they are. */
  function MovePiece(pieces: seq<Piece>, selected: Piece, x: int, y: int): (r: seq<Piece>)
    ensures |r| == |pieces|
    ensures forall i :: 0 <= i < |r| ==>
      && r[i].id == pieces[i].id
      && r[i].kind == pieces[i].kind
      && r[i].color == pieces[i].color
      && r[i].encryptedData == pieces[i].encryptedData
    ensures forall i :: 0 <= i < |r| && pieces[i].id != selected.id ==> r[i] == pieces[i]
    ensures forall i :: 0 <= i < |r| && pieces[i].id == selected.id ==> r[i].position == Position(x, y)
    decreases |pieces|
  {
    if pieces == [] then []
    else
      var p := pieces[0];
      [if p.id == selected.id then p.(position := Position(x, y)) else p] + MovePiece(pieces[1..], selected, x, y)
  }

  /** With distinct ids, exactly the piece carrying the selected id moves, and only its position changes. */
  lemma MoveChangesOnlySelected(pieces: seq<Piece>, selected: Piece, k: nat, x: int, y: int)
    requires DistinctIds(pieces)
    requires k < |pieces| && pieces[k].id == selected.id
    ensures MovePiece(pieces, selected, x, y) == pieces[k := pieces[k].(position := Position(x, y))]
  {
    var r := MovePiece(pieces, selected, x, y);
    var expected := pieces[k := pieces[k].(position := Position(x, y))];
    assert forall i :: 0 <= i < |r| ==> r[i] == expected[i];
  }

  /** A piece id that no piece carries leaves the list alone. */
  lemma MoveUnknownIdIsIdentity(pieces: seq<Piece>, selected: Piece, x: int, y: int)
    requires forall p :: p in pieces ==> p.id != selected.id
    ensures MovePiece(pieces, selected, x, y) == pieces
  {
    var r := MovePiece(pieces, selected, x, y);
    assert forall i :: 0 <= i < |r| ==> pieces[i] in pieces && r[i] == pieces[i];
  }

  /** Moving the same piece twice is the same as moving it once to the second square. */
  lemma MoveTwiceIsLastMove(pieces: seq<Piece>, selected: Piece, x1: int, y1: int, x2: int, y2: int)
    ensures MovePiece(MovePiece(pieces, selected, x1, y1), selected, x2, y2) == MovePiece(pieces, selected, x2, y2)
  {
    var a := MovePiece(MovePiece(pieces, selected, x1, y1), selected, x2, y2);
    var b := MovePiece(pieces, selected, x2, y2);
    assert forall i :: 0 <= i < |a| ==> a[i] == b[i];
  }

  /** Moving a piece back to where it stood restores the list (ids distinct). */
  lemma MoveBackRestores(pieces: seq<Piece>, selected: Piece, k: nat, x: int, y: int)
    requires DistinctIds(pieces)
    requires k < |pieces| && pieces[k].id == selected.id
    ensures MovePiece(MovePiece(pieces, selected, x, y), selected, pieces[k].position.x, pieces[k].position.y) == pieces
  {
    var a := MovePiece(MovePiece(pieces, selected, x, y), selected, pieces[k].position.x, pieces[k].position.y);
    assert forall i :: 0 <= i < |a| ==> a[i] == pieces[i];
  }

  lemma MovePreservesDistinctIds(pieces: seq<Piece>, selected: Piece, x: int, y: int)
    requires DistinctIds(pieces)
    ensures DistinctIds(MovePiece(pieces, selected, x, y))
  {
  }

  /** A clock reading in milliseconds, converted to whole seconds rounded down. */
  function Seconds(nowMillis: nat): (s: nat)
    ensures s * 1000 <= nowMillis < (s + 1) * 1000
  {
    nowMillis / 1000
  }

  /** Appends one record, built from the selection and the destination, to the move log. */
  function RecordMove(moves: seq<Move>, selected: Piece, x: int, y: int, nowMillis: nat, address: Option<string>): (r: seq<Move>)
    ensures |r| == |moves| + 1 && r[..|moves|] == moves
    ensures r[|moves|].from == selected.position && r[|moves|].to == Position(x, y)
    ensures r[|moves|].timestamp * 1000 <= nowMillis < (r[|moves|].timestamp + 1) * 1000
    ensures r[|moves|].player == address.GetOr("")
  {
    moves + [Move(selected.position, Position(x, y), Seconds(nowMillis), address.GetOr(""))]
  }

  /** The chess state the component holds: the piece list, the move log and the side to move. */
  datatype Game = Game(pieces: seq<Piece>, moves: seq<Move>, currentPlayer: Color)

  /**
   * handleMove(x, y).  Nothing changes without a selected piece or a connected wallet, or
   * when the two writes are not `committed` (no signer, or a transaction failed).  After a
   * committed move the reloaded lists are the written ones and the turn passes.
   */
  function HandleMove(g: Game, selected: Option<Piece>, isConnected: bool, committed: bool,
                      x: int, y: int, nowMillis: nat, address: Option<string>): (r: Game)
    ensures selected.None? || !isConnected || !committed ==> r == g
    ensures selected.Some? && isConnected && committed ==>
      && r.pieces == MovePiece(g.pieces, selected.value, x, y)
      && r.moves == RecordMove(g.moves, selected.value, x, y, nowMillis, address)
      && r.currentPlayer != g.currentPlayer
  {
    if selected.None? || !isConnected || !committed then g
    else
      Game(MovePiece(g.pieces, selected.value, x, y),
           RecordMove(g.moves, selected.value, x, y, nowMillis, address),
           Opponent(g.currentPlayer))
  }

  /** Two committed moves hand the turn back to the side that moved first, and log two records. */
  lemma TwoMovesRestoreTurn(g: Game, s1: Piece, s2: Piece, x1: int, y1: int, x2: int, y2: int,
                            t1: nat, t2: nat, a1: Option<string>, a2: Option<string>)
    ensures var g1 := HandleMove(g, Some(s1), true, true, x1, y1, t1, a1);
            var g2 := HandleMove(g1, Some(s2), true, true, x2, y2, t2, a2);
            && g2.currentPlayer == g.currentPlayer
            && |g2.moves| == |g.moves| + 2 && g2.moves[..|g.moves|] == g.moves
            && |g2.pieces| == |g.pieces|
  {
    var g1 := HandleMove(g, Some(s1), true, true, x1, y1, t1, a1);
    var g2 := HandleMove(g1, Some(s2), true, true, x2, y2, t2, a2);
    assert g2.moves[..|g.moves|] == g1.moves[..|g1.moves|][..|g.moves|];
  }
}
