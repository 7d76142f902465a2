/**
 * Fog of war: the board squares the side to move can see.  Every piece of that side
 * reveals the squares within its sight range (Chebyshev distance 1 for a pawn, 2 for a
 * knight, 3 otherwise), clipped to the 8x8 board; the list holds each square once.
 */
module Visibility {
  import opened Board

  /** The pieces of `player`, in their original order. */
  function OwnPieces(pieces: seq<Piece>, player: Color): (r: seq<Piece>)
    ensures forall p :: p in r <==> p in pieces && p.color == player
    ensures |r| <= |pieces|
    decreases |pieces|
  {
    if pieces == [] then []
    else if pieces[0].color == player then [pieces[0]] + OwnPieces(pieces[1..], player)
    else OwnPieces(pieces[1..], player)
  }

  /** The specification of the visible list: a board square some piece of `player` sees. */
  ghost predicate Visible(pieces: seq<Piece>, player: Color, t: Tile) {
    OnBoard(t) && exists p :: p in pieces && p.color == player && WithinSight(p, t)
  }

  /** Some piece of `ps` sees the on-board tile `t`. */
  ghost predicate SeenBy(ps: seq<Piece>, t: Tile) {
    OnBoard(t) && exists p :: p in ps && WithinSight(p, t)
  }

  predicate NoDuplicates(tiles: seq<Tile>) {
    forall i, j :: 0 <= i < j < |tiles| ==> tiles[i] != tiles[j]
  }

  function Max(a: int, b: int): int { if a < b then b else a }
  function Min(a: int, b: int): int { if a < b then a else b }

  /** Linear scan: is the square (x, y) already in the list? */
  method AnyAt(tiles: seq<Tile>, x: int, y: int) returns (found: bool)
    ensures found <==> Tile(x, y) in tiles
  {
    found := false;
    var k := 0;
    while k < |tiles| && !found
      invariant 0 <= k <= |tiles|
      invariant found ==> Tile(x, y) in tiles
      invariant !found ==> forall j :: 0 <= j < k ==> tiles[j] != Tile(x, y)
    {
      found := tiles[k].x == x && tiles[k].y == y;
      k := k + 1;
    }
  }

  /** updateVisibleTiles, with the side to move passed in as `currentPlayer`. */
  method UpdateVisibleTiles(pieces: seq<Piece>, currentPlayer: Color) returns (tiles: seq<Tile>)
    ensures forall t :: t in tiles ==> OnBoard(t)
    ensures NoDuplicates(tiles)
    ensures forall t :: t in tiles <==> Visible(pieces, currentPlayer, t)
    ensures (forall p :: p in pieces ==> p.color != currentPlayer) ==> tiles == []
  {
    var myPieces := OwnPieces(pieces, currentPlayer);
    tiles := [];
    for i := 0 to |myPieces|
      invariant NoDuplicates(tiles)
      invariant forall t :: t in tiles <==> SeenBy(myPieces[..i], t)
    {
      var piece := myPieces[i];
      var range := SightRange(piece.kind);
      ghost var before := myPieces[..i];
      assert myPieces[..i + 1] == before + [piece];
      var x := Max(0, piece.position.x - range);
      while x <= Min(7, piece.position.x + range)
        invariant Max(0, piece.position.x - range) <= x
        invariant NoDuplicates(tiles)
        invariant forall t :: t in tiles <==>
          SeenBy(before, t) || (OnBoard(t) && WithinSight(piece, t) && t.x < x)
      {
        var y := Max(0, piece.position.y - range);
        while y <= Min(7, piece.position.y + range)
          invariant Max(0, piece.position.y - range) <= y
          invariant NoDuplicates(tiles)
          invariant forall t :: t in tiles <==>
            SeenBy(before, t) || (OnBoard(t) && WithinSight(piece, t) && (t.x < x || (t.x == x && t.y < y)))
        {
          var seen := AnyAt(tiles, x, y);
          if !seen {
            tiles := tiles + [Tile(x, y)];
          }
          y := y + 1;
        }
        x := x + 1;
      }
    }
    assert myPieces[..|myPieces|] == myPieces;
    assert tiles != [] ==> tiles[0] in tiles;
  }

  /** A lone piece reveals the square of side 2 * range + 1 around it, clipped to the board. */
  lemma LonePieceSight(p: Piece, t: Tile)
    ensures var r := SightRange(p.kind);
      Visible([p], p.color, t) <==>
        && Max(0, p.position.x - r) <= t.x <= Min(7, p.position.x + r)
        && Max(0, p.position.y - r) <= t.y <= Min(7, p.position.y + r)
  {
    assert p in [p];
    if Visible([p], p.color, t) {
      var q :| q in [p] && q.color == p.color && WithinSight(q, t);
      assert q == p;
    }
  }

  /** A lone white pawn in the middle of the board reveals exactly the 3x3 square around it. */
  lemma LonePawnSight(id: int, data: string, t: Tile)
    ensures Visible([Piece(id, "pawn", Position(4, 4), White, data)], White, t) <==> 3 <= t.x <= 5 && 3 <= t.y <= 5
  {
    LonePieceSight(Piece(id, "pawn", Position(4, 4), White, data), t);
  }

  /** Pieces of the other side reveal nothing. */
  lemma OtherSideRevealsNothing(pieces: seq<Piece>, q: Piece, player: Color, t: Tile)
    requires q.color != player
    ensures Visible(pieces + [q], player, t) <==> Visible(pieces, player, t)
  {
    if Visible(pieces + [q], player, t) {
      var p :| p in pieces + [q] && p.color == player && WithinSight(p, t);
      assert p in pieces;
    }
    if Visible(pieces, player, t) {
      var p :| p in pieces && p.color == player && WithinSight(p, t);
      assert p in pieces + [q];
    }
  }

  lemma {:induction false} OwnPiecesAppend(a: seq<Piece>, b: seq<Piece>, player: Color)
    ensures OwnPieces(a + b, player) == OwnPieces(a, player) + OwnPieces(b, player)
    decreases |a|
  {
    if a == [] {
      assert a + b == b;
    } else {
      assert (a + b)[1..] == a[1..] + b;
      OwnPiecesAppend(a[1..], b, player);
    }
  }

  lemma {:induction false} OwnPiecesAllOwn(ps: seq<Piece>, player: Color)
    requires forall p :: p in ps ==> p.color == player
    ensures OwnPieces(ps, player) == ps
    decreases |ps|
  {
    if ps != [] {
      assert ps[0] in ps;
      OwnPiecesAllOwn(ps[1..], player);
    }
  }

  lemma OwnPiecesNoneOwn(ps: seq<Piece>, player: Color)
    requires forall p :: p in ps ==> p.color != player
    ensures OwnPieces(ps, player) == []
  {
  }
}
