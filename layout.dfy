/**
 * The fixed standard layout a new game starts from, and the state change of creating a
 * game.  Every piece carries its conventional value, encrypted with the "FHE" codec.
 */
module Layout {
  import opened Wrappers
  import opened Board
  import opened Codec
  import Decimal
  import Visibility
  import Moves

  /** `initialPieces`: white on rows 0 and 1, black on rows 7 and 6, ids 1 to 32. */
  function InitialPieces(): (r: seq<Piece>)
    ensures |r| == 32
  {
    WhiteBackRank() + WhitePawns() + BlackBackRank() + BlackPawns()
  }

  function WhiteBackRank(): seq<Piece> {
    [
      Piece(1, "rook", Position(0, 0), White, Encrypt(5)),
      Piece(2, "knight", Position(1, 0), White, Encrypt(3)),
      Piece(3, "bishop", Position(2, 0), White, Encrypt(3)),
      Piece(4, "queen", Position(3, 0), White, Encrypt(9)),
      Piece(5, "king", Position(4, 0), White, Encrypt(0)),
      Piece(6, "bishop", Position(5, 0), White, Encrypt(3)),
      Piece(7, "knight", Position(6, 0), White, Encrypt(3)),
      Piece(8, "rook", Position(7, 0), White, Encrypt(5))
    ]
  }

  function WhitePawns(): seq<Piece> {
    [
      Piece(9, "pawn", Position(0, 1), White, Encrypt(1)),
      Piece(10, "pawn", Position(1, 1), White, Encrypt(1)),
      Piece(11, "pawn", Position(2, 1), White, Encrypt(1)),
      Piece(12, "pawn", Position(3, 1), White, Encrypt(1)),
      Piece(13, "pawn", Position(4, 1), White, Encrypt(1)),
      Piece(14, "pawn", Position(5, 1), White, Encrypt(1)),
      Piece(15, "pawn", Position(6, 1), White, Encrypt(1)),
      Piece(16, "pawn", Position(7, 1), White, Encrypt(1))
    ]
  }

  function BlackBackRank(): seq<Piece> {
    [
      Piece(17, "rook", Position(0, 7), Black, Encrypt(5)),
      Piece(18, "knight", Position(1, 7), Black, Encrypt(3)),
      Piece(19, "bishop", Position(2, 7), Black, Encrypt(3)),
      Piece(20, "queen", Position(3, 7), Black, Encrypt(9)),
      Piece(21, "king", Position(4, 7), Black, Encrypt(0)),
      Piece(22, "bishop", Position(5, 7), Black, Encrypt(3)),
      Piece(23, "knight", Position(6, 7), Black, Encrypt(3)),
      Piece(24, "rook", Position(7, 7), Black, Encrypt(5))
    ]
  }

  function BlackPawns(): seq<Piece> {
    [
      Piece(25, "pawn", Position(0, 6), Black, Encrypt(1)),
      Piece(26, "pawn", Position(1, 6), Black, Encrypt(1)),
      Piece(27, "pawn", Position(2, 6), Black, Encrypt(1)),
      Piece(28, "pawn", Position(3, 6), Black, Encrypt(1)),
      Piece(29, "pawn", Position(4, 6), Black, Encrypt(1)),
      Piece(30, "pawn", Position(5, 6), Black, Encrypt(1)),
      Piece(31, "pawn", Position(6, 6), Black, Encrypt(1)),
      Piece(32, "pawn", Position(7, 6), Black, Encrypt(1))
    ]
  }

  /** The back-rank order of piece types, file by file. */
  function BackRankKind(file: int): string
    requires 0 <= file < 8
  {
    ["rook", "knight", "bishop", "queen", "king", "bishop", "knight", "rook"][file]
  }

  function BackRankValue(file: int): nat
    requires 0 <= file < 8
  {
    [5, 3, 3, 9, 0, 3, 3, 5][file]
  }

  /** The value each piece type's encrypted data carries. */
  function StandardValue(kind: string): nat {
    match kind
    case "pawn" => 1
    case "knight" => 3
    case "bishop" => 3
    case "rook" => 5
    case "queen" => 9
    case _ => 0
  }

  /** The rows of the layout's four groups of eight: white back rank, white pawns, black back rank, black pawns. */
  function GroupRow(group: int): int
    requires 0 <= group < 4
  {
    [0, 1, 7, 6][group]
  }

  /** The piece at index i of the standard layout, defined independently of the literal list. */
  function StandardPiece(i: int): Piece
    requires 0 <= i < 32
  {
    var pawn := i / 8 == 1 || i / 8 == 3;
    Piece(i + 1, if pawn then "pawn" else BackRankKind(i % 8), Position(i % 8, GroupRow(i / 8)),
          if i < 16 then White else Black, Encrypt(if pawn then 1 else BackRankValue(i % 8)))
  }


  lemma WhiteBackRankIsStandard()
    ensures |WhiteBackRank()| == 8
    ensures forall k :: 0 <= k < 8 ==> WhiteBackRank()[k] == StandardPiece(0 + k)
  {
    assert WhiteBackRank()[0] == StandardPiece(0);
    assert WhiteBackRank()[1] == StandardPiece(1);
    assert WhiteBackRank()[2] == StandardPiece(2);
    assert WhiteBackRank()[3] == StandardPiece(3);
    assert WhiteBackRank()[4] == StandardPiece(4);
    assert WhiteBackRank()[5] == StandardPiece(5);
    assert WhiteBackRank()[6] == StandardPiece(6);
    assert WhiteBackRank()[7] == StandardPiece(7);
  }

  lemma WhitePawnsIsStandard()
    ensures |WhitePawns()| == 8
    ensures forall k :: 0 <= k < 8 ==> WhitePawns()[k] == StandardPiece(8 + k)
  {
    assert WhitePawns()[0] == StandardPiece(8);
    assert WhitePawns()[1] == StandardPiece(9);
    assert WhitePawns()[2] == StandardPiece(10);
    assert WhitePawns()[3] == StandardPiece(11);
    assert WhitePawns()[4] == StandardPiece(12);
    assert WhitePawns()[5] == StandardPiece(13);
    assert WhitePawns()[6] == StandardPiece(14);
    assert WhitePawns()[7] == StandardPiece(15);
  }

  lemma BlackBackRankIsStandard()
    ensures |BlackBackRank()| == 8
    ensures forall k :: 0 <= k < 8 ==> BlackBackRank()[k] == StandardPiece(16 + k)
  {
    assert BlackBackRank()[0] == StandardPiece(16);
    assert BlackBackRank()[1] == StandardPiece(17);
    assert BlackBackRank()[2] == StandardPiece(18);
    assert BlackBackRank()[3] == StandardPiece(19);
    assert BlackBackRank()[4] == StandardPiece(20);
    assert BlackBackRank()[5] == StandardPiece(21);
    assert BlackBackRank()[6] == StandardPiece(22);
    assert BlackBackRank()[7] == StandardPiece(23);
  }

  lemma BlackPawnsIsStandard()
    ensures |BlackPawns()| == 8
    ensures forall k :: 0 <= k < 8 ==> BlackPawns()[k] == StandardPiece(24 + k)
  {
    assert BlackPawns()[0] == StandardPiece(24);
    assert BlackPawns()[1] == StandardPiece(25);
    assert BlackPawns()[2] == StandardPiece(26);
    assert BlackPawns()[3] == StandardPiece(27);
    assert BlackPawns()[4] == StandardPiece(28);
    assert BlackPawns()[5] == StandardPiece(29);
    assert BlackPawns()[6] == StandardPiece(30);
    assert BlackPawns()[7] == StandardPiece(31);
  }

  /** The literal layout is the standard one, piece by piece. */
  lemma InitialPiecesAreStandard()
    ensures |InitialPieces()| == 32
    ensures forall i :: 0 <= i < 32 ==> InitialPieces()[i] == StandardPiece(i)
  {
    WhiteBackRankIsStandard(); WhitePawnsIsStandard(); BlackBackRankIsStandard(); BlackPawnsIsStandard();
  }

  /** The ids are 1 to 32 in order, hence distinct. */
  lemma InitialIds()
    ensures |InitialPieces()| == 32
    ensures forall i :: 0 <= i < 32 ==> InitialPieces()[i].id == i + 1
    ensures DistinctIds(InitialPieces())
  {
    InitialPiecesAreStandard();
  }

  /** Every square is on the board and no two pieces share one. */
  lemma InitialPositionsDistinct()
    ensures forall p :: p in InitialPieces() ==> OnBoard(Tile(p.position.x, p.position.y))
    ensures forall i, j :: 0 <= i < j < |InitialPieces()| ==> InitialPieces()[i].position != InitialPieces()[j].position
  {
    InitialPiecesAreStandard();
    var ps := InitialPieces();
    forall i, j | 0 <= i < j < 32 ensures ps[i].position != ps[j].position {
      assert ps[i].position == Position(i % 8, GroupRow(i / 8));
      assert ps[j].position == Position(j % 8, GroupRow(j / 8));
      StandardSquaresDistinct(i, j);
    }
  }

  /** Indices of the standard layout name distinct squares: a file and a group row each. */
  lemma StandardSquaresDistinct(i: int, j: int)
    requires 0 <= i < j < 32
    ensures Position(i % 8, GroupRow(i / 8)) != Position(j % 8, GroupRow(j / 8))
  {
    if i % 8 == j % 8 {
      assert i / 8 != j / 8;
    }
  }

  /** White stands on rows 0 and 1, black on rows 6 and 7. */
  lemma InitialColorsByRow()
    ensures forall p :: p in InitialPieces() ==>
      (p.color == White <==> p.position.y <= 1) && (p.position.y <= 1 || p.position.y >= 6)
  {
    InitialPiecesAreStandard();
  }

  /** Sixteen pieces a side. */
  lemma InitialSides()
    ensures |Visibility.OwnPieces(InitialPieces(), White)| == 16
    ensures |Visibility.OwnPieces(InitialPieces(), Black)| == 16
  {
    var white := WhiteBackRank() + WhitePawns();
    var black := BlackBackRank() + BlackPawns();
    assert InitialPieces() == white + black;
    HalvesByColor();
    Visibility.OwnPiecesAppend(white, black, White);
    Visibility.OwnPiecesAppend(white, black, Black);
    Visibility.OwnPiecesAllOwn(white, White);
    Visibility.OwnPiecesNoneOwn(black, White);
    Visibility.OwnPiecesAllOwn(black, Black);
    Visibility.OwnPiecesNoneOwn(white, Black);
  }

  lemma HalvesByColor()
    ensures |WhiteBackRank() + WhitePawns()| == 16 && |BlackBackRank() + BlackPawns()| == 16
    ensures forall p :: p in WhiteBackRank() + WhitePawns() ==> p.color == White
    ensures forall p :: p in BlackBackRank() + BlackPawns() ==> p.color == Black
  {
    WhiteBackRankIsStandard(); WhitePawnsIsStandard(); BlackBackRankIsStandard(); BlackPawnsIsStandard();
  }

  /** Pawns stand exactly on rows 1 and 6. */
  lemma InitialPawnRows()
    ensures forall p :: p in InitialPieces() ==> (p.kind == "pawn" <==> p.position.y == 1 || p.position.y == 6)
  {
    InitialPiecesAreStandard();
    forall p | p in InitialPieces() ensures p.kind == "pawn" <==> p.position.y == 1 || p.position.y == 6 {
      var i :| 0 <= i < 32 && InitialPieces()[i] == p;
      if i / 8 == 0 || i / 8 == 2 { BackRankHasNoPawn(i % 8); }
    }
  }

  lemma BackRankHasNoPawn(file: int)
    requires 0 <= file < 8
    ensures BackRankKind(file) != "pawn"
  {
  }

  lemma BackRankValues(file: int)
    requires 0 <= file < 8
    ensures StandardValue(BackRankKind(file)) == BackRankValue(file)
  {
  }

  /** Each piece's encrypted data decrypts to the conventional value of its type. */
  lemma InitialValuesDecrypt()
    ensures forall p :: p in InitialPieces() ==> Decrypt(p.encryptedData) == Parsed(Decimal.Natural(StandardValue(p.kind)))
  {
    InitialPiecesAreStandard();
    forall p | p in InitialPieces() ensures Decrypt(p.encryptedData) == Parsed(Decimal.Natural(StandardValue(p.kind))) {
      var i :| 0 <= i < 32 && InitialPieces()[i] == p;
      if i / 8 == 0 || i / 8 == 2 { BackRankValues(i % 8); }
      DecryptEncrypt(StandardValue(p.kind));
    }
  }

  /** At the start white sees exactly rows 0 to 3: every square there and nothing beyond. */
  lemma InitialWhiteSight(t: Tile)
    ensures Visibility.Visible(InitialPieces(), White, t) <==> OnBoard(t) && t.y <= 3
  {
    if OnBoard(t) && t.y <= 3 {
      WhiteBackRankSees(t);
    }
    if Visibility.Visible(InitialPieces(), White, t) {
      WhiteSightBound(t);
    }
  }

  lemma WhiteSightBound(t: Tile)
    requires Visibility.Visible(InitialPieces(), White, t)
    ensures t.y <= 3
  {
    InitialPawnRows();
    InitialColorsByRow();
  }

  lemma WhiteBackRankSees(t: Tile)
    requires OnBoard(t) && t.y <= 3
    ensures Visibility.Visible(InitialPieces(), White, t)
  {
    WhiteBackRankIsStandard();
    var w := if t.x == 1 then 0 else if t.x == 6 then 7 else t.x;
    var p := WhiteBackRank()[w];
    assert p == InitialPieces()[w];
    KnightFiles(w);
    assert p in InitialPieces() && p.color == White && WithinSight(p, t);
  }

  lemma KnightFiles(file: int)
    requires 0 <= file < 8 && file != 1 && file != 6
    ensures BackRankKind(file) != "knight" && BackRankKind(file) != "pawn"
  {
  }

  /** At the start no black piece stands on a square white sees: the opponent is hidden. */
  lemma InitialFogHidesBlack()
    ensures forall p :: p in InitialPieces() && p.color == Black ==>
      !Visibility.Visible(InitialPieces(), White, Tile(p.position.x, p.position.y))
  {
    InitialColorsByRow();
    forall p | p in InitialPieces() && p.color == Black
      ensures !Visibility.Visible(InitialPieces(), White, Tile(p.position.x, p.position.y))
    {
      InitialWhiteSight(Tile(p.position.x, p.position.y));
    }
  }

  /**
   * createNewGame: with a connected wallet and an address, and once both writes are
   * `committed`, the reloaded state holds the standard layout and an empty move log.
   * The side to move is left as it was.
   */
  function CreateNewGame(g: Moves.Game, isConnected: bool, address: Option<string>, committed: bool): (r: Moves.Game)
    ensures r.currentPlayer == g.currentPlayer
    ensures isConnected && address.GetOr("") != "" && committed ==> r.pieces == InitialPieces() && r.moves == []
    ensures !(isConnected && address.GetOr("") != "" && committed) ==> r == g
  {
    if !isConnected || address.GetOr("") == "" || !committed then g
    else g.(pieces := InitialPieces(), moves := [])
  }
}
