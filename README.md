# Fog of War Chess: a Dafny model of the game rules in the web front end

The chess front end (`frontend/web/src/App.tsx`) keeps a list of pieces, a move log and the
side to move. Both lists are stored as JSON blobs in a contract's key-value store. Around the
UI code sit a few self-contained rules, and this project models and proves them:

- **Fog of war** (`updateVisibleTiles`). The side to move sees every board square within
  Chebyshev distance 1 (pawn), 2 (knight) or 3 (any other type) of one of its pieces,
  clipped to the 8x8 board. The list holds each square once. It is modelled as an
  imperative method, `Visibility.UpdateVisibleTiles`. The method keeps the source's nested
  loops and its linear `some` scan, and has loop invariants.
- **Move application** (`handleMove`). The selected piece's position is overwritten by id.
  One move record is appended. The turn passes to the other side.
- **The initial layout** (`initialPieces`) and the state change of `createNewGame`.
- **The "FHE" codec** (`FHEEncryptNumber` / `FHEDecryptNumber`). Encryption is
  `"FHE-" + btoa(n.toString())`. Decryption strips the tag, runs `atob` and then
  `parseFloat`. The browser built-ins are modelled as well:
  - `btoa`/`atob` follow section 4 of RFC 4648 and the forgiving-base64 decode of the WHATWG
    Infra Standard;
  - `toString`/`parseFloat` follow ECMA-262, restricted to natural numbers.
- **Loading a stored blob** (`loadData`). An empty blob, failed decoding, blank text and
  failed parsing all fall back to the empty list.

Modules: `Wrappers` (Option), `Bytes` (the octet type), `Base64`, `Decimal`, `Codec`, `Board` (the entities),
`Visibility`, `Moves`, `Layout` and `Loader`.

Parameters stand in for what the source reads from its surroundings:
- `currentPlayer` is read from the component closure.
- `Date.now()` becomes `nowMillis`.
- The wallet address becomes `address` (None for `undefined`).
- `isConnected` is the wallet connection status.
- `committed` says whether a signer was obtained and both contract writes were confirmed.
  When it is true, the reload that follows is taken to return what was written.
- UTF-8 decoding and JSON parsing in `loadData` become the function parameters
  `decodeUtf8` and `parseJson`.

Behaviour worth knowing, modelled as the code has it:
- `createNewGame` does not reset the side to move. `Layout.CreateNewGame` keeps
  `currentPlayer`.
- `handleMove` checks no chess rules, and it does not check that the selected piece still
  matches the one in the list. The move record's `from` is the selection's position.
- Pieces are matched by id. If two pieces shared an id, both would move
  (`Moves.MovePiece`); with distinct ids exactly one does (`Moves.MoveChangesOnlySelected`).

## Model

| member | source | states |
|---|---|---|
| `Base64.CharOf` | frontend/web/src/App.tsx:24 | each of the 64 values maps to an alphabet character, and decoding that character gives the value back |
| `Base64.Btoa` | frontend/web/src/App.tsx:24 | `btoa` succeeds exactly on binary strings (every code unit at most 0xFF) |
| `Base64.Encode` | frontend/web/src/App.tsx:24 | the encoding has 4 characters per started group of 3 bytes; every character is in the alphabet or is '=' padding among the last two |
| `Base64.SextetCount` | frontend/web/src/App.tsx:24 | 3 bytes give 4 sextets; a final 1 or 2 bytes give 2 or 3 |
| `Base64.GroupRoundTrip` | frontend/web/src/App.tsx:24-25 | every byte is rebuilt from the sextets that carry its bits |
| `Base64.SextetsRoundTrip` | frontend/web/src/App.tsx:24-25 | regrouping the sextets of any byte sequence gives back that sequence |
| `Base64.RemoveAsciiWhitespace` | frontend/web/src/App.tsx:25 | atob's whitespace step leaves no ASCII whitespace, never lengthens the text, and leaves text without whitespace unchanged |
| `Base64.RemoveAsciiWhitespaceDrops` | frontend/web/src/App.tsx:25 | text made only of ASCII whitespace is removed entirely |
| `Base64.RemoveAsciiWhitespaceAppend` | frontend/web/src/App.tsx:25 | whitespace removal distributes over concatenation, so the kept characters stay in order |
| `Base64.RemoveAsciiWhitespaceKeeps` | frontend/web/src/App.tsx:25 | every character that is not whitespace survives the removal |
| `Base64.Atob` | frontend/web/src/App.tsx:25 | a successful atob yields a binary string; the lemmas below give its value on btoa output, its indifference to whitespace and its three failures (a foreign character, one character left over, a misplaced '=') |
| `Base64.AtobIgnoresWhitespace` | frontend/web/src/App.tsx:25 | inserting ASCII whitespace anywhere does not change atob's result |
| `Base64.AtobRejectsLeftoverCharacter` | frontend/web/src/App.tsx:25 | text without whitespace whose length is 1 more than a multiple of 4 makes atob throw |
| `Base64.AtobRejectsMisplacedPadding` | frontend/web/src/App.tsx:25 | an '=' that is not among the last two characters of a text whose length is a multiple of 4 makes atob throw |
| `Base64.PaddedLength` | frontend/web/src/App.tsx:24 | btoa's sextets plus its padding fill whole groups of four and never leave a single sextet over |
| `Base64.StripEncodedPadding` | frontend/web/src/App.tsx:25 | atob's padding removal takes off exactly the '=' characters that btoa appended |
| `Base64.AtobOfEncoding` | frontend/web/src/App.tsx:25 | atob decodes alphabet characters plus correct padding to the bytes of their sextets |
| `Base64.AtobBtoa` | frontend/web/src/App.tsx:24-25 | `atob(btoa(s)) == s` for every binary string s |
| `Base64.AtobRejectsForeignCharacter` | frontend/web/src/App.tsx:25 | a character other than alphabet, whitespace or '=' makes atob throw |
| `Decimal.NatToString` | frontend/web/src/App.tsx:24 | `toString` of a natural is a non-empty digit string with no leading zero |
| `Decimal.TrimStart` | frontend/web/src/App.tsx:25 | parseFloat's trimming drops a prefix made only of whitespace and line terminators, and what is left does not start with one |
| `Decimal.FirstVisibleIsTrimStart` | frontend/web/src/App.tsx:25 | the first character that is not whitespace is exactly the first character trimming leaves |
| `Decimal.DigitRun` | frontend/web/src/App.tsx:25 | the digit prefix parseFloat reads is all digits and maximal |
| `Decimal.ReadLiteral` | frontend/web/src/App.tsx:25 | on trimmed text the result is NaN exactly when no prefix is a decimal literal (an optional sign, then a digit, '.' followed by a digit, or "Infinity"); a number read means the text starts with a digit |
| `Decimal.ParseFloat` | frontend/web/src/App.tsx:25 | NaN exactly when no prefix of the text from its first visible character is a decimal literal (always so for whitespace-only text); a natural result means that character is a digit; `ParseFloatNatToString` fixes the value |
| `Decimal.ParseFloatOfVisible` | frontend/web/src/App.tsx:25 | text that starts with no whitespace is read as it stands |
| `Decimal.ReadLiteralMalformedIsNaN` | frontend/web/src/App.tsx:25 | "-x", "+", ".", ".e1", "Ix" and "+-1" read as NaN |
| `Decimal.DigitsValueOfNatToString` | frontend/web/src/App.tsx:24-25 | the digits `toString` prints have the printed number as their value |
| `Decimal.NatToStringOfDigitsValue` | frontend/web/src/App.tsx:24-25 | a digit string without a leading zero is what `toString` prints for its value |
| `Decimal.ParseFloatNatToString` | frontend/web/src/App.tsx:25 | `parseFloat(n.toString()) == n` |
| `Decimal.ParseFloatSkipsWhitespace` | frontend/web/src/App.tsx:25 | leading whitespace and line terminators do not change parseFloat's result |
| `Decimal.ParseFloatIgnoresTrailingText` | frontend/web/src/App.tsx:25 | parseFloat stops at the first character after the digits that cannot continue the literal |
| `Codec.Encrypt` | frontend/web/src/App.tsx:24 | the result carries the "FHE-" tag, and after the tag it is btoa of the decimal text |
| `Codec.Decrypt` | frontend/web/src/App.tsx:25 | decryption fails exactly when the string is tagged and atob rejects its payload; an untagged string goes straight to parseFloat; `DecryptEncrypt` is its round trip with `Encrypt` |
| `Codec.DecryptEncrypt` | frontend/web/src/App.tsx:24-25 | decrypting the encryption of n gives n: no key is needed |
| `Codec.DecryptUntaggedDecimal` | frontend/web/src/App.tsx:25 | an untagged decimal string is parsed directly to its value |
| `Codec.DecryptFortyTwo` | frontend/web/src/App.tsx:25 | "42" decrypts to 42 |
| `Codec.DecryptForeignPayload` | frontend/web/src/App.tsx:25 | a tagged payload holding a character base64 does not use makes decryption throw |
| `Board.Opponent` | frontend/web/src/App.tsx:263 | the flip always gives the other side |
| `Board.OpponentTwice` | frontend/web/src/App.tsx:263 | flipping twice restores the side |
| `Board.SightRange` | frontend/web/src/App.tsx:112-113 | the range is 1 exactly for "pawn", 2 exactly for "knight", and 3 otherwise |
| `Visibility.OwnPieces` | frontend/web/src/App.tsx:108 | a piece is kept exactly when it has the player's colour |
| `Visibility.AnyAt` | frontend/web/src/App.tsx:117 | the scan reports true exactly when the tile is already listed |
| `Visibility.UpdateVisibleTiles` | frontend/web/src/App.tsx:107-125 | every tile is on the board, no tile appears twice, and a tile is listed exactly when a piece of the side to move sees it; a side with no pieces sees nothing |
| `Visibility.LonePieceSight` | frontend/web/src/App.tsx:112-116 | one piece reveals the square of side 2*range+1 around it, clipped to [0,7] on both axes |
| `Visibility.LonePawnSight` | frontend/web/src/App.tsx:112-116 | a lone pawn at (4,4) reveals exactly the 3x3 square around it |
| `Visibility.OtherSideRevealsNothing` | frontend/web/src/App.tsx:108 | adding a piece of the other colour changes no square's visibility |
| `Visibility.OwnPiecesAppend` | frontend/web/src/App.tsx:108 | filtering distributes over concatenation |
| `Moves.MovePiece` | frontend/web/src/App.tsx:238-240 | same length; ids, types, colours and data unchanged; pieces with other ids untouched; pieces with the selected id now at (x,y) |
| `Moves.MoveChangesOnlySelected` | frontend/web/src/App.tsx:238-240 | with distinct ids, the result is the list with exactly the selected piece's position replaced |
| `Moves.MoveUnknownIdIsIdentity` | frontend/web/src/App.tsx:238-240 | an id that no piece carries leaves the list unchanged |
| `Moves.MoveTwiceIsLastMove` | frontend/web/src/App.tsx:238-240 | moving a piece twice equals moving it once to the second square |
| `Moves.MoveBackRestores` | frontend/web/src/App.tsx:238-240 | moving the piece back where it stood restores the list |
| `Moves.MovePreservesDistinctIds` | frontend/web/src/App.tsx:238-240 | distinct ids stay distinct |
| `Moves.Seconds` | frontend/web/src/App.tsx:245 | the timestamp is the clock reading in whole seconds, rounded down |
| `Moves.RecordMove` | frontend/web/src/App.tsx:242-249 | the log is the old log plus one record; that record's from is the selection's position, its to is (x,y), its timestamp is the seconds and its player is the address or "" |
| `Moves.HandleMove` | frontend/web/src/App.tsx:231-263 | without a selection, a connected wallet or committed writes nothing changes; otherwise the pieces move, the move is logged and the side to move changes |
| `Moves.TwoMovesRestoreTurn` | frontend/web/src/App.tsx:263 | after two committed moves the first side is to move again, with two records appended and the piece count unchanged |
| `Layout.InitialPieces` | frontend/web/src/App.tsx:141-174 | the layout has 32 pieces; the lemmas below fix ids, squares, colours, types and values |
| `Layout.InitialPiecesAreStandard` | frontend/web/src/App.tsx:141-174 | the literal layout equals the standard layout defined by files, rows and back-rank order |
| `Layout.InitialIds` | frontend/web/src/App.tsx:141-174 | the 32 pieces have ids 1 to 32 in order, all distinct |
| `Layout.InitialPositionsDistinct` | frontend/web/src/App.tsx:141-174 | every position is on the board and no two pieces share one |
| `Layout.InitialColorsByRow` | frontend/web/src/App.tsx:141-174 | white pieces are exactly those on rows 0-1; the others stand on rows 6-7 |
| `Layout.InitialSides` | frontend/web/src/App.tsx:141-174 | each side has 16 pieces |
| `Layout.InitialPawnRows` | frontend/web/src/App.tsx:141-174 | a piece is a pawn exactly when it stands on row 1 or row 6 |
| `Layout.InitialValuesDecrypt` | frontend/web/src/App.tsx:141-174 | each piece's data decrypts to its type's value (pawn 1, knight 3, bishop 3, rook 5, queen 9, king 0) |
| `Layout.InitialWhiteSight` | frontend/web/src/App.tsx:141-174 | at the start white sees exactly rows 0 to 3 |
| `Layout.InitialFogHidesBlack` | frontend/web/src/App.tsx:141-174 | at the start no black piece stands on a square white sees |
| `Layout.CreateNewGame` | frontend/web/src/App.tsx:127-188 | with a connected wallet, a non-empty address and committed writes, the state holds the standard layout and an empty log; otherwise it is unchanged; the side to move never changes |
| `Loader.LoadList` | frontend/web/src/App.tsx:77-95 | an empty blob, failed decoding or blank text gives the empty list; a non-empty list is always the parse of the decoded text |
| `Loader.LoadListOfWritten` | frontend/web/src/App.tsx:77-95 | a blob whose text parses to a list loads as that list |

## Left out

- React state, hooks and all rendering (lines 271-500) are presentation only and are not modelled.
- The selection click handler (`handlePieceClick`, lines 221-229) is not modelled. It is UI
  glue: it selects one of the current player's pieces and asks for a decryption.
- Contract reads and writes, `tx.wait()`, `isAvailable`, the chain id request and the
  wallet are foreign calls. They are abstracted into the parameters `isConnected`,
  `committed` and `address`.
- `Moves.HandleMove`: does not model a reload that fails after both writes are confirmed.
  `loadData` catches its own errors (lines 97-100), so `handleMove` still flips the turn
  (line 263) while the local pieces and moves stay stale. The model's `committed` means the
  writes were confirmed and the reload returned them.
- `Moves.HandleMove`: does not model the case where the first write is confirmed and the
  second fails. That leaves the chain inconsistent while the UI state is unchanged. It
  also does not model two players racing to write.
- `Moves.HandleMove`: does not model the ordering in lines 260-263. The reload recomputes
  the visible tiles with the side that has just moved, before the turn flips. In the model,
  visibility is a separate method with the side passed in.
- `decryptWithSignature` (lines 200-219) is not modelled: it is a signature request, a
  1.5-second timer and then `Decrypt`. `generatePublicKey` is not modelled because it uses
  `Math.random`.
- Error-message classification (lines 190-192) and the status messages are not modelled.
- `Codec.Encrypt`: is defined on naturals only. JavaScript numbers are doubles: integers
  above 2^53 are rounded, and numbers of 10^21 or more print in exponent notation. The
  model treats every natural as exact, and the source's values are 0 to 9.
- `Decimal.ParseFloat`: is exact for NaN (no prefix of the trimmed text is a decimal
  literal), and for digit strings whose value is at most 2^53.
  JavaScript rounds a longer digit string to the nearest double: `parseFloat("9007199254740993")`
  is 9007199254740992. The model returns the exact natural instead. So
  `Codec.DecryptUntaggedDecimal` and `Decimal.ParseFloatNatToString` hold in the program only
  for n up to 2^53. The source only stores values 0 to 9.
- `Decimal.ParseFloat`: returns `Unevaluated` for text that does begin a literal but not a
  plain natural: signed, fractional, exponent and "Infinity" literals, and digits followed
  by '.', 'e' or 'E'. Those are floating-point results.
- `Visibility.UpdateVisibleTiles`: states which tiles are in the list but not their order.
  Pieces loaded from JSON with non-integer coordinates or an unknown colour are outside
  the datatypes.
- `Loader.LoadList`: UTF-8 decoding and JSON parsing are library calls and enter as
  functions. A JSON value that is not a list is not modelled.
- The lottery front end that shares this design is not part of this model.
