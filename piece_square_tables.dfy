/** The bot's piece-square tables: one unsigned 64-bit word per (piece type,
    rank), each word packing the eight signed byte bonuses of that rank's files. */
module PieceSquareTables {
  import opened ChessApi

  /** The shape of `ulong[6, 8]`: rows Pawn..King, columns rank 1..8. */
  predicate IsPackedTable(table: seq<seq<ULong>>) {
    |table| == 6 && forall k :: 0 <= k < 6 ==> |table[k]| == 8
  }

  /** The middlegame tables the bot evaluates with (Pawn, Knight, Bishop, Rook, Queen, King). */
  const CompressedMGPSTs: seq<seq<ULong>> := [
    [0x0000000000000000, 0xDDFFECE9F11826EA, 0xE6FCFCF6030321F4, 0xE5FEFB0C11060AE7, 0xF20D0615170C11E9, 0xFA071A1F413819EC, 0x627F3D5F447E22F5, 0x0000000000000000],
    [0x97EBC6DFEFE4EDE9, 0xE3CBF4FDFF12F2ED, 0xE9F70C0A131119F0, 0xF304100D1C1315F8, 0xF711133525451216, 0xD13C25415481492C, 0xB7D74824173E07EF, 0x81A7DECF3D9FF195],
    [0xDFFDF2EBF3F4D9EB, 0x040F100007152101, 0x000F0F0F0E1B120A, 0xFA0D0D1A220C0A04, 0xFC051332252507FE, 0xF0252B28233225FE, 0xE610EEF31E3B12D1, 0xE304AEDBE7D607F8],
    [0xEDF301111007DBE6, 0xD4F0ECF7FF0BFAB9, 0xD3E7F0EF0300FBDF, 0xDCE6F4FF09F906E9, 0xE8F5071A1823F8EC, 0xFB131A24112D3D10, 0x1B203A3E50431A2C, 0x202A20333F091F2B],
    [0xFFEEF70AF1E7E1CE, 0xDDF80B02080FFD01, 0xF202F5FEFB020E05, 0xF7E6F7F6FEFC03FD, 0xE5E5F0F0FF11FE01, 0xF3EF07081D382F39, 0xE8D9FB01F0391C36, 0xE4001D0C3B2C2B2D],
    [0xF1240CCA08E4180E, 0x0107F8C0D5F00908, 0xF2F2EAD2D4E2F1E5, 0xCFFFE5D9D2D4DFCD, 0xEFECF4E5E2E7F2DC, 0xF71802F0EC0616EA, 0x1DFFECF9F8FCDAE3, 0xBF1710F1C8DE020D]
  ]

  lemma CompressedMGPSTsIsPacked()
    ensures IsPackedTable(CompressedMGPSTs)
  {
  }

  /** BitConverter.GetBytes on a little-endian machine: the word's base-256
      digits, least significant first. */
  function GetBytes(w: ULong): (bytes: seq<Byte>)
    ensures |bytes| == 8
  {
    Digits(w, 8)
  }

  /** The n lowest base-256 digits of w, least significant first. */
  function Digits(w: nat, n: nat): (digits: seq<Byte>)
    ensures |digits| == n
  {
    if n == 0 then [] else [w % 0x100] + Digits(w / 0x100, n - 1)
  }

  /** The `(sbyte)` cast: the byte read as two's complement. */
  function SignedByte(b: Byte): (v: int)
    ensures -128 <= v <= 127
    ensures v >= 0 <==> b < 128
  {
    if b < 128 then b else b - 256
  }

  /** The positional bonus of a piece of `pieceType` on `square`. White reads
      row `rank`, black row `7 - rank`; the file selects byte `7 - file`, so
      file a sits in the most significant byte of the word. */
  function GetPSTValue(table: seq<seq<ULong>>, pieceType: PieceType, square: Square, white: bool): (v: int)
    requires IsPackedTable(table) && pieceType != NoPiece
    ensures -128 <= v <= 127
  {
    var firstIndex := if white then square / 8 else 7 - square / 8;
    SignedByte(GetBytes(table[pieceType - 1][firstIndex])[7 - square % 8])
  }

  /** The square on the same file with the rank mirrored (`square ^ 56`). */
  function MirrorSquare(square: Square): (m: Square)
    ensures m / 8 == 7 - square / 8 && m % 8 == square % 8
  {
    (7 - square / 8) * 8 + square % 8
  }

  lemma MirrorSquareInvolution(square: Square)
    ensures MirrorSquare(MirrorSquare(square)) == square
  {
  }

  /** Black's bonus on a square is white's bonus on the rank-mirrored square. */
  lemma BlackReadsMirroredSquare(table: seq<seq<ULong>>, pieceType: PieceType, square: Square)
    requires IsPackedTable(table) && pieceType != NoPiece
    ensures GetPSTValue(table, pieceType, square, false) == GetPSTValue(table, pieceType, MirrorSquare(square), true)
  {
  }

  // The packed encoding, from the plain 6 x 8 x 8 table of signed bonuses it stands for.

  predicate IsBonusGrid(grid: seq<seq<seq<int>>>) {
    && |grid| == 6
    && (forall k :: 0 <= k < 6 ==> |grid[k]| == 8)
    && (forall k, r :: 0 <= k < 6 && 0 <= r < 8 ==> IsBonusRow(grid[k][r]))
  }

  predicate IsBonusRow(row: seq<int>) {
    |row| == 8 && forall f :: 0 <= f < 8 ==> -128 <= row[f] <= 127
  }

  /** Two's complement byte of a signed bonus. */
  function ToByte(v: int): (b: Byte)
    requires -128 <= v <= 127
    ensures SignedByte(b) == v
  {
    if v < 0 then v + 256 else v
  }

  /** The number whose base-256 digits, least significant first, are `digits`. */
  function FromDigits(digits: seq<Byte>): (w: nat)
    ensures w < Power256(|digits|)
  {
    if digits == [] then 0 else digits[0] + 0x100 * FromDigits(digits[1..])
  }

  function Power256(n: nat): (p: nat)
    ensures p > 0
  {
    if n == 0 then 1 else 0x100 * Power256(n - 1)
  }

  /** The lowest digit of d + 256 x is d, and the rest is x. */
  lemma DivModOfDigit(d: Byte, x: nat)
    ensures (d + 0x100 * x) % 0x100 == d && (d + 0x100 * x) / 0x100 == x
  {
  }

  /** Reading back the digits of a number built from them gives them again. */
  lemma {:induction false} DigitsOfFromDigits(digits: seq<Byte>)
    ensures Digits(FromDigits(digits), |digits|) == digits
  {
    if digits != [] {
      var rest := FromDigits(digits[1..]);
      DivModOfDigit(digits[0], rest);
      DigitsOfFromDigits(digits[1..]);
      assert [digits[0]] + digits[1..] == digits;
    }
  }

  /** The bytes of one rank, least significant first: files h, g, ..., a. */
  function RowBytes(row: seq<int>): (bytes: seq<Byte>)
    requires IsBonusRow(row)
    ensures |bytes| == 8
  {
    [ToByte(row[7]), ToByte(row[6]), ToByte(row[5]), ToByte(row[4]), ToByte(row[3]), ToByte(row[2]), ToByte(row[1]), ToByte(row[0])]
  }

  /** One rank's bonuses, file a first, packed into a word with file a in the
      most significant byte. */
  function PackRow(row: seq<int>): (w: ULong)
    requires IsBonusRow(row)
  {
    assert Power256(8) == 0x1_0000_0000_0000_0000;
    FromDigits(RowBytes(row))
  }

  function PackTable(grid: seq<seq<seq<int>>>): (table: seq<seq<ULong>>)
    requires IsBonusGrid(grid)
    ensures IsPackedTable(table)
  {
    seq(6, k requires 0 <= k < 6 => seq(8, r requires 0 <= r < 8 => PackRow(grid[k][r])))
  }

  lemma UnpackRow(row: seq<int>, file: nat)
    requires IsBonusRow(row) && file < 8
    ensures SignedByte(GetBytes(PackRow(row))[7 - file]) == row[file]
  {
    DigitsOfFromDigits(RowBytes(row));
  }

  /** Decoding a packed table gives back the plain bonus of every (piece type,
      square, side): white reads rank `square / 8`, black rank `7 - square / 8`. */
  lemma {:induction false} DecodesPackedGrid(grid: seq<seq<seq<int>>>, pieceType: PieceType, square: Square, white: bool)
    requires IsBonusGrid(grid) && pieceType != NoPiece
    ensures GetPSTValue(PackTable(grid), pieceType, square, white)
         == grid[pieceType - 1][if white then square / 8 else 7 - square / 8][square % 8]
  {
    var rank := if white then square / 8 else 7 - square / 8;
    assert PackTable(grid)[pieceType - 1][rank] == PackRow(grid[pieceType - 1][rank]);
    UnpackRow(grid[pieceType - 1][rank], square % 8);
  }
}
