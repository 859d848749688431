/** Squares, pieces, and the mapping from a square to a point of the 3D scene. */
module Chess {

  datatype Option<+T> = None | Some(value: T)

  /** Identity of a scene object (a piece or a fracture cell). */
  type Id = nat

  datatype Side = White | Black

  datatype Kind = Pawn | Knight | Bishop | Rook | Queen | King

  datatype Piece = Piece(kind: Kind, side: Side)

  /** A square as the two characters of its algebraic name, file then rank ("e4"). */
  datatype Square = Square(file: char, rank: char)

  predicate IsFile(c: char) { 'a' <= c <= 'h' }

  predicate IsRank(c: char) { '1' <= c <= '8' }

  predicate IsSquare(s: Square) { IsFile(s.file) && IsRank(s.rank) }

  /** Zero-based column of a file letter: a = 0 ... h = 7. */
  function FileIndex(c: char): int { c as int - 'a' as int }

  /** Zero-based row of a rank digit: 1 = 0 ... 8 = 7. */
  function RankIndex(c: char): int { c as int - '1' as int }

  datatype Point = Point(x: real, y: real, z: real)

  /** Edge length of one board square, in scene units. */
  const SquareSize: real := 3.0

  /** Height of each kind's centre of gravity above the board. */
  function Height(k: Kind): real
  {
    match k
    case King => 2.32912
    case Queen => 2.0401
    case Bishop => 1.7937
    case Knight => 1.0
    case Rook => 1.46252
    case Pawn => 1.35288
  }

  /** The centre of a square at height z, looked up through the two
      letter-to-index tables. */
  function ChessToCoordinates(file: char, rank: char, z: real): (p: Point)
    requires IsFile(file) && IsRank(rank)
    ensures p.x == (FileIndex(file) as real + 0.5) * SquareSize
    ensures p.y == (RankIndex(rank) as real + 0.5) * SquareSize
    ensures p.z == z
    ensures 0.0 < p.x < 8.0 * SquareSize && 0.0 < p.y < 8.0 * SquareSize
  {
    var xMap := map['a' := 0.0, 'b' := 1.0, 'c' := 2.0, 'd' := 3.0,
                    'e' := 4.0, 'f' := 5.0, 'g' := 6.0, 'h' := 7.0];
    var yMap := map['1' := 0.0, '2' := 1.0, '3' := 2.0, '4' := 3.0,
                    '5' := 4.0, '6' := 5.0, '7' := 6.0, '8' := 7.0];
    assert file in xMap by { FileCases(file); }
    assert rank in yMap by { RankCases(rank); }
    assert xMap[file] == FileIndex(file) as real by { FileCases(file); }
    assert yMap[rank] == RankIndex(rank) as real by { RankCases(rank); }
    Point((xMap[file] + 0.5) * SquareSize, (yMap[rank] + 0.5) * SquareSize, z)
  }

  lemma FileCases(c: char)
    requires IsFile(c)
    ensures c == 'a' || c == 'b' || c == 'c' || c == 'd' || c == 'e' || c == 'f' || c == 'g' || c == 'h'
  {
  }

  lemma RankCases(c: char)
    requires IsRank(c)
    ensures c == '1' || c == '2' || c == '3' || c == '4' || c == '5' || c == '6' || c == '7' || c == '8'
  {
  }

  /** The centre of square s at height z. */
  function Place(s: Square, z: real): Point
    requires IsSquare(s)
  {
    ChessToCoordinates(s.file, s.rank, z)
  }

  /** Two different squares never share a centre, whatever the heights. */
  lemma PlaceInjective(s: Square, t: Square, zs: real, zt: real)
    requires IsSquare(s) && IsSquare(t)
    ensures Place(s, zs).x == Place(t, zt).x && Place(s, zs).y == Place(t, zt).y <==> s == t
  {
  }

  /** Side owning the pieces set up on a rank: white below rank 4. */
  function SideOf(rank: char): Side
  {
    if rank < '4' then White else Black
  }

  /** The piece standing on each square of the standard starting position:
      pawns fill ranks 2 and 7, the back ranks 1 and 8 hold rooks on a/h,
      knights on b/g, bishops on c/f, the queen on d and the king on e;
      white owns ranks 1-2, black ranks 7-8. */
  function StartPiece(s: Square): Option<Piece>
  {
    if !IsSquare(s) then None
    else if s.rank == '2' then Some(Piece(Pawn, White))
    else if s.rank == '7' then Some(Piece(Pawn, Black))
    else if s.rank == '1' then Some(Piece(BackRank(s.file), White))
    else if s.rank == '8' then Some(Piece(BackRank(s.file), Black))
    else None
  }

  function BackRank(file: char): Kind
  {
    if file == 'a' || file == 'h' then Rook
    else if file == 'b' || file == 'g' then Knight
    else if file == 'c' || file == 'f' then Bishop
    else if file == 'd' then Queen
    else King
  }
}
