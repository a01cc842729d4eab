/** The seven piece kinds, their 4x4 rotation matrices, and the active piece record. */
module Shapes {

  /** Piece kinds, in the order the shape table declares them. */
  datatype Kind = I | O | T | S | Z | J | L

  /** Every kind once, in table order: the list a fresh bag is copied from. */
  const Kinds: seq<Kind> := [I, O, T, S, Z, J, L]

  /** A 4x4 occupancy matrix; a non-zero entry is an occupied cell. */
  type Matrix = seq<seq<int>>

  /** The active piece: its kind, rotation counter and the grid position of its
      matrix's top-left corner (y may be negative above the visible area). */
  datatype Piece = Piece(kind: Kind, rot: nat, x: int, y: int)

  /** The four rotation states of each kind, clockwise from the spawn state. */
  function Rotations(k: Kind): (rs: seq<Matrix>)
    ensures |rs| == 4
  {
    match k
    case I => [
      [[0,0,0,0], [1,1,1,1], [0,0,0,0], [0,0,0,0]],
      [[0,0,1,0], [0,0,1,0], [0,0,1,0], [0,0,1,0]],
      [[0,0,0,0], [0,0,0,0], [1,1,1,1], [0,0,0,0]],
      [[0,1,0,0], [0,1,0,0], [0,1,0,0], [0,1,0,0]]
    ]
    case O => [
      [[0,1,1,0], [0,1,1,0], [0,0,0,0], [0,0,0,0]],
      [[0,1,1,0], [0,1,1,0], [0,0,0,0], [0,0,0,0]],
      [[0,1,1,0], [0,1,1,0], [0,0,0,0], [0,0,0,0]],
      [[0,1,1,0], [0,1,1,0], [0,0,0,0], [0,0,0,0]]
    ]
    case T => [
      [[0,1,0,0], [1,1,1,0], [0,0,0,0], [0,0,0,0]],
      [[0,1,0,0], [0,1,1,0], [0,1,0,0], [0,0,0,0]],
      [[0,0,0,0], [1,1,1,0], [0,1,0,0], [0,0,0,0]],
      [[0,1,0,0], [1,1,0,0], [0,1,0,0], [0,0,0,0]]
    ]
    case S => [
      [[0,1,1,0], [1,1,0,0], [0,0,0,0], [0,0,0,0]],
      [[0,1,0,0], [0,1,1,0], [0,0,1,0], [0,0,0,0]],
      [[0,0,0,0], [0,1,1,0], [1,1,0,0], [0,0,0,0]],
      [[1,0,0,0], [1,1,0,0], [0,1,0,0], [0,0,0,0]]
    ]
    case Z => [
      [[1,1,0,0], [0,1,1,0], [0,0,0,0], [0,0,0,0]],
      [[0,0,1,0], [0,1,1,0], [0,1,0,0], [0,0,0,0]],
      [[0,0,0,0], [1,1,0,0], [0,1,1,0], [0,0,0,0]],
      [[0,1,0,0], [1,1,0,0], [1,0,0,0], [0,0,0,0]]
    ]
    case J => [
      [[1,0,0,0], [1,1,1,0], [0,0,0,0], [0,0,0,0]],
      [[0,1,1,0], [0,1,0,0], [0,1,0,0], [0,0,0,0]],
      [[0,0,0,0], [1,1,1,0], [0,0,1,0], [0,0,0,0]],
      [[0,1,0,0], [0,1,0,0], [1,1,0,0], [0,0,0,0]]
    ]
    case L => [
      [[0,0,1,0], [1,1,1,0], [0,0,0,0], [0,0,0,0]],
      [[0,1,0,0], [0,1,0,0], [0,1,1,0], [0,0,0,0]],
      [[0,0,0,0], [1,1,1,0], [1,0,0,0], [0,0,0,0]],
      [[1,1,0,0], [0,1,0,0], [0,1,0,0], [0,0,0,0]]
    ]
  }

  /** The matrix of a piece: its kind's rotation state `rot % 4`. */
  function MatrixFor(p: Piece): (m: Matrix)
    ensures m in Rotations(p.kind)
    ensures |m| == 4 && forall i | 0 <= i < 4 :: |m[i]| == 4
  {
    RotationIsSquare(p.kind, p.rot % 4);
    Rotations(p.kind)[p.rot % 4]
  }

  /** Every rotation state in the table is a 4x4 matrix. */
  lemma RotationIsSquare(k: Kind, r: nat)
    requires r < 4
    ensures |Rotations(k)[r]| == 4 && forall i | 0 <= i < 4 :: |Rotations(k)[r][i]| == 4
  {
    match k
    case I =>
    case O =>
    case T =>
    case S =>
    case Z =>
    case J =>
    case L =>
  }

  /** Whether entry (dy, dx) of matrix m exists and is non-zero. */
  predicate IsSet(m: Matrix, dy: int, dx: int) {
    0 <= dy < |m| && 0 <= dx < |m[dy]| && m[dy][dx] != 0
  }

  /** Whether the piece occupies local cell (dy, dx) of its 4x4 box. */
  predicate Occupied(p: Piece, dy: int, dx: int) {
    0 <= dy < 4 && 0 <= dx < 4 && IsSet(MatrixFor(p), dy, dx)
  }

  /** No matrix of the table is empty: every piece occupies some cell of its box. */
  lemma HasCell(p: Piece) returns (dy: int, dx: int)
    ensures 0 <= dy < 4 && 0 <= dx < 4 && Occupied(p, dy, dx)
  {
    if Occupied(p, 1, 1) {
      dy, dx := 1, 1;
    } else if Occupied(p, 1, 2) {
      dy, dx := 1, 2;
    } else {
      dy, dx := 2, 1;
      var r := p.rot % 4;
      assert r == 0 || r == 1 || r == 2 || r == 3;
      match p.kind
      case I =>
      case O =>
      case T =>
      case S =>
      case Z =>
      case J =>
      case L =>
    }
  }
}
