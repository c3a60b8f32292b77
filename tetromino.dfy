/** The static catalogue of the seven tetrominoes: base shapes and colours. */
module Tetromino {
  import opened Grid

  datatype Kind = I | L | J | O | T | S | Z

  /** The draw order of the catalogue ('ILJOTSZ'); the random index into it is not modelled. */
  const Kinds: seq<Kind> := [I, L, J, O, T, S, Z]

  /** A footprint of a tetromino in some rotation state: a rectangular 0/1 matrix,
      at most four rows and four columns, with exactly four filled cells. */
  predicate IsTetromino(s: Matrix) {
    IsRectangular(s) && 0 < Width(s) <= 4 && |s| <= 4 && IsBinary(s) && CellCount(s) == 4
  }

  /** getShape: the base (spawn) footprint of each kind. */
  function ShapeOf(k: Kind): (shape: Matrix)
    ensures |shape| == (if k == I then 1 else 2)
    ensures |shape[0]| == (if k == I then 4 else if k == O then 2 else 3)
  {
    match k
    case I => [[1, 1, 1, 1]]
    case L => [[0, 0, 1], [1, 1, 1]]
    case J => [[1, 0, 0], [1, 1, 1]]
    case O => [[1, 1], [1, 1]]
    case T => [[0, 1, 0], [1, 1, 1]]
    case S => [[0, 1, 1], [1, 1, 0]]
    case Z => [[1, 1, 0], [0, 1, 1]]
  }

  /** Every base footprint is a tetromino footprint. */
  lemma ShapeIsTetromino(k: Kind)
    ensures IsTetromino(ShapeOf(k))
  {
    match k
    case I => Straight();
    case O => Square();
    case L | J => Hooks();
    case T => Tee();
    case S | Z => Skews();
  }

  /** The I footprint, counted row by row. */
  lemma Straight()
    ensures IsTetromino(ShapeOf(I))
  {
    CountRows([1, 1, 1, 1], []);
  }

  /** The O footprint. */
  lemma Square()
    ensures IsTetromino(ShapeOf(O))
  {
    CountRows([1, 1], [[1, 1]]);
  }

  /** The L and J footprints. */
  lemma Hooks()
    ensures IsTetromino(ShapeOf(L)) && IsTetromino(ShapeOf(J))
  {
    CountRows([0, 0, 1], [[1, 1, 1]]);
    CountRows([1, 0, 0], [[1, 1, 1]]);
  }

  /** The T footprint. */
  lemma Tee()
    ensures IsTetromino(ShapeOf(T))
  {
    CountRows([0, 1, 0], [[1, 1, 1]]);
  }

  /** The S and Z footprints. */
  lemma Skews()
    ensures IsTetromino(ShapeOf(S)) && IsTetromino(ShapeOf(Z))
  {
    CountRows([0, 1, 1], [[1, 1, 0]]);
    CountRows([1, 1, 0], [[0, 1, 1]]);
  }

  /** getColor: the display colour of each kind. */
  function ColorOf(k: Kind): (c: string)
    ensures |c| == 7 && c[0] == '#'
    ensures forall i :: 1 <= i < |c| ==> c[i] in "0123456789abcdef"
  {
    match k
    case I => "#00f0f0"
    case L => "#f0a000"
    case J => "#0000f0"
    case O => "#f0f000"
    case T => "#a000f0"
    case S => "#00f000"
    case Z => "#f00000"
  }

  /** A falling piece: its kind, its current footprint and its colour. */
  datatype Piece = Piece(kind: Kind, shape: Matrix, color: string)

  /** createPiece for an already drawn kind. */
  function CreatePiece(k: Kind): (p: Piece)
    ensures p.kind == k && IsTetromino(p.shape)
  {
    ShapeIsTetromino(k);
    Piece(k, ShapeOf(k), ColorOf(k))
  }

  /** Every kind is in the draw order, and no two kinds share a colour. */
  lemma CatalogueComplete(a: Kind, b: Kind)
    ensures a in Kinds && |Kinds| == 7
    ensures ColorOf(a) == ColorOf(b) ==> a == b
  {
  }
}
