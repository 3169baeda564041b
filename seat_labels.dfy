/**
 * The seat-label scheme shared by the allocation service and the client: the seat in
 * 0-based row r and column c is labelled with the decimal number r + 1 followed by the
 * single character 'A' + c ("1A", "1B", ..., "12D"). The same label is produced in four
 * places of the repository; every model of them calls SeatLabel, whose injectivity and
 * parse round-trip are proved once here. The file also holds the row-major index
 * arithmetic that all grid renderings share.
 */
module SeatLabels {
  import opened Wrappers
  import opened Text

  /** Column indices c for which 'A' + c is a character below the UTF-16 surrogate range. */
  const MaxColumns: nat := 0xD800 - 65

  /** Python's `chr(65 + c)` and Kotlin's `'A' + c`. */
  function ColumnLetter(col: nat): (ch: char)
    requires col < MaxColumns
    ensures ch as int == 65 + col
  {
    (65 + col) as char
  }

  /** `f"{r+1}{chr(65+c)}"` and `"${r + 1}${('A' + c)}"`. */
  function SeatLabel(row: nat, col: nat): string
    requires col < MaxColumns
  {
    NatToString(row + 1) + [ColumnLetter(col)]
  }

  datatype Position = Position(row: nat, col: nat)

  /**
   * Reads a label back: a canonical decimal row number of at least 1, followed by exactly
   * one character at or after 'A'.
   */
  function ParseSeatLabel(s: string): Option<Position> {
    if |s| >= 2 && CanonicalDigits(s[..|s| - 1]) && 65 <= s[|s| - 1] as int < 65 + MaxColumns then
      var n := ParseDigits(s[..|s| - 1]);
      if n >= 1 then Some(Position(n - 1, s[|s| - 1] as int - 65)) else None
    else None
  }

  /** The row prefix is all digits without a leading zero, followed by exactly one non-digit letter. */
  lemma {:induction false} SeatLabelShape(row: nat, col: nat)
    requires col < MaxColumns
    ensures var s := SeatLabel(row, col);
      && |s| >= 2
      && s[..|s| - 1] == NatToString(row + 1)
      && AllDigits(s[..|s| - 1]) && s[0] != '0'
      && !IsDigit(s[|s| - 1]) && s[|s| - 1] as int == 65 + col
  {
    var s := SeatLabel(row, col);
    assert s[..|s| - 1] == NatToString(row + 1);
  }

  /** Parsing a label gives back the position it was made from. */
  lemma {:induction false} SeatLabelRoundTrip(row: nat, col: nat)
    requires col < MaxColumns
    ensures ParseSeatLabel(SeatLabel(row, col)) == Some(Position(row, col))
  {
    SeatLabelShape(row, col);
    NatToStringRoundTrip(row + 1);
  }

  /** Every string that parses as a label is the label of the position it parses to. */
  lemma {:induction false} ParseSeatLabelSound(s: string)
    requires ParseSeatLabel(s).Some?
    ensures ParseSeatLabel(s).value.col < MaxColumns
    ensures SeatLabel(ParseSeatLabel(s).value.row, ParseSeatLabel(s).value.col) == s
  {
    var p := s[..|s| - 1];
    ParseDigitsRoundTrip(p);
    assert s == p + [s[|s| - 1]];
  }

  /** Distinct positions have distinct labels. */
  lemma {:induction false} SeatLabelInjective(r1: nat, c1: nat, r2: nat, c2: nat)
    requires c1 < MaxColumns && c2 < MaxColumns
    requires SeatLabel(r1, c1) == SeatLabel(r2, c2)
    ensures r1 == r2 && c1 == c2
  {
    SeatLabelRoundTrip(r1, c1);
    SeatLabelRoundTrip(r2, c2);
  }

  // ---- row-major index arithmetic ----

  lemma {:induction false} DivModUnique(a: int, w: int, q: int, m: int)
    requires w > 0 && 0 <= m < w && a == q * w + m
    ensures a / w == q && a % w == m
  {
    var q0, m0 := a / w, a % w;
    assert a == q0 * w + m0;
    if q0 < q {
      MulAtLeast(q - q0, w);
      assert false;
    } else if q < q0 {
      MulAtLeast(q0 - q, w);
      assert false;
    }
  }

  lemma {:induction false} MulAtLeast(k: int, w: int)
    requires k >= 1 && w >= 0
    ensures k * w >= w
  {
  }

  lemma {:induction false} MulMonotone(a: int, b: int, w: int)
    requires a <= b && w >= 0
    ensures a * w <= b * w
  {
  }

  /** The cell at (row, col) of a grid `width` wide has index row * width + col, and back. */
  lemma {:induction false} CellIndex(row: nat, col: nat, height: nat, width: nat)
    requires row < height && col < width
    ensures row * width + col < height * width
    ensures (row * width + col) / width == row && (row * width + col) % width == col
  {
    DivModUnique(row * width + col, width, row, col);
    MulMonotone(row + 1, height, width);
    assert (row + 1) * width == row * width + width;
  }

  /** Every index of a height-by-width grid is a cell in range. */
  lemma {:induction false} IndexCell(i: nat, height: nat, width: nat)
    requires i < height * width
    ensures width > 0
    ensures i / width < height && i % width < width
    ensures (i / width) * width + i % width == i
  {
    if i / width >= height {
      MulMonotone(height, i / width, width);
    }
  }
}
