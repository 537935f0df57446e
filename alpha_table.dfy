/**
 * The strong coupling used for bound states: a table of 2001 rows, one per
 * mass from 0 to 20000 in steps of 10, each holding the coupling for the
 * triplet, sextet and octet, stored row by row in one buffer of 3 * 2001
 * cells.  The table is loaded once (`read_table_alpha`) and read by
 * `alphaS_bs`.
 */
module AlphaTable {
  import opened Wrappers

  /** Rows the buffer is allocated for. */
  const NrEntries: int := 2001

  /** Cells of the buffer: `calloc(3 * nr_entries, sizeof(double))`. */
  const TableSize: int := 3 * NrEntries

  /** Smallest and largest tabulated mass, and the step between rows. */
  const MassMin: real := 0.0
  const MassMax: real := 20000.0
  const MassStep: real := 10.0

  /** One line of the table file: a mass and the three couplings. */
  datatype Row = Row(mass: int, triplet: real, sextet: real, octet: real)

  /** The outcome of loading: the filled buffer, or the program's exit status. */
  datatype TableLoad = Loaded(table: seq<real>) | Exited(code: int)

  /** The column of a representation; other colours leave the index unset. */
  function ColorIndex(color: int): (i: Option<int>)
    ensures i.Some? <==> color in {3, 6, 8}
    ensures i.Some? ==> 0 <= i.value < 3
  {
    if color == 3 then Some(0)
    else if color == 6 then Some(1)
    else if color == 8 then Some(2)
    else None
  }

  /** The row of a mass: `(int) floor((m - mmin) / mstep + 0.001)`. */
  function MassBin(m: real): int
  {
    ((m - MassMin) / MassStep + 0.001).Floor
  }

  /** Where `alphaS_bs` reads, when the colour gives it a column. */
  function AlphaIndex(color: int, m: real): int
    requires color in {3, 6, 8}
  {
    MassBin(m) * 3 + ColorIndex(color).value
  }

  /**
   * alphaS_bs: the tabulated coupling, or None where the program's read is
   * undefined (an unset column index, or a cell outside the buffer).
   */
  function AlphaSBs(color: int, m: real, table: seq<real>): (r: Option<real>)
    ensures r.Some? <==> color in {3, 6, 8} && 0 <= AlphaIndex(color, m) < |table|
    ensures r.Some? ==> r.value == table[AlphaIndex(color, m)]
  {
    match ColorIndex(color)
    case None => None
    case Some(ci) =>
      var idx := MassBin(m) * 3 + ci;
      if 0 <= idx < |table| then Some(table[idx]) else None
  }

  /** Every mass of the tabulated range falls into one of the rows 0..2000. */
  lemma MassBinInRange(m: real)
    requires MassMin <= m <= MassMax
    ensures 0 <= MassBin(m) < NrEntries
  {
    var x := (m - MassMin) / MassStep + 0.001;
    assert 0.0 < x <= 2000.001;
  }

  /** A tabulated mass 10 k lands exactly in row k. */
  lemma MassBinOfGridPoint(k: int)
    ensures MassBin(MassStep * k as real) == k
  {
    var x := (MassStep * k as real - MassMin) / MassStep + 0.001;
    assert x == k as real + 0.001;
  }

  /**
   * For every valid colour and tabulated mass the read stays inside a
   * buffer of the allocated size, so a loaded table always answers.
   */
  lemma LookupInBounds(color: int, m: real, table: seq<real>)
    requires color in {3, 6, 8}
    requires MassMin <= m <= MassMax
    requires |table| == TableSize
    ensures 0 <= AlphaIndex(color, m) < TableSize
    ensures AlphaSBs(color, m, table) == Some(table[AlphaIndex(color, m)])
  {
    MassBinInRange(m);
  }

  /** The cells the loading loop writes, and whether it stopped with exit(10). */
  datatype Fill = Fill(written: set<int>, exited: bool)

  /**
   * The loading loop of `read_table_alpha` as written, for a file of `rows`
   * lines, from buffer position `counter` on: it stops at the end of the
   * file, exits when `counter / 3 > nr_entries`, and otherwise writes the
   * three cells from `counter` on.
   */
  function FillAsWritten(rows: nat, counter: nat): (f: Fill)
    decreases 3 * rows - counter
  {
    if counter >= 3 * rows then Fill({}, false)
    else if counter / 3 > NrEntries then Fill({}, true)
    else
      var rest := FillAsWritten(rows, counter + 3);
      Fill({counter, counter + 1, counter + 2} + rest.written, rest.exited)
  }

  /**
   * Row `k` of the file is filled in from position `counter` on whenever
   * the guard admits it.
   */
  lemma {:induction false} FillAsWrittenReaches(rows: nat, counter: nat, k: nat)
    requires counter % 3 == 0 && counter <= 3 * k
    requires k < rows && k <= NrEntries
    ensures 3 * k in FillAsWritten(rows, counter).written
    decreases 3 * k - counter
  {
    if counter < 3 * k {
      FillAsWrittenReaches(rows, counter + 3, k);
    }
  }

  /**
   * The guard as written lets row 2001 through: a file of more than 2001
   * rows makes the loop write cell 6003, one past the 6003-cell buffer, and
   * a file of exactly 2002 rows is even accepted without the exit.
   */
  lemma AsWrittenOverflows(rows: nat)
    requires rows > NrEntries
    ensures TableSize in FillAsWritten(rows, 0).written
    ensures rows == NrEntries + 1 ==> !FillAsWritten(rows, 0).exited
  {
    FillAsWrittenReaches(rows, 0, NrEntries);
    if rows == NrEntries + 1 {
      NoExitWithinBuffer(rows, 0);
    }
  }

  lemma {:induction false} NoExitWithinBuffer(rows: nat, counter: nat)
    requires rows == NrEntries + 1 && counter % 3 == 0
    ensures !FillAsWritten(rows, counter).exited
    decreases 3 * rows - counter
  {
    if counter < 3 * rows {
      NoExitWithinBuffer(rows, counter + 3);
    }
  }

  /**
   * read_table_alpha with the guard the buffer needs, `counter / 3 >=
   * nr_entries`: a file of at most 2001 rows fills the buffer row by row
   * and leaves the rest at calloc's zero; a longer file ends the program
   * with status 10 before any cell past the buffer is touched.
   */
  method ReadTableAlpha(rows: seq<Row>) returns (r: TableLoad)
    ensures r.Exited? <==> |rows| > NrEntries
    ensures r.Exited? ==> r.code == 10
    ensures r.Loaded? ==> |r.table| == TableSize
    ensures r.Loaded? ==> forall i :: 0 <= i < |rows| ==>
              r.table[3 * i] == rows[i].triplet
              && r.table[3 * i + 1] == rows[i].sextet
              && r.table[3 * i + 2] == rows[i].octet
    ensures r.Loaded? ==> forall j :: 3 * |rows| <= j < TableSize ==> r.table[j] == 0.0
  {
    var alpha := new real[TableSize](_ => 0.0);
    var counter := 0;
    while counter < 3 * |rows|
      invariant counter % 3 == 0 && 0 <= counter <= 3 * |rows|
      invariant counter <= TableSize
      invariant forall i :: 0 <= i < counter / 3 ==>
                  alpha[3 * i] == rows[i].triplet
                  && alpha[3 * i + 1] == rows[i].sextet
                  && alpha[3 * i + 2] == rows[i].octet
      invariant forall j :: counter <= j < TableSize ==> alpha[j] == 0.0
    {
      if counter / 3 >= NrEntries {
        return Exited(10);
      }
      var row := rows[counter / 3];
      alpha[counter] := row.triplet;
      alpha[counter + 1] := row.sextet;
      alpha[counter + 2] := row.octet;
      counter := counter + 3;
    }
    return Loaded(alpha[..]);
  }
}
