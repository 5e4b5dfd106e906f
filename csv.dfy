/** CSVToString: a header line and one line per record, every cell quoted with inner quotes doubled. */
module Csv {
  import opened Text

  const Delimiter: string := ","

  /** A cell as written: in quotes, each quote inside doubled. */
  function QuoteCell(s: string): string
  {
    "\"" + ReplaceAll(s, "\"", "\"\"") + "\""
  }

  /** A quoted cell read back: the quotes around it dropped, each doubled quote halved. */
  function UnquoteCell(cell: string): string
    requires |cell| >= 2
  {
    ReplaceAll(cell[1..|cell| - 1], "\"\"", "\"")
  }

  /** Cells quoted and separated by the delimiter. */
  function JoinCells(cells: seq<string>): string
    decreases |cells|
  {
    if cells == [] then ""
    else if |cells| == 1 then QuoteCell(cells[0])
    else JoinCells(cells[..|cells| - 1]) + Delimiter + QuoteCell(cells[|cells| - 1])
  }

  /** One line of the file: the cells, then the line terminator. */
  function RecordLine(cells: seq<string>): string
  {
    JoinCells(cells) + LineTerminator
  }

  /** The lines of the whole records in the first `end` cells of `data`, `width` cells each. */
  function DataLines(data: seq<string>, width: nat, end: nat): seq<string>
    requires width > 0 && end <= |data|
    decreases end
  {
    if end < width then [] else DataLines(data, width, end - width) + [RecordLine(data[end - width..end])]
  }

  /** The whole text: the header line, then every record's line. */
  function CsvText(headers: seq<string>, data: seq<string>): string
    requires |headers| > 0
  {
    RecordLine(headers) + Concat(DataLines(data, |headers|, |data|))
  }

  lemma {:induction false} MulLe(a: nat, b: nat, w: nat)
    requires a <= b
    ensures a * w <= b * w
    decreases b - a
  {
    if a < b {
      MulLe(a, b - 1, w);
      assert (b - 1) * w + w == b * w;
    }
  }

  lemma DivFits(a: nat, w: nat)
    requires w > 0
    ensures (a / w) * w + a % w == a
  {
  }

  /** Euclidean division is unique: `lines * width + inRow` is record `lines`, cell `inRow`. */
  lemma DivStep(lines: nat, width: nat, inRow: nat)
    requires width > 0 && inRow < width
    ensures (lines * width + inRow) / width == lines
    ensures (lines * width + inRow) % width == inRow
  {
    var a := lines * width + inRow;
    var q := a / width;
    DivFits(a, width);
    if q < lines {
      MulLe(q + 1, lines, width);
    } else if lines < q {
      MulLe(lines + 1, q, width);
    }
  }

  /** Past a record boundary, the remainder counts the cells of the open record. */
  lemma ModFrom(start: nat, width: nat, r: nat)
    requires width > 0 && start % width == 0 && r < width
    ensures (start + r) % width == r
    ensures (start + width) % width == 0
  {
    var q := start / width;
    DivFits(start, width);
    DivStep(q, width, r);
    DivStep(q + 1, width, 0);
    assert (q + 1) * width == start + width;
  }

  /** There are `end / width` whole records before a record boundary `end`. */
  lemma {:induction false} DataLinesCount(data: seq<string>, width: nat, end: nat)
    requires width > 0 && end <= |data| && end % width == 0
    ensures |DataLines(data, width, end)| == end / width
    decreases end
  {
    var q := end / width;
    DivFits(end, width);
    if end >= width {
      assert q >= 1;
      assert end - width == (q - 1) * width;
      DivStep(q - 1, width, 0);
      DataLinesCount(data, width, end - width);
    } else {
      assert q == 0 by {
        if q >= 1 {
          MulLe(1, q, width);
        }
      }
    }
  }

  /** Record `k` of a text ending on a record boundary is cells `k * width` to `(k + 1) * width`. */
  lemma {:induction false} DataLinesRecord(data: seq<string>, width: nat, end: nat, k: nat)
    requires width > 0 && end <= |data| && end % width == 0 && k < end / width
    ensures |DataLines(data, width, end)| == end / width
    ensures 0 <= k * width <= (k + 1) * width <= end
    ensures DataLines(data, width, end)[k] == RecordLine(data[k * width..(k + 1) * width])
    decreases end
  {
    var q := end / width;
    DataLinesCount(data, width, end);
    DivFits(end, width);
    assert end - width == (q - 1) * width;
    MulLe(k + 1, q, width);
    if k < q - 1 {
      DivStep(q - 1, width, 0);
      DataLinesRecord(data, width, end - width, k);
    } else {
      assert k * width == end - width;
    }
  }

  /** `start` is a record boundary: a whole number of records of `width` cells. */
  ghost predicate Boundary(start: nat, width: nat)
    decreases start
  {
    start == 0 || (width > 0 && start >= width && Boundary(start - width, width))
  }

  lemma {:induction false} BoundaryMod(start: nat, width: nat)
    requires width > 0 && Boundary(start, width)
    ensures start % width == 0
    decreases start
  {
    if start > 0 {
      BoundaryMod(start - width, width);
      ModFrom(start - width, width, 0);
    }
  }

  /** The cell after `inRow` cells of an open record closes it exactly when it is the record's last. */
  lemma RecordEnds(start: nat, width: nat, inRow: nat, count: nat)
    requires width > 0 && Boundary(start, width) && inRow < width && count == start + inRow + 1
    ensures count % width == 0 <==> inRow + 1 == width
    ensures inRow + 1 == width ==> Boundary(start + width, width)
  {
    BoundaryMod(start, width);
    if inRow + 1 < width {
      ModFrom(start, width, inRow + 1);
    } else {
      ModFrom(start, width, 0);
    }
  }

  /** Data that fills whole records ends on a boundary, not inside a record. */
  lemma EndsOnBoundary(start: nat, width: nat, inRow: nat)
    requires width > 0 && Boundary(start, width) && inRow < width && (start + inRow) % width == 0
    ensures inRow == 0
  {
    BoundaryMod(start, width);
    ModFrom(start, width, inRow);
  }

  /** Writing a complete record's line after the lines before it. */
  lemma CloseRecord(head: string, data: seq<string>, width: nat, start: nat, result: string, row: string)
    requires width > 0 && start + width <= |data|
    requires result == head + Concat(DataLines(data, width, start))
    requires row == JoinCells(data[start..start + width])
    ensures result + (row + LineTerminator) == head + Concat(DataLines(data, width, start + width))
  {
    DataLinesStep(data, width, start);
  }

  lemma DataLinesStep(data: seq<string>, width: nat, start: nat)
    requires width > 0 && start + width <= |data|
    ensures Concat(DataLines(data, width, start + width)) ==
            Concat(DataLines(data, width, start)) + RecordLine(data[start..start + width])
  {
    ConcatAppend(DataLines(data, width, start), [RecordLine(data[start..start + width])]);
  }

  lemma JoinStep(cells: seq<string>, i: nat)
    requires i < |cells|
    ensures JoinCells(cells[..i + 1]) ==
            (if i == 0 then QuoteCell(cells[i]) else JoinCells(cells[..i]) + Delimiter + QuoteCell(cells[i]))
  {
    assert cells[..i + 1][..i] == cells[..i];
  }

  lemma JoinNonEmpty(cells: seq<string>)
    ensures |JoinCells(cells)| == 0 <==> cells == []
  {
  }

  /**
   * CSVToString: refuses an empty header list and a data list that does not fill whole records,
   * leaving the text untouched and the total 0; otherwise writes the header line and one line per
   * record, and reports the number of lines written.
   */
  method CSVToString(text: string, headers: seq<string>, data: seq<string>)
    returns (ok: bool, result: string, total: int)
    ensures ok <==> |headers| > 0 && |data| % |headers| == 0
    ensures !ok ==> result == text && total == 0
    ensures ok ==> result == CsvText(headers, data) && total == |data| / |headers| + 1
  {
    total := 0;
    result := text;
    if |headers| == 0 {
      return false, result, total;
    }
    if |data| % |headers| != 0 {
      return false, result, total;
    }
    result := HeaderRow(headers);
    result := result + LineTerminator;
    result := DataRows(result, data, |headers|);
    total := |data| / |headers| + 1;
    return true, result, total;
  }

  /** The header loop: the quoted header cells joined by the delimiter. */
  method HeaderRow(headers: seq<string>) returns (line: string)
    ensures line == JoinCells(headers)
  {
    line := "";
    var i := 0;
    while i < |headers|
      invariant 0 <= i <= |headers|
      invariant line == JoinCells(headers[..i])
    {
      JoinNonEmpty(headers[..i]);
      JoinStep(headers, i);
      line := AppendCell(line, headers[i]);
      i := i + 1;
    }
    assert headers[..i] == headers;
  }

  /** A row with one more cell: a delimiter unless the row is still empty, then the quoted cell. */
  function Extend(row: string, cell: string): string
  {
    (if |row| > 0 then row + Delimiter else "") + QuoteCell(cell)
  }

  /** The loops' cell step, writing `Extend(row, cell)`. */
  method AppendCell(row: string, cell: string) returns (r: string)
    ensures r == Extend(row, cell)
  {
    r := row;
    if |r| > 0 {
      r := r + Delimiter;
    }
    r := r + QuoteCell(cell);
  }

  /** The data loop: one line per `width` cells appended to `head`, each written when its last cell is. */
  method DataRows(head: string, data: seq<string>, width: nat) returns (result: string)
    requires width > 0 && |data| % width == 0
    ensures result == head + Concat(DataLines(data, width, |data|))
  {
    result := head;
    var row := "";
    var count := 0;
    ghost var start, inRow := 0, 0;
    while count < |data|
      invariant 0 <= count <= |data| && count == start + inRow && 0 <= inRow < width
      invariant Boundary(start, width)
      invariant result == head + Concat(DataLines(data, width, start))
      invariant row == JoinCells(data[start..count])
    {
      var col := data[count];
      DataStep(head, data, width, start, inRow, count, result, row);
      count := count + 1;
      row := AppendCell(row, col);
      if count % width == 0 {
        row := row + LineTerminator;
        result := result + row;
        row := "";
        start, inRow := start + width, 0;
      } else {
        inRow := inRow + 1;
      }
    }
    EndsOnBoundary(start, width, inRow);
  }

  /**
   * One turn of the data loop: the next cell either closes the record, whose line then follows
   * the lines before it, or extends the open row.
   */
  lemma DataStep(head: string, data: seq<string>, width: nat, start: nat, inRow: nat, count: nat, result: string, row: string)
    requires width > 0 && count < |data| && count == start + inRow && inRow < width && Boundary(start, width)
    requires result == head + Concat(DataLines(data, width, start))
    requires row == JoinCells(data[start..count])
    ensures (count + 1) % width == 0 ==>
              inRow + 1 == width && Boundary(start + width, width) &&
              result + (Extend(row, data[count]) + LineTerminator)
                == head + Concat(DataLines(data, width, start + width)) &&
              "" == JoinCells(data[start + width..count + 1])
    ensures (count + 1) % width != 0 ==>
              inRow + 1 < width &&
              Extend(row, data[count]) == JoinCells(data[start..count + 1])
  {
    RowStep(data, start, count, row);
    RecordEnds(start, width, inRow, count + 1);
    if inRow + 1 == width {
      CloseRecord(head, data, width, start, result, JoinCells(data[start..count + 1]));
      assert data[start + width..count + 1] == [];
    }
  }

  /** Appending the next cell to the open row of the data loop. */
  lemma RowStep(data: seq<string>, start: nat, count: nat, row: string)
    requires start <= count < |data| && row == JoinCells(data[start..count])
    ensures JoinCells(data[start..count + 1]) == Extend(row, data[count])
  {
    var cells := data[start..count + 1];
    var n := count - start;
    assert cells[..n] == data[start..count];
    assert cells[..n + 1] == cells && cells[n] == data[count];
    JoinStep(cells, n);
    JoinNonEmpty(cells[..n]);
  }

  // ---------------------------------------------------------------------------------------------
  // Properties

  /** Doubling the quotes and then halving the doubled ones gives the text back. */
  lemma {:induction false} HalveDoubled(s: string)
    ensures ReplaceAll(ReplaceAll(s, "\"", "\"\""), "\"\"", "\"") == s
  {
    if s != [] {
      var rest := s[1..];
      assert s == [s[0]] + rest;
      HalveDoubled(rest);
      if s[0] == '"' {
        ReplaceAllHit(rest, "\"", "\"\"");
        ReplaceAllHit(ReplaceAll(rest, "\"", "\"\""), "\"\"", "\"");
      } else {
        ReplaceAllMiss(s[0], rest, "\"", "\"\"");
        ReplaceAllMiss(s[0], ReplaceAll(rest, "\"", "\"\""), "\"\"", "\"");
      }
    }
  }

  /** A quoted cell reads back as the cell's text, whatever quotes, commas or line breaks it holds. */
  lemma QuoteRoundTrip(s: string)
    ensures |QuoteCell(s)| >= 2 && UnquoteCell(QuoteCell(s)) == s
  {
    var body := ReplaceAll(s, "\"", "\"\"");
    assert QuoteCell(s)[1..|QuoteCell(s)| - 1] == body;
    HalveDoubled(s);
  }

  /** The text is one header line followed by one line per record: `total` lines in all. */
  lemma CsvLines(headers: seq<string>, data: seq<string>, k: nat)
    requires |headers| > 0 && |data| % |headers| == 0
    ensures CsvText(headers, data) == Concat([RecordLine(headers)] + DataLines(data, |headers|, |data|))
    ensures |[RecordLine(headers)] + DataLines(data, |headers|, |data|)| == |data| / |headers| + 1
    ensures k < |data| / |headers| ==>
      k < |DataLines(data, |headers|, |data|)| && 0 <= k * |headers| <= (k + 1) * |headers| <= |data|
      && DataLines(data, |headers|, |data|)[k] == RecordLine(data[k * |headers|..(k + 1) * |headers|])
  {
    var ls := DataLines(data, |headers|, |data|);
    assert ([RecordLine(headers)] + ls)[1..] == ls;
    DataLinesCount(data, |headers|, |data|);
    if k < |data| / |headers| {
      DataLinesRecord(data, |headers|, |data|, k);
    }
  }
}
