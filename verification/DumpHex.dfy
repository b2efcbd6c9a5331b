/** The row and column dump of a packet (mote-gateway/hard/myutils.c, dump_hex). */
module DumpHex {
  import opened Text
  import Hex

  const PER_ROW := 16

  // ---------------------------------------------------------------- the text of a dump

  function Cells(row: string): (s: string)
    requires Bytes(row)
    ensures |s| == 3 * |row|
  {
    if row == "" then "" else Cells(row[..|row| - 1]) + Hex.Lower(row[|row| - 1]) + " "
  }

  function Blanks(n: nat): (s: string)
    ensures |s| == 3 * n
  {
    if n == 0 then "" else Blanks(n - 1) + "   "
  }

  function Shown(c: char): char {
    if ' ' <= c <= '~' then c else '.'
  }

  /** The printable column. */
  function Gutter(row: string): (s: string)
    ensures |s| == |row|
    ensures forall i | 0 <= i < |row| :: s[i] == Shown(row[i])
  {
    seq(|row|, i requires 0 <= i < |row| => Shown(row[i]))
  }

  function RowText(row: string): string
    requires Bytes(row) && |row| <= PER_ROW
  {
    "~ " + Cells(row) + Blanks(PER_ROW - |row|) + Gutter(row) + "\r\n"
  }

  function Min(a: nat, b: nat): nat { if a < b then a else b }

  /** Row k of a packet. */
  function RowAt(data: string, k: nat): (row: string)
    requires Bytes(data) && 16 * k <= |data|
    ensures |row| <= PER_ROW && Bytes(row)
  {
    data[16 * k..Min(16 * k + 16, |data|)]
  }

  /** The lines of a dump: as many full rows as there are, and one that is not full. */
  function DumpText(data: string): (lines: seq<string>)
    requires Bytes(data)
    ensures |lines| == |data| / 16 + 1
    ensures forall k | 0 <= k < |lines| :: lines[k] == RowText(RowAt(data, k))
  {
    seq(|data| / 16 + 1, k requires 0 <= k <= |data| / 16 => RowText(RowAt(data, k)))
  }

  // ---------------------------------------------------------------- the loops

  lemma CellsNext(row: string, c: char)
    requires Bytes(row) && IsByte(c)
    ensures Cells(row + [c]) == Cells(row) + Hex.Lower(c) + " "
  {
    assert (row + [c])[..|row|] == row;
  }

  lemma GutterNext(row: string, c: char)
    ensures Gutter(row + [c]) == Gutter(row) + [Shown(c)]
  {
  }

  lemma RowGrows(data: string, start: nat, offset: nat)
    requires Bytes(data) && start <= offset < |data|
    ensures Cells(data[start..offset + 1]) == Cells(data[start..offset]) + Hex.Lower(data[offset]) + " "
    ensures Gutter(data[start..offset + 1]) == Gutter(data[start..offset]) + [Shown(data[offset])]
  {
    assert data[start..offset + 1] == data[start..offset] + [data[offset]];
    CellsNext(data[start..offset], data[offset]);
    GutterNext(data[start..offset], data[offset]);
  }

  /** One byte: its cell is printed, and its printable form goes into the row buffer. */
  method DumpByte(data: string, ghost start: nat, at: nat, cells0: string, sss0: string)
    returns (cells: string, sss: string)
    requires Bytes(data) && start <= at < |data|
    requires cells0 == Cells(data[start..at]) && sss0 == Gutter(data[start..at])
    ensures cells == Cells(data[start..at + 1]) && sss == Gutter(data[start..at + 1])
  {
    var c := data[at];
    RowGrows(data, start, at);
    sss := sss0 + [Shown(c)];
    cells := cells0 + Hex.Lower(c) + " ";
  }

  /** The inner loop: the cells of the row whose first byte has the given offset, its printable
      column, which the source collects in a zeroed buffer, and whether the packet ends before the
      row is full. The counters are 8 bits wide. */
  method DumpBytes(data: string, idxLigne: nat, start: nat)
    returns (cells: string, sss: string, offset: nat, idxChar: nat, ended: bool)
    requires Bytes(data) && |data| <= 255
    requires start == 16 * idxLigne <= |data|
    ensures ended <==> |data| < start + PER_ROW
    ensures offset == (if ended then |data| else start + PER_ROW) && idxChar == offset - start
    ensures cells == Cells(data[start..offset]) && sss == Gutter(data[start..offset])
  {
    cells, sss, idxChar, offset, ended := "", "", 0, start, false;
    while idxChar < 16
      invariant idxChar <= 16 && offset == start + idxChar <= |data|
      invariant cells == Cells(data[start..offset]) && sss == Gutter(data[start..offset])
    {
      if offset >= |data| {
        ended := true;
        return;
      }
      cells, sss := DumpByte(data, start, 16 * idxLigne + idxChar, cells, sss);
      idxChar := Increment(idxChar);
      offset := Increment(offset);
    }
  }

  /** What follows the cells of a row: blanks that align the last row of a packet, and the printable
      column. */
  method DumpEnd(idxChar: nat, sss: string, ended: bool) returns (out: string)
    requires idxChar <= PER_ROW && (ended <==> idxChar < PER_ROW)
    ensures out == Blanks(PER_ROW - idxChar) + sss + "\r\n"
  {
    out := "";
    if ended {
      var z := idxChar + 1;
      while z < PER_ROW
        invariant idxChar < z <= PER_ROW && out == Blanks(z - idxChar - 1)
      {
        out := out + "   ";
        z := z + 1;
      }
      out := out + "   ";
    }
    out := out + sss + "\r\n";
  }

  lemma Regroup(a: string, b: string, c: string, d: string)
    ensures a + (b + c + d) == a + b + c + d
  {
  }

  /** One turn of the outer loop. */
  method DumpRow(data: string, idxLigne: nat, start: nat) returns (line: string, offset: nat, ended: bool)
    requires Bytes(data) && |data| <= 255
    requires start == 16 * idxLigne <= |data|
    ensures ended <==> |data| < start + PER_ROW
    ensures offset == if ended then |data| else start + PER_ROW
    ensures line == RowText(RowAt(data, idxLigne))
  {
    var cells, sss, next, idxChar, last := DumpBytes(data, idxLigne, start);
    var end := DumpEnd(idxChar, sss, last);
    Regroup("~ " + cells, Blanks(PER_ROW - idxChar), sss, "\r\n");
    line, offset, ended := "~ " + cells + end, next, last;
  }

  lemma LastRow(length: nat, k: nat, ended: bool)
    requires 16 * k <= length && (ended <==> length < 16 * k + 16)
    ensures ended <==> k == length / 16
  {
  }

  /** The lines printed. Every byte is read once, in order and in bounds, and the loops end with the
      row in which the packet ends, so the line break after them is never printed. */
  method Dump(data: string) returns (lines: seq<string>)
    requires Bytes(data) && |data| <= 255
    ensures lines == DumpText(data)
  {
    lines := [];
    var idxLigne: nat := 0;
    var offset: nat := 0;
    while idxLigne <= |data| / 16
      invariant offset == 16 * idxLigne <= |data| && |lines| == idxLigne
      invariant forall k | 0 <= k < idxLigne :: lines[k] == RowText(RowAt(data, k))
      decreases |data| - offset
    {
      var line, next, ended := DumpRow(data, idxLigne, offset);
      LastRow(|data|, idxLigne, ended);
      lines := lines + [line];
      if ended { return; }
      offset := next;
      idxLigne := Increment(idxLigne);
    }
    assert false;
  }

  // ---------------------------------------------------------------- reading a dump

  /** Two lower-case hex digits and a blank for every byte. */
  predicate CellChar(c: char, k: nat) {
    if k % 3 == 2 then c == ' ' else '0' <= c <= '9' || 'a' <= c <= 'f'
  }

  lemma {:induction false} CellsLower(row: string)
    requires Bytes(row)
    ensures forall k | 0 <= k < 3 * |row| :: CellChar(Cells(row)[k], k)
  {
    if row != "" { CellsLower(row[..|row| - 1]); }
  }

  /** Every row, full or not, byte by byte: a mark, the cells, blanks up to column 50, and there the
      printable column, with a dot for a byte that is not printable. */
  ghost predicate Layout(text: string, row: string) {
    && |row| <= 16 && |text| == 52 + |row| && text[..2] == "~ " && text[50 + |row|..] == "\r\n"
    && (forall k | 2 <= k < 2 + 3 * |row| :: CellChar(text[k], k - 2))
    && (forall k | 2 + 3 * |row| <= k < 50 :: text[k] == ' ')
    && (forall k | 0 <= k < |row| :: text[50 + k] == if 32 <= row[k] as int < 127 then row[k] else '.')
  }

  lemma LayoutOfParts(row: string, cells: string, blanks: string, gutter: string)
    requires |row| <= 16 && |cells| == 3 * |row| && |blanks| == 48 - 3 * |row| && |gutter| == |row|
    requires forall k | 0 <= k < |cells| :: CellChar(cells[k], k)
    requires forall k | 0 <= k < |blanks| :: blanks[k] == ' '
    requires forall k | 0 <= k < |row| :: gutter[k] == if 32 <= row[k] as int < 127 then row[k] else '.'
    ensures Layout("~ " + cells + blanks + gutter + "\r\n", row)
  {
    var text := "~ " + cells + blanks + gutter + "\r\n";
    var at := 2 + |cells|;
    assert forall k | 2 <= k < at :: text[k] == cells[k - 2];
    assert forall k | at <= k < 50 :: text[k] == blanks[k - at];
    assert forall k | 0 <= k < |row| :: text[50 + k] == gutter[k];
  }

  lemma GutterColumn(row: string)
    requires Bytes(row) && |row| <= PER_ROW
    ensures Layout(RowText(row), row)
  {
    CellsLower(row);
    BlanksBlank(PER_ROW - |row|);
    LayoutOfParts(row, Cells(row), Blanks(PER_ROW - |row|), Gutter(row));
  }

  lemma {:induction false} BlanksBlank(n: nat)
    ensures forall k | 0 <= k < 3 * n :: Blanks(n)[k] == ' '
  {
    if n > 0 { BlanksBlank(n - 1); }
  }

  function ReadCells(cells: string): string {
    if |cells| < 3 then ""
    else match (Hex.NibbleVal(cells[0]), Hex.NibbleVal(cells[1]))
      case (Some(hi), Some(lo)) => [(hi * 16 + lo) as char] + ReadCells(cells[3..])
      case _ => ""
  }

  /** Reads the hex columns of the first n lines of a dump. */
  function ReadDump(lines: seq<string>, n: nat): string
    requires n <= |lines|
    requires forall i | 0 <= i < n :: |lines[i]| >= 50
  {
    if n == 0 then "" else ReadDump(lines, n - 1) + ReadCells(lines[n - 1][2..50])
  }

  lemma {:induction false} CellsFirst(row: string)
    requires Bytes(row) && row != ""
    ensures Cells(row) == Hex.Lower(row[0]) + " " + Cells(row[1..])
  {
    if |row| == 1 {
      assert row[..0] == "" == row[1..];
    } else {
      var init := row[..|row| - 1];
      CellsFirst(init);
      assert row[1..][..|row| - 2] == init[1..];
    }
  }

  lemma NibblesOfLower(b: char)
    requires IsByte(b)
    ensures Hex.NibbleVal(Hex.Lower(b)[0]) == Some(b as int / 16)
    ensures Hex.NibbleVal(Hex.Lower(b)[1]) == Some(b as int % 16)
  {
  }

  lemma BlanksUnread(n: nat)
    ensures ReadCells(Blanks(n)) == ""
  {
    if n > 0 {
      BlanksStart(n);
      assert Hex.NibbleVal(' ').None?;
    }
  }

  lemma {:induction false} BlanksStart(n: nat)
    requires n > 0
    ensures Blanks(n)[0] == ' '
  {
    if n > 1 { BlanksStart(n - 1); }
  }

  lemma ReadCell(b: char, rest: string)
    requires IsByte(b)
    ensures ReadCells(Hex.Lower(b) + " " + rest) == [b] + ReadCells(rest)
  {
    NibblesOfLower(b);
    var cells := Hex.Lower(b) + " " + rest;
    assert cells[0] == Hex.Lower(b)[0] && cells[1] == Hex.Lower(b)[1] && cells[3..] == rest;
    assert ((b as int / 16) * 16 + b as int % 16) as char == b;
  }

  /** The first cell of a row, and that it is read as the first byte. */
  lemma FirstCell(row: string) returns (cell: string)
    requires Bytes(row) && row != ""
    ensures Cells(row) == cell + Cells(row[1..])
    ensures forall rest: string :: ReadCells(cell + rest) == [row[0]] + ReadCells(rest)
  {
    CellsFirst(row);
    cell := Hex.Lower(row[0]) + " ";
    forall rest: string ensures ReadCells(cell + rest) == [row[0]] + ReadCells(rest) {
      ReadCell(row[0], rest);
    }
  }

  lemma FirstRead(cell: string, c: char, later: string, blanks: string, rest: string)
    requires forall t: string :: ReadCells(cell + t) == [c] + ReadCells(t)
    requires ReadCells(later + blanks) == rest
    ensures ReadCells((cell + later) + blanks) == [c] + rest
  {
    assert (cell + later) + blanks == cell + (later + blanks);
  }

  lemma {:induction false} CellsRead(row: string, n: nat)
    requires Bytes(row)
    ensures ReadCells(Cells(row) + Blanks(n)) == row
  {
    if row == "" {
      BlanksUnread(n);
      assert Cells(row) + Blanks(n) == Blanks(n);
    } else {
      var cell := FirstCell(row);
      CellsRead(row[1..], n);
      FirstRead(cell, row[0], Cells(row[1..]), Blanks(n), row[1..]);
    }
  }

  lemma RowRead(row: string)
    requires Bytes(row) && |row| <= PER_ROW
    ensures |RowText(row)| >= 50 && ReadCells(RowText(row)[2..50]) == row
  {
    CellsRead(row, PER_ROW - |row|);
    assert RowText(row)[2..50] == Cells(row) + Blanks(PER_ROW - |row|);
  }

  lemma RowJoins(data: string, k: nat)
    requires Bytes(data) && 16 * k <= |data|
    ensures data[..16 * k] + RowAt(data, k) == data[..Min(16 * k + 16, |data|)]
  {
  }

  lemma {:induction false} ReadRows(lines: seq<string>, data: string, n: nat)
    requires Bytes(data) && n <= |lines| <= |data| / 16 + 1
    requires forall k | 0 <= k < |lines| :: |lines[k]| >= 50 && ReadCells(lines[k][2..50]) == RowAt(data, k)
    ensures ReadDump(lines, n) == data[..Min(16 * n, |data|)]
  {
    if n > 0 {
      var k := n - 1;
      ReadRows(lines, data, k);
      RowJoins(data, k);
      assert Min(16 * k, |data|) == 16 * k && Min(16 * n, |data|) == Min(16 * k + 16, |data|);
      assert ReadDump(lines, n) == ReadDump(lines, k) + RowAt(data, k);
    }
  }

  /** Reading back the hex columns recovers the packet. */
  lemma ReadBack(data: string)
    requires Bytes(data)
    ensures forall k | 0 <= k < |DumpText(data)| :: |DumpText(data)[k]| >= 50
    ensures ReadDump(DumpText(data), |DumpText(data)|) == data
  {
    var lines := DumpText(data);
    forall k | 0 <= k < |lines| ensures |lines[k]| >= 50 && ReadCells(lines[k][2..50]) == RowAt(data, k) {
      RowRead(RowAt(data, k));
    }
    ReadRows(lines, data, |lines|);
  }
}
