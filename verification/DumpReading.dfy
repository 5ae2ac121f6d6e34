/** What a reader of the hex dump sees: the numbers, the separators and both groups of columns. */
module DumpReading {
  import opened Bytes
  import opened Dumps

  // ---------------------------------------------------------------- numbers

  predicate AllDigits(t: string) { forall i :: 0 <= i < |t| ==> '0' <= t[i] <= '9' }

  /** A number in decimal notation, its most significant digit first. */
  function NumberOf(t: string): nat {
    if t == "" then 0 else 10 * NumberOf(t[..|t| - 1]) + DigitValue(t[|t| - 1])
  }

  /** The digits printed are those of the number, without leading zeros. */
  lemma {:induction false} DecimalReads(n: nat)
    ensures AllDigits(Decimal(n)) && NumberOf(Decimal(n)) == n
    ensures n > 0 ==> Decimal(n)[0] != '0'
    ensures |Decimal(n)| <= (if n < 10 then 1 else if n < 100 then 2 else |Decimal(n)|)
  {
    var t := Decimal(n);
    if n < 10 {
      assert t[..0] == "";
    } else {
      DecimalReads(n / 10);
      assert t[..|t| - 1] == Decimal(n / 10);
    }
  }

  lemma {:induction false} LeadingZeros(zeros: string, t: string)
    requires forall i :: 0 <= i < |zeros| ==> zeros[i] == '0'
    ensures NumberOf(zeros + t) == NumberOf(t)
  {
    if t != "" {
      assert (zeros + t)[..|zeros + t| - 1] == zeros + t[..|t| - 1];
      LeadingZeros(zeros, t[..|t| - 1]);
    } else if zeros != "" {
      assert zeros + t == zeros;
      assert zeros[..|zeros| - 1] + "" == zeros[..|zeros| - 1];
      LeadingZeros(zeros[..|zeros| - 1], "");
    }
  }

  lemma ZeroDigit()
    ensures DigitValue('0') == 0
  {
  }

  /** "%03d0": ten times the row, at least three digits before the final 0, padded with zeros only up to there. */
  lemma LabelReads(row: nat)
    ensures var mark := Decimal3(row) + "0";
            && AllDigits(mark) && |mark| >= 4 && mark[|mark| - 1] == '0' && NumberOf(mark) == 10 * row
            && (|mark| > 4 ==> mark[0] != '0')
  {
    hide Decimal, DigitValue;
    var mark := Decimal3(row) + "0";
    assert DigitValue('0') == 0 by { ZeroDigit(); }
    DecimalReads(row);
    LeadingZeros(if row < 10 then "00" else if row < 100 then "0" else "", Decimal(row));
    assert mark[..|mark| - 1] == Decimal3(row);
  }

  // ---------------------------------------------------------------- places in a text

  /** The text up to the first `c`. */
  function Before(c: char, t: string): string {
    if t == "" || t[0] == c then "" else [t[0]] + Before(c, t[1..])
  }

  lemma {:induction false} BeforeStops(c: char, a: string, b: string)
    requires c !in a && b != "" && b[0] == c
    ensures Before(c, a + b) == a
  {
    if a == "" {
      assert a + b == b;
    } else {
      assert (a + b)[1..] == a[1..] + b;
      BeforeStops(c, a[1..], b);
    }
  }

  /** The text behind its first `n` line breaks. */
  function Skip(t: string, n: nat): string
    decreases |t|
  {
    if n == 0 || t == "" then t else Skip(t[1..], if t[0] == '\n' then n - 1 else n)
  }

  lemma SkipNone(t: string)
    ensures Skip(t, 0) == t
  {
  }

  lemma {:induction false} SkipLine(line: string, rest: string, n: nat)
    requires '\n' !in line
    ensures Skip(line + "\n" + rest, n + 1) == Skip(rest, n)
  {
    var t := line + "\n" + rest;
    if line == "" {
      assert t[1..] == rest;
    } else {
      assert t[1..] == line[1..] + "\n" + rest;
      SkipLine(line[1..], rest, n);
    }
  }

  lemma HeaderSplit(number: string, rows: string)
    ensures ("Size=" + number + "\n" + rows)[..5] == "Size="
    ensures ("Size=" + number + "\n" + rows)[5..] == number + ("\n" + rows)
  {
  }

  /** The size printed in the first line is the number of bytes. */
  lemma SizeReads(data: Bytes)
    ensures var t := DumpText(data);
            && |t| >= 5 && t[..5] == "Size="
            && AllDigits(Before('\n', t[5..])) && NumberOf(Before('\n', t[5..])) == |data|
            && (data != [] ==> Before('\n', t[5..]) != "" && Before('\n', t[5..])[0] != '0')
  {
    hide Decimal, Rows, NumberOf, AllDigits, Before;
    var number := Decimal(|data|);
    DecimalReads(|data|);
    HeaderSplit(number, Rows(data, 0));
    BeforeStops('\n', number, "\n" + Rows(data, 0));
  }

  lemma LineEnds(a: string, b: string)
    ensures a + (b + "\n") == a + b + "\n"
  {
  }

  /** The first row without its line break, and what follows it. */
  lemma FirstLine(data: Bytes, row: nat) returns (line: string)
    requires 16 * row < |data|
    ensures '\n' !in line && Rows(data, row) == line + "\n" + Rows(data, row + 1)
  {
    hide HexCols, AsciiCols, Decimal3;
    var hex, ascii := HexCols(data, 16 * row, 16), AsciiCols(data, 16 * row, 16);
    line := Decimal3(row) + "0" + (" | " + hex + "| " + ascii);
    LineEnds(Decimal3(row) + "0", " | " + hex + "| " + ascii);
  }

  /** Behind the first line and `n` rows the text goes on with row `n`. */
  lemma {:induction false} RowsSkip(data: Bytes, row: nat, n: nat)
    requires 16 * (row + n) <= |data| + 15
    ensures Skip(Rows(data, row), n) == Rows(data, row + n)
    decreases n
  {
    hide Rows, Skip;
    if n == 0 {
      SkipNone(Rows(data, row));
    } else {
      var line := FirstLine(data, row);
      SkipLine(line, Rows(data, row + 1), n - 1);
      RowsSkip(data, row + 1, n - 1);
    }
  }

  lemma RowText(data: Bytes, row: nat)
    requires 16 * row <= |data| + 15
    ensures Skip(DumpText(data), row + 1) == Rows(data, row)
  {
    hide Decimal, Rows, Skip;
    var line := "Size=" + Decimal(|data|);
    assert DumpText(data) == line + "\n" + Rows(data, 0);
    SkipLine(line, Rows(data, 0), row);
    RowsSkip(data, 0, row);
  }

  // ---------------------------------------------------------------- columns

  /** What stands for byte `i` in the right-hand group. */
  function Shown(data: Bytes, i: nat): char {
    if i >= |data| then ' ' else if 0x20 <= data[i] <= 0x7e then data[i] as char else '.'
  }

  lemma {:induction false} AsciiAt(data: Bytes, start: nat, n: nat, i: nat)
    requires i < n
    ensures AsciiCols(data, start, n)[i] == Shown(data, start + i)
  {
    if i < n - 1 { AsciiAt(data, start, n - 1, i); }
  }

  /** What stands for a byte in the left-hand group: two digits and a blank, or three blanks. */
  predicate ShownHex(data: Bytes, i: nat, cell: string) {
    && |cell| == 3 && cell[2] == ' '
    && if i >= |data| then cell[0] == cell[1] == ' '
       else && (forall k :: 0 <= k < 2 ==> '0' <= cell[k] <= '9' || 'a' <= cell[k] <= 'f')
            && 16 * DigitValue(cell[0]) + DigitValue(cell[1]) == data[i] as int
  }

  lemma CellShown(data: Bytes, i: nat)
    ensures ShownHex(data, i, if i < |data| then Hex(data[i]) else "   ")
  {
  }

  lemma HexAt(data: Bytes, start: nat, n: nat, i: nat)
    requires i < n
    ensures ShownHex(data, start + i, HexCols(data, start, n)[3 * i..3 * i + 3])
  {
    hide Hex, ShownHex, HexCols;
    HexColsPrefix(data, start, i + 1, n);
    ColsStep(data, start, i);
    CellShown(data, start + i);
    var front, cell := HexCols(data, start, i), if start + i < |data| then Hex(data[start + i]) else "   ";
    assert HexCols(data, start, n)[3 * i..3 * i + 3] == (front + cell)[3 * i..3 * i + 3] == cell;
  }

  /** The row's text: its label, the separators and the two groups of columns. */
  ghost predicate IsRow(data: Bytes, row: nat, t: string) {
    var mark := Before(' ', t);
    var n := |mark|;
    && AllDigits(mark) && n >= 4 && mark[n - 1] == '0' && NumberOf(mark) == 10 * row && (n > 4 ==> mark[0] != '0')
    && |t| >= n + 70 && t[..n] == mark
    && t[n..n + 3] == " | " && t[n + 51..n + 53] == "| " && t[n + 69] == '\n'
    && (forall i :: 0 <= i < 16 ==> ShownHex(data, 16 * row + i, t[n + 3 + 3 * i..n + 6 + 3 * i]))
    && var ascii := t[n + 53..n + 69]; forall i :: 0 <= i < 16 ==> ascii[i] == Shown(data, 16 * row + i)
  }

  lemma LineReads(data: Bytes, row: nat, rest: string)
    ensures IsRow(data, row, Line(row, HexCols(data, 16 * row, 16), AsciiCols(data, 16 * row, 16)) + rest)
  {
    hide Decimal3, HexCols, AsciiCols, Before, NumberOf, AllDigits, ShownHex, Shown;
    var hex, ascii, mark := HexCols(data, 16 * row, 16), AsciiCols(data, 16 * row, 16), Decimal3(row) + "0";
    var t, n := Line(row, hex, ascii) + rest, |mark|;
    LabelReads(row);
    assert t == mark + (LineBody(hex, ascii) + rest);
    BeforeStops(' ', mark, LineBody(hex, ascii) + rest);
    forall i | 0 <= i < 16 ensures ShownHex(data, 16 * row + i, t[n + 3 + 3 * i..n + 6 + 3 * i]) {
      HexAt(data, 16 * row, 16, i);
      assert t[n + 3 + 3 * i..n + 6 + 3 * i] == hex[3 * i..3 * i + 3];
    }
    assert t[n + 53..n + 69] == ascii;
    forall i | 0 <= i < 16 ensures ascii[i] == Shown(data, 16 * row + i) {
      AsciiAt(data, 16 * row, 16, i);
    }
  }

  /** Every row of the dump is labelled with ten times its number and shows its sixteen bytes twice. */
  lemma RowReads(data: Bytes, row: nat)
    requires 16 * row < |data|
    ensures IsRow(data, row, Skip(DumpText(data), row + 1))
  {
    hide IsRow;
    RowText(data, row);
    LineReads(data, row, Rows(data, row + 1));
  }
}
