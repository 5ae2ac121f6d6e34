/** The hex dump as text, the method that prints it, and a parser that recovers the bytes. */
module Dumps {
  import opened Bytes

  const COL_PER_ROW := 16

  function DigitValue(c: char): nat {
    if '0' <= c <= '9' then (c - '0') as nat else if 'a' <= c <= 'f' then (c - 'a') as nat + 10 else 0
  }

  function HexDigit(n: nat): (c: char)
    requires n < 16
    ensures ('0' <= c <= '9' || 'a' <= c <= 'f') && DigitValue(c) == n
  {
    if n < 10 then '0' + n as char else 'a' + (n - 10) as char
  }

  /** "%02x " */
  function Hex(b: byte): (t: string)
    ensures |t| == 3
  {
    [HexDigit(b as nat / 16), HexDigit(b as nat % 16), ' ']
  }

  /** isprint in the C locale */
  predicate Printable(b: byte) { 0x20 <= b < 0x7f }

  function Ascii(b: byte): (c: char)
    ensures c != '\n'
  {
    if Printable(b) then b as char else '.'
  }

  /** "%lu" */
  function Decimal(n: nat): (t: string)
    ensures |t| >= (if n < 10 then 1 else if n < 100 then 2 else 3) && ' ' !in t && '\n' !in t
  {
    if n < 10 then [HexDigit(n)] else Decimal(n / 10) + [HexDigit(n % 10)]
  }

  /** "%03d" */
  function Decimal3(n: nat): (t: string)
    ensures |t| >= 3 && ' ' !in t && '\n' !in t
  {
    (if n < 10 then "00" else if n < 100 then "0" else "") + Decimal(n)
  }

  /** The first `i` columns of the row that starts at `start`, in hexadecimal. */
  function HexCols(data: Bytes, start: nat, i: nat): (t: string)
    ensures |t| == 3 * i && '\n' !in t
  {
    if i == 0 then ""
    else HexCols(data, start, i - 1) + if start + i - 1 < |data| then Hex(data[start + i - 1]) else "   "
  }

  function AsciiCols(data: Bytes, start: nat, i: nat): (t: string)
    ensures |t| == i && '\n' !in t
  {
    if i == 0 then ""
    else AsciiCols(data, start, i - 1) + if start + i - 1 < |data| then [Ascii(data[start + i - 1])] else " "
  }

  function LineBody(hex: string, ascii: string): (t: string)
    ensures |t| == |hex| + |ascii| + 6 && t[0] == ' ' && t[3..3 + |hex|] == hex
  {
    " | " + hex + "| " + ascii + "\n"
  }

  /** "%03d0 | %s| %s\n" */
  function Line(row: nat, hex: string, ascii: string): string {
    Decimal3(row) + "0" + LineBody(hex, ascii)
  }

  /** The rows from position 16 * `row` on. */
  function Rows(data: Bytes, row: nat): string
    decreases |data| - 16 * row
  {
    if |data| <= 16 * row then ""
    else Line(row, HexCols(data, 16 * row, 16), AsciiCols(data, 16 * row, 16)) + Rows(data, row + 1)
  }

  /** "Size=%lu\n" */
  function Header(size: nat): string {
    "Size=" + Decimal(size) + "\n"
  }

  function DumpText(data: Bytes): string {
    Header(|data|) + Rows(data, 0)
  }

  lemma NoCols(data: Bytes, start: nat)
    ensures HexCols(data, start, 0) == "" && AsciiCols(data, start, 0) == ""
  {
  }

  lemma ColsStep(data: Bytes, start: nat, i: nat)
    ensures HexCols(data, start, i + 1)
            == HexCols(data, start, i) + if start + i < |data| then Hex(data[start + i]) else "   "
    ensures AsciiCols(data, start, i + 1)
            == AsciiCols(data, start, i) + if start + i < |data| then [Ascii(data[start + i])] else " "
  {
  }

  method Dump(data: Bytes) returns (dump: string)
    ensures dump == DumpText(data)
  {
    hide Hex, Ascii, Header, Line, HexCols, AsciiCols;
    var size := |data|;
    var pos := 0;
    dump := Header(size);
    var row := 0;
    while pos < size
      invariant pos == if 16 * row < size then 16 * row else size
      invariant DumpText(data) == dump + Rows(data, row)
      decreases size - pos
    {
      var hex, ascii := "", "";
      ghost var start := pos;
      assert hex == HexCols(data, start, 0) && ascii == AsciiCols(data, start, 0) by { NoCols(data, start); }
      for i := 0 to COL_PER_ROW
        invariant pos == if start + i < size then start + i else size
        invariant hex == HexCols(data, start, i) && ascii == AsciiCols(data, start, i)
      {
        ColsStep(data, start, i);
        if pos < size {
          hex := hex + Hex(data[pos]);
          ascii := ascii + [Ascii(data[pos])];
          pos := pos + 1;
        } else {
          hex := hex + "   ";
          ascii := ascii + " ";
        }
      }
      var line := Line(row, hex, ascii);
      assert dump + (line + Rows(data, row + 1)) == (dump + line) + Rows(data, row + 1);
      dump := dump + line;
      row := row + 1;
    }
    assert dump + "" == dump;
  }

  // -------------------------------------------------------------- parsing back

  /** The text from the first `c` on. */
  function From(c: char, t: string): (r: string)
    ensures |r| <= |t|
  {
    if t == "" || t[0] == c then t else From(c, t[1..])
  }

  function ParseCols(hex: string, i: nat): Bytes
    requires 3 * i <= |hex|
  {
    if i == 0 then []
    else
      var (h, l) := (hex[3 * i - 3], hex[3 * i - 2]);
      ParseCols(hex, i - 1) + if h == ' ' then [] else [(16 * DigitValue(h) + DigitValue(l)) as byte]
  }

  function ParseRows(t: string): Bytes
    decreases |t|
  {
    var body := From(' ', t);
    if |body| < 70 then [] else ParseCols(body[3..51], 16) + ParseRows(body[70..])
  }

  function ParseDump(t: string): Bytes {
    ParseRows(From('\n', t))
  }

  lemma {:induction false} FromSkips(c: char, a: string, b: string)
    requires c !in a && b != "" && b[0] == c
    ensures From(c, a + b) == b
  {
    if a == "" {
      assert a + b == b;
    } else {
      assert (a + b)[1..] == a[1..] + b;
      FromSkips(c, a[1..], b);
    }
  }

  lemma {:induction false} HexColsPrefix(data: Bytes, start: nat, i: nat, n: nat)
    requires i <= n
    ensures HexCols(data, start, n)[..3 * i] == HexCols(data, start, i)
  {
    if i < n { HexColsPrefix(data, start, i, n - 1); }
  }

  /** What column `i` of a full row says. */
  lemma CellBack(data: Bytes, start: nat, i: nat)
    requires 0 < i <= 16
    ensures var hex := HexCols(data, start, 16);
            if start + i - 1 < |data| then
              && hex[3 * i - 3] != ' '
              && 16 * DigitValue(hex[3 * i - 3]) + DigitValue(hex[3 * i - 2]) == data[start + i - 1] as int
            else hex[3 * i - 3] == ' '
  {
    HexColsPrefix(data, start, i, 16);
    var hex := HexCols(data, start, i);
    assert hex[3 * i - 3] == HexCols(data, start, 16)[..3 * i][3 * i - 3];
    assert hex[3 * i - 2] == HexCols(data, start, 16)[..3 * i][3 * i - 2];
  }

  lemma {:induction false} ColsBack(data: Bytes, start: nat, i: nat)
    requires i <= 16 && start < |data|
    ensures ParseCols(HexCols(data, start, 16), i) == data[start..if start + i < |data| then start + i else |data|]
  {
    if i > 0 {
      hide HexCols, Hex;
      ColsBack(data, start, i - 1);
      CellBack(data, start, i);
    }
  }

  /** A parser that meets a row number reads the columns behind it and goes on with the next row. */
  lemma LineBack(number: string, hex: string, ascii: string, rest: string)
    requires ' ' !in number && |hex| == 48 && |ascii| == 16
    ensures ParseRows(number + LineBody(hex, ascii) + rest) == ParseCols(hex, 16) + ParseRows(rest)
  {
    hide LineBody, ParseCols;
    var body := LineBody(hex, ascii);
    assert number + body + rest == number + (body + rest);
    FromSkips(' ', number, body + rest);
    assert (body + rest)[3..51] == body[3..51];
    assert (body + rest)[70..] == rest;
  }

  lemma FirstRow(data: Bytes, row: nat)
    requires 16 * row < |data|
    ensures ParseRows(Rows(data, row)) == ParseCols(HexCols(data, 16 * row, 16), 16) + ParseRows(Rows(data, row + 1))
  {
    hide Decimal3, LineBody, HexCols, AsciiCols, ParseCols, ParseRows;
    LineBack(Decimal3(row) + "0", HexCols(data, 16 * row, 16), AsciiCols(data, 16 * row, 16), Rows(data, row + 1));
  }

  lemma RowsEnd(data: Bytes, row: nat)
    requires |data| <= 16 * row
    ensures ParseRows(Rows(data, row)) == []
  {
  }

  lemma {:induction false} RowsBack(data: Bytes, row: nat)
    requires 16 * row <= |data| + 15
    ensures ParseRows(Rows(data, row)) == data[if 16 * row < |data| then 16 * row else |data|..]
    decreases |data| - 16 * row
  {
    hide LineBody, HexCols, AsciiCols, ParseCols, ParseRows, Rows;
    if 16 * row < |data| {
      FirstRow(data, row);
      ColsBack(data, 16 * row, 16);
      RowsBack(data, row + 1);
    } else {
      RowsEnd(data, row);
    }
  }

  lemma ParseSkipsNewline(t: string)
    ensures ParseRows("\n" + t) == ParseRows(t)
  {
    assert ("\n" + t)[1..] == t;
  }

  /** Parsing the dump gives the bytes back, whatever their number and whatever the row numbers' width. */
  lemma DumpBack(data: Bytes)
    ensures ParseDump(DumpText(data)) == data
  {
    var head, tail := "Size=" + Decimal(|data|), "\n" + Rows(data, 0);
    assert DumpText(data) == head + tail;
    FromSkips('\n', head, tail);
    RowsBack(data, 0);
    ParseSkipsNewline(Rows(data, 0));
    assert data[0..] == data;
  }

  /** Comparing two dumps is comparing the bytes. */
  lemma DumpInjective(a: Bytes, b: Bytes)
    ensures DumpText(a) == DumpText(b) <==> a == b
  {
    DumpBack(a);
    DumpBack(b);
  }

  function Lines(t: string): nat {
    if t == "" then 0 else (if t[0] == '\n' then 1 else 0) + Lines(t[1..])
  }

  lemma {:induction false} LinesAppend(a: string, b: string)
    ensures Lines(a + b) == Lines(a) + Lines(b)
    ensures '\n' !in a ==> Lines(a) == 0
  {
    if a == "" {
      assert a + b == b;
    } else {
      assert (a + b)[1..] == a[1..] + b;
      LinesAppend(a[1..], b);
    }
  }

  lemma LineLines(row: nat, hex: string, ascii: string)
    requires '\n' !in hex && '\n' !in ascii
    ensures Lines(Line(row, hex, ascii)) == 1
  {
    var text := Decimal3(row) + "0" + (" | " + hex + "| " + ascii);
    LinesAppend(text, "\n");
    assert Line(row, hex, ascii) == text + "\n";
  }

  lemma {:induction false} RowLines(data: Bytes, row: nat)
    requires 16 * row <= |data| + 15
    ensures Lines(Rows(data, row)) == (|data| + 15) / 16 - row
    decreases |data| - 16 * row
  {
    if 16 * row < |data| {
      hide Line, HexCols, AsciiCols, Lines;
      var hex, ascii := HexCols(data, 16 * row, 16), AsciiCols(data, 16 * row, 16);
      RowLines(data, row + 1);
      LineLines(row, hex, ascii);
      LinesAppend(Line(row, hex, ascii), Rows(data, row + 1));
    } else {
      assert Rows(data, row) == "";
    }
  }

  /** One header line and one line for every 16 bytes begun. */
  lemma DumpLines(data: Bytes)
    ensures Lines(DumpText(data)) == 1 + (|data| + 15) / 16
  {
    RowLines(data, 0);
    LinesAppend("Size=" + Decimal(|data|), "\n");
    LinesAppend("Size=" + Decimal(|data|) + "\n", Rows(data, 0));
  }
}
