/**
  The tab-separated chunk files of the SQLite to MySQL migration
  (scripts/db/migrate_sqlite_to_mysql.py): the writer, and the reader that its LOAD DATA clause
  (fields terminated by tab and escaped by backslash, lines terminated by newline) asks for.
*/
module TsvCodec {
  import opened Prelude

  /** A column of a row: None is NULL, Some is the text of the value. */
  type Field = Option<string>
  type Fields = seq<Field>

  // ----- the writer -----

  /** str.replace with a single character to look for. */
  function Replace(text: string, c: char, into: string): string {
    if text == [] then [] else (if text[0] == c then into else [text[0]]) + Replace(text[1..], c, into)
  }

  function EscapeMysqlField(value: Field): string {
    if value.None? then "\\N"
    else
      var text := Replace(value.value, '\\', "\\\\");
      var text := Replace(text, '\t', "\\t");
      var text := Replace(text, '\n', "\\n");
      Replace(text, '\r', "\\r")
  }

  /** sep.join, applied to the escaped columns of a row */
  function Line(row: Fields): string {
    if row == [] then []
    else if |row| == 1 then EscapeMysqlField(row[0])
    else EscapeMysqlField(row[0]) + "\t" + Line(row[1..])
  }

  function Written(rows: seq<Fields>): string {
    if rows == [] then [] else Written(rows[..|rows| - 1]) + Line(rows[|rows| - 1]) + "\n"
  }

  method WriteChunkFile(rows: seq<Fields>) returns (file: string)
    ensures file == Written(rows)
  {
    file := "";
    for i := 0 to |rows|
      invariant file == Written(rows[..i])
    {
      var values := seq(|rows[i]|, k requires 0 <= k < |rows[i]| => EscapeMysqlField(rows[i][k]));
      var line := "";
      for k := 0 to |values|
        invariant line == JoinedTo(rows[i], k)
      {
        line := line + (if k == 0 then "" else "\t") + values[k];
      }
      JoinedAll(rows[i]);
      file := file + line + "\n";
      assert rows[..i + 1][..i] == rows[..i];
    }
    assert rows[..|rows|] == rows;
  }

  /** The first k escaped columns with tabs between them. */
  function JoinedTo(row: Fields, k: nat): string
    requires k <= |row|
  {
    if k == 0 then "" else JoinedTo(row, k - 1) + (if k == 1 then "" else "\t") + EscapeMysqlField(row[k - 1])
  }

  lemma {:induction false} JoinedFrom(row: Fields, k: nat)
    requires 0 < k <= |row|
    ensures JoinedTo(row, k) == EscapeMysqlField(row[0]) + (if k == 1 then "" else "\t" + JoinedTo(row[1..], k - 1))
  {
    if k > 1 {
      JoinedFrom(row, k - 1);
      assert row[1..][k - 2] == row[k - 1];
    }
  }

  lemma {:induction false} JoinedAll(row: Fields)
    ensures JoinedTo(row, |row|) == Line(row)
  {
    if |row| == 1 {
      JoinedFrom(row, 1);
      assert Line(row) == EscapeMysqlField(row[0]) + "";
    } else if row != [] {
      JoinedFrom(row, |row|);
      JoinedAll(row[1..]);
      Regroup(EscapeMysqlField(row[0]), "\t", Line(row[1..]));
    }
  }

  // ----- the reader -----

  /** The character that backslash followed by c stands for. */
  function Unescaped(c: char): char {
    if c == '0' then 0 as char
    else if c == 'b' then 8 as char
    else if c == 'n' then '\n'
    else if c == 'r' then '\r'
    else if c == 't' then '\t'
    else if c == 'Z' then 26 as char
    else c
  }

  /** Raw text of a field, what ended it (None at the end of the file), and the rest. */
  datatype Piece = Piece(raw: string, stop: Option<char>, rest: string)

  /** One pass to the next tab or newline that is not escaped. */
  function Scan(file: string): (p: Piece)
    ensures p.stop.Some? ==> |p.rest| < |file|
    ensures p.stop.None? ==> p.rest == []
  {
    if file == [] then Piece([], None, [])
    else if file[0] == '\t' || file[0] == '\n' then Piece([], Some(file[0]), file[1..])
    else
      var n := if file[0] == '\\' && |file| > 1 then 2 else 1;
      var p := Scan(file[n..]);
      p.(raw := file[..n] + p.raw)
  }

  function Unquoted(raw: string): string {
    if raw == [] then []
    else if raw[0] == '\\' && |raw| > 1 then [Unescaped(raw[1])] + Unquoted(raw[2..])
    else [raw[0]] + Unquoted(raw[1..])
  }

  /** A field that is exactly backslash and N is NULL. */
  function FieldOf(raw: string): Field {
    if raw == "\\N" then None else Some(Unquoted(raw))
  }

  /** The fields up to the end of the line, and the rest of the file. */
  function ReadRow(file: string): (r: (Fields, string))
    ensures file != [] ==> |r.1| < |file|
    decreases |file|
  {
    var p := Scan(file);
    if p.stop == Some('\t') then
      var (more, rest) := ReadRow(p.rest);
      ([FieldOf(p.raw)] + more, rest)
    else ([FieldOf(p.raw)], p.rest)
  }

  function ReadRows(file: string): seq<Fields>
    decreases |file|
  {
    if file == [] then []
    else
      var (row, rest) := ReadRow(file);
      [row] + ReadRows(rest)
  }

  // ----- escaping, one character at a time -----

  function EscapedChar(c: char): string {
    if c == '\\' then "\\\\" else if c == '\t' then "\\t" else if c == '\n' then "\\n" else if c == '\r' then "\\r" else [c]
  }

  function EscapedText(text: string): string {
    if text == [] then [] else EscapedChar(text[0]) + EscapedText(text[1..])
  }

  lemma {:induction false} ReplaceAppend(a: string, b: string, c: char, into: string)
    ensures Replace(a + b, c, into) == Replace(a, c, into) + Replace(b, c, into)
  {
    if a == [] {
      assert a + b == b;
    } else {
      assert (a + b)[1..] == a[1..] + b;
      ReplaceAppend(a[1..], b, c, into);
    }
  }

  function Chain(text: string): string {
    Replace(Replace(Replace(Replace(text, '\\', "\\\\"), '\t', "\\t"), '\n', "\\n"), '\r', "\\r")
  }

  lemma ChainAppend(a: string, b: string)
    ensures Chain(a + b) == Chain(a) + Chain(b)
  {
    ReplaceAppend(a, b, '\\', "\\\\");
    var a1, b1 := Replace(a, '\\', "\\\\"), Replace(b, '\\', "\\\\");
    ReplaceAppend(a1, b1, '\t', "\\t");
    var a2, b2 := Replace(a1, '\t', "\\t"), Replace(b1, '\t', "\\t");
    ReplaceAppend(a2, b2, '\n', "\\n");
    ReplaceAppend(Replace(a2, '\n', "\\n"), Replace(b2, '\n', "\\n"), '\r', "\\r");
  }

  lemma ReplaceShort(c: char, into: string, x: char, y: char)
    ensures Replace([x], c, into) == if x == c then into else [x]
    ensures x != c && y != c ==> Replace([x, y], c, into) == [x, y]
  {
    assert [x][1..] == [] && [x, y][1..] == [y] && [y][1..] == [];
    assert Replace([y], c, into) == if y == c then into else [y];
  }

  /** A later replacement never touches what an earlier one put in. */
  lemma ChainOfChar(c: char)
    ensures Chain([c]) == EscapedChar(c)
  {
    ReplaceShort('\\', "\\\\", c, c);
    ReplaceShort('\t', "\\t", c, c);
    ReplaceShort('\n', "\\n", c, c);
    ReplaceShort('\r', "\\r", c, c);
    ReplaceShort('\t', "\\t", '\\', '\\');
    ReplaceShort('\n', "\\n", '\\', '\\');
    ReplaceShort('\r', "\\r", '\\', '\\');
    ReplaceShort('\n', "\\n", '\\', 't');
    ReplaceShort('\r', "\\r", '\\', 't');
    ReplaceShort('\r', "\\r", '\\', 'n');
  }

  /** The chain of replacements escapes each character by itself. */
  lemma {:induction false} EscapeIsPerCharacter(text: string)
    ensures EscapeMysqlField(Some(text)) == EscapedText(text)
  {
    if text != [] {
      assert text == [text[0]] + text[1..];
      EscapeIsPerCharacter(text[1..]);
      ChainOfChar(text[0]);
      ChainAppend([text[0]], text[1..]);
    }
  }

  // ----- round trip -----

  lemma ScanStep(file: string, n: nat)
    requires file != [] && file[0] != '\t' && file[0] != '\n'
    requires n == if file[0] == '\\' && |file| > 1 then 2 else 1
    ensures Scan(file) == Scan(file[n..]).(raw := file[..n] + Scan(file[n..]).raw)
  {
  }

  lemma ScanChar(c: char, tail: string)
    requires tail != []
    ensures Scan(EscapedChar(c) + tail) == Scan(tail).(raw := EscapedChar(c) + Scan(tail).raw)
  {
    var first := EscapedChar(c);
    var file := first + tail;
    assert file[..|first|] == first && file[|first|..] == tail;
    assert file[0] == first[0];
    ScanStep(file, |first|);
  }

  lemma {:induction false} ScanText(text: string, stop: char, rest: string)
    requires stop == '\t' || stop == '\n'
    ensures Scan(EscapedText(text) + [stop] + rest) == Piece(EscapedText(text), Some(stop), rest)
  {
    if text == [] {
      assert EscapedText(text) + [stop] + rest == [stop] + rest;
      assert ([stop] + rest)[1..] == rest;
    } else {
      var first, tail := EscapedChar(text[0]), EscapedText(text[1..]) + [stop] + rest;
      assert EscapedText(text) + [stop] + rest == first + tail;
      ScanChar(text[0], tail);
      ScanText(text[1..], stop, rest);
    }
  }

  /** A written field ends where it was made to end. */
  lemma ScanField(value: Field, stop: char, rest: string)
    requires stop == '\t' || stop == '\n'
    ensures Scan(EscapeMysqlField(value) + [stop] + rest) == Piece(EscapeMysqlField(value), Some(stop), rest)
  {
    if value.Some? {
      EscapeIsPerCharacter(value.value);
      ScanText(value.value, stop, rest);
    } else {
      var file, tail := "\\N" + [stop] + rest, [stop] + rest;
      assert file[2..] == tail && file[..2] == "\\N" && tail[1..] == rest;
      ScanStep(file, 2);
    }
  }

  lemma {:induction false} UnquotedText(text: string)
    ensures Unquoted(EscapedText(text)) == text && EscapedText(text) != "\\N"
  {
    if text != [] {
      var first, raw := EscapedChar(text[0]), EscapedText(text);
      UnquotedText(text[1..]);
      assert raw[|first|..] == EscapedText(text[1..]);
      assert raw[0] == first[0] && (|first| == 2 ==> raw[1] == first[1]);
    }
  }

  /** Every field comes back as it was, and NULL is not the text of a backslash and an N. */
  lemma FieldRoundTrip(value: Field)
    ensures FieldOf(EscapeMysqlField(value)) == value
  {
    if value.Some? {
      EscapeIsPerCharacter(value.value);
      UnquotedText(value.value);
    }
  }

  lemma ReadStep(value: Field, stop: char, rest: string)
    requires stop == '\t' || stop == '\n'
    ensures var r := ReadRow(EscapeMysqlField(value) + [stop] + rest);
            r == if stop == '\n' then ([value], rest) else ([value] + ReadRow(rest).0, ReadRow(rest).1)
  {
    ScanField(value, stop, rest);
    FieldRoundTrip(value);
  }

  lemma {:induction false} RowRoundTrip(row: Fields, rest: string)
    requires row != []
    ensures ReadRow(Line(row) + "\n" + rest) == (row, rest)
  {
    if |row| == 1 {
      ReadStep(row[0], '\n', rest);
      assert row == [row[0]];
    } else {
      var tail := Line(row[1..]) + "\n" + rest;
      assert Line(row) + "\n" + rest == EscapeMysqlField(row[0]) + ['\t'] + tail;
      ReadStep(row[0], '\t', tail);
      RowRoundTrip(row[1..], rest);
      assert row == [row[0]] + row[1..];
    }
  }

  predicate HaveColumns(rows: seq<Fields>) {
    forall i | 0 <= i < |rows| :: rows[i] != []
  }

  lemma WrittenSplit(rows: seq<Fields>, rest: string)
    requires rows != []
    ensures Written(rows) + rest == Written(rows[..|rows| - 1]) + (Line(rows[|rows| - 1]) + "\n" + rest)
  {
    var before, line := Written(rows[..|rows| - 1]), Line(rows[|rows| - 1]);
    Regroup(before, line, "\n");
    Regroup(before, line + "\n", rest);
  }

  lemma SplitLast(rows: seq<Fields>, more: seq<Fields>)
    requires rows != []
    ensures rows + more == rows[..|rows| - 1] + ([rows[|rows| - 1]] + more)
  {
  }

  lemma ReadFirst(row: Fields, rest: string)
    requires row != []
    ensures ReadRows(Line(row) + "\n" + rest) == [row] + ReadRows(rest)
  {
    RowRoundTrip(row, rest);
  }

  lemma {:induction false} ReadAppend(rows: seq<Fields>, rest: string)
    requires HaveColumns(rows)
    ensures ReadRows(Written(rows) + rest) == rows + ReadRows(rest)
  {
    if rows == [] {
      assert Written(rows) + rest == rest;
      assert rows + ReadRows(rest) == ReadRows(rest);
    } else {
      var before, last := rows[..|rows| - 1], rows[|rows| - 1];
      var tail := Line(last) + "\n" + rest;
      WrittenSplit(rows, rest);
      ReadAppend(before, tail);
      ReadFirst(last, rest);
      SplitLast(rows, ReadRows(rest));
    }
  }

  /** LOAD DATA reads a chunk file back as the rows it was written from. */
  lemma RowsRoundTrip(rows: seq<Fields>)
    requires HaveColumns(rows)
    ensures ReadRows(Written(rows)) == rows
  {
    ReadAppend(rows, []);
    assert Written(rows) + [] == Written(rows);
  }

  /** A row of two as it is written: the fields with a tab between them and a newline after them. */
  lemma WrittenRow(f: Field, g: Field)
    ensures Written([[f, g]]) == EscapeMysqlField(f) + "\t" + EscapeMysqlField(g) + "\n"
  {
    var row: Fields := [f, g];
    var rows: seq<Fields> := [row];
    assert row[1..] == [g] && rows[..0] == [];
    assert Line([g]) == EscapeMysqlField(g);
    assert Written([]) == "";
  }

  /** The four characters that are written as two, any other, and null. */
  lemma EscapedFields(c: char)
    ensures EscapeMysqlField(None) == "\\N"
    ensures EscapeMysqlField(Some([c])) ==
            if c == '\\' then "\\\\" else if c == '\t' then "\\t" else if c == '\n' then "\\n" else if c == '\r' then "\\r" else [c]
  {
    EscapeIsPerCharacter([c]);
    assert EscapedText([c]) == EscapedChar(c) + EscapedText([]);
  }
}
