/** Which tables the CSV reader can return, and how to write them. */
module CsvRoundTrip {
  import opened CsvReading

  type Text = seq<Byte>

  /** Three different characters; the quote is an ASCII one, so that it is seen when it is doubled, and the terminator
      is not the character that stands for the end of the stream. */
  predicate GoodDialect(d: Dialect) {
    && d.delimiter != d.terminator && d.delimiter != d.quote && d.terminator != d.quote
    && d.quote < 128 && d.terminator != EOF_CHARACTER
  }

  datatype Style = Plain | Quoted

  datatype Field = Field(text: Text, style: Style)

  predicate IsSpecial(d: Dialect, c: Byte) {
    c == d.delimiter || c == d.terminator
  }

  predicate NoSpecials(d: Dialect, text: Text) {
    forall k :: 0 <= k < |text| ==> !IsSpecial(d, text[k])
  }

  predicate NoLeadingQuote(d: Dialect, text: Text) {
    text != [] && text[0] != d.quote
  }

  /** A plain field must not hold a delimiter or terminator; a quoted one must not be empty or start with a quote, since
      a doubled quote is text everywhere. */
  predicate Writable(d: Dialect, f: Field) {
    match f.style
    case Plain => NoSpecials(d, f.text)
    case Quoted => NoLeadingQuote(d, f.text)
  }

  /** What can be read back at all. */
  predicate Representable(d: Dialect, text: Text) {
    NoSpecials(d, text) || NoLeadingQuote(d, text)
  }

  function Doubled(d: Dialect, text: Text): Text {
    if text == [] then []
    else (if text[0] == d.quote then [d.quote, d.quote] else [text[0]]) + Doubled(d, text[1..])
  }

  function Written(d: Dialect, f: Field): Text {
    match f.style
    case Plain => Doubled(d, f.text)
    case Quoted => [d.quote] + Doubled(d, f.text) + [d.quote]
  }

  /** A row without its terminator. */
  function WrittenFields(d: Dialect, row: seq<Field>): Text
    requires row != []
  {
    if |row| == 1 then Written(d, row[0])
    else Written(d, row[0]) + [d.delimiter] + WrittenFields(d, row[1..])
  }

  predicate WritableRow(d: Dialect, row: seq<Field>) {
    row != [] && forall k :: 0 <= k < |row| ==> Writable(d, row[k])
  }

  function WrittenTable(d: Dialect, table: seq<seq<Field>>): Text
    requires forall k :: 0 <= k < |table| ==> table[k] != []
  {
    if table == [] then [] else WrittenFields(d, table[0]) + [d.terminator] + WrittenTable(d, table[1..])
  }

  function TextsOf(row: seq<Field>): (r: seq<Text>)
    ensures |r| == |row| && forall k :: 0 <= k < |r| ==> r[k] == row[k].text
  {
    seq(|row|, k requires 0 <= k < |row| => row[k].text)
  }

  function TextsOfTable(table: seq<seq<Field>>): (r: seq<seq<Text>>)
    ensures |r| == |table| && forall k :: 0 <= k < |r| ==> r[k] == TextsOf(table[k])
  {
    seq(|table|, k requires 0 <= k < |table| => TextsOf(table[k]))
  }

  // -------- reading one token --------

  /** A stream at position p that has seen no error. */
  function At(data: Text, p: nat): Source {
    Source(data, p, false, false)
  }

  lemma OtherToken(data: Text, p: nat, d: Dialect)
    requires p < |data| && data[p] != d.quote
    ensures Extracted(At(data, p), d) == (At(data, p + 1),
      Token(if data[p] == d.terminator then TERMINATOR else if data[p] == d.delimiter then DELIMITER else TEXT, data[p]))
  {
  }

  lemma DoubledQuoteToken(data: Text, p: nat, d: Dialect)
    requires GoodDialect(d) && p + 1 < |data| && data[p] == d.quote && data[p + 1] == d.quote
    ensures Extracted(At(data, p), d) == (At(data, p + 2), Token(TEXT, d.quote))
  {
  }

  lemma SingleQuoteToken(data: Text, p: nat, d: Dialect)
    requires GoodDialect(d) && p + 1 < |data| && data[p] == d.quote && data[p + 1] != d.quote
    ensures Extracted(At(data, p), d) == (At(data, p + 1), Token(QUOTE, d.quote))
  {
  }

  // -------- reading one field --------

  predicate Reads(data: Text, p: nat, text: Text) {
    p + |text| <= |data| && data[p..p + |text|] == text
  }

  /** One turn of the loop of ParseCSVRow. */
  lemma OneToken(data: Text, p: nat, d: Dialect, parser: Parser, q: nat, t: Token)
    requires InBounds(At(data, p)) && Extracted(At(data, p), d) == (At(data, q), t)
    requires parser.state != RecordEnd && !Advance(parser, t).failed
    ensures InBounds(At(data, q)) && RowFrom(At(data, p), d, parser) == RowFrom(At(data, q), d, Advance(parser, t))
  {
    hide Extracted, Advance;
  }

  lemma FirstOfDoubled(data: Text, p: nat, d: Dialect, text: Text)
    requires GoodDialect(d) && text != [] && Reads(data, p, Doubled(d, text))
    ensures var n := if text[0] == d.quote then 2 else 1;
      && Reads(data, p + n, Doubled(d, text[1..])) && |Doubled(d, text)| == n + |Doubled(d, text[1..])|
      && p + n <= |data|
      && Extracted(At(data, p), d) == (At(data, p + n),
           Token(if text[0] == d.terminator then TERMINATOR else if text[0] == d.delimiter then DELIMITER else TEXT, text[0]))
  {
    hide Extracted;
    var first := if text[0] == d.quote then [d.quote, d.quote] else [text[0]];
    FirstPart(data, p, first, Doubled(d, text[1..]));
    if text[0] == d.quote {
      assert data[p + 1] == first[1];
      DoubledQuoteToken(data, p, d);
    } else {
      OtherToken(data, p, d);
    }
  }

  /** Inside a field, doubled text is read as the text itself. */
  lemma {:induction false} TextRun(data: Text, p: nat, d: Dialect, parser: Parser, text: Text)
    requires GoodDialect(d) && Reads(data, p, Doubled(d, text)) && !parser.failed
    requires parser.state == EscapedField || (parser.state == NonescapedField && NoSpecials(d, text))
    ensures RowFrom(At(data, p), d, parser)
         == RowFrom(At(data, p + |Doubled(d, text)|), d, parser.(text := parser.text + text))
    decreases |text|
  {
    hide Extracted, RowFrom, Doubled, Reads;
    if text == [] {
      assert parser.text + text == parser.text;
      assert |Doubled(d, text)| == 0 by { NothingDoubled(d); }
    } else {
      FirstOfDoubled(data, p, d, text);
      var n := if text[0] == d.quote then 2 else 1;
      var next := parser.(text := parser.text + [text[0]]);
      assert !IsSpecial(d, text[0]) || parser.state == EscapedField;
      OneToken(data, p, d, parser, p + n, Extracted(At(data, p), d).1);
      TextRun(data, p + n, d, next, text[1..]);
      assert next.text + text[1..] == parser.text + text;
    }
  }

  lemma NothingDoubled(d: Dialect)
    ensures Doubled(d, []) == []
  {
  }

  lemma FirstPart(data: Text, p: nat, first: Text, rest: Text)
    requires Reads(data, p, first + rest)
    ensures Reads(data, p, first) && Reads(data, p + |first|, rest)
    ensures forall k :: 0 <= k < |first| ==> data[p + k] == first[k]
  {
    var all := data[p..p + |first + rest|];
    assert all[..|first|] == first && all[|first|..] == rest;
    forall k | 0 <= k < |first| ensures data[p + k] == first[k] {
      assert all[k] == first[k];
    }
  }

  /** A token that is no quote is taken by a field start as by a plain field. */
  lemma StartIsPlain(data: Text, p: nat, d: Dialect, row: seq<Text>)
    requires InBounds(At(data, p)) && Extracted(At(data, p), d).1.kind != QUOTE
    ensures RowFrom(At(data, p), d, Parser(FieldStart, row, [], false))
         == RowFrom(At(data, p), d, Parser(NonescapedField, row, [], false))
  {
    hide Extracted;
  }

  lemma EndToken(data: Text, q: nat, d: Dialect, parser: Parser)
    requires GoodDialect(d) && q < |data| && IsSpecial(d, data[q]) && !parser.failed
    requires parser.state == NonescapedField || parser.state == FieldEnd
    ensures RowFrom(At(data, q), d, parser)
         == if data[q] == d.delimiter then
              RowFrom(At(data, q + 1), d, Parser(FieldStart, parser.row + [parser.text], [], false))
            else (At(data, q + 1), parser.row + [parser.text])
  {
    OtherToken(data, q, d);
    hide Extracted;
    OneToken(data, q, d, parser, q + 1, Extracted(At(data, q), d).1);
  }

  /** Reading a field up to the delimiter or terminator after it. */
  lemma FieldRead(data: Text, p: nat, d: Dialect, row: seq<Text>, f: Field)
    requires GoodDialect(d) && Writable(d, f) && Reads(data, p, Written(d, f))
    requires var q := p + |Written(d, f)|; q < |data| && IsSpecial(d, data[q])
    ensures var q := p + |Written(d, f)|;
      RowFrom(At(data, p), d, Parser(FieldStart, row, [], false))
        == if data[q] == d.delimiter then RowFrom(At(data, q + 1), d, Parser(FieldStart, row + [f.text], [], false))
           else (At(data, q + 1), row + [f.text])
  {
    hide Extracted, RowFrom;
    var q := p + |Written(d, f)|;
    FieldText(data, p, d, row, f);
    EndToken(data, q, d, Parser(if f.style == Plain then NonescapedField else FieldEnd, row, f.text, false));
  }

  lemma FieldText(data: Text, p: nat, d: Dialect, row: seq<Text>, f: Field)
    requires GoodDialect(d) && Writable(d, f) && Reads(data, p, Written(d, f))
    requires var q := p + |Written(d, f)|; q < |data| && IsSpecial(d, data[q])
    ensures RowFrom(At(data, p), d, Parser(FieldStart, row, [], false))
         == RowFrom(At(data, p + |Written(d, f)|), d,
                    Parser(if f.style == Plain then NonescapedField else FieldEnd, row, f.text, false))
  {
    hide Extracted, RowFrom, Reads;
    assert [] + f.text == f.text;
    match f.style
    case Plain =>
      PlainStart(data, p, d, f.text);
      StartIsPlain(data, p, d, row);
      TextRun(data, p, d, Parser(NonescapedField, row, [], false), f.text);
    case Quoted =>
      QuotedParts(data, p, d, f);
      var n := |Doubled(d, f.text)|;
      SingleQuoteToken(data, p, d);
      OneToken(data, p, d, Parser(FieldStart, row, [], false), p + 1, Token(QUOTE, d.quote));
      TextRun(data, p + 1, d, Parser(EscapedField, row, [], false), f.text);
      SingleQuoteToken(data, p + n + 1, d);
      OneToken(data, p + n + 1, d, Parser(EscapedField, row, f.text, false), p + n + 2, Token(QUOTE, d.quote));
  }

  lemma PlainStart(data: Text, p: nat, d: Dialect, text: Text)
    requires GoodDialect(d) && Reads(data, p, Doubled(d, text))
    requires p + |Doubled(d, text)| < |data| && IsSpecial(d, data[p + |Doubled(d, text)|])
    ensures Extracted(At(data, p), d).1.kind != QUOTE
  {
    if text == [] {
      OtherToken(data, p, d);
    } else {
      FirstOfDoubled(data, p, d, text);
    }
    hide Extracted;
  }

  lemma QuotedParts(data: Text, p: nat, d: Dialect, f: Field)
    requires f.style == Quoted && NoLeadingQuote(d, f.text) && Reads(data, p, Written(d, f))
    ensures var n := |Doubled(d, f.text)|;
      && p + n + 1 < |data| && data[p] == d.quote && data[p + 1] != d.quote && data[p + n + 1] == d.quote
      && Reads(data, p + 1, Doubled(d, f.text)) && |Written(d, f)| == n + 2
  {
    var body := Doubled(d, f.text);
    assert Written(d, f) == [d.quote] + (body + [d.quote]);
    FirstPart(data, p, [d.quote], body + [d.quote]);
    FirstPart(data, p + 1, body, [d.quote]);
    assert data[p + 1 + |body|] == d.quote by { FirstPart(data, p + 1 + |body|, [d.quote], []); }
    assert body[0] == f.text[0];
  }

  // -------- reading rows and tables --------

  lemma FirstFieldRead(data: Text, p: nat, d: Dialect, row: seq<Text>, fields: seq<Field>)
    requires GoodDialect(d) && WritableRow(d, fields) && 1 < |fields| && Reads(data, p, WrittenFields(d, fields))
    ensures var f := fields[0]; var q := p + |Written(d, f)|;
      && q < |data| && Reads(data, q + 1, WrittenFields(d, fields[1..]))
      && WrittenFields(d, fields) == Written(d, f) + ([d.delimiter] + WrittenFields(d, fields[1..]))
      && RowFrom(At(data, p), d, Parser(FieldStart, row, [], false))
         == RowFrom(At(data, q + 1), d, Parser(FieldStart, row + [f.text], [], false))
  {
    hide RowFrom, Written;
    var f, rest := fields[0], WrittenFields(d, fields[1..]);
    assert WrittenFields(d, fields) == Written(d, f) + ([d.delimiter] + rest);
    FirstPart(data, p, Written(d, f), [d.delimiter] + rest);
    var q := p + |Written(d, f)|;
    FirstPart(data, q, [d.delimiter], rest);
    assert data[q + 0] == d.delimiter;
    FieldRead(data, p, d, row, f);
  }

  lemma {:induction false} RowRead(data: Text, p: nat, d: Dialect, row: seq<Text>, fields: seq<Field>)
    requires GoodDialect(d) && WritableRow(d, fields) && Reads(data, p, WrittenFields(d, fields))
    requires var q := p + |WrittenFields(d, fields)|; q < |data| && data[q] == d.terminator
    ensures RowFrom(At(data, p), d, Parser(FieldStart, row, [], false))
         == (At(data, p + |WrittenFields(d, fields)| + 1), row + TextsOf(fields))
    decreases |fields|
  {
    hide Extracted, RowFrom, Written;
    var f := fields[0];
    if |fields| == 1 {
      FieldRead(data, p, d, row, f);
      assert TextsOf(fields) == [f.text];
    } else {
      FirstFieldRead(data, p, d, row, fields);
      var q := p + |Written(d, f)|;
      RowRead(data, q + 1, d, row + [f.text], fields[1..]);
      assert row + [f.text] + TextsOf(fields[1..]) == row + TextsOf(fields);
    }
  }

  lemma EndOfRows(data: Text, d: Dialect)
    ensures Rows(At(data, |data|), d) == []
  {
    var s := At(data, |data|);
    assert Extracted(s, d) == (s.(eof := true), Token(TERMINATOR, EOF_CHARACTER));
    var failing := Source(data, |data|, true, true);
    assert Extracted(failing, d).0 == failing;
  }

  predicate WritableTable(d: Dialect, table: seq<seq<Field>>) {
    forall k :: 0 <= k < |table| ==> WritableRow(d, table[k])
  }

  lemma {:induction false} TableRead(data: Text, p: nat, d: Dialect, table: seq<seq<Field>>, rest: Text)
    requires GoodDialect(d) && WritableTable(d, table) && p <= |data| && data[p..] == WrittenTable(d, table) + rest
    ensures |data| - |rest| <= |data| && 0 <= |data| - |rest|
    ensures Rows(At(data, p), d) == TextsOfTable(table) + Rows(At(data, |data| - |rest|), d)
    decreases |table|
  {
    hide RowFrom, Extracted, WrittenFields, Rows;
    if table == [] {
      assert data[p..] == rest;
    } else {
      var fields := WrittenFields(d, table[0]);
      var more := WrittenTable(d, table[1..]) + rest;
      TableParts(d, table, rest);
      TailParts(data, p, fields, d.terminator, more);
      FirstRowRead(data, p, d, table[0]);
      TableRead(data, p + |fields| + 1, d, table[1..], rest);
      TextsParts(table, Rows(At(data, |data| - |rest|), d));
    }
  }

  lemma Regrouped(a: Text, b: Text, c: Text, rest: Text)
    ensures (a + b + c) + rest == a + (b + (c + rest))
  {
  }

  lemma TableParts(d: Dialect, table: seq<seq<Field>>, rest: Text)
    requires table != [] && forall k :: 0 <= k < |table| ==> table[k] != []
    ensures WrittenTable(d, table) + rest ==
      WrittenFields(d, table[0]) + ([d.terminator] + (WrittenTable(d, table[1..]) + rest))
  {
    hide WrittenFields;
    Regrouped(WrittenFields(d, table[0]), [d.terminator], WrittenTable(d, table[1..]), rest);
  }

  lemma TextsParts(table: seq<seq<Field>>, rows: seq<seq<Text>>)
    requires table != []
    ensures [TextsOf(table[0])] + (TextsOfTable(table[1..]) + rows) == TextsOfTable(table) + rows
  {
    assert TextsOfTable(table) == [TextsOf(table[0])] + TextsOfTable(table[1..]);
  }

  lemma TailParts(data: Text, p: nat, first: Text, c: Byte, rest: Text)
    requires p <= |data| && data[p..] == first + ([c] + rest)
    ensures Reads(data, p, first) && p + |first| < |data| && data[p + |first|] == c && data[p + |first| + 1..] == rest
  {
    var tail := data[p..];
    assert tail[..|first|] == first && tail[|first|] == c && tail[|first|+1..] == rest;
  }

  lemma FirstRowRead(data: Text, p: nat, d: Dialect, row: seq<Field>)
    requires GoodDialect(d) && WritableRow(d, row) && Reads(data, p, WrittenFields(d, row))
    requires var q := p + |WrittenFields(d, row)|; q < |data| && data[q] == d.terminator
    ensures var q := p + |WrittenFields(d, row)|;
      Rows(At(data, p), d) == [TextsOf(row)] + Rows(At(data, q + 1), d)
  {
    hide RowFrom, Extracted, WrittenFields;
    RowRead(data, p, d, [], row);
    assert [] + TextsOf(row) == TextsOf(row);
  }

  /** A table written with every row terminated is read back exactly. */
  lemma RoundTrip(d: Dialect, table: seq<seq<Field>>)
    requires GoodDialect(d) && WritableTable(d, table)
    ensures Rows(Open(WrittenTable(d, table)), d) == TextsOfTable(table)
  {
    var data := WrittenTable(d, table);
    assert data[0..] == data + [];
    TableRead(data, 0, d, table, []);
    EndOfRows(data, d);
    assert TextsOfTable(table) + [] == TextsOfTable(table);
  }

  // -------- a last row without its terminator --------

  lemma EndOfStreamToken(data: Text, d: Dialect, parser: Parser)
    requires parser.state != RecordEnd && !parser.failed
    ensures var s := Source(data, |data|, true, false);
      Extracted(s, d).0.fail && RowFrom(s, d, parser).0.fail
      && Extracted(At(data, |data|), d) == (s, Token(TERMINATOR, EOF_CHARACTER))
  {
  }

  lemma LastQuoteToken(data: Text, d: Dialect)
    requires GoodDialect(d) && data != [] && data[|data|-1] == d.quote
    ensures Extracted(At(data, |data| - 1), d) == (Source(data, |data|, true, false), Token(QUOTE, d.quote))
  {
  }

  lemma LastFieldPlain(data: Text, p: nat, d: Dialect, row: seq<Text>, text: Text)
    requires GoodDialect(d) && p <= |data| && data[p..] == Doubled(d, text) && NoSpecials(d, text)
    requires row != [] || text != []
    ensures RowFrom(At(data, p), d, Parser(FieldStart, row, [], false)) == (Source(data, |data|, true, false), row + [text])
  {
    hide Extracted, RowFrom;
    assert [] + text == text;
    var parser := Parser(NonescapedField, row, [], false);
    EndOfStreamToken(data, d, parser);
    if text == [] {
      NothingDoubled(d);
      assert p == |data|;
    } else {
      FirstOfDoubled(data, p, d, text);
    }
    StartIsPlain(data, p, d, row);
    TextRun(data, p, d, parser, text);
    EndsAtStreamEnd(data, d, row, text);
  }

  lemma EndsAtStreamEnd(data: Text, d: Dialect, row: seq<Text>, text: Text)
    requires row != [] || text != []
    ensures RowFrom(At(data, |data|), d, Parser(NonescapedField, row, text, false))
         == (Source(data, |data|, true, false), row + [text])
  {
    EndOfStreamToken(data, d, Parser(NonescapedField, row, text, false));
    hide Extracted;
  }

  lemma LastFieldQuoted(data: Text, p: nat, d: Dialect, row: seq<Text>, f: Field)
    requires GoodDialect(d) && p <= |data| && data[p..] == Written(d, f) && f.style == Quoted && NoLeadingQuote(d, f.text)
    ensures RowFrom(At(data, p), d, Parser(FieldStart, row, [], false)).0.fail
  {
    hide Extracted, RowFrom;
    assert [] + f.text == f.text;
    QuotedParts(data, p, d, f);
    var n := |Doubled(d, f.text)|;
    SingleQuoteToken(data, p, d);
    OneToken(data, p, d, Parser(FieldStart, row, [], false), p + 1, Token(QUOTE, d.quote));
    TextRun(data, p + 1, d, Parser(EscapedField, row, [], false), f.text);
    LastQuoteToken(data, d);
    FailsAfterQuote(data, d, Parser(EscapedField, row, f.text, false));
  }

  lemma FailsAfterQuote(data: Text, d: Dialect, parser: Parser)
    requires data != [] && Extracted(At(data, |data| - 1), d) == (Source(data, |data|, true, false), Token(QUOTE, d.quote))
    requires parser.state == EscapedField && !parser.failed
    ensures RowFrom(At(data, |data| - 1), d, parser).0.fail
  {
    EndOfStreamToken(data, d, parser.(state := FieldEnd));
    hide Extracted;
  }

  lemma TextsNext(row: seq<Text>, fields: seq<Field>)
    requires 1 < |fields|
    ensures row + [fields[0].text] + TextsOf(fields[1..]) == row + TextsOf(fields)
    ensures fields[1..][|fields| - 2] == fields[|fields| - 1]
  {
  }

  lemma {:induction false} LastRowRead(data: Text, p: nat, d: Dialect, row: seq<Text>, fields: seq<Field>)
    requires GoodDialect(d) && WritableRow(d, fields) && p <= |data| && data[p..] == WrittenFields(d, fields)
    requires row != [] || fields != [Field([], Plain)]
    ensures var (after, read) := RowFrom(At(data, p), d, Parser(FieldStart, row, [], false));
      if fields[|fields|-1].style == Quoted then after.fail
      else after == Source(data, |data|, true, false) && read == row + TextsOf(fields)
    decreases |fields|
  {
    hide Extracted, RowFrom, Written;
    if |fields| == 1 {
      LastFieldRead(data, p, d, row, fields[0]);
      assert TextsOf(fields) == [fields[0].text];
    } else {
      hide WrittenFields, Writable, GoodDialect, TextsOf;
      var f, q := fields[0], p + |Written(d, fields[0])|;
      FirstOfLast(data, p, d, row, fields);
      LastRowRead(data, q + 1, d, row + [f.text], fields[1..]);
      TextsNext(row, fields);
    }
  }

  lemma FirstOfLast(data: Text, p: nat, d: Dialect, row: seq<Text>, fields: seq<Field>)
    requires GoodDialect(d) && WritableRow(d, fields) && 1 < |fields| && p <= |data| && data[p..] == WrittenFields(d, fields)
    ensures var q := p + |Written(d, fields[0])| + 1;
      && q <= |data| && data[q..] == WrittenFields(d, fields[1..])
      && RowFrom(At(data, p), d, Parser(FieldStart, row, [], false))
         == RowFrom(At(data, q), d, Parser(FieldStart, row + [fields[0].text], [], false))
  {
    hide RowFrom, Written;
    assert Reads(data, p, WrittenFields(d, fields));
    FirstFieldRead(data, p, d, row, fields);
    hide Reads, WrittenFields;
    TailAfter(data, p, Written(d, fields[0]) + [d.delimiter], WrittenFields(d, fields[1..]));
  }

  lemma TailAfter(data: Text, p: nat, first: Text, rest: Text)
    requires p <= |data| && data[p..] == first + rest
    ensures p + |first| <= |data| && data[p + |first|..] == rest
  {
    assert data[p + |first|..] == data[p..][|first|..];
  }

  lemma LastFieldRead(data: Text, p: nat, d: Dialect, row: seq<Text>, f: Field)
    requires GoodDialect(d) && Writable(d, f) && p <= |data| && data[p..] == Written(d, f)
    requires row != [] || f != Field([], Plain)
    ensures var (after, read) := RowFrom(At(data, p), d, Parser(FieldStart, row, [], false));
      if f.style == Quoted then after.fail else after == Source(data, |data|, true, false) && read == row + [f.text]
  {
    hide Extracted, RowFrom, Written;
    if f.style == Quoted {
      LastFieldQuoted(data, p, d, row, f);
    } else {
      PlainWritten(d, f);
      LastFieldPlain(data, p, d, row, f.text);
    }
  }

  lemma PlainWritten(d: Dialect, f: Field)
    requires f.style == Plain
    ensures Written(d, f) == Doubled(d, f.text)
  {
  }

  lemma NoMoreRows(data: Text, d: Dialect)
    ensures Rows(Source(data, |data|, true, false), d) == []
  {
    EndOfStreamToken(data, d, START);
  }

  lemma LastRowOnly(data: Text, p: nat, d: Dialect, row: seq<Field>)
    requires GoodDialect(d) && WritableRow(d, row) && row != [Field([], Plain)]
    requires p <= |data| && data[p..] == WrittenFields(d, row)
    ensures Rows(At(data, p), d) == if row[|row|-1].style == Quoted then [] else [TextsOf(row)]
  {
    hide RowFrom, WritableRow, WrittenFields, Extracted;
    LastRowRead(data, p, d, [], row);
    assert [] + TextsOf(row) == TextsOf(row);
    NoMoreRows(data, d);
  }

  lemma EmptyCellWritten(d: Dialect)
    ensures WrittenFields(d, [Field([], Plain)]) == []
  {
    NothingDoubled(d);
  }

  /** A last row without its terminator is read if it ends in a plain field, and lost if it ends in a quoted one: the
      look for a second quote after the closing one has then already met the end of the stream. A single empty plain
      field is written as nothing at all, and is no row. */
  lemma LastRowWithoutTerminator(d: Dialect, table: seq<seq<Field>>, row: seq<Field>)
    requires GoodDialect(d) && WritableTable(d, table) && WritableRow(d, row)
    ensures
      var lost := row[|row|-1].style == Quoted || row == [Field([], Plain)];
      Rows(Open(WrittenTable(d, table) + WrittenFields(d, row)), d) ==
      TextsOfTable(table) + if lost then [] else [TextsOf(row)]
  {
    hide Rows, WrittenFields, WrittenTable, Writable, TextsOfTable;
    if row == [Field([], Plain)] {
      EmptyCellWritten(d);
      assert WrittenTable(d, table) + [] == WrittenTable(d, table);
      assert TextsOfTable(table) + [] == TextsOfTable(table);
      RoundTrip(d, table);
    } else {
      var tail := WrittenFields(d, row);
      var data := WrittenTable(d, table) + tail;
      assert data[0..] == data;
      TableRead(data, 0, d, table, tail);
      assert data[|data| - |tail|..] == tail;
      LastRowOnly(data, |data| - |tail|, d, row);
    }
  }

  // -------- what can be read at all --------

  /** What holds of the parser whenever it looks for the next token. */
  ghost predicate Keeps(d: Dialect, s: Source, p: Parser) {
    && InBounds(s)
    && (forall k :: 0 <= k < |p.row| ==> Representable(d, p.row[k]))
    && match p.state
       case FieldStart => p.text == []
       case NonescapedField => NoSpecials(d, p.text)
       case EscapedField =>
         if p.text == [] then s.eof || (s.pos < |s.data| && s.data[s.pos] != d.quote) else NoLeadingQuote(d, p.text)
       case FieldEnd => Representable(d, p.text)
       case RecordEnd => p.row != []
  }

  lemma AdvanceKeeps(d: Dialect, s: Source, p: Parser)
    requires GoodDialect(d) && p.state != RecordEnd && Keeps(d, s, p) && !Extracted(s, d).0.fail
    ensures var (s1, t) := Extracted(s, d); Advance(p, t).failed || Keeps(d, s1, Advance(p, t))
  {
    var (s1, t) := Extracted(s, d);
    if s.pos == |s.data| {
      assert t == Token(TERMINATOR, EOF_CHARACTER);
    } else {
      assert t.character == s.data[s.pos];
      assert t.kind == QUOTE ==> t.character == d.quote && (s1.eof || (s1.pos < |s1.data| && s1.data[s1.pos] != d.quote));
      assert t.kind == TEXT ==> !IsSpecial(d, t.character);
    }
    hide Extracted;
  }

  lemma {:induction false} RowFromKeeps(d: Dialect, s: Source, p: Parser)
    requires GoodDialect(d) && Keeps(d, s, p)
    ensures var (s1, row) := RowFrom(s, d, p);
      s1.fail || (row != [] && forall k :: 0 <= k < |row| ==> Representable(d, row[k]))
    decreases |s.data| - s.pos, if s.eof then 0 else 1, if s.fail then 0 else 1
  {
    if p.state != RecordEnd && !Extracted(s, d).0.fail {
      var (s1, t) := Extracted(s, d);
      AdvanceKeeps(d, s, p);
      hide Extracted, Advance;
      if !Advance(p, t).failed {
        RowFromKeeps(d, s1, Advance(p, t));
      }
    }
  }

  ghost predicate Readable(d: Dialect, rows: seq<seq<Text>>) {
    forall k :: 0 <= k < |rows| ==> rows[k] != [] && forall j :: 0 <= j < |rows[k]| ==> Representable(d, rows[k][j])
  }

  lemma {:induction false} RowsAreReadable(d: Dialect, s: Source)
    requires GoodDialect(d) && InBounds(s)
    ensures Readable(d, Rows(s, d))
    decreases |s.data| - s.pos, if s.eof then 0 else 1
  {
    RowFromKeeps(d, s, START);
    hide RowFrom;
    var (s1, row) := ParsedRow(s, d);
    if !s1.fail {
      RowsAreReadable(d, s1);
    }
  }

  function Styled(d: Dialect, text: Text): Field {
    Field(text, if NoSpecials(d, text) then Plain else Quoted)
  }

  function StyledRow(d: Dialect, row: seq<Text>): (r: seq<Field>)
    ensures |r| == |row| && forall j :: 0 <= j < |r| ==> r[j] == Styled(d, row[j])
  {
    seq(|row|, j requires 0 <= j < |row| => Styled(d, row[j]))
  }

  function StyledTable(d: Dialect, rows: seq<seq<Text>>): (r: seq<seq<Field>>)
    ensures |r| == |rows| && forall k :: 0 <= k < |r| ==> r[k] == StyledRow(d, rows[k])
  {
    seq(|rows|, k requires 0 <= k < |rows| => StyledRow(d, rows[k]))
  }

  /** The reader can return exactly the tables of non-empty rows whose fields hold no delimiter and no terminator, or
      are not empty and do not start with a quote. */
  lemma ReadableExactly(d: Dialect, rows: seq<seq<Text>>)
    requires GoodDialect(d)
    ensures (exists data :: Rows(Open(data), d) == rows) <==> Readable(d, rows)
  {
    hide Rows;
    if data :| Rows(Open(data), d) == rows {
      RowsAreReadable(d, Open(data));
    }
    if Readable(d, rows) {
      var table := StyledTable(d, rows);
      forall k | 0 <= k < |table| ensures WritableRow(d, table[k]) && TextsOf(table[k]) == rows[k] {
        assert rows[k] != [];
        forall j | 0 <= j < |table[k]| ensures Writable(d, table[k][j]) && table[k][j].text == rows[k][j] {
          assert Representable(d, rows[k][j]);
        }
      }
      assert TextsOfTable(table) == rows;
      RoundTrip(d, table);
    }
  }

  // -------- quoted fields --------

  /** The number of quotes at the start of a text. */
  function LeadingQuotes(d: Dialect, text: Text): (n: nat)
    ensures n <= |text| && (forall k :: 0 <= k < n ==> text[k] == d.quote) && (n < |text| ==> text[n] != d.quote)
  {
    if text == [] || text[0] != d.quote then 0 else 1 + LeadingQuotes(d, text[1..])
  }

  lemma {:induction false} DoubledAppend(d: Dialect, a: Text, b: Text)
    ensures Doubled(d, a + b) == Doubled(d, a) + Doubled(d, b)
  {
    if a == [] {
      assert a + b == b;
    } else {
      assert (a + b)[1..] == a[1..] + b;
      DoubledAppend(d, a[1..], b);
    }
  }

  lemma {:induction false} DoubledQuotes(d: Dialect, text: Text)
    requires forall k :: 0 <= k < |text| ==> text[k] == d.quote
    ensures |Doubled(d, text)| == 2 * |text| && forall k :: 0 <= k < 2 * |text| ==> Doubled(d, text)[k] == d.quote
  {
    if text != [] {
      DoubledQuotes(d, text[1..]);
    }
  }

  /** A text of nothing but quotes, quoted, is the same as with one more quote, plain; and so it is read. */
  lemma OnlyQuotesGainOne(d: Dialect, text: Text)
    requires GoodDialect(d) && forall k :: 0 <= k < |text| ==> text[k] == d.quote
    ensures Rows(Open(Written(d, Field(text, Quoted)) + [d.terminator]), d) == [[text + [d.quote]]]
  {
    var more := text + [d.quote];
    DoubledQuotes(d, text);
    DoubledQuotes(d, more);
    WrittenCell(d, more);
    hide Doubled, Rows, WrittenTable, TextsOfTable;
    assert [d.quote] + Doubled(d, text) + [d.quote] == Doubled(d, more);
    assert WritableTable(d, OneCell(more));
    RoundTrip(d, OneCell(more));
  }

  /** A text that starts with quotes and goes on, quoted, is refused: after the doubled quotes a single one is left. */
  lemma QuotesThenTextIsRefused(d: Dialect, text: Text, n: nat)
    requires GoodDialect(d) && n == LeadingQuotes(d, text) && 0 < n < |text|
    ensures Rows(Open(Written(d, Field(text, Quoted)) + [d.terminator]), d) == []
  {
    hide Extracted, RowFrom, Doubled, Written, Reads;
    var data := Written(d, Field(text, Quoted)) + [d.terminator];
    QuotedQuotes(d, text, n);
    QuotesRun(data, d, text[..n]);
    SingleQuoteToken(data, 2 * n, d);
    FailedRow(data, 2 * n, d, Parser(NonescapedField, [], text[..n], false));
    NoRows(data, d);
  }

  lemma NoRows(data: Text, d: Dialect)
    requires RowFrom(At(data, 0), d, START).0.fail
    ensures Rows(Open(data), d) == []
  {
    hide RowFrom;
  }

  lemma QuotesRun(data: Text, d: Dialect, quotes: Text)
    requires GoodDialect(d) && quotes != [] && forall k :: 0 <= k < |quotes| ==> quotes[k] == d.quote
    requires 2 * |quotes| <= |data| && data[..2 * |quotes|] == Doubled(d, quotes)
    ensures RowFrom(At(data, 0), d, START) == RowFrom(At(data, 2 * |quotes|), d, Parser(NonescapedField, [], quotes, false))
  {
    hide Extracted, RowFrom, Doubled;
    DoubledQuotes(d, quotes);
    assert Reads(data, 0, Doubled(d, quotes));
    hide Reads;
    FirstOfDoubled(data, 0, d, quotes);
    StartIsPlain(data, 0, d, []);
    TextRun(data, 0, d, Parser(NonescapedField, [], [], false), quotes);
    assert [] + quotes == quotes;
  }

  lemma QuotedQuotes(d: Dialect, text: Text, n: nat)
    requires n == LeadingQuotes(d, text) && 0 < n < |text|
    ensures
      var data := Written(d, Field(text, Quoted)) + [d.terminator];
      && 2 * n + 1 < |data| && data[..2 * n] == Doubled(d, text[..n]) && data[2 * n] == d.quote && data[2 * n + 1] == text[n]
  {
    DoubledAppend(d, text[..n], text[n..]);
    DoubledQuotes(d, text[..n]);
    assert text == text[..n] + text[n..];
    var rest := Doubled(d, text[n..]);
    assert rest[0] == text[n];
    var data := Written(d, Field(text, Quoted)) + [d.terminator];
    assert data == [d.quote] + Doubled(d, text[..n]) + rest + [d.quote] + [d.terminator];
  }

  /** Which fields may be quoted: a quoted text is read back exactly if it is not empty and does not start with a quote. */
  lemma QuotedIsReadExactly(d: Dialect, text: Text)
    requires GoodDialect(d)
    ensures Rows(Open(Written(d, Field(text, Quoted)) + [d.terminator]), d) == [[text]] <==> NoLeadingQuote(d, text)
  {
    hide Rows, Written;
    var n := LeadingQuotes(d, text);
    if n == |text| {
      OnlyQuotesGainOne(d, text);
      assert [[text + [d.quote]]][0][0] != [[text]][0][0] by { assert |text + [d.quote]| != |text|; }
    } else if 0 < n {
      QuotesThenTextIsRefused(d, text, n);
    } else {
      OneQuotedCell(d, text);
      RoundTrip(d, [[Field(text, Quoted)]]);
    }
  }

  lemma OneQuotedCell(d: Dialect, text: Text)
    ensures WrittenTable(d, [[Field(text, Quoted)]]) == Written(d, Field(text, Quoted)) + [d.terminator]
    ensures TextsOfTable([[Field(text, Quoted)]]) == [[text]]
  {
    var table := [[Field(text, Quoted)]];
    assert table[1..] == [];
    assert WrittenFields(d, table[0]) == Written(d, Field(text, Quoted));
    assert TextsOf(table[0]) == [text];
  }

  /** Two quotes are a field that holds one quote, where rule 7 in section 2 of RFC 4180 has an empty field. */
  lemma TwoQuotesAreOne(d: Dialect)
    requires GoodDialect(d)
    ensures Rows(Open([d.quote, d.quote, d.terminator]), d) == [[[d.quote]]]
  {
    OnlyQuotesGainOne(d, []);
    NothingDoubled(d);
    hide Rows;
    assert Written(d, Field([], Quoted)) + [d.terminator] == [d.quote, d.quote, d.terminator];
    assert [] + [d.quote] == [d.quote];
  }

  // -------- the dialects --------

  predicate Different(d: Dialect) {
    d.delimiter != d.terminator && d.delimiter != d.quote && d.terminator != d.quote
  }

  ghost predicate RoundTrips(d: Dialect, table: seq<seq<Field>>) {
    WritableTable(d, table) ==> Rows(Open(WrittenTable(d, table)), d) == TextsOfTable(table)
  }

  function OneCell(text: Text): seq<seq<Field>> {
    [[Field(text, Plain)]]
  }

  lemma WrittenCell(d: Dialect, text: Text)
    ensures WrittenTable(d, OneCell(text)) == Doubled(d, text) + [d.terminator]
    ensures TextsOfTable(OneCell(text)) == [[text]]
  {
    var row := OneCell(text)[0];
    assert OneCell(text)[1..] == [];
    assert WrittenFields(d, row) == Doubled(d, text);
    assert TextsOf(row) == [text];
  }

  /** The first row is lost if the terminator stands for the end of the stream: an empty field is then no row. */
  lemma EmptyRowIsLost(d: Dialect)
    requires Different(d) && d.terminator == EOF_CHARACTER
    ensures !RoundTrips(d, OneCell([]))
  {
    var data := [d.terminator];
    WrittenCell(d, []);
    assert Doubled(d, []) + data == data;
    OtherToken(data, 0, d);
    assert Advance(START, Token(TERMINATOR, d.terminator)).failed;
    FailedRow(data, 0, d, START);
    assert Rows(Open(data), d) == [];
  }

  lemma FailedRow(data: Text, p: nat, d: Dialect, parser: Parser)
    requires InBounds(At(data, p)) && parser.state != RecordEnd && !Extracted(At(data, p), d).0.fail
    requires Advance(parser, Extracted(At(data, p), d).1).failed
    ensures RowFrom(At(data, p), d, parser).0.fail
  {
    var (s, t) := Extracted(At(data, p), d);
    hide Extracted;
    assert RowFrom(s.(fail := true), d, Advance(parser, t)).0.fail;
  }

  /** A quote that is not ASCII is never seen to be doubled, since a char is signed and peek gives the byte. */
  lemma QuoteIsLost(d: Dialect)
    requires Different(d) && 128 <= d.quote
    ensures !RoundTrips(d, OneCell([d.quote]))
  {
    var data := [d.quote, d.quote, d.terminator];
    WrittenCell(d, [d.quote]);
    assert Doubled(d, [d.quote]) == [d.quote, d.quote] + Doubled(d, []) == [d.quote, d.quote];
    LoneQuote(data, 0, d);
    LoneQuote(data, 1, d);
    OneToken(data, 0, d, START, 1, Token(QUOTE, d.quote));
    OneToken(data, 1, d, Parser(EscapedField, [], [], false), 2, Token(QUOTE, d.quote));
    OtherToken(data, 2, d);
    var last := Token(TERMINATOR, d.terminator);
    var parser := Parser(FieldEnd, [], [], false);
    assert ParsedRow(Open(data), d) == RowFrom(At(data, 2), d, parser);
    if d.terminator == EOF_CHARACTER {
      assert Advance(parser, last).failed;
      FailedRow(data, 2, d, parser);
      assert Rows(Open(data), d) == [];
    } else {
      OneToken(data, 2, d, parser, 3, last);
      assert RowFrom(At(data, 2), d, parser).1 == [[]];
      assert Rows(Open(data), d)[0][0] == [];
    }
    assert WritableTable(d, OneCell([d.quote])) && WrittenTable(d, OneCell([d.quote])) == data;
    assert [[[d.quote]]][0][0] == [d.quote];
  }

  lemma LoneQuote(data: Text, p: nat, d: Dialect)
    requires p + 1 < |data| && data[p] == d.quote && 128 <= d.quote && d.quote != d.terminator && d.quote != d.delimiter
    ensures Extracted(At(data, p), d) == (At(data, p + 1), Token(QUOTE, d.quote))
  {
  }

  /** With three different characters, every writable table is read back exactly in the good dialects, and in no other. */
  lemma RoundTripsExactly(d: Dialect)
    requires Different(d)
    ensures (forall table :: RoundTrips(d, table)) <==> GoodDialect(d)
  {
    if GoodDialect(d) {
      forall table ensures RoundTrips(d, table) {
        if WritableTable(d, table) {
          RoundTrip(d, table);
        }
      }
    } else if d.terminator == EOF_CHARACTER {
      EmptyRowIsLost(d);
    } else {
      QuoteIsLost(d);
    }
  }
}
