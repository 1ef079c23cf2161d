/** Which bytes the CSV reader accepts: exactly the written rows. */
module CsvAccepted {
  import opened CsvReading
  import opened CsvRoundTrip

  /** What follows the first field of a row. */
  function Rest(d: Dialect, fields: seq<Field>): Text
    requires fields != []
  {
    if |fields| == 1 then [] else [d.delimiter] + WrittenFields(d, fields[1..])
  }

  lemma WrittenIs(d: Dialect, fields: seq<Field>)
    requires fields != []
    ensures WrittenFields(d, fields) == Written(d, fields[0]) + Rest(d, fields)
  {
    hide Written;
    if |fields| > 1 {
      var a, b, c := Written(d, fields[0]), [d.delimiter], WrittenFields(d, fields[1..]);
      assert a + b + c == a + (b + c);
    }
  }

  /** The first field is the one that the parser is in. */
  predicate Continues(p: Parser, fields: seq<Field>) {
    && p.state != RecordEnd && fields != [] && p.text <= fields[0].text
    && match p.state
       case FieldStart => p.text == []
       case NonescapedField => fields[0].style == Plain
       case EscapedField => fields[0].style == Quoted
       case FieldEnd => fields[0] == Field(p.text, Quoted)
  }

  /** What is left to be read of fields when the parser is in the first of them. */
  function Tail(d: Dialect, p: Parser, fields: seq<Field>): Text
    requires Continues(p, fields)
  {
    match p.state
    case FieldStart => Written(d, fields[0]) + Rest(d, fields)
    case NonescapedField => Doubled(d, fields[0].text[|p.text|..]) + Rest(d, fields)
    case EscapedField => Doubled(d, fields[0].text[|p.text|..]) + [d.quote] + Rest(d, fields)
    case FieldEnd => Rest(d, fields)
  }

  /** What holds of a parser at position k whenever it looks for a token. */
  predicate Ready(data: Text, k: nat, d: Dialect, p: Parser) {
    && k <= |data| && !p.failed
    && match p.state
       case FieldStart => p.text == []
       case NonescapedField => NoSpecials(d, p.text)
       case EscapedField => if p.text == [] then k < |data| && data[k] != d.quote else NoLeadingQuote(d, p.text)
       case FieldEnd => k < |data| && NoLeadingQuote(d, p.text)
       case RecordEnd => false
  }

  /** The bytes of the stream from k on until the parser stops at s are the rest of these fields. */
  predicate Consumed(data: Text, k: nat, d: Dialect, p: Parser, s: Source, fields: seq<Field>)
    requires Continues(p, fields)
  {
    if s.eof then
      && s == Source(data, |data|, true, false) && k <= |data| && data[k..] == Tail(d, p, fields)
      && fields[|fields| - 1].style == Plain
    else
      && k < s.pos <= |data| && s == At(data, s.pos)
      && data[k..s.pos - 1] == Tail(d, p, fields) && data[s.pos - 1] == d.terminator
  }

  /** The parser has stopped at s with a row that goes on with these fields. */
  predicate Explains(data: Text, k: nat, d: Dialect, p: Parser, s: Source, row: seq<Text>, fields: seq<Field>) {
    && Continues(p, fields) && WritableRow(d, fields) && Consumed(data, k, d, p, s, fields)
    && row == p.row + TextsOf(fields)
  }

  /** The field that the parser is in, if it ends here. */
  function Current(p: Parser): Field {
    Field(p.text, if p.state == FieldEnd then Quoted else Plain)
  }

  lemma CurrentEnds(d: Dialect, p: Parser, more: seq<Field>)
    requires p.state == FieldStart || p.state == NonescapedField || p.state == FieldEnd
    requires p.state == FieldStart ==> p.text == []
    ensures
      var fields := [Current(p)] + more;
      Continues(p, fields) && Tail(d, p, fields) == if more == [] then [] else [d.delimiter] + WrittenFields(d, more)
  {
    NothingDoubled(d);
    var fields := [Current(p)] + more;
    assert fields[1..] == more;
    hide WrittenFields;
    assert fields[0].text[|p.text|..] == [];
  }

  lemma CurrentIsWritable(data: Text, k: nat, d: Dialect, p: Parser)
    requires Ready(data, k, d, p) && p.state != EscapedField
    ensures Writable(d, Current(p))
  {
  }

  /** The row ends at the end of the stream. */
  lemma StopsAtEnd(data: Text, d: Dialect, p: Parser)
    requires Ready(data, |data|, d, p) && !RowFrom(At(data, |data|), d, p).0.fail
    ensures var (s, row) := RowFrom(At(data, |data|), d, p);
      Explains(data, |data|, d, p, s, row, [Current(p)])
  {
    EndOfStreamToken(data, d, p);
    hide Extracted;
    var t := Token(TERMINATOR, EOF_CHARACTER);
    FailedStops(data, |data|, d, p);
    assert p.state != EscapedField;
    CurrentIsWritable(data, |data|, d, p);
    CurrentEnds(d, p, []);
    assert [Current(p)] + [] == [Current(p)];
    assert TextsOf([Current(p)]) == [p.text];
  }

  /** A token that the parser refuses makes the stream fail. */
  lemma FailedStops(data: Text, k: nat, d: Dialect, p: Parser)
    requires k <= |data| && p.state != RecordEnd && !RowFrom(At(data, k), d, p).0.fail
    ensures !Extracted(At(data, k), d).0.fail && !Advance(p, Extracted(At(data, k), d).1).failed
    ensures RowFrom(At(data, k), d, p) == RowFrom(Extracted(At(data, k), d).0, d, Advance(p, Extracted(At(data, k), d).1))
  {
    hide Extracted, Advance;
  }

  /** The row ends at a terminator. */
  lemma StopsAtTerminator(data: Text, k: nat, d: Dialect, p: Parser)
    requires GoodDialect(d) && Ready(data, k, d, p) && p.state != EscapedField
    requires k < |data| && data[k] == d.terminator && !RowFrom(At(data, k), d, p).0.fail
    ensures var (s, row) := RowFrom(At(data, k), d, p);
      Explains(data, k, d, p, s, row, [Current(p)])
  {
    OtherToken(data, k, d);
    FailedStops(data, k, d, p);
    hide Extracted;
    CurrentIsWritable(data, k, d, p);
    CurrentEnds(d, p, []);
    assert [Current(p)] + [] == [Current(p)];
    assert TextsOf([Current(p)]) == [p.text];
  }

  /** What has been read is put in front of what is left. */
  lemma ConsumedMore(data: Text, k: nat, n: nat, d: Dialect, p: Parser, p': Parser, s: Source,
                     fields: seq<Field>, fields': seq<Field>)
    requires Continues(p, fields) && Continues(p', fields') && Consumed(data, k + n, d, p', s, fields')
    requires k + n <= |data| && Tail(d, p, fields) == data[k..k + n] + Tail(d, p', fields')
    requires fields[|fields| - 1] == fields'[|fields'| - 1]
    ensures Consumed(data, k, d, p, s, fields)
  {
    hide Tail, Continues;
    var end := if s.eof then |data| else s.pos - 1;
    assert data[k..end] == data[k..k + n] + data[k + n..end];
    assert data[k..|data|] == data[k..] && data[k + n..|data|] == data[k + n..];
  }

  /** The parser after a character of text. */
  function WithText(p: Parser, c: Byte): Parser {
    Parser(if p.state == FieldStart then NonescapedField else p.state, p.row, p.text + [c], false)
  }

  lemma TextTail(d: Dialect, p: Parser, c: Byte, fields: seq<Field>)
    requires p.state == FieldStart || p.state == NonescapedField || p.state == EscapedField
    requires Continues(WithText(p, c), fields) && (p.state == FieldStart ==> p.text == [])
    ensures Continues(p, fields) && Tail(d, p, fields) == Doubled(d, [c]) + Tail(d, WithText(p, c), fields)
  {
    hide Doubled, Rest;
    var text, n := fields[0].text, |p.text|;
    SuffixStep(text, p.text, c);
    DoubledAppend(d, [c], text[n + 1..]);
    var a, b, rest := Doubled(d, [c]), Doubled(d, text[n + 1..]), Rest(d, fields);
    assert a + b + rest == a + (b + rest) && a + b + [d.quote] + rest == a + (b + [d.quote] + rest);
  }

  lemma SuffixStep(text: Text, before: Text, c: Byte)
    requires before + [c] <= text
    ensures before <= text && text[|before|..] == [c] + text[|before| + 1..] && text[0..] == text
  {
    assert text[..|before|] == (before + [c])[..|before|] == before;
    assert text[|before|] == (before + [c])[|before|] == c;
  }

  /** Text in a field: the character, doubled if it is a quote, in front of the rest. */
  lemma TextRead(data: Text, k: nat, n: nat, d: Dialect, p: Parser, c: Byte, fields: seq<Field>)
    requires GoodDialect(d) && Ready(data, k, d, p) && !RowFrom(At(data, k), d, p).0.fail
    requires k + n <= |data| && data[k..k + n] == Doubled(d, [c])
    requires p.state == FieldStart || p.state == NonescapedField || p.state == EscapedField
    requires RowFrom(At(data, k), d, p) == RowFrom(At(data, k + n), d, WithText(p, c))
    requires
      var (s, row) := RowFrom(At(data, k), d, p);
      Explains(data, k + n, d, WithText(p, c), s, row, fields)
    ensures
      var (s, row) := RowFrom(At(data, k), d, p);
      Explains(data, k, d, p, s, row, fields)
  {
    hide RowFrom, Doubled;
    TextTail(d, p, c, fields);
    hide Tail;
    ConsumedMore(data, k, n, d, p, WithText(p, c), RowFrom(At(data, k), d, p).0, fields, fields);
  }

  lemma DelimiterTail(data: Text, k: nat, d: Dialect, p: Parser, more: seq<Field>)
    requires Ready(data, k, d, p) && p.state != EscapedField && WritableRow(d, more)
    requires k < |data| && data[k] == d.delimiter
    requires Continues(Parser(FieldStart, p.row + [p.text], [], false), more)
    ensures
      var next, fields := Parser(FieldStart, p.row + [p.text], [], false), [Current(p)] + more;
      && Continues(p, fields) && WritableRow(d, fields)
      && Tail(d, p, fields) == data[k..k + 1] + Tail(d, next, more)
  {
    hide WrittenFields, Tail, Writable, Ready, Continues;
    CurrentIsWritable(data, k, d, p);
    CurrentIsReady(data, k, d, p);
    CurrentEnds(d, p, more);
    StartTail(d, p.row + [p.text], more);
    assert data[k..k + 1] == [d.delimiter];
  }

  lemma CurrentIsReady(data: Text, k: nat, d: Dialect, p: Parser)
    requires Ready(data, k, d, p) && p.state != EscapedField
    ensures p.state == FieldStart || p.state == NonescapedField || p.state == FieldEnd
    ensures p.state == FieldStart ==> p.text == []
  {
  }

  lemma StartTail(d: Dialect, row: seq<Text>, more: seq<Field>)
    requires more != []
    ensures
      var p := Parser(FieldStart, row, [], false);
      Continues(p, more) && Tail(d, p, more) == WrittenFields(d, more)
  {
    WrittenIs(d, more);
  }

  /** A delimiter: the next field. */
  lemma DelimiterRead(data: Text, k: nat, d: Dialect, p: Parser, more: seq<Field>)
    requires GoodDialect(d) && Ready(data, k, d, p) && p.state != EscapedField
    requires k < |data| && data[k] == d.delimiter
    requires
      var (s, row) := RowFrom(At(data, k), d, p);
      Explains(data, k + 1, d, Parser(FieldStart, p.row + [p.text], [], false), s, row, more)
    ensures
      var (s, row) := RowFrom(At(data, k), d, p);
      Explains(data, k, d, p, s, row, [Current(p)] + more)
  {
    hide RowFrom, Tail, WrittenFields, Written, Rest, Consumed, Writable, Continues, Ready;
    var (s, row) := RowFrom(At(data, k), d, p);
    var next, fields := Parser(FieldStart, p.row + [p.text], [], false), [Current(p)] + more;
    DelimiterTail(data, k, d, p, more);
    ConsumedMore(data, k, 1, d, p, next, s, fields, more);
    assert p.row + TextsOf(fields) == p.row + [p.text] + TextsOf(more);
  }

  lemma QuoteTail(d: Dialect, p: Parser, fields: seq<Field>)
    requires (p.state == FieldStart && p.text == []) || p.state == EscapedField
    requires Continues(p.(state := if p.state == FieldStart then EscapedField else FieldEnd), fields)
    ensures
      var next := p.(state := if p.state == FieldStart then EscapedField else FieldEnd);
      Continues(p, fields) && Tail(d, p, fields) == [d.quote] + Tail(d, next, fields)
  {
    hide Rest, Doubled;
    NothingDoubled(d);
    var text, rest := fields[0].text, Rest(d, fields);
    assert text[0..] == text && text[|text|..] == [];
    var a := Doubled(d, text);
    assert [d.quote] + a + [d.quote] + rest == [d.quote] + (a + [d.quote] + rest);
    assert [] + [d.quote] + rest == [d.quote] + rest;
  }

  /** The quote that opens a field, and the one that closes it. */
  lemma QuoteRead(data: Text, k: nat, d: Dialect, p: Parser, fields: seq<Field>)
    requires GoodDialect(d) && Ready(data, k, d, p) && (p.state == FieldStart || p.state == EscapedField)
    requires k < |data| && data[k] == d.quote
    requires
      var (s, row) := RowFrom(At(data, k), d, p);
      var next := p.(state := if p.state == FieldStart then EscapedField else FieldEnd);
      Explains(data, k + 1, d, next, s, row, fields)
    ensures
      var (s, row) := RowFrom(At(data, k), d, p);
      Explains(data, k, d, p, s, row, fields)
  {
    hide RowFrom, Tail, Continues, Consumed, Ready;
    var (s, row) := RowFrom(At(data, k), d, p);
    var next := p.(state := if p.state == FieldStart then EscapedField else FieldEnd);
    ReadyIs(data, k, d, p);
    QuoteTail(d, p, fields);
    assert data[k..k + 1] == [d.quote];
    ConsumedMore(data, k, 1, d, p, next, s, fields, fields);
  }

  /** A quote that is not doubled, with more behind it. */
  lemma QuoteToken(data: Text, k: nat, d: Dialect, p: Parser)
    requires GoodDialect(d) && Ready(data, k, d, p) && !RowFrom(At(data, k), d, p).0.fail
    requires k < |data| && data[k] == d.quote && !(k + 1 < |data| && data[k + 1] == d.quote)
    ensures k + 1 < |data| && (p.state == FieldStart || p.state == EscapedField)
    ensures
      var next := p.(state := if p.state == FieldStart then EscapedField else FieldEnd);
      Ready(data, k + 1, d, next) && RowFrom(At(data, k), d, p) == RowFrom(At(data, k + 1), d, next)
  {
    FailedStops(data, k, d, p);
    if k + 1 == |data| {
      LastQuoteToken(data, d);
      var next := Advance(p, Token(QUOTE, d.quote));
      EndOfStreamToken(data, d, next);
    } else {
      SingleQuoteToken(data, k, d);
    }
    hide Extracted, RowFrom;
  }

  /** A character of text. */
  lemma TextToken(data: Text, k: nat, d: Dialect, p: Parser)
    requires GoodDialect(d) && Ready(data, k, d, p) && !RowFrom(At(data, k), d, p).0.fail && k < |data|
    requires if data[k] == d.quote then k + 1 < |data| && data[k + 1] == d.quote
             else IsSpecial(d, data[k]) ==> p.state == EscapedField
    ensures
      var n := if data[k] == d.quote then 2 else 1;
      && (p.state == FieldStart || p.state == NonescapedField || p.state == EscapedField)
      && k + n <= |data| && data[k..k + n] == Doubled(d, [data[k]])
      && Ready(data, k + n, d, WithText(p, data[k]))
      && RowFrom(At(data, k), d, p) == RowFrom(At(data, k + n), d, WithText(p, data[k]))
  {
    FailedStops(data, k, d, p);
    if data[k] == d.quote {
      DoubledQuoteToken(data, k, d);
    } else {
      OtherToken(data, k, d);
    }
    hide Extracted, RowFrom;
    NothingDoubled(d);
    assert Doubled(d, [data[k]]) == (if data[k] == d.quote then [d.quote, d.quote] else [data[k]]) + Doubled(d, []);
  }

  lemma DelimiterToken(data: Text, k: nat, d: Dialect, p: Parser)
    requires GoodDialect(d) && Ready(data, k, d, p) && p.state != EscapedField && k < |data| && data[k] == d.delimiter
    ensures
      var next := Parser(FieldStart, p.row + [p.text], [], false);
      Ready(data, k + 1, d, next) && RowFrom(At(data, k), d, p) == RowFrom(At(data, k + 1), d, next)
  {
    OtherToken(data, k, d);
    OneToken(data, k, d, p, k + 1, Token(DELIMITER, d.delimiter));
    hide Extracted, RowFrom;
  }

  /** Whenever a row is accepted, the bytes from where the parser was are those of writable fields. */
  lemma {:induction false} AcceptedIsWritten(data: Text, k: nat, d: Dialect, p: Parser) returns (fields: seq<Field>)
    requires GoodDialect(d) && Ready(data, k, d, p) && !RowFrom(At(data, k), d, p).0.fail
    ensures var (s, row) := RowFrom(At(data, k), d, p); Explains(data, k, d, p, s, row, fields)
    decreases |data| - k
  {
    hide RowFrom, Explains, Ready, Doubled;
    ReadyIs(data, k, d, p);
    if k == |data| {
      StopsAtEnd(data, d, p);
      fields := [Current(p)];
    } else if data[k] == d.quote && !(k + 1 < |data| && data[k + 1] == d.quote) {
      QuoteToken(data, k, d, p);
      fields := AcceptedIsWritten(data, k + 1, d, p.(state := if p.state == FieldStart then EscapedField else FieldEnd));
      QuoteRead(data, k, d, p, fields);
    } else if data[k] == d.terminator && p.state != EscapedField {
      StopsAtTerminator(data, k, d, p);
      fields := [Current(p)];
    } else if data[k] == d.delimiter && p.state != EscapedField {
      DelimiterToken(data, k, d, p);
      var more := AcceptedIsWritten(data, k + 1, d, Parser(FieldStart, p.row + [p.text], [], false));
      DelimiterRead(data, k, d, p, more);
      fields := [Current(p)] + more;
    } else {
      TextToken(data, k, d, p);
      var n := if data[k] == d.quote then 2 else 1;
      fields := AcceptedIsWritten(data, k + n, d, WithText(p, data[k]));
      TextRead(data, k, n, d, p, data[k], fields);
    }
  }

  lemma ReadyIs(data: Text, k: nat, d: Dialect, p: Parser)
    requires Ready(data, k, d, p)
    ensures k <= |data| && !p.failed && p.state != RecordEnd && (p.state == FieldStart ==> p.text == [])
  {
  }

  // -------- exactly the written rows --------

  /** The bytes from p up to q are a written row and its terminator. */
  ghost predicate IsTerminated(data: Text, p: nat, d: Dialect, q: nat, row: seq<Text>) {
    p < q <= |data| && data[q - 1] == d.terminator &&
    exists fields: seq<Field> ::
      WritableRow(d, fields) && data[p..q - 1] == WrittenFields(d, fields) && TextsOf(fields) == row
  }

  /** The bytes from p on are a written row that ends in a plain field, and they are not nothing at all. */
  ghost predicate IsLast(data: Text, p: nat, d: Dialect, row: seq<Text>) {
    p <= |data| && exists fields: seq<Field> ::
      && WritableRow(d, fields) && data[p..] == WrittenFields(d, fields) && TextsOf(fields) == row
      && fields[|fields| - 1].style == Plain && fields != [Field([], Plain)]
  }

  lemma TerminatedIsRead(data: Text, p: nat, d: Dialect, q: nat, row: seq<Text>)
    requires GoodDialect(d) && IsTerminated(data, p, d, q, row)
    ensures ParsedRow(At(data, p), d) == (At(data, q), row)
  {
    hide RowFrom, WrittenFields;
    var fields :| WritableRow(d, fields) && data[p..q - 1] == WrittenFields(d, fields) && TextsOf(fields) == row;
    RowRead(data, p, d, [], fields);
    assert [] + TextsOf(fields) == row;
  }

  lemma LastIsRead(data: Text, p: nat, d: Dialect, row: seq<Text>)
    requires GoodDialect(d) && IsLast(data, p, d, row)
    ensures ParsedRow(At(data, p), d) == (Source(data, |data|, true, false), row)
  {
    hide RowFrom, WrittenFields;
    var fields: seq<Field> :|
      && WritableRow(d, fields) && data[p..] == WrittenFields(d, fields) && TextsOf(fields) == row
      && fields[|fields| - 1].style == Plain && fields != [Field([], Plain)];
    LastRowRead(data, p, d, [], fields);
    assert [] + TextsOf(fields) == row;
  }

  lemma NothingIsNoRow(data: Text, d: Dialect)
    ensures RowFrom(At(data, |data|), d, START).0.fail
  {
    EndOfStreamToken(data, d, START);
    assert Advance(START, Token(TERMINATOR, EOF_CHARACTER)).failed;
    FailedRow(data, |data|, d, START);
  }

  lemma WhatIsRead(data: Text, p: nat, d: Dialect)
    requires GoodDialect(d) && p <= |data| && !ParsedRow(At(data, p), d).0.fail
    ensures
      var (s, row) := ParsedRow(At(data, p), d);
      if s.eof then s == Source(data, |data|, true, false) && IsLast(data, p, d, row)
      else s == At(data, s.pos) && IsTerminated(data, p, d, s.pos, row)
  {
    hide RowFrom, WrittenFields, Written, Rest;
    var fields := AcceptedIsWritten(data, p, d, START);
    WrittenIs(d, fields);
    assert [] + TextsOf(fields) == TextsOf(fields);
    if fields == [Field([], Plain)] {
      EmptyCellWritten(d);
      if p == |data| {
        NothingIsNoRow(data, d);
      }
    }
  }

  /** A row is read up to position q exactly if the bytes up to there are a written row and its terminator. */
  lemma RowReadExactly(data: Text, p: nat, d: Dialect, q: nat, row: seq<Text>)
    requires GoodDialect(d) && p <= |data|
    ensures ParsedRow(At(data, p), d) == (At(data, q), row) <==> IsTerminated(data, p, d, q, row)
  {
    hide ParsedRow, IsTerminated, IsLast;
    if IsTerminated(data, p, d, q, row) {
      TerminatedIsRead(data, p, d, q, row);
    }
    if !ParsedRow(At(data, p), d).0.fail {
      WhatIsRead(data, p, d);
    }
  }

  /** A row is read up to the end of the stream exactly if all that is left is one that ends in a plain field. */
  lemma LastRowReadExactly(data: Text, p: nat, d: Dialect, row: seq<Text>)
    requires GoodDialect(d) && p <= |data|
    ensures ParsedRow(At(data, p), d) == (Source(data, |data|, true, false), row) <==> IsLast(data, p, d, row)
  {
    hide ParsedRow, IsTerminated, IsLast;
    if IsLast(data, p, d, row) {
      LastIsRead(data, p, d, row);
    }
    if !ParsedRow(At(data, p), d).0.fail {
      WhatIsRead(data, p, d);
    }
  }

  lemma TerminatedWithin(data: Text, p: nat, d: Dialect)
    ensures forall q: nat, row :: IsTerminated(data, p, d, q, row) ==> q <= |data|
  {
  }

  /**
    * What the reader yields from any position of any bytes: the written row that starts there, if there is one, and then
    * what follows it; or the last one; and nothing as soon as the bytes are neither.
    */
  lemma RowsReadExactly(data: Text, p: nat, d: Dialect)
    requires GoodDialect(d) && p <= |data|
    ensures forall q: nat, row :: IsTerminated(data, p, d, q, row) ==> Rows(At(data, p), d) == [row] + Rows(At(data, q), d)
    ensures forall row :: IsLast(data, p, d, row) ==> Rows(At(data, p), d) == [row]
    ensures Rows(At(data, p), d) != [] ==>
      (exists q: nat, row :: IsTerminated(data, p, d, q, row)) || exists row :: IsLast(data, p, d, row)
  {
    TerminatedWithin(data, p, d);
    hide ParsedRow, IsTerminated, IsLast, Rows;
    RowsStep(At(data, p), d);
    NoMoreRows(data, d);
    forall q: nat, row | IsTerminated(data, p, d, q, row)
      ensures Rows(At(data, p), d) == [row] + Rows(At(data, q), d)
    {
      TerminatedIsRead(data, p, d, q, row);
    }
    forall row | IsLast(data, p, d, row) ensures Rows(At(data, p), d) == [row] {
      LastIsRead(data, p, d, row);
    }
    if !ParsedRow(At(data, p), d).0.fail {
      WhatIsRead(data, p, d);
    }
  }
}
