/** Reading CSV (io/src/CSVStreams.cc): a tokenizer over an input stream with one character of lookahead, and a row
    parser over its tokens. */
module CsvReading {

  type Byte = x: int | 0 <= x < 256 witness 0

  datatype Dialect = Dialect(delimiter: Byte, terminator: Byte, quote: Byte)

  /** An input stream: its bytes, how many were read, and its two error flags. */
  datatype Source = Source(data: seq<Byte>, pos: nat, eof: bool, fail: bool)

  datatype Kind = TEXT | QUOTE | DELIMITER | TERMINATOR

  datatype Token = Token(kind: Kind, character: Byte)

  // The value of EOF, and what it becomes as a character.
  const EOF := -1
  const EOF_CHARACTER: Byte := 255

  /** A char is signed; peek returns the byte itself. */
  function Signed(c: Byte): int {
    if c < 128 then c else c - 256
  }

  predicate InBounds(s: Source) {
    s.pos <= |s.data|
  }

  predicate Good(s: Source) {
    !s.eof && !s.fail
  }

  // -------- the stream --------

  /** A stream that is not good fails; at its end it sets eof. */
  function Peeked(s: Source): (Source, int)
    requires InBounds(s)
  {
    if !Good(s) then (s.(fail := true), EOF)
    else if s.pos == |s.data| then (s.(eof := true), EOF)
    else (s, s.data[s.pos])
  }

  function AfterGet(s: Source): Source
    requires InBounds(s)
  {
    if !Good(s) then s.(fail := true)
    else if s.pos == |s.data| then s.(eof := true, fail := true)
    else s.(pos := s.pos + 1)
  }

  function AfterIgnore(s: Source): Source
    requires InBounds(s)
  {
    if !Good(s) then s.(fail := true)
    else if s.pos == |s.data| then s.(eof := true)
    else s.(pos := s.pos + 1)
  }

  // -------- tokens --------

  /** The stream after a token and the token. If the stream fails there is none. */
  function Extracted(s: Source, d: Dialect): (r: (Source, Token))
    requires InBounds(s)
    ensures InBounds(r.0) && r.0.data == s.data && s.pos <= r.0.pos
    ensures !r.0.fail ==> !s.eof && !s.fail && (s.pos < r.0.pos || r.0.eof)
  {
    var none := Token(TERMINATOR, EOF_CHARACTER);
    var (s1, _) := Peeked(s);
    if !s1.fail && s1.eof then (s1, none)
    else
      var s2 := AfterGet(s1);
      if s2.fail then (s2, none)
      else
        var character := s1.data[s1.pos];
        if character == d.terminator then (s2, Token(TERMINATOR, character))
        else if character == d.delimiter then (s2, Token(DELIMITER, character))
        else if character == d.quote then
          var (s3, next) := Peeked(s2);
          if next == Signed(d.quote) then (AfterIgnore(s3), Token(TEXT, character))
          else (s3, Token(QUOTE, character))
        else (s2, Token(TEXT, character))
  }

  // -------- rows --------

  datatype State = FieldStart | EscapedField | NonescapedField | FieldEnd | RecordEnd

  datatype Parser = Parser(state: State, row: seq<seq<Byte>>, text: seq<Byte>, failed: bool)

  const START := Parser(FieldStart, [], [], false)

  function AtFieldEnd(p: Parser, t: Token): Parser {
    if t.kind == DELIMITER then Parser(FieldStart, p.row + [p.text], [], false)
    else if t.kind == TERMINATOR && (t.character != EOF_CHARACTER || p.row != [] || p.text != []) then
      Parser(RecordEnd, p.row + [p.text], [], false)
    else Parser(FieldEnd, p.row, [], true)
  }

  function AtNonescaped(p: Parser, t: Token): Parser {
    if t.kind == TEXT then Parser(NonescapedField, p.row, p.text + [t.character], false)
    else AtFieldEnd(p, t)
  }

  function Advance(p: Parser, t: Token): Parser
    requires p.state != RecordEnd
  {
    match p.state
    case FieldStart => if t.kind == QUOTE then p.(state := EscapedField) else AtNonescaped(p, t)
    case NonescapedField => AtNonescaped(p, t)
    case FieldEnd => AtFieldEnd(p, t)
    case EscapedField =>
      if t.kind == QUOTE then p.(state := FieldEnd)
      else if t.kind != TERMINATOR || t.character != EOF_CHARACTER then p.(text := p.text + [t.character])
      else p.(failed := true)
  }

  /** The loop of ParseCSVRow: the stream after it and the row. */
  function RowFrom(s: Source, d: Dialect, p: Parser): (r: (Source, seq<seq<Byte>>))
    requires InBounds(s)
    ensures InBounds(r.0) && r.0.data == s.data && s.pos <= r.0.pos
    ensures !r.0.fail ==> !s.fail && (p.state == RecordEnd || (!s.eof && (s.pos < r.0.pos || r.0.eof)))
    decreases |s.data| - s.pos, if s.eof then 0 else 1, if s.fail then 0 else 1
  {
    if p.state == RecordEnd then (s, p.row)
    else
      var (s1, t) := Extracted(s, d);
      if s1.fail then (s1, p.row)
      else
        var p1 := Advance(p, t);
        RowFrom(if p1.failed then s1.(fail := true) else s1, d, p1)
  }

  function ParsedRow(s: Source, d: Dialect): (r: (Source, seq<seq<Byte>>))
    requires InBounds(s)
    ensures InBounds(r.0) && r.0.data == s.data && s.pos <= r.0.pos
    ensures !r.0.fail ==> !s.eof && (s.pos < r.0.pos || r.0.eof)
  {
    RowFrom(s, d, START)
  }

  /** All rows that an iterator yields until it becomes an end iterator. */
  function Rows(s: Source, d: Dialect): seq<seq<seq<Byte>>>
    requires InBounds(s)
    decreases |s.data| - s.pos, if s.eof then 0 else 1
  {
    var (s1, row) := ParsedRow(s, d);
    if s1.fail then [] else [row] + Rows(s1, d)
  }

  function Open(data: seq<Byte>): Source {
    Source(data, 0, false, false)
  }

  // -------- the code --------

  class Stream {
    const data: seq<Byte>
    var pos: nat
    var eof: bool
    var fail: bool

    constructor (data: seq<Byte>)
      ensures AsSource() == Open(data)
    {
      this.data := data;
      pos, eof, fail := 0, false, false;
    }

    ghost function AsSource(): Source
      reads this
    {
      Source(data, pos, eof, fail)
    }

    method Peek() returns (c: int)
      requires InBounds(AsSource())
      modifies this
      ensures (AsSource(), c) == Peeked(old(AsSource()))
    {
      if eof || fail {
        fail := true;
        return EOF;
      }
      if pos == |data| {
        eof := true;
        return EOF;
      }
      return data[pos];
    }

    method Get() returns (c: Byte)
      requires InBounds(AsSource())
      modifies this
      ensures AsSource() == AfterGet(old(AsSource()))
      ensures !fail ==> c == data[old(pos)]
    {
      c := 0;
      if eof || fail {
        fail := true;
      } else if pos == |data| {
        eof, fail := true, true;
      } else {
        c := data[pos];
        pos := pos + 1;
      }
    }

    method Ignore()
      requires InBounds(AsSource())
      modifies this
      ensures AsSource() == AfterIgnore(old(AsSource()))
    {
      if eof || fail {
        fail := true;
      } else if pos == |data| {
        eof := true;
      } else {
        pos := pos + 1;
      }
    }

    method ExtractCSVToken(d: Dialect) returns (token: Token)
      requires InBounds(AsSource())
      modifies this
      ensures AsSource() == Extracted(old(AsSource()), d).0
      ensures !fail ==> token == Extracted(old(AsSource()), d).1
    {
      token := Token(TERMINATOR, EOF_CHARACTER);
      var _ := Peek();
      if !fail && eof {
        return;
      }
      var character := Get();
      if !fail {
        if character == d.terminator {
          token := Token(TERMINATOR, character);
        } else if character == d.delimiter {
          token := Token(DELIMITER, character);
        } else if character == d.quote {
          var next := Peek();
          if next == Signed(d.quote) {
            token := Token(TEXT, character);
            Ignore();
          } else {
            token := Token(QUOTE, character);
          }
        } else {
          token := Token(TEXT, character);
        }
      }
    }

    method ParseCSVRow(d: Dialect) returns (row: seq<seq<Byte>>)
      requires InBounds(AsSource())
      modifies this
      ensures (AsSource(), row) == ParsedRow(old(AsSource()), d)
    {
      var text: seq<Byte> := [];
      var state := FieldStart;
      row := [];
      ghost var failed := false;
      while state != RecordEnd
        invariant InBounds(AsSource())
        invariant !fail ==> !failed
        invariant RowFrom(AsSource(), d, Parser(state, row, text, failed)) == ParsedRow(old(AsSource()), d)
        decreases |data| - pos, if eof then 0 else 1, if fail then 0 else 1
      {
        var token := ExtractCSVToken(d);
        if fail {
          break;
        }
        var invalid: bool;
        state, row, text, invalid := Consume(state, row, text, token);
        if invalid {
          fail := true;
        }
        failed := invalid;
      }
    }
  }

  /** The switch of ParseCSVRow. */
  method Consume(state0: State, row0: seq<seq<Byte>>, text0: seq<Byte>, token: Token)
    returns (state: State, row: seq<seq<Byte>>, text: seq<Byte>, invalid: bool)
    requires state0 != RecordEnd
    ensures Parser(state, row, text, invalid) == Advance(Parser(state0, row0, text0, false), token)
  {
    state, row, text, invalid := state0, row0, text0, false;
    if state == EscapedField {
      if token.kind == QUOTE {
        state := FieldEnd;
      } else if token.kind != TERMINATOR || token.character != EOF_CHARACTER {
        text := text + [token.character];
      } else {
        invalid := true;
      }
      return;
    }
    if state == FieldStart {
      if token.kind == QUOTE {
        state := EscapedField;
        return;
      }
      state := NonescapedField;
    }
    if state == NonescapedField {
      if token.kind == TEXT {
        text := text + [token.character];
        return;
      }
      state := FieldEnd;
    }
    if token.kind == DELIMITER {
      row := row + [text];
      state := FieldStart;
    } else if token.kind == TERMINATOR && (token.character != EOF_CHARACTER || row != [] || text != []) {
      row := row + [text];
      state := RecordEnd;
    } else {
      invalid := true;
    }
    text := [];
  }

  class RowIterator {
    var stream: Stream?
    var dialect: Dialect
    var row: seq<seq<Byte>>

    constructor (stream: Stream, dialect: Dialect)
      requires InBounds(stream.AsSource())
      modifies stream
      ensures this.dialect == dialect
      ensures var (after, row) := ParsedRow(old(stream.AsSource()), dialect);
        stream.AsSource() == after && this.stream == (if after.fail then null else stream) && this.row == row
    {
      this.stream, this.dialect, row := stream, dialect, [];
      new;
      Next();
    }

    method Next()
      requires stream != null ==> InBounds(stream.AsSource())
      modifies this, stream
      ensures dialect == old(dialect)
      ensures old(stream) == null ==> stream == null && row == old(row)
      ensures old(stream) != null ==>
        var (after, next) := ParsedRow(old(stream.AsSource()), dialect);
        old(stream).AsSource() == after && stream == (if after.fail then null else old(stream)) && row == next
    {
      if stream != null {
        row := stream.ParseCSVRow(dialect);
        if stream.fail {
          stream := null;
        }
      }
    }
  }

  /** The iterator holds the row read from the source s, and its stream is what is left. */
  ghost predicate Yields(it: RowIterator, stream: Stream, data: seq<Byte>, d: Dialect, s: Source)
    requires InBounds(s)
    reads it, stream
  {
    && s.data == data && it.dialect == d
    && stream.AsSource() == ParsedRow(s, d).0 && it.row == ParsedRow(s, d).1
    && it.stream == if stream.fail then null else stream
  }

  /** An iterator over a fresh stream yields the rows of its data. */
  method ReadAll(data: seq<Byte>, dialect: Dialect) returns (rows: seq<seq<seq<Byte>>>)
    ensures rows == Rows(Open(data), dialect)
  {
    hide Rows, ParsedRow;
    var stream := new Stream(data);
    var it := new RowIterator(stream, dialect);
    rows := [];
    ghost var s := Open(data);
    while it.stream != null
      invariant it.stream != null ==> it.stream == stream
      invariant InBounds(s) && Yields(it, stream, data, dialect, s)
      invariant rows + Rows(s, dialect) == Rows(Open(data), dialect)
      decreases |data| - s.pos, if s.eof then 0 else 1, it.stream != null
    {
      RowsStep(s, dialect);
      rows := rows + [it.row];
      s := stream.AsSource();
      it.Next();
    }
    RowsStep(s, dialect);
  }

  lemma RowsStep(s: Source, d: Dialect)
    requires InBounds(s)
    ensures var (after, row) := ParsedRow(s, d);
      Rows(s, d) == if after.fail then [] else [row] + Rows(after, d)
  {
    hide ParsedRow;
  }
}
