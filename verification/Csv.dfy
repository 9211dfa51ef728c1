/** The CSV field printer and the line splitter that reads it back. */
module Csv {
  function Doubled(value: string): string {
    if value == [] then []
    else (if value[0] == '"' then ['"', '"'] else [value[0]]) + Doubled(value[1..])
  }

  function Escape(value: string): string {
    var escaped := Doubled(value);
    if ',' in escaped || '"' in escaped || '\n' in escaped then ['"'] + escaped + ['"'] else escaped
  }

  /** The printer's line: escaped fields joined by commas. */
  function JoinEscaped(fields: seq<string>): string {
    if fields == [] then []
    else if |fields| == 1 then Escape(fields[0])
    else Escape(fields[0]) + [','] + JoinEscaped(fields[1..])
  }

  /** The columns of `rest` when `current` has been read of the first one. */
  function ColumnsFrom(rest: string, current: string, inQuotes: bool): seq<string>
    decreases |rest|
  {
    if rest == [] then [current]
    else if rest[0] == '"' then
      if inQuotes && |rest| > 1 && rest[1] == '"' then ColumnsFrom(rest[2..], current + ['"'], inQuotes)
      else ColumnsFrom(rest[1..], current, !inQuotes)
    else if rest[0] == ',' && !inQuotes then [current] + ColumnsFrom(rest[1..], [], inQuotes)
    else ColumnsFrom(rest[1..], current + [rest[0]], inQuotes)
  }

  method SplitSimpleCsv(line: string) returns (columns: seq<string>)
    ensures columns == ColumnsFrom(line, [], false)
  {
    columns := [];
    var current := [];
    var inQuotes := false;
    var i := 0;
    while i < |line|
      invariant 0 <= i <= |line|
      invariant columns + ColumnsFrom(line[i..], current, inQuotes) == ColumnsFrom(line, [], false)
    {
      var ch := line[i];
      assert line[i..][0] == ch && line[i..][1..] == line[i + 1..];
      i := i + 1;
      if ch == '"' && inQuotes && i < |line| && line[i] == '"' {
        assert line[i - 1..][1] == '"' && line[i - 1..][2..] == line[i + 1..];
        current := current + ['"'];
        i := i + 1;
      } else if ch == '"' {
        inQuotes := !inQuotes;
      } else if ch == ',' && !inQuotes {
        columns := columns + [current];
        current := [];
      } else {
        current := current + [ch];
      }
    }
    columns := columns + [current];
  }

  lemma {:induction false} PlainScan(value: string, rest: string, current: string)
    requires '"' !in value && ',' !in value
    ensures ColumnsFrom(value + rest, current, false) == ColumnsFrom(rest, current + value, false)
    decreases |value|
  {
    if value == [] {
      assert value + rest == rest && current + value == current;
    } else {
      assert (value + rest)[1..] == value[1..] + rest;
      assert current + [value[0]] + value[1..] == current + value;
      PlainScan(value[1..], rest, current + [value[0]]);
    }
  }

  lemma {:induction false} QuotedScan(value: string, rest: string, current: string)
    requires rest == [] || rest[0] != '"'
    ensures ColumnsFrom(Doubled(value) + ['"'] + rest, current, true) == ColumnsFrom(rest, current + value, false)
    decreases |value|
  {
    var text := Doubled(value) + ['"'] + rest;
    if value == [] {
      assert text[0] == '"' && text[1..] == rest && current + value == current;
    } else {
      var tail := Doubled(value[1..]) + ['"'] + rest;
      if value[0] == '"' {
        assert text[0] == '"' && text[1] == '"' && text[2..] == tail;
      } else {
        assert text[0] == value[0] && text[1..] == tail;
      }
      assert current + [value[0]] + value[1..] == current + value;
      QuotedScan(value[1..], rest, current + [value[0]]);
    }
  }

  lemma {:induction false} DoubledPlain(value: string)
    ensures '"' in Doubled(value) <==> '"' in value
    ensures ',' in Doubled(value) <==> ',' in value
    ensures '"' !in value ==> Doubled(value) == value
  {
    if value != [] {
      DoubledPlain(value[1..]);
      assert value == [value[0]] + value[1..];
    }
  }

  lemma QuotedField(value: string, rest: string)
    requires rest == [] || rest[0] == ','
    ensures ColumnsFrom(['"'] + Doubled(value) + ['"'] + rest, [], false) == ColumnsFrom(rest, value, false)
  {
    var text := ['"'] + Doubled(value) + ['"'] + rest;
    assert text[0] == '"' && text[1..] == Doubled(value) + ['"'] + rest;
    QuotedScan(value, rest, []);
    assert [] + value == value;
  }

  /** Reading an escaped field consumes exactly it and yields its value. */
  lemma FieldScan(value: string, rest: string)
    requires rest == [] || rest[0] == ','
    ensures ColumnsFrom(Escape(value) + rest, [], false) == ColumnsFrom(rest, value, false)
  {
    DoubledPlain(value);
    var escaped := Doubled(value);
    if ',' in escaped || '"' in escaped || '\n' in escaped {
      QuotedField(value, rest);
      assert Escape(value) + rest == ['"'] + Doubled(value) + ['"'] + rest;
    } else {
      PlainScan(value, rest, []);
      assert [] + value == value;
    }
  }

  lemma {:induction false} FieldsScan(fields: seq<string>)
    requires fields != []
    ensures ColumnsFrom(JoinEscaped(fields), [], false) == fields
    decreases |fields|
  {
    var first := Escape(fields[0]);
    if |fields| == 1 {
      assert first + [] == first;
      FieldScan(fields[0], []);
    } else {
      var rest := [','] + JoinEscaped(fields[1..]);
      assert first + [','] + JoinEscaped(fields[1..]) == first + rest;
      FieldScan(fields[0], rest);
      assert rest[1..] == JoinEscaped(fields[1..]);
      FieldsScan(fields[1..]);
      assert fields == [fields[0]] + fields[1..];
    }
  }

  /** Splitting the printed line returns the fields exactly when there is one: the
      empty list prints like a single empty field. */
  lemma CsvRoundTrip(fields: seq<string>)
    ensures ColumnsFrom(JoinEscaped(fields), [], false) == fields <==> fields != []
    ensures fields == [] ==> ColumnsFrom(JoinEscaped(fields), [], false) == [""]
  {
    if fields != [] {
      FieldsScan(fields);
    }
  }

  /** A field is printed bare exactly when it holds no comma, quote or line feed; then it is
      printed as it is, and otherwise between quotes. */
  lemma QuotedExactlyWhenNeeded(value: string)
    ensures ',' !in value && '"' !in value && '\n' !in value ==> Escape(value) == value
    ensures ',' in value || '"' in value || '\n' in value ==>
      Escape(value) == ['"'] + Doubled(value) + ['"']
    ensures Escape(value) != [] && Escape(value)[0] == '"' <==> ',' in value || '"' in value || '\n' in value
  {
    DoubledPlain(value);
    DoubledKeepsOthers(value, '\n');
  }

  lemma {:induction false} DoubledKeepsOthers(value: string, c: char)
    requires c != '"'
    ensures c in Doubled(value) <==> c in value
  {
    if value != [] {
      DoubledKeepsOthers(value[1..], c);
    }
  }
}
