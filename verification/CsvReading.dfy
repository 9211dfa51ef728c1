/** What the CSV splitter makes of any line, well-formed or not, character by character. */
module CsvReading {
  import opened Csv

  /** How many quotes there are before position `n`. */
  function Quotes(line: string, n: nat): nat
    requires n <= |line|
  {
    if n == 0 then 0 else Quotes(line, n - 1) + (if line[n - 1] == '"' then 1 else 0)
  }

  predicate Quoted(line: string, n: nat)
    requires n <= |line|
  {
    Quotes(line, n) % 2 == 1
  }

  /** A comma separates after an even number of quotes. */
  predicate Separates(line: string, n: nat)
    requires n < |line|
  {
    line[n] == ',' && !Quoted(line, n)
  }

  /** Every other character is kept, except quotes: of those only one that follows another is
      kept, when that other one stands after an odd number of quotes. */
  predicate IsKept(line: string, n: nat)
    requires n < |line|
  {
    if line[n] == '"' then n > 0 && line[n - 1] == '"' && Quoted(line, n - 1) else !Separates(line, n)
  }

  /** The columns of the first `n` characters. */
  function Columns(line: string, n: nat): (columns: seq<string>)
    requires n <= |line|
    ensures columns != []
  {
    if n == 0 then [[]]
    else
      var before := Columns(line, n - 1);
      if Separates(line, n - 1) then before + [[]]
      else if IsKept(line, n - 1) then before[|before| - 1 := before[|before| - 1] + [line[n - 1]]]
      else before
  }

  function Last(columns: seq<string>): string
    requires columns != []
  {
    columns[|columns| - 1]
  }

  /** What is read so far, and then the rest from position `n`. */
  function Resumed(line: string, n: nat): seq<string>
    requires n <= |line|
  {
    var before := Columns(line, n);
    before[..|before| - 1] + ColumnsFrom(line[n..], Last(before), Quoted(line, n))
  }

  lemma OneCharacter(line: string, n: nat)
    requires n < |line|
    requires line[n] == '"' ==> !IsKept(line, n) && !(Quoted(line, n) && n + 1 < |line| && line[n + 1] == '"')
    ensures Resumed(line, n) == Resumed(line, n + 1)
  {
    var rest, before := line[n..], Columns(line, n);
    assert rest[0] == line[n] && rest[1..] == line[n + 1..];
    if |rest| > 1 {
      assert rest[1] == line[n + 1];
    }
    if Separates(line, n) {
      assert (before + [[]])[..|before|] == before[..|before| - 1] + [Last(before)];
    } else if line[n] != '"' {
      var longer := before[|before| - 1 := Last(before) + [line[n]]];
      assert longer[..|before| - 1] == before[..|before| - 1];
    }
  }

  lemma QuotePair(line: string, n: nat)
    requires n + 1 < |line| && line[n] == '"' && line[n + 1] == '"' && Quoted(line, n)
    ensures Resumed(line, n) == Resumed(line, n + 2)
  {
    var rest, before := line[n..], Columns(line, n);
    assert rest[0] == '"' && rest[1] == '"' && rest[2..] == line[n + 2..];
    assert Quotes(line, n + 1) == Quotes(line, n) + 1 && Quotes(line, n + 2) == Quotes(line, n) + 2;
    assert n == 0 || line[n - 1] != '"' || !Quoted(line, n - 1) by {
      assert n > 0 && line[n - 1] == '"' ==> Quotes(line, n) == Quotes(line, n - 1) + 1;
    }
    assert Columns(line, n + 1) == before;
    var longer := before[|before| - 1 := Last(before) + ['"']];
    assert Columns(line, n + 2) == longer && longer[..|before| - 1] == before[..|before| - 1];
  }

  lemma {:induction false} ReadsOn(line: string, n: nat)
    requires n <= |line|
    requires n > 0 && n < |line| && line[n - 1] == '"' && line[n] == '"' ==> !Quoted(line, n - 1)
    ensures Resumed(line, n) == Columns(line, |line|)
    decreases |line| - n
  {
    if n == |line| {
      assert Columns(line, n)[..|Columns(line, n)| - 1] + [Last(Columns(line, n))] == Columns(line, n);
    } else if line[n] == '"' && Quoted(line, n) && n + 1 < |line| && line[n + 1] == '"' {
      QuotePair(line, n);
      assert Quotes(line, n + 1) == Quotes(line, n) + 1;
      ReadsOn(line, n + 2);
    } else {
      OneCharacter(line, n);
      ReadsOn(line, n + 1);
    }
  }

  lemma ResumedAtStart(line: string)
    ensures Resumed(line, 0) == ColumnsFrom(line, [], false)
  {
    var before := Columns(line, 0);
    assert before == [[]] && !Quoted(line, 0);
    assert line[0..] == line;
    var columns := ColumnsFrom(line, [], false);
    assert before[..0] + columns == columns;
  }

  /** Splitting any line gives those columns. */
  lemma SplitMeans(line: string)
    ensures ColumnsFrom(line, [], false) == Columns(line, |line|)
  {
    ResumedAtStart(line);
    ReadsOn(line, 0);
  }
}
