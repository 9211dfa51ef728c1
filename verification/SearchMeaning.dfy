/** What the matches of a project search say about the text: where they are, what their
    preview shows, and that none is missing. */
module SearchMeaning {
  import opened Wrappers
  import opened Machine
  import opened Text
  import opened ProjectSearch

  /** The preview is the whole line when it has at most 220 characters. Of a longer line it is
      a window of 220 characters, or of the whole match when that is longer, with an ellipsis
      at each end that was cut. The window contains the match and has it in its middle, unless
      an end of the line is in the way. */
  predicate Previews(preview: string, line: string, start: nat, end: nat)
    requires start <= end <= |line|
  {
    if |line| <= 220 then preview == line
    else exists from :: 0 <= from <= start && ShowsFrom(preview, line, start, end, from)
  }

  predicate ShowsFrom(preview: string, line: string, start: nat, end: nat, from: nat)
    requires from <= start <= end <= |line|
  {
    var size := if end - start > 220 then end - start else 220;
    var margin := if end - start > 220 then 0 else (220 - (end - start)) / 2;
    && from + size <= |line| && end <= from + size
    && preview == (if from > 0 then "\U{2026}" else "") + line[from..from + size]
                  + (if from + size < |line| then "\U{2026}" else "")
    && (start - from < margin ==> from == 0)
    && (start - from > margin ==> from + size == |line|)
  }

  lemma LongPreviewShows(line: string, start: nat, end: nat)
    requires start <= end <= |line| && |line| > 220
    ensures Previews(PreviewLine(line, start, end), line, start, end)
  {
    WindowHoldsMatch(|line|, start, end);
    var (from, to) := Window(|line|, start, end);
    assert ShowsFrom(PreviewLine(line, start, end), line, start, end, from);
  }

  predicate HasAt(preview: string, k: nat, text: string) {
    k + |text| <= |preview| && preview[k..k + |text|] == text
  }

  /** In every case the preview contains the matched text. */
  lemma PreviewContainsMatch(preview: string, line: string, start: nat, end: nat)
    requires start <= end <= |line| && Previews(preview, line, start, end)
    ensures exists k: nat :: HasAt(preview, k, line[start..end])
  {
    if |line| <= 220 {
      assert HasAt(preview, start, line[start..end]);
    } else {
      var from :| 0 <= from <= start && ShowsFrom(preview, line, start, end, from);
      var k := WindowHasMatch(preview, line, start, end, from);
    }
  }

  lemma HasInMiddle(lead: string, middle: string, tail: string, a: nat, b: nat)
    requires a <= b <= |middle|
    ensures HasAt(lead + middle + tail, |lead| + a, middle[a..b])
  {
    var shown := lead + middle + tail;
    assert forall k :: 0 <= k < |middle| ==> shown[|lead| + k] == middle[k];
  }

  lemma SliceOfSlice(line: string, from: nat, to: nat, start: nat, end: nat)
    requires from <= start <= end <= to <= |line|
    ensures line[from..to][start - from..end - from] == line[start..end]
  {
    var a, b := line[from..to][start - from..end - from], line[start..end];
    assert |a| == |b|;
    forall k | 0 <= k < |b|
      ensures a[k] == b[k]
    {
      assert a[k] == line[from..to][start - from + k];
    }
  }

  lemma MatchIsPlaced(preview: string, lead: string, line: string, from: nat, to: nat, tail: string,
                      start: nat, end: nat)
    requires from <= start <= end <= to <= |line| && preview == lead + line[from..to] + tail
    ensures HasAt(preview, |lead| + start - from, line[start..end])
  {
    SliceOfSlice(line, from, to, start, end);
    HasInMiddle(lead, line[from..to], tail, start - from, end - from);
  }

  lemma WindowHasMatch(preview: string, line: string, start: nat, end: nat, from: nat) returns (k: nat)
    requires from <= start <= end <= |line| && ShowsFrom(preview, line, start, end, from)
    ensures HasAt(preview, k, line[start..end])
  {
    var to := from + if end - start > 220 then end - start else 220;
    var lead := if from > 0 then "\U{2026}" else "";
    var tail := if to < |line| then "\U{2026}" else "";
    k := |lead| + start - from;
    MatchIsPlaced(preview, lead, line, from, to, tail, start, end);
  }

  /** The match is in line `m.line` of the text, its columns delimit text equal to the query
      under the folding, and its preview shows that text. */
  predicate IsMatch(path: string, lines: seq<string>, q: Query, m: Match) {
    && m.path == path
    && 1 <= m.line <= |lines|
    && var line := lines[m.line - 1];
    && 1 <= m.column <= m.endColumn <= |line| + 1
    && m.endColumn - m.column == |q.text|
    && (forall k :: 0 <= k < |q.text| ==> q.fold(line[m.column - 1 + k]) == q.fold(q.text[k]))
    && Previews(m.preview, line, m.column - 1, m.endColumn - 1)
  }

  /** A match covers position `k` of line `number`. */
  predicate CoversAt(ms: seq<Match>, number: nat, k: nat) {
    exists i :: 0 <= i < |ms| && ms[i].line == number && ms[i].column <= k + 1 < ms[i].endColumn
  }

  lemma PreviewFits(line: string, start: nat, end: nat)
    requires start <= end <= |line|
    ensures Previews(PreviewLine(line, start, end), line, start, end)
  {
    if |line| > 220 {
      LongPreviewShows(line, start, end);
    }
  }

  lemma OccurrenceIsMatch(path: string, lines: seq<string>, n: nat, q: Query, start: nat)
    requires n < |lines| && OccursAt(lines[n], q, start)
    ensures IsMatch(path, lines, q, MatchAt(path, n + 1, lines[n], start, |q.text|))
  {
    var line, m := lines[n], MatchAt(path, n + 1, lines[n], start, |q.text|);
    PreviewFits(line, start, start + |q.text|);
    forall k | 0 <= k < |q.text|
      ensures q.fold(line[m.column - 1 + k]) == q.fold(q.text[k])
    {
      assert line[start + k] == line[m.column - 1 + k];
    }
  }

  lemma LineMatchesAre(path: string, lines: seq<string>, n: nat, q: Query, i: nat)
    requires n < |lines| && q.text != [] && i < |LineMatches(path, n + 1, lines[n], q)|
    ensures IsMatch(path, lines, q, LineMatches(path, n + 1, lines[n], q)[i])
  {
    var start := FindFrom(lines[n], q, 0)[i];
    OccurrenceIsMatch(path, lines, n, q, start);
    assert LineMatches(path, n + 1, lines[n], q)[i] == MatchAt(path, n + 1, lines[n], start, |q.text|);
  }

  lemma {:induction false} JoinedMatchesAre(path: string, lines: seq<string>, q: Query, n: nat, i: nat)
    requires n <= |lines| && q.text != [] && i < |Joined(LinePieces(path, lines, q), n)|
    ensures IsMatch(path, lines, q, Joined(LinePieces(path, lines, q), n)[i])
  {
    var pieces := LinePieces(path, lines, q);
    if n > 0 {
      var before := Joined(pieces, n - 1);
      if i < |before| {
        JoinedMatchesAre(path, lines, q, n - 1, i);
        assert Joined(pieces, n)[i] == before[i];
      } else {
        LineMatchesAre(path, lines, n - 1, q, i - |before|);
        assert Joined(pieces, n)[i] == pieces[n - 1][i - |before|];
      }
    }
  }

  lemma LineIsCovered(path: string, lines: seq<string>, n: nat, q: Query, k: nat)
    requires n < |lines| && q.text != [] && OccursAt(lines[n], q, k)
    ensures CoversAt(LineMatches(path, n + 1, lines[n], q), n + 1, k)
  {
    FindsEveryOccurrence(lines[n], q, 0, k);
    var found := FindFrom(lines[n], q, 0);
    var i :| 0 <= i < |found| && found[i] <= k < found[i] + |q.text|;
    var m := LineMatches(path, n + 1, lines[n], q)[i];
    assert m.line == n + 1 && m.column <= k + 1 < m.endColumn;
  }

  lemma CoveredInFront(a: seq<Match>, b: seq<Match>, number: nat, k: nat)
    requires CoversAt(a, number, k)
    ensures CoversAt(a + b, number, k)
  {
    var i :| 0 <= i < |a| && a[i].line == number && a[i].column <= k + 1 < a[i].endColumn;
    assert (a + b)[i] == a[i];
  }

  lemma CoveredBehind(a: seq<Match>, b: seq<Match>, number: nat, k: nat)
    requires CoversAt(b, number, k)
    ensures CoversAt(a + b, number, k)
  {
    var i :| 0 <= i < |b| && b[i].line == number && b[i].column <= k + 1 < b[i].endColumn;
    assert (a + b)[|a| + i] == b[i];
  }

  lemma {:induction false} JoinedIsCovered(path: string, lines: seq<string>, q: Query, n: nat, i: nat, k: nat)
    requires i < n <= |lines| && q.text != [] && OccursAt(lines[i], q, k)
    ensures CoversAt(Joined(LinePieces(path, lines, q), n), i + 1, k)
  {
    var pieces := LinePieces(path, lines, q);
    if i == n - 1 {
      LineIsCovered(path, lines, i, q, k);
      CoveredBehind(Joined(pieces, n - 1), pieces[n - 1], i + 1, k);
    } else {
      JoinedIsCovered(path, lines, q, n - 1, i, k);
      CoveredInFront(Joined(pieces, n - 1), pieces[n - 1], i + 1, k);
    }
  }

  /** Everything reported for a text is a match in it, with the right line, columns and
      preview, whatever the length of the line. */
  lemma TextMatchesAre(path: string, content: string, q: Query, i: nat)
    requires q.text != [] && i < |TextMatches(path, content, q)|
    ensures IsMatch(path, Lines(content), q, TextMatches(path, content, q)[i])
  {
    JoinedMatchesAre(path, Lines(content), q, |Lines(content)|, i);
  }

  /** Wherever the query occurs in a line of the text, a reported match covers its start. */
  lemma TextIsCovered(path: string, content: string, q: Query, n: nat, k: nat)
    requires q.text != [] && n < |Lines(content)| && k + |q.text| <= |Lines(content)[n]|
    requires forall i :: 0 <= i < |q.text| ==> q.fold(Lines(content)[n][k + i]) == q.fold(q.text[i])
    ensures CoversAt(TextMatches(path, content, q), n + 1, k)
  {
    JoinedIsCovered(path, Lines(content), q, |Lines(content)|, n, k);
  }

  // ----- which files are searched

  /** The file is open to searching and was read. */
  predicate Searched(file: File, text: Option<GuardedText>) {
    !file.blocked && !file.deleted && file.bytes <= 524288 && text.Some?
  }

  lemma {:induction false} InJoined(pieces: seq<seq<Match>>, n: nat, m: Match)
    requires n <= |pieces|
    ensures m in Joined(pieces, n) <==> exists i :: 0 <= i < n && m in pieces[i]
  {
    if n > 0 {
      InJoined(pieces, n - 1, m);
    }
  }

  /** The full list holds the matches of the searched files and nothing else. */
  lemma AllMatchesAre(files: seq<File>, texts: seq<Option<GuardedText>>, q: Query, m: Match)
    requires |files| == |texts| && q.text != []
    ensures m in AllMatches(files, texts, q) <==>
      exists i :: 0 <= i < |files| && Searched(files[i], texts[i])
                  && m in TextMatches(files[i].path, texts[i].value.content, q)
  {
    var pieces := FilePieces(files, texts, q);
    InJoined(pieces, |files|, m);
    forall i | 0 <= i < |files|
      ensures m in pieces[i] <==>
        Searched(files[i], texts[i]) && m in TextMatches(files[i].path, texts[i].value.content, q)
    {
    }
  }

  /** Every match of a search is one in a searched file of the workspace. */
  lemma ReportedMatchesAre(files: seq<File>, texts: seq<Option<GuardedText>>, q: Query, m: Match)
    requires |files| == |texts| && q.text != [] && m in AllMatches(files, texts, q)
    ensures exists i :: 0 <= i < |files| && Searched(files[i], texts[i])
                        && IsMatch(files[i].path, Lines(texts[i].value.content), q, m)
  {
    AllMatchesAre(files, texts, q, m);
    var i :| 0 <= i < |files| && Searched(files[i], texts[i])
      && m in TextMatches(files[i].path, texts[i].value.content, q);
    var k :| 0 <= k < |TextMatches(files[i].path, texts[i].value.content, q)|
      && TextMatches(files[i].path, texts[i].value.content, q)[k] == m;
    TextMatchesAre(files[i].path, texts[i].value.content, q, k);
  }

  // ----- what the lines of a text are

  /** The text is the lines, each but perhaps the last ended by a line feed, before which one
      carriage return is dropped; there is no empty last line. */
  predicate Splits(text: string, lines: seq<string>)
    decreases |lines|
  {
    if lines == [] then text == ""
    else
      var line := lines[0];
      && '\n' !in line
      && ((|lines| == 1 && text == line && line != "")
          || (line + "\n" <= text && !EndsInReturn(line) && Splits(text[|line| + 1..], lines[1..]))
          || (line + "\r\n" <= text && Splits(text[|line| + 2..], lines[1..])))
  }

  predicate EndsInReturn(line: string) {
    line != "" && line[|line| - 1] == '\r'
  }

  lemma LineEnds(text: string, end: nat)
    requires end < |text| && text[end] == '\n' && '\n' !in text[..end]
    ensures var line := StripCarriageReturn(text[..end]);
      && '\n' !in line
      && ((line + "\n" <= text && !EndsInReturn(line) && text[|line| + 1..] == text[end + 1..])
          || (line + "\r\n" <= text && text[|line| + 2..] == text[end + 1..]))
  {
    if EndsInReturn(text[..end]) {
      assert text[..end - 1] + "\r\n" == text[..end + 1];
    } else {
      assert text[..end] + "\n" == text[..end + 1];
    }
  }

  lemma {:induction false} LinesSplit(text: string)
    ensures Splits(text, Lines(text))
    decreases |text|
  {
    if text != "" {
      var end := IndexOf(text, '\n');
      if end < |text| {
        LinesSplit(text[end + 1..]);
        assert Lines(text)[0] == StripCarriageReturn(text[..end]) && Lines(text)[1..] == Lines(text[end + 1..]);
        LineEnds(text, end);
      } else {
        assert text[..end] == text;
      }
    }
  }
}
