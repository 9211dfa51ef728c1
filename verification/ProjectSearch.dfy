/** Bounded literal search over the indexed files of a project, with windowed previews. */
module ProjectSearch {
  import opened Wrappers
  import opened Machine
  import opened Text

  const MAX_EDITABLE_FILE_BYTES: u64 := 512 * 1024
  const PREVIEW_CHARS: nat := 220
  const ELLIPSIS: char := '\U{2026}'

  datatype File = File(path: string, bytes: u64, blocked: bool, deleted: bool)

  /** A file's text with its length in bytes. */
  datatype GuardedText = GuardedText(bytes: u64, content: string)

  datatype Match = Match(path: string, line: nat, column: nat, endColumn: nat, preview: string)

  datatype SearchResult = SearchResult(
    matches: seq<Match>,
    scannedFiles: nat,
    scannedBytes: nat,
    skippedFiles: nat,
    truncated: bool,
    workspaceTruncated: bool)

  /** The literal query and the character folding its case sensitivity implies. */
  datatype Query = Query(text: string, fold: char -> char)

  // ----- matches in one line

  predicate OccursAt(line: string, q: Query, i: nat) {
    i + |q.text| <= |line| && forall k :: 0 <= k < |q.text| ==> q.fold(line[i + k]) == q.fold(q.text[k])
  }

  /** Starts of the leftmost non-overlapping occurrences from position `p` on. */
  function FindFrom(line: string, q: Query, p: nat): (found: seq<nat>)
    requires q.text != []
    ensures forall i :: 0 <= i < |found| ==> p <= found[i] && OccursAt(line, q, found[i])
    decreases |line| - p
  {
    if p >= |line| then []
    else if OccursAt(line, q, p) then [p] + FindFrom(line, q, p + |q.text|)
    else FindFrom(line, q, p + 1)
  }

  predicate Disjoint(found: seq<nat>, length: nat) {
    forall i, j :: 0 <= i < j < |found| ==> found[i] + length <= found[j]
  }

  predicate Covers(found: seq<nat>, length: nat, k: nat) {
    exists i :: 0 <= i < |found| && found[i] <= k < found[i] + length
  }

  lemma CoversLater(first: nat, rest: seq<nat>, length: nat, k: nat)
    requires Covers(rest, length, k)
    ensures Covers([first] + rest, length, k)
  {
    var i :| 0 <= i < |rest| && rest[i] <= k < rest[i] + length;
    assert ([first] + rest)[i + 1] == rest[i];
  }

  /** Every occurrence is reported or overlaps a reported one that starts no later. */
  lemma {:induction false} FindsEveryOccurrence(line: string, q: Query, p: nat, k: nat)
    requires q.text != [] && p <= k && OccursAt(line, q, k)
    ensures Covers(FindFrom(line, q, p), |q.text|, k)
    decreases |line| - p
  {
    var found := FindFrom(line, q, p);
    if OccursAt(line, q, p) {
      if k < p + |q.text| {
        assert found[0] <= k < found[0] + |q.text|;
      } else {
        FindsEveryOccurrence(line, q, p + |q.text|, k);
        CoversLater(p, FindFrom(line, q, p + |q.text|), |q.text|, k);
      }
    } else {
      FindsEveryOccurrence(line, q, p + 1, k);
    }
  }

  /** Reported occurrences come in increasing order and do not overlap. */
  lemma {:induction false} FindsDisjoint(line: string, q: Query, p: nat)
    requires q.text != []
    ensures Disjoint(FindFrom(line, q, p), |q.text|)
    decreases |line| - p
  {
    if p < |line| {
      if OccursAt(line, q, p) {
        FindsDisjoint(line, q, p + |q.text|);
      } else {
        FindsDisjoint(line, q, p + 1);
      }
    }
  }

  // ----- previews

  /** The window of a long line shown around a match. */
  function Window(length: nat, start: nat, end: nat): (nat, nat) {
    var matchLen := SatSub(end, start);
    var before := SatSub(PREVIEW_CHARS, matchLen) / 2;
    var from := SatSub(start, before);
    var to := Min(Max(from + PREVIEW_CHARS, end), length);
    (Min(SatSub(to, PREVIEW_CHARS), from), to)
  }

  function PreviewLine(line: string, start: nat, end: nat): string
    requires start <= end <= |line|
  {
    if |line| <= PREVIEW_CHARS then line
    else
      WindowHoldsMatch(|line|, start, end);
      var (from, to) := Window(|line|, start, end);
      (if from > 0 then [ELLIPSIS] else []) + line[from..to] + (if to < |line| then [ELLIPSIS] else [])
  }

  /** A long line's window contains the match and has exactly max(220, match length)
      characters, inside the line. */
  lemma WindowHoldsMatch(length: nat, start: nat, end: nat)
    requires start <= end <= length && length > PREVIEW_CHARS
    ensures var (from, to) := Window(length, start, end);
      from <= start && end <= to <= length && to - from == Max(PREVIEW_CHARS, end - start)
  {
  }

  /** The preview of a long line is that window, with an ellipsis on each cut side, and
      shows the match inside it. */
  lemma PreviewShowsMatch(line: string, start: nat, end: nat)
    requires start <= end <= |line| && |line| > PREVIEW_CHARS
    ensures var (from, to) := Window(|line|, start, end);
      var lead := if from > 0 then 1 else 0;
      var preview := PreviewLine(line, start, end);
      && |preview| == lead + Max(PREVIEW_CHARS, end - start) + (if to < |line| then 1 else 0)
      && lead + end - from <= |preview|
      && preview[lead + start - from..lead + end - from] == line[start..end]
  {
    WindowHoldsMatch(|line|, start, end);
    var (from, to) := Window(|line|, start, end);
    var lead := if from > 0 then [ELLIPSIS] else [];
    var tail := if to < |line| then [ELLIPSIS] else [];
    assert PreviewLine(line, start, end) == lead + line[from..to] + tail;
    InTheMiddle(lead, line, from, to, tail, start, end);
  }

  lemma InTheMiddle(lead: string, line: string, from: nat, to: nat, tail: string, start: nat, end: nat)
    requires from <= start <= end <= to <= |line|
    ensures |lead + line[from..to] + tail| == |lead| + (to - from) + |tail|
    ensures (lead + line[from..to] + tail)[|lead| + start - from..|lead| + end - from] == line[start..end]
  {
    var shown, n := lead + line[from..to] + tail, |lead|;
    forall k | 0 <= k < end - start
      ensures shown[n + start - from..n + end - from][k] == line[start..end][k]
    {
      assert shown[n + start - from + k] == line[from..to][start - from + k];
    }
  }

  // ----- the full match list

  function MatchAt(path: string, number: nat, line: string, start: nat, length: nat): Match
    requires start + length <= |line|
  {
    Match(path, number, start + 1, start + length + 1, PreviewLine(line, start, start + length))
  }

  function LineMatches(path: string, number: nat, line: string, q: Query): seq<Match>
    requires q.text != []
  {
    var found := FindFrom(line, q, 0);
    seq(|found|, i requires 0 <= i < |found| => MatchAt(path, number, line, found[i], |q.text|))
  }

  /** The first `n` pieces, one after the other. */
  function Joined<T>(pieces: seq<seq<T>>, n: nat): seq<T>
    requires n <= |pieces|
  {
    if n == 0 then [] else Joined(pieces, n - 1) + pieces[n - 1]
  }

  lemma PrefixTransitive<T>(a: seq<T>, b: seq<T>, c: seq<T>)
    requires a <= b <= c
    ensures a <= c
  {
  }

  lemma PrefixUnder<T>(a: seq<T>, before: seq<T>, b: seq<T>, c: seq<T>)
    requires a <= before + b && b <= c
    ensures a <= before + c
  {
    assert before + b <= before + c;
  }

  lemma {:induction false} JoinedPrefix<T>(pieces: seq<seq<T>>, n: nat, m: nat)
    requires n <= m <= |pieces|
    ensures Joined(pieces, n) <= Joined(pieces, m)
  {
    if n < m {
      JoinedPrefix(pieces, n, m - 1);
      assert Joined(pieces, m - 1) <= Joined(pieces, m - 1) + pieces[m - 1];
    }
  }

  function LinePieces(path: string, lines: seq<string>, q: Query): (pieces: seq<seq<Match>>)
    requires q.text != []
    ensures |pieces| == |lines|
  {
    seq(|lines|, i requires 0 <= i < |lines| => LineMatches(path, i + 1, lines[i], q))
  }

  function TextMatches(path: string, content: string, q: Query): seq<Match>
    requires q.text != []
  {
    var lines := Lines(content);
    Joined(LinePieces(path, lines, q), |lines|)
  }

  predicate Ineligible(file: File) {
    file.blocked || file.deleted || file.bytes > MAX_EDITABLE_FILE_BYTES
  }

  function FileMatches(file: File, text: Option<GuardedText>, q: Query): seq<Match>
    requires q.text != []
  {
    if Ineligible(file) || text.None? then [] else TextMatches(file.path, text.value.content, q)
  }

  /** The matches file by file, where `texts[i]` is what reading file `i` gives. */
  function FilePieces(files: seq<File>, texts: seq<Option<GuardedText>>, q: Query): (pieces: seq<seq<Match>>)
    requires |files| == |texts| && q.text != []
    ensures |pieces| == |files|
  {
    seq(|files|, i requires 0 <= i < |files| => FileMatches(files[i], texts[i], q))
  }

  /** The full match list, ordered by file, line and column. */
  function AllMatches(files: seq<File>, texts: seq<Option<GuardedText>>, q: Query): seq<Match>
    requires |files| == |texts| && q.text != []
  {
    Joined(FilePieces(files, texts, q), |files|)
  }

  predicate EarlierInFile(a: Match, b: Match) {
    a.line < b.line || (a.line == b.line && a.endColumn <= b.column)
  }

  /** Ordered by line, then column, without overlaps, in lines 1 to `last`. */
  predicate Ordered(ms: seq<Match>, last: nat) {
    && (forall i :: 0 <= i < |ms| ==> 1 <= ms[i].line <= last)
    && (forall i, j :: 0 <= i < j < |ms| ==> EarlierInFile(ms[i], ms[j]))
  }

  predicate OnLine(ms: seq<Match>, number: nat) {
    forall i :: 0 <= i < |ms| ==> ms[i].line == number
  }

  lemma OrderedAppend(a: seq<Match>, b: seq<Match>, last: nat)
    requires Ordered(a, last) && Ordered(b, last + 1)
    requires OnLine(b, last + 1)
    ensures Ordered(a + b, last + 1)
  {
  }

  lemma LineIsOrdered(path: string, number: nat, line: string, q: Query)
    requires q.text != [] && number > 0
    ensures Ordered(LineMatches(path, number, line, q), number)
    ensures OnLine(LineMatches(path, number, line, q), number)
  {
    FindsDisjoint(line, q, 0);
  }

  lemma {:induction false} PiecesAreOrdered(path: string, lines: seq<string>, q: Query, n: nat)
    requires n <= |lines| && q.text != []
    ensures Ordered(Joined(LinePieces(path, lines, q), n), n)
  {
    if n > 0 {
      var pieces := LinePieces(path, lines, q);
      PiecesAreOrdered(path, lines, q, n - 1);
      LineIsOrdered(path, n, lines[n - 1], q);
      assert pieces[n - 1] == LineMatches(path, n, lines[n - 1], q);
      OrderedAppend(Joined(pieces, n - 1), pieces[n - 1], n - 1);
    }
  }

  /** Within a file the full list is ordered by line, then column, without overlaps. */
  lemma MatchesAreOrdered(path: string, content: string, q: Query)
    requires q.text != []
    ensures Ordered(TextMatches(path, content, q), |Lines(content)|)
  {
    PiecesAreOrdered(path, Lines(content), q, |Lines(content)|);
  }

  // ----- the search

  /** Room for another match, or the degenerate limit zero before its first match. */
  predicate HasRoom(matches: seq<Match>, limit: nat) {
    |matches| < limit || (limit == 0 && matches == [])
  }

  /** Appends the matches of one line until the limit is reached. */
  method ScanLine(path: string, number: nat, line: string, q: Query, before: seq<Match>, limit: nat)
    returns (matches: seq<Match>, full: bool)
    requires q.text != []
    requires HasRoom(before, limit)
    ensures full <==> |matches| >= limit && LineMatches(path, number, line, q) != []
    ensures before <= matches <= before + LineMatches(path, number, line, q)
    ensures !full ==> matches == before + LineMatches(path, number, line, q)
    ensures |matches| <= Max(limit, 1) && (if full then |matches| == Max(limit, 1) else HasRoom(matches, limit))
  {
    matches := before;
    var found := FindFrom(line, q, 0);
    ghost var all := LineMatches(path, number, line, q);
    for i := 0 to |found|
      invariant matches == before + all[..i]
      invariant |matches| < limit || (limit == 0 && i == 0)
    {
      matches := matches + [MatchAt(path, number, line, found[i], |q.text|)];
      assert all[..i + 1] == all[..i] + [all[i]];
      if |matches| >= limit {
        return matches, true;
      }
    }
    return matches, false;
  }

  /** The matches gathered when the first `n` lines have been scanned. */
  function Gathered(path: string, lines: seq<string>, q: Query, before: seq<Match>, n: nat): seq<Match>
    requires n <= |lines| && q.text != []
  {
    before + Joined(LinePieces(path, lines, q), n)
  }

  lemma GatheredNext(path: string, lines: seq<string>, q: Query, before: seq<Match>, i: nat)
    requires i < |lines| && q.text != []
    ensures Gathered(path, lines, q, before, i) + LineMatches(path, i + 1, lines[i], q) ==
      Gathered(path, lines, q, before, i + 1)
  {
    var pieces := LinePieces(path, lines, q);
    var earlier, line := Joined(pieces, i), LineMatches(path, i + 1, lines[i], q);
    assert Joined(pieces, i + 1) == earlier + line;
    assert (before + earlier) + line == before + (earlier + line);
  }

  lemma LineByLine(path: string, lines: seq<string>, q: Query, before: seq<Match>, i: nat)
    requires i < |lines| && q.text != []
    ensures before <= Gathered(path, lines, q, before, i)
    ensures Gathered(path, lines, q, before, i) + LineMatches(path, i + 1, lines[i], q) ==
      Gathered(path, lines, q, before, i + 1)
    ensures Gathered(path, lines, q, before, i + 1) <= Gathered(path, lines, q, before, |lines|)
  {
    var pieces := LinePieces(path, lines, q);
    GatheredNext(path, lines, q, before, i);
    JoinedPrefix(pieces, i + 1, |lines|);
    PrefixUnder(before + Joined(pieces, i + 1), before, Joined(pieces, i + 1), Joined(pieces, |lines|));
  }

  method ScanText(path: string, content: string, q: Query, before: seq<Match>, limit: nat)
    returns (matches: seq<Match>, full: bool)
    requires q.text != []
    requires HasRoom(before, limit)
    ensures before <= matches <= before + TextMatches(path, content, q)
    ensures !full ==> matches == before + TextMatches(path, content, q)
    ensures |matches| <= Max(limit, 1) && (if full then |matches| == Max(limit, 1) else HasRoom(matches, limit))
  {
    matches := before;
    var lines := Lines(content);
    for i := 0 to |lines|
      invariant matches == Gathered(path, lines, q, before, i)
      invariant HasRoom(matches, limit)
    {
      LineByLine(path, lines, q, before, i);
      ghost var earlier := matches;
      matches, full := ScanLine(path, i + 1, lines[i], q, matches, limit);
      if full {
        PrefixTransitive(before, earlier, matches);
        PrefixTransitive(matches, Gathered(path, lines, q, before, i + 1), Gathered(path, lines, q, before, |lines|));
        return matches, true;
      }
    }
    return matches, false;
  }

  /** Nothing at all is missing from the result. */
  ghost predicate Complete(files: seq<File>, texts: seq<Option<GuardedText>>, q: Query, limit: nat, r: SearchResult)
    requires |texts| == |files| && q.text != []
  {
    && !r.workspaceTruncated
    && r.scannedFiles + r.skippedFiles == |files|
    && r.matches == AllMatches(files, texts, q)
    && |r.matches| < limit
  }

  lemma FileByFile(files: seq<File>, texts: seq<Option<GuardedText>>, q: Query, i: nat)
    requires i < |files| == |texts| && q.text != []
    ensures var pieces := FilePieces(files, texts, q);
      && Joined(pieces, i) + FileMatches(files[i], texts[i], q) == Joined(pieces, i + 1)
      && Joined(pieces, i + 1) <= AllMatches(files, texts, q)
  {
    JoinedPrefix(FilePieces(files, texts, q), i + 1, |files|);
  }

  /** What visiting one file may do: skip it, stop at a budget, or scan it. */
  ghost predicate Visited(file: File, text: Option<GuardedText>, q: Query, before: SearchResult, limit: nat,
                          byteBudget: nat, after: SearchResult, stop: bool)
    requires q.text != []
  {
    && before.matches <= after.matches <= before.matches + FileMatches(file, text, q)
    && |after.matches| <= Max(limit, 1) && after.scannedBytes <= byteBudget
    && after.workspaceTruncated == before.workspaceTruncated
    && var visited := after.scannedFiles + after.skippedFiles - before.scannedFiles - before.skippedFiles;
    && (stop ==> after.truncated && (visited == 0 || (visited == 1 && |after.matches| >= limit)))
    && (!stop ==>
          && visited == 1 && after.truncated == before.truncated && HasRoom(after.matches, limit)
          && after.matches == before.matches + FileMatches(file, text, q))
  }

  /** The file, as indexed or as read, would take the scanned bytes over the budget. The sum
      saturates, so the largest budget is never exceeded. */
  predicate OverBudget(file: File, text: Option<GuardedText>, scanned: u64, byteBudget: u64) {
    && byteBudget < U64_MAX
    && ((file.bytes > 0 && scanned + file.bytes > byteBudget)
        || (text.Some? && scanned + text.value.bytes > byteBudget))
  }

  /** Which of the three it is, and how it is counted. */
  ghost predicate Counted(file: File, text: Option<GuardedText>, before: SearchResult, limit: nat, byteBudget: u64,
                          after: SearchResult, stop: bool)
    requires before.scannedBytes <= byteBudget
  {
    if Ineligible(file) then !stop && after == before.(skippedFiles := before.skippedFiles + 1)
    else if OverBudget(file, text, before.scannedBytes, byteBudget) then stop && after == before.(truncated := true)
    else if text.None? then !stop && after == before.(skippedFiles := before.skippedFiles + 1)
    else
      && after.scannedFiles == before.scannedFiles + 1 && after.skippedFiles == before.skippedFiles
      && after.scannedBytes == (before.scannedBytes + text.value.bytes) % (U64_MAX + 1)
      && after.truncated == (before.truncated || stop) && (stop ==> |after.matches| == Max(limit, 1))
  }

  method VisitFile(file: File, text: Option<GuardedText>, q: Query, before: SearchResult, limit: nat, byteBudget: u64)
    returns (after: SearchResult, stop: bool)
    requires q.text != [] && HasRoom(before.matches, limit) && before.scannedBytes <= byteBudget
    ensures Visited(file, text, q, before, limit, byteBudget, after, stop)
    ensures Counted(file, text, before, limit, byteBudget, after, stop)
  {
    after, stop := before, false;
    if Ineligible(file) {
      return after.(skippedFiles := after.skippedFiles + 1), false;
    }
    if file.bytes > 0 && Min(after.scannedBytes + file.bytes, U64_MAX) > byteBudget {
      return after.(truncated := true), true;
    }
    if text.None? {
      return after.(skippedFiles := after.skippedFiles + 1), false;
    }
    if Min(after.scannedBytes + text.value.bytes, U64_MAX) > byteBudget {
      return after.(truncated := true), true;
    }
    var matches, full := ScanText(file.path, text.value.content, q, after.matches, limit);
    after := after.(scannedFiles := after.scannedFiles + 1,
                    scannedBytes := (after.scannedBytes + text.value.bytes) % (U64_MAX + 1),
                    matches := matches, truncated := after.truncated || full);
    stop := full;
  }

  /** The result after the first `i` files. */
  ghost predicate Progress(files: seq<File>, texts: seq<Option<GuardedText>>, q: Query, limit: nat, byteBudget: nat,
                           workspaceTruncated: bool, r: SearchResult, i: nat)
    requires |texts| == |files| && i <= |files| && q.text != []
  {
    && r.matches == Joined(FilePieces(files, texts, q), i)
    && HasRoom(r.matches, limit)
    && r.scannedFiles + r.skippedFiles == i
    && r.scannedBytes <= byteBudget
    && r.workspaceTruncated == workspaceTruncated == r.truncated
  }

  lemma VisitAdvances(files: seq<File>, texts: seq<Option<GuardedText>>, q: Query, limit: nat, byteBudget: nat,
                      workspaceTruncated: bool, r: SearchResult, i: nat, after: SearchResult)
    requires i < |files| == |texts| && q.text != []
    requires Progress(files, texts, q, limit, byteBudget, workspaceTruncated, r, i)
    requires Visited(files[i], texts[i], q, r, limit, byteBudget, after, false)
    ensures Progress(files, texts, q, limit, byteBudget, workspaceTruncated, after, i + 1)
  {
    FileByFile(files, texts, q, i);
  }

  lemma VisitStops(files: seq<File>, texts: seq<Option<GuardedText>>, q: Query, limit: nat, byteBudget: nat,
                   workspaceTruncated: bool, r: SearchResult, i: nat, after: SearchResult)
    requires i < |files| == |texts| && q.text != []
    requires Progress(files, texts, q, limit, byteBudget, workspaceTruncated, r, i)
    requires Visited(files[i], texts[i], q, r, limit, byteBudget, after, true)
    ensures after.matches <= AllMatches(files, texts, q)
    ensures after.truncated && after.scannedFiles + after.skippedFiles <= |files|
    ensures !Complete(files, texts, q, limit, after)
  {
    FileByFile(files, texts, q, i);
    PrefixTransitive(after.matches, Joined(FilePieces(files, texts, q), i + 1), AllMatches(files, texts, q));
  }

  /** The file is scanned when the search gets to it. */
  predicate Scannable(file: File, text: Option<GuardedText>) {
    !Ineligible(file) && text.Some?
  }

  function ScannedFiles(files: seq<File>, texts: seq<Option<GuardedText>>, n: nat): nat
    requires n <= |files| == |texts|
  {
    if n == 0 then 0
    else ScannedFiles(files, texts, n - 1) + (if Scannable(files[n - 1], texts[n - 1]) then 1 else 0)
  }

  function ScannedBytes(files: seq<File>, texts: seq<Option<GuardedText>>, n: nat): nat
    requires n <= |files| == |texts|
  {
    if n == 0 then 0
    else
      ScannedBytes(files, texts, n - 1)
      + (if Scannable(files[n - 1], texts[n - 1]) then texts[n - 1].value.bytes as nat else 0)
  }

  /** The counters count the first `n` files. */
  ghost predicate Tallied(files: seq<File>, texts: seq<Option<GuardedText>>, r: SearchResult, n: nat)
    requires n <= |files| == |texts|
  {
    && r.scannedFiles == ScannedFiles(files, texts, n) && r.scannedFiles + r.skippedFiles == n
    && r.scannedBytes == ScannedBytes(files, texts, n) % (U64_MAX + 1)
  }

  lemma SumWraps(a: nat, b: nat)
    ensures (a % (U64_MAX + 1) + b) % (U64_MAX + 1) == (a + b) % (U64_MAX + 1)
  {
    var m := U64_MAX + 1;
    assert a == (a / m) * m + a % m;
    assert a + b == (a / m) * m + (a % m + b);
    WholeTurns(a / m, a % m + b);
  }

  lemma {:induction false} WholeTurns(turns: nat, rest: nat)
    ensures (turns * (U64_MAX + 1) + rest) % (U64_MAX + 1) == rest % (U64_MAX + 1)
  {
    if turns > 0 {
      WholeTurns(turns - 1, rest);
    }
  }

  lemma TallyAdvances(files: seq<File>, texts: seq<Option<GuardedText>>, limit: nat, byteBudget: u64, r: SearchResult,
                      i: nat, after: SearchResult, stop: bool)
    requires i < |files| == |texts| && Tallied(files, texts, r, i) && r.scannedBytes <= byteBudget
    requires Counted(files[i], texts[i], r, limit, byteBudget, after, stop)
    ensures Tallied(files, texts, after, if after.scannedFiles + after.skippedFiles == i then i else i + 1)
  {
    if texts[i].Some? {
      SumWraps(ScannedBytes(files, texts, i), texts[i].value.bytes as nat);
    }
  }

  /** Where the search ended and why: after the last file with everything, at the limit, or at
      the first file that would take it over the budget, with everything before that file. */
  ghost predicate Explained(files: seq<File>, texts: seq<Option<GuardedText>>, q: Query, limit: nat, byteBudget: u64,
                            r: SearchResult)
    requires |texts| == |files| && q.text != []
  {
    var n := r.scannedFiles + r.skippedFiles;
    && n <= |files| && Tallied(files, texts, r, n)
    && (|| |r.matches| == Max(limit, 1)
        || (n == |files| && r.matches == AllMatches(files, texts, q))
        || (n < |files| && !Ineligible(files[n]) && OverBudget(files[n], texts[n], r.scannedBytes, byteBudget)
            && r.matches == Joined(FilePieces(files, texts, q), n)))
  }

  lemma StopExplained(files: seq<File>, texts: seq<Option<GuardedText>>, q: Query, limit: nat, byteBudget: u64,
                      workspaceTruncated: bool, r: SearchResult, i: nat, after: SearchResult)
    requires i < |files| == |texts| && q.text != []
    requires Progress(files, texts, q, limit, byteBudget, workspaceTruncated, r, i) && Tallied(files, texts, r, i)
    requires Counted(files[i], texts[i], r, limit, byteBudget, after, true)
    ensures Explained(files, texts, q, limit, byteBudget, after)
  {
    TallyAdvances(files, texts, limit, byteBudget, r, i, after, true);
  }

  lemma EndExplained(files: seq<File>, texts: seq<Option<GuardedText>>, q: Query, limit: nat, byteBudget: u64,
                     workspaceTruncated: bool, r: SearchResult)
    requires |texts| == |files| && q.text != [] && Tallied(files, texts, r, |files|)
    requires Progress(files, texts, q, limit, byteBudget, workspaceTruncated, r, |files|)
    ensures Explained(files, texts, q, limit, byteBudget, r)
    ensures r.matches == AllMatches(files, texts, q)
    ensures limit > 0 ==> (!r.truncated <==> Complete(files, texts, q, limit, r))
  {
  }

  /** Reports a prefix of the full list within both budgets; the result is complete
      exactly when it says that nothing was truncated, and ends early for no other reason than
      the limit or the budget. */
  method SearchIndexedWorkspace(files: seq<File>, workspaceTruncated: bool, q: Query, limit: nat,
                                byteBudget: u64, texts: seq<Option<GuardedText>>)
    returns (result: SearchResult)
    requires |texts| == |files|
    ensures result.workspaceTruncated == workspaceTruncated
    ensures q.text == [] ==> result == SearchResult([], 0, 0, 0, workspaceTruncated, workspaceTruncated)
    ensures q.text != [] ==> result.matches <= AllMatches(files, texts, q)
    ensures |result.matches| <= Max(limit, 1) && result.scannedBytes <= byteBudget
    ensures result.scannedFiles + result.skippedFiles <= |files|
    ensures q.text != [] ==> Explained(files, texts, q, limit, byteBudget, result)
    ensures q.text != [] && limit > 0 ==> (!result.truncated <==> Complete(files, texts, q, limit, result))
  {
    result := SearchResult([], 0, 0, 0, workspaceTruncated, workspaceTruncated);
    if q.text == [] {
      return;
    }
    for i := 0 to |files|
      invariant Progress(files, texts, q, limit, byteBudget, workspaceTruncated, result, i)
      invariant Tallied(files, texts, result, i)
    {
      ghost var before := result;
      var stop;
      result, stop := VisitFile(files[i], texts[i], q, result, limit, byteBudget);
      if stop {
        StopExplained(files, texts, q, limit, byteBudget, workspaceTruncated, before, i, result);
        VisitStops(files, texts, q, limit, byteBudget, workspaceTruncated, before, i, result);
        return;
      }
      VisitAdvances(files, texts, q, limit, byteBudget, workspaceTruncated, before, i, result);
      TallyAdvances(files, texts, limit, byteBudget, before, i, result, false);
    }
    EndExplained(files, texts, q, limit, byteBudget, workspaceTruncated, result);
  }
}
