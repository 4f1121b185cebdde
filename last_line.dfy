/** What `Phonebook.read_last_line` finds: the file is read backwards one
    character at a time, and at each line break the line that follows it is
    read and stripped; the first such line that is not blank is the answer.
    The file is given as its text. */
module LastLineScan {
  import opened Text

  /** The index of the first line break at or after `j`, or the end of the text. */
  function LineEnd(text: string, j: nat): (e: nat)
    requires j <= |text|
    ensures j <= e <= |text|
    ensures e < |text| ==> text[e] == '\n'
    ensures forall k :: j <= k < e ==> text[k] != '\n'
    decreases |text| - j
  {
    if j == |text| || text[j] == '\n' then j else LineEnd(text, j + 1)
  }

  /** `f.readline()` from position `j`, without its line break (which `strip`
      removes anyway). */
  function ReadLine(text: string, j: nat): string
    requires j <= |text|
  {
    text[j..LineEnd(text, j)]
  }

  /** The line read from `j` is the text from `j` up to the next line break
      or the end of the text, and holds no line break. */
  lemma ReadLineStopsAtBreak(text: string, j: nat)
    requires j <= |text|
    ensures j + |ReadLine(text, j)| <= |text|
    ensures ReadLine(text, j) == text[j..j + |ReadLine(text, j)|]
    ensures forall k :: 0 <= k < |ReadLine(text, j)| ==> ReadLine(text, j)[k] != '\n'
    ensures j + |ReadLine(text, j)| == |text| || text[j + |ReadLine(text, j)|] == '\n'
  {
    var e := LineEnd(text, j);
    assert forall k :: 0 <= k < e - j ==> ReadLine(text, j)[k] == text[j + k];
  }

  /** A line break at `p` whose following line is not blank once stripped:
      where the backward scan stops. */
  predicate IsCandidate(text: string, p: int) {
    0 <= p < |text| && text[p] == '\n' && Strip(ReadLine(text, p + 1)) != []
  }

  /** The scan of `read_last_line` over the characters below `pos`, last one
      first: at the first line break followed by a non-blank line, that line
      stripped; None once the start of the file is reached. */
  function ScanBack(text: string, pos: nat): Option<string>
    requires pos <= |text|
    decreases pos
  {
    if pos == 0 then None
    else if IsCandidate(text, pos - 1) then Some(Strip(ReadLine(text, pos)))
    else ScanBack(text, pos - 1)
  }

  /** What the scan returns is a non-empty line with no whitespace at either
      end. */
  lemma {:induction false} ScanBackTrimmed(text: string, pos: nat)
    requires pos <= |text|
    ensures ScanBack(text, pos).Some? ==>
      var line := ScanBack(text, pos).value;
      line != [] && !IsSpace(line[0]) && !IsSpace(line[|line| - 1])
    decreases pos
  {
    if pos > 0 {
      if IsCandidate(text, pos - 1) {
        StripTrimsEnds(ReadLine(text, pos));
      } else {
        ScanBackTrimmed(text, pos - 1);
      }
    }
  }

  /** The value `read_last_line` returns for a file holding `text`: the scan
      from the end of the file. A result has no whitespace at either end. */
  function LastLine(text: string): (r: Option<string>)
    ensures r.Some? ==> r.value != [] && !IsSpace(r.value[0]) && !IsSpace(r.value[|r.value| - 1])
  {
    ScanBackTrimmed(text, |text|);
    ScanBack(text, |text|)
  }

  /** The position of the last candidate below `pos`, or -1 when there is
      none. */
  function LastCandidate(text: string, pos: nat): (r: int)
    requires pos <= |text|
    ensures -1 <= r < pos
    ensures r >= 0 ==> IsCandidate(text, r)
    ensures forall q :: r < q < pos ==> !IsCandidate(text, q)
    decreases pos
  {
    if pos == 0 then -1
    else if IsCandidate(text, pos - 1) then pos - 1
    else LastCandidate(text, pos - 1)
  }

  /** The scan finds nothing exactly when there is no candidate, and otherwise
      returns the stripped line after the last candidate. */
  lemma {:induction false} ScanBackFindsLastCandidate(text: string, pos: nat)
    requires pos <= |text|
    ensures ScanBack(text, pos).None? <==> LastCandidate(text, pos) < 0
    ensures ScanBack(text, pos).Some? ==>
      ScanBack(text, pos).value == Strip(ReadLine(text, LastCandidate(text, pos) + 1))
    decreases pos
  {
    if pos > 0 && !IsCandidate(text, pos - 1) {
      ScanBackFindsLastCandidate(text, pos - 1);
    }
  }

  /** There is no last line exactly when no line that follows a line break is
      non-blank; otherwise it is the last such line, stripped. The first line
      of the file follows no line break, so the header is never returned. */
  lemma LastLineIsLastCandidate(text: string)
    ensures LastLine(text).None? <==> forall p :: 0 <= p < |text| ==> !IsCandidate(text, p)
    ensures LastLine(text).Some? ==>
      exists p :: (IsCandidate(text, p) && LastLine(text).value == Strip(ReadLine(text, p + 1)) &&
                   forall q :: p < q < |text| ==> !IsCandidate(text, q))
  {
    ScanBackFindsLastCandidate(text, |text|);
    var p := LastCandidate(text, |text|);
    if p >= 0 {
      assert IsCandidate(text, p);
    }
  }

  /** Below a position with no line break before it, the scan finds nothing. */
  lemma {:induction false} ScanBackWithoutBreak(text: string, pos: nat)
    requires pos <= |text|
    requires forall k :: 0 <= k < pos ==> text[k] != '\n'
    ensures ScanBack(text, pos).None?
    decreases pos
  {
    if pos > 0 {
      ScanBackWithoutBreak(text, pos - 1);
    }
  }

  /** A file that holds only its header line, with or without a final line
      break, has no last line. */
  lemma HeaderOnlyHasNoLastLine(header: string)
    requires forall i :: 0 <= i < |header| ==> header[i] != '\n'
    ensures LastLine(header).None?
    ensures LastLine(header + "\n").None?
  {
    ScanBackWithoutBreak(header, |header|);
    var text := header + "\n";
    assert ReadLine(text, |text|) == [];
    assert !IsCandidate(text, |header|);
    forall k | 0 <= k < |header| ensures text[k] != '\n' {
      assert text[k] == header[k];
    }
    ScanBackWithoutBreak(text, |header|);
  }

  /** Lines of the original text keep their extent when a line break and
      anything else is appended. */
  lemma {:induction false} LineEndAppend(text: string, tail: string, j: nat)
    requires j <= |text|
    ensures LineEnd(text + "\n" + tail, j) == LineEnd(text, j)
    decreases |text| - j
  {
    var longer := text + "\n" + tail;
    if j < |text| {
      assert longer[j] == text[j];
      if text[j] != '\n' {
        LineEndAppend(text, tail, j + 1);
      }
    } else {
      assert longer[j] == '\n';
    }
  }

  /** No line break of the appended part starts a non-blank line. */
  lemma NoCandidateInBlankTail(text: string, tail: string, p: nat)
    requires AllSpace(tail)
    requires |text| <= p < |text| + 1 + |tail|
    ensures !IsCandidate(text + "\n" + tail, p)
  {
    var longer := text + "\n" + tail;
    var line := ReadLine(longer, p + 1);
    forall k | 0 <= k < |line| ensures IsSpace(line[k]) {
      assert line[k] == tail[p + 1 + k - |text| - 1];
    }
  }

  /** Over positions holding no candidate the scan moves on without stopping. */
  lemma {:induction false} ScanBackSkips(text: string, lo: nat, pos: nat)
    requires lo <= pos <= |text|
    requires forall q :: lo <= q < pos ==> !IsCandidate(text, q)
    ensures ScanBack(text, pos) == ScanBack(text, lo)
    decreases pos
  {
    if pos > lo {
      ScanBackSkips(text, lo, pos - 1);
    }
  }

  /** Below the appended part, the scan sees the lines of the original text. */
  lemma {:induction false} ScanBackBelowTail(text: string, tail: string, pos: nat)
    requires pos <= |text|
    ensures ScanBack(text + "\n" + tail, pos) == ScanBack(text, pos)
    decreases pos
  {
    if pos > 0 {
      var longer := text + "\n" + tail;
      assert longer[pos - 1] == text[pos - 1];
      LineEndAppend(text, tail, pos);
      assert ReadLine(longer, pos) == ReadLine(text, pos);
      ScanBackBelowTail(text, tail, pos - 1);
    }
  }

  /** Trailing blank lines are skipped: appending a line break followed by
      whitespace only (more blank lines among it) leaves the answer unchanged. */
  lemma AppendBlankLines(text: string, tail: string)
    requires AllSpace(tail)
    ensures LastLine(text + "\n" + tail) == LastLine(text)
  {
    var longer := text + "\n" + tail;
    forall q | |text| <= q < |longer| ensures !IsCandidate(longer, q) {
      NoCandidateInBlankTail(text, tail, q);
    }
    ScanBackSkips(longer, |text|, |longer|);
    ScanBackBelowTail(text, tail, |text|);
  }
}
