/** The field collection of `Phonebook.add_record`, as a function of the
    columns and of the lines the user types. Each column is prompted until a
    line is accepted; `q` ends the collection early. */
module RecordEntry {
  import opened Text
  import opened Validators

  /** `'номер' in step`: the column holds a phone number. */
  predicate IsNumberColumn(column: string) {
    Contains(column, "номер")
  }

  /** A number column is one whose name holds `номер` as a contiguous slice. */
  lemma NumberColumnIffSlice(column: string)
    ensures IsNumberColumn(column) <==> exists k :: OccursAt(column, "номер", k)
  {
    ContainsIffSlice(column, "номер");
  }

  /** What a stored field satisfies: non-empty; the digits of a phone number
      starting with 7 or 8 in a number column; made of name characters in any
      other column. */
  predicate IsValidField(column: string, value: string) {
    && value != []
    && (IsNumberColumn(column) ==> AllDigits(value) && (value[0] == '7' || value[0] == '8'))
    && (!IsNumberColumn(column) ==> forall i :: 0 <= i < |value| ==> IsNameChar(value[i]))
  }

  /** One typed line checked for `column`: `_check_number` for a number column,
      `_check_name` otherwise, and a falsy result (rejection, or the empty name)
      means the column is prompted again. */
  function Accept(column: string, input: string): (r: Option<string>)
    ensures IsNumberColumn(column) ==> (r.Some? <==> HasPhonePrefix(input))
    ensures !IsNumberColumn(column) ==>
      (r.Some? <==> input != [] && forall i :: 0 <= i < |input| ==> IsNameChar(input[i]))
    ensures IsNumberColumn(column) && r.Some? ==> r.value == KeepDigits(input)
    ensures !IsNumberColumn(column) && r.Some? ==> r.value == input
    ensures r.Some? ==> IsValidField(column, r.value)
  {
    var checked := if IsNumberColumn(column) then CheckNumber(input) else CheckName(input);
    if checked.None? || checked.value == [] then None else checked
  }

  /** The empty line passes `_check_name` but is still rejected, because the
      empty string is falsy. */
  lemma EmptyNameRejected(column: string)
    requires !IsNumberColumn(column)
    ensures CheckName("") == Some("")
    ensures Accept(column, "") == None
  {
  }

  /** The outcome of the collection: the field map with the number of columns
      filled and the number of lines read, or the end of input reached first
      (Python's `input()` then raises and nothing is written). */
  datatype Entry =
    | Collected(data: map<string, string>, filled: nat, used: nat)
    | InputExhausted

  /** The collection from column `k` with the lines from `i` on, `data`
      holding the fields accepted so far. */
  function CollectFrom(columns: seq<string>, script: seq<string>, k: nat, i: nat,
                       data: map<string, string>): (r: Entry)
    requires k <= |columns| && i <= |script|
    ensures r.Collected? ==> k <= r.filled <= |columns| && i <= r.used <= |script|
    decreases |script| - i
  {
    if k == |columns| then Collected(data, k, i)
    else if i == |script| then InputExhausted
    else if script[i] == "q" then Collected(data, k, i + 1)
    else match Accept(columns[k], script[i])
      case None => CollectFrom(columns, script, k, i + 1, data)
      case Some(value) => CollectFrom(columns, script, k + 1, i + 1, data[columns[k] := value])
  }

  /** The fields `add_record` collects from the typed lines `script`. */
  function CollectRecord(columns: seq<string>, script: seq<string>): (r: Entry)
    ensures r.Collected? ==> r.filled <= |columns| && r.used <= |script|
  {
    CollectFrom(columns, script, 0, 0, map[])
  }

  /** The names of the first `k` columns. */
  function ColumnsUpTo(columns: seq<string>, k: nat): set<string>
    requires k <= |columns|
  {
    set j | 0 <= j < k :: columns[j]
  }

  /** The fields collected from column `k` on: the keys grow to the first
      `filled` columns and every stored value passed its column's check. */
  lemma {:induction false} CollectFromFields(columns: seq<string>, script: seq<string>, k: nat, i: nat,
                                             data: map<string, string>)
    requires k <= |columns| && i <= |script|
    requires data.Keys == ColumnsUpTo(columns, k)
    requires forall c :: c in data ==> IsValidField(c, data[c])
    ensures match CollectFrom(columns, script, k, i, data)
      case Collected(d, f, u) =>
        && k <= f <= |columns|
        && d.Keys == ColumnsUpTo(columns, f)
        && (forall c :: c in d ==> IsValidField(c, d[c]))
      case InputExhausted => true
    decreases |script| - i
  {
    if k < |columns| && i < |script| && script[i] != "q" {
      match Accept(columns[k], script[i])
      case None =>
        CollectFromFields(columns, script, k, i + 1, data);
      case Some(value) =>
        var next := data[columns[k] := value];
        assert next.Keys == ColumnsUpTo(columns, k + 1);
        CollectFromFields(columns, script, k + 1, i + 1, next);
    }
  }

  /** Every stored value is what its column's check made of one of the lines
      read, and that line was not `q`: the typed line itself in a name column,
      its digits in a number column. */
  predicate StoredFromLines(script: seq<string>, u: nat, data: map<string, string>)
    requires u <= |script|
  {
    forall c :: c in data ==>
      exists l :: 0 <= l < u && script[l] != "q" && Accept(c, script[l]) == Some(data[c])
  }

  /** A collection outcome whose stored values all come from the lines it
      read. */
  predicate ValuesFromLines(script: seq<string>, e: Entry) {
    e.Collected? ==> e.used <= |script| && StoredFromLines(script, e.used, e.data)
  }

  /** The values collected from column `k` on come from the lines read. */
  lemma {:induction false} CollectFromValues(columns: seq<string>, script: seq<string>, k: nat, i: nat,
                                             data: map<string, string>)
    requires k <= |columns| && i <= |script|
    requires StoredFromLines(script, i, data)
    ensures ValuesFromLines(script, CollectFrom(columns, script, k, i, data))
    decreases |script| - i, 1
  {
    if k < |columns| && i < |script| {
      StoredLinesGrow(script, i, i + 1, data);
      if script[i] != "q" {
        LineValues(columns, script, k, i, data);
      }
    }
  }

  /** The step of `CollectFromValues` at a line that is not `q`: a rejected
      line is skipped, an accepted one is stored. */
  lemma {:induction false} LineValues(columns: seq<string>, script: seq<string>, k: nat, i: nat,
                                      data: map<string, string>)
    requires k < |columns| && i < |script| && script[i] != "q"
    requires StoredFromLines(script, i + 1, data)
    ensures ValuesFromLines(script, CollectFrom(columns, script, k, i, data))
    decreases |script| - i, 0
  {
    var accepted := Accept(columns[k], script[i]);
    if accepted.None? {
      CollectFromValues(columns, script, k, i + 1, data);
    } else {
      var next := data[columns[k] := accepted.value];
      StoredAfterAccept(script, i, data, columns[k], accepted.value);
      CollectFromValues(columns, script, k + 1, i + 1, next);
    }
  }

  /** Storing the value accepted from line `i` keeps every stored value
      accounted for by the lines up to `i`. */
  lemma StoredAfterAccept(script: seq<string>, i: nat, data: map<string, string>,
                          column: string, value: string)
    requires i < |script| && script[i] != "q" && Accept(column, script[i]) == Some(value)
    requires StoredFromLines(script, i + 1, data)
    ensures StoredFromLines(script, i + 1, data[column := value])
  {
    var next := data[column := value];
    forall c | c in next
      ensures exists l :: 0 <= l < i + 1 && script[l] != "q" && Accept(c, script[l]) == Some(next[c])
    {
      if c == column {
        assert Accept(c, script[i]) == Some(next[c]);
      } else {
        assert c in data && next[c] == data[c];
      }
    }
  }

  /** Reading more lines keeps every stored value accounted for. */
  lemma StoredLinesGrow(script: seq<string>, u: nat, v: nat, data: map<string, string>)
    requires u <= v <= |script|
    requires StoredFromLines(script, u, data)
    ensures StoredFromLines(script, v, data)
  {
    forall c | c in data
      ensures exists l :: 0 <= l < v && script[l] != "q" && Accept(c, script[l]) == Some(data[c])
    {
      var l :| 0 <= l < u && script[l] != "q" && Accept(c, script[l]) == Some(data[c]);
    }
  }

  /** The lines read from line `i` on: none before the last one is `q`, and
      the collection stops short of the last column exactly at a `q`. */
  lemma {:induction false} CollectFromLines(columns: seq<string>, script: seq<string>, k: nat, i: nat,
                                            data: map<string, string>)
    requires k <= |columns| && i <= |script|
    requires forall j :: 0 <= j < i ==> script[j] != "q"
    ensures match CollectFrom(columns, script, k, i, data)
      case Collected(d, f, u) =>
        && i <= u <= |script| && f <= |columns|
        && (forall j :: 0 <= j < u - 1 ==> script[j] != "q")
        && (f < |columns| <==> u > 0 && script[u - 1] == "q")
      case InputExhausted =>
        forall j :: 0 <= j < |script| ==> script[j] != "q"
    decreases |script| - i
  {
    if k == |columns| {
      assert i > 0 ==> script[i - 1] != "q";
    } else if i < |script| && script[i] != "q" {
      match Accept(columns[k], script[i])
      case None =>
        CollectFromLines(columns, script, k, i + 1, data);
      case Some(value) =>
        CollectFromLines(columns, script, k + 1, i + 1, data[columns[k] := value]);
    }
  }

  /** What `add_record` collects: the keys are the first `filled` columns, in
      column order, every stored value passed its column's check and is what
      that check made of a line read (the line itself, or its digits), the lines
      read before the last one hold no `q`, and fewer than all columns are
      filled exactly when the last line read was `q`. When the input runs out
      first, it held no `q` at all. */
  lemma CollectRecordShape(columns: seq<string>, script: seq<string>)
    ensures match CollectRecord(columns, script)
      case Collected(d, f, u) =>
        && f <= |columns| && u <= |script|
        && d.Keys == ColumnsUpTo(columns, f)
        && (forall c :: c in d ==> IsValidField(c, d[c]))
        && StoredFromLines(script, u, d)
        && (forall j :: 0 <= j < u - 1 ==> script[j] != "q")
        && (f < |columns| <==> u > 0 && script[u - 1] == "q")
      case InputExhausted =>
        forall j :: 0 <= j < |script| ==> script[j] != "q"
  {
    assert ColumnsUpTo(columns, 0) == {};
    CollectFromFields(columns, script, 0, 0, map[]);
    CollectFromLines(columns, script, 0, 0, map[]);
    CollectFromValues(columns, script, 0, 0, map[]);
  }

  /** `q` as the first line leaves every column empty, and the empty map is
      still the record to write. */
  lemma QuitAtOnce(columns: seq<string>, script: seq<string>)
    requires |columns| > 0 && |script| > 0 && script[0] == "q"
    ensures CollectRecord(columns, script) == Collected(map[], 0, 1)
  {
  }

  /** A line rejected for the column being prompted is read and dropped: the
      collection goes on with the same column and the same fields. */
  lemma RejectedLineSkipped(columns: seq<string>, line: string, rest: seq<string>)
    requires |columns| > 0 && line != "q" && Accept(columns[0], line).None?
    ensures CollectRecord(columns, [line] + rest) == Shifted(CollectRecord(columns, rest))
  {
    var longer := [line] + rest;
    assert longer[0] == line;
    assert CollectRecord(columns, longer) == CollectFrom(columns, longer, 0, 1, map[]);
    CollectFromShift(columns, line, rest, 0, 0, map[]);
  }

  /** The outcome after `column` was filled with `value` from one more line:
      the later columns' fields are added to it (a later column of the same
      name overwrites it, as assignment to `data[step]` does). */
  function Advanced(column: string, value: string, e: Entry): Entry {
    match e
    case Collected(d, f, u) => Collected(map[column := value] + d, f + 1, u + 1)
    case InputExhausted => InputExhausted
  }

  /** A line accepted for the first column is stored under that column, and
      the collection goes on with the remaining columns and lines. */
  lemma AcceptedLineStored(columns: seq<string>, line: string, rest: seq<string>)
    requires |columns| > 0 && line != "q" && Accept(columns[0], line).Some?
    ensures CollectRecord(columns, [line] + rest)
         == Advanced(columns[0], Accept(columns[0], line).value, CollectRecord(columns[1..], rest))
  {
    var longer := [line] + rest;
    var v := Accept(columns[0], line).value;
    assert longer[0] == line;
    assert CollectRecord(columns, longer) == CollectFrom(columns, longer, 1, 1, map[columns[0] := v]);
    assert map[columns[0] := v] == map[columns[0] := v] + map[];
    CollectFromAdvance(columns, line, rest, v, 0, 0, map[]);
  }

  /** Collecting from column `k + 1` with `columns[0]` already filled is the
      collection over `columns[1..]` from column `k`, advanced. */
  lemma {:induction false} CollectFromAdvance(columns: seq<string>, line: string, rest: seq<string>,
                                              v: string, k: nat, i: nat, data: map<string, string>)
    requires k < |columns| && i <= |rest|
    ensures CollectFrom(columns, [line] + rest, k + 1, i + 1, map[columns[0] := v] + data)
         == Advanced(columns[0], v, CollectFrom(columns[1..], rest, k, i, data))
    decreases |rest| - i
  {
    var longer := [line] + rest;
    if k + 1 < |columns| && i < |rest| {
      assert longer[i + 1] == rest[i];
      assert columns[1..][k] == columns[k + 1];
      if rest[i] != "q" {
        match Accept(columns[k + 1], rest[i])
        case None =>
          CollectFromAdvance(columns, line, rest, v, k, i + 1, data);
        case Some(value) =>
          assert (map[columns[0] := v] + data)[columns[k + 1] := value]
              == map[columns[0] := v] + data[columns[k + 1] := value];
          CollectFromAdvance(columns, line, rest, v, k + 1, i + 1, data[columns[k + 1] := value]);
      }
    }
  }

  /** The outcome with one more line read. */
  function Shifted(e: Entry): Entry {
    match e
    case Collected(d, f, u) => Collected(d, f, u + 1)
    case InputExhausted => InputExhausted
  }

  /** Reading the same lines one position later gives the same outcome, one
      line later. */
  lemma {:induction false} CollectFromShift(columns: seq<string>, line: string, rest: seq<string>,
                                            k: nat, i: nat, data: map<string, string>)
    requires k <= |columns| && i <= |rest|
    ensures CollectFrom(columns, [line] + rest, k, i + 1, data) == Shifted(CollectFrom(columns, rest, k, i, data))
    decreases |rest| - i
  {
    var longer := [line] + rest;
    if k < |columns| && i < |rest| {
      assert longer[i + 1] == rest[i];
      if rest[i] != "q" {
        match Accept(columns[k], rest[i])
        case None =>
          CollectFromShift(columns, line, rest, k, i + 1, data);
        case Some(value) =>
          CollectFromShift(columns, line, rest, k + 1, i + 1, data[columns[k] := value]);
      }
    }
  }
}
