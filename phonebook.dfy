/** The `Phonebook` class: its page state, the paging and navigation of
    `show_all_records`, the backward scan of `read_last_line`, the prompting
    loops of `add_record` and `generate_data`, and the menu dispatch of `run`.
    Typed lines are given as a script; the file is given as its text when it
    is read, and the rows appended to it are kept in `appended`. */
module Phonebook {
  import opened Text
  import opened Paging
  import opened LastLineScan
  import opened RecordEntry

  /** One record as `csv.DictReader` yields it: column name to value. */
  type Record = map<string, string>

  /** A row appended to the file: `add_record` writes a field map,
      `generate_data` a list of cells. */
  datatype Row = FieldRow(fields: Record) | CellRow(cells: seq<string>)

  /** How the navigation loop of `show_all_records` ended. */
  datatype Browse = Quit | Chosen(record: nat) | BrowseInputExhausted

  /** How `generate_data` ended. */
  datatype Generation = GenerationQuit | Generated(count: nat) | GenerationInputExhausted

  /** A line that ends the prompting loops of `show_all_records` and
      `generate_data`: `q`, or a numeral. */
  predicate IsStopLine(line: string) {
    line == "q" || IsNumeral(line)
  }

  /** The prefixes of the cells of a generated row; the identifier column has
      none, so a generated row has one cell fewer than the header. The `й` of
      the two number prefixes is `и` followed by U+0306 COMBINING BREVE, as in
      the program's own literals. */
  const GeneratedPrefixes: seq<string> :=
    ["Имя", "Фамилия", "Отчество", "Компания", "Рабочии\U{0306} номер", "Личныи\U{0306} номер"]

  /** Row `i` of `generate_data`: every prefix followed by `str(i)`, the
      numeral of `i` without leading zeros. */
  function GeneratedRow(i: nat): (r: seq<string>)
    ensures |r| == |GeneratedPrefixes|
    ensures forall j :: 0 <= j < |r| ==>
      && StartsWith(r[j], GeneratedPrefixes[j])
      && var suffix := r[j][|GeneratedPrefixes[j]|..];
         IsNumeral(suffix) && ParseNat(suffix) == i && (|suffix| > 1 ==> suffix[0] != '0')
  {
    ParseNatToString(i);
    seq(|GeneratedPrefixes|, j requires 0 <= j < |GeneratedPrefixes| => GeneratedPrefixes[j] + NatToString(i))
  }

  /** The first `n` generated rows. */
  function GeneratedRows(n: nat): (r: seq<Row>)
    ensures |r| == n
    ensures forall i :: 0 <= i < n ==> r[i].CellRow? && |r[i].cells| == |GeneratedPrefixes|
    ensures forall i :: 0 <= i < n ==> r[i] == CellRow(GeneratedRow(i))
  {
    seq(n, i requires 0 <= i < n => CellRow(GeneratedRow(i)))
  }

  /** Generated rows are pairwise distinct, and each has a cell for every
      column but the first. */
  lemma GeneratedRowsDistinct(i: nat, j: nat)
    requires i != j
    ensures GeneratedRow(i) != GeneratedRow(j)
    ensures |GeneratedRow(i)| == |GeneratedPrefixes|
  {
    if GeneratedRow(i) == GeneratedRow(j) {
      var a, b := GeneratedRow(i)[0], GeneratedRow(j)[0];
      assert a[|"Имя"|..] == NatToString(i);
      assert b[|"Имя"|..] == NatToString(j);
      NatToStringInjective(i, j);
    }
  }

  /** The entries of the main menu. */
  datatype Command = Add | Delete | Change | ShowAll | Search | Generate

  /** What one line typed at the main menu does. */
  datatype MenuChoice = LeaveMenu | Dispatch(command: Command) | Invalid

  /** The key of each entry in `main_menu`. */
  function MenuKey(c: Command): string {
    match c
    case Add => "1"
    case Delete => "2"
    case Change => "3"
    case ShowAll => "4"
    case Search => "5"
    case Generate => "6"
  }

  /** One pass of `run`: `q` leaves, a line that is not a numeral or is a
      numeral without an entry is refused, and a key dispatches its entry. */
  function ChooseFromMenu(input: string): (r: MenuChoice)
    ensures r.LeaveMenu? <==> input == "q"
    ensures r.Dispatch? ==> MenuKey(r.command) == input
    ensures forall c :: MenuKey(c) == input ==> r == Dispatch(c)
  {
    if input == "q" then LeaveMenu
    else if !IsNumeral(input) then Invalid
    else if input == "1" then Dispatch(Add)
    else if input == "2" then Dispatch(Delete)
    else if input == "3" then Dispatch(Change)
    else if input == "4" then Dispatch(ShowAll)
    else if input == "5" then Dispatch(Search)
    else if input == "6" then Dispatch(Generate)
    else Invalid
  }

  /** The value of `page` after `steps` lines ends with one more. */
  lemma {:induction false} PageAfterInputsSnoc(page: int, pages: int, inputs: seq<string>, line: string)
    ensures PageAfterInputs(page, pages, inputs + [line])
         == NextPage(PageAfterInputs(page, pages, inputs), pages, line)
    decreases |inputs|
  {
    if inputs != [] {
      assert (inputs + [line])[1..] == inputs[1..] + [line];
      PageAfterInputsSnoc(NextPage(page, pages, inputs[0]), pages, inputs[1..], line);
    } else {
      assert [line][1..] == [];
    }
  }

  class Phonebook {
    const filename: string
    const columns: seq<string>
    const itemsOnPage: nat
    var recordCheck: bool
    var page: int
    var pages: int
    var chosenRecord: Option<nat>
    /** The rows this session has appended to the file, oldest first. */
    var appended: seq<Row>

    /** The page state stays positive. */
    ghost predicate Valid()
      reads this
    {
      1 <= page && 1 <= pages && itemsOnPage == ItemsOnPage
    }

    constructor (filename: string, columns: seq<string>)
      ensures Valid()
      ensures this.filename == filename && this.columns == columns
      ensures page == 1 && pages == 1
      ensures !recordCheck && chosenRecord == None && appended == []
    {
      this.filename := filename;
      this.columns := columns;
      recordCheck := false;
      page := 1;
      pages := 1;
      itemsOnPage := ItemsOnPage;
      chosenRecord := None;
      appended := [];
    }

    /** `pagination`: returns the current page of `data` and updates `pages`
        when the data fills more than one page. */
    method Pagination<T>(data: seq<T>) returns (slice: seq<T>)
      requires Valid()
      modifies this`pages
      ensures Valid()
      ensures pages == PagesAfter(|data|, old(pages))
      ensures slice == PageSlice(data, page)
    {
      if |data| > itemsOnPage {
        pages := (|data| - 1) / itemsOnPage + 1;
      }
      var startIndex := (page - 1) * itemsOnPage;
      var endIndex := startIndex + itemsOnPage;
      if startIndex >= |data| {
        slice := [];
      } else {
        slice := data[startIndex..Min(endIndex, |data|)];
      }
    }

    /** One line typed in the navigation loop of `show_all_records`: `q`
        ends the loop, a page key moves the page within `1..pages`, and a
        numeral records the chosen record and ends the loop. */
    method Navigate(userInput: string) returns (stop: bool)
      requires Valid()
      modifies this`page, this`chosenRecord
      ensures Valid()
      ensures page == NextPage(old(page), pages, userInput)
      ensures stop <==> IsStopLine(userInput)
      ensures stop ==> page == old(page)
      ensures chosenRecord == if IsNumeral(userInput) then Some(ParseNat(userInput)) else old(chosenRecord)
      ensures stop <==> !NavigationOf(userInput).Redraw?
      ensures NavigationOf(userInput).Choose? ==> chosenRecord == Some(NavigationOf(userInput).record)
    {
      if userInput == "q" {
        return true;
      }
      if IsBackKey(userInput) {
        if page > 1 {
          page := page - 1;
          return false;
        }
      }
      if IsForwardKey(userInput) {
        if page < pages {
          page := page + 1;
          return false;
        }
      }
      if IsNumeral(userInput) {
        chosenRecord := Some(ParseNat(userInput));
        return true;
      }
      return false;
    }

    /** The navigation loop of `show_all_records` over `records`: each pass
        shows the current page and reads a line. Page keys move the page
        within `1..pages`, `q` leaves, and a numeral records the chosen
        number and leaves. Returns the page last shown. */
    method ShowAllRecords(records: seq<Record>, script: seq<string>)
      returns (outcome: Browse, shown: seq<Record>, used: nat)
      requires Valid()
      modifies this`page, this`pages, this`chosenRecord
      ensures Valid()
      ensures used <= |script|
      ensures pages == PagesAfter(|records|, old(pages))
      ensures page == PageAfterInputs(old(page), pages, script[..used])
      ensures old(page) <= Max(1, pages) ==> page <= Max(1, pages)
      ensures shown == PageSlice(records, page)
      ensures outcome.BrowseInputExhausted? ==>
        used == |script| && forall j :: 0 <= j < |script| ==> !IsStopLine(script[j])
      ensures !outcome.BrowseInputExhausted? ==>
        0 < used && IsStopLine(script[used - 1])
        && forall j :: 0 <= j < used - 1 ==> !IsStopLine(script[j])
      ensures outcome.Quit? <==> !outcome.BrowseInputExhausted? && script[used - 1] == "q"
      ensures outcome.Chosen? ==> outcome.record == ParseNat(script[used - 1])
      ensures chosenRecord == if outcome.Chosen? then Some(outcome.record) else old(chosenRecord)
    {
      ghost var finalPages := PagesAfter(|records|, old(pages));
      used := 0;
      while true
        invariant Valid()
        invariant used <= |script|
        invariant pages == old(pages) || pages == finalPages
        invariant page == PageAfterInputs(old(page), finalPages, script[..used])
        invariant forall j :: 0 <= j < used ==> !IsStopLine(script[j])
        invariant chosenRecord == old(chosenRecord)
        decreases |script| - used
      {
        shown := Pagination(records);
        if used == |script| {
          outcome := BrowseInputExhausted;
          assert script[..used] == script;
          break;
        }
        var userInput := script[used];
        PageAfterInputsSnoc(old(page), finalPages, script[..used], userInput);
        assert script[..used + 1] == script[..used] + [userInput];
        used := used + 1;
        var stop := Navigate(userInput);
        if stop {
          outcome := if userInput == "q" then Quit else Chosen(ParseNat(userInput));
          break;
        }
      }
      PageAfterInputsPositive(old(page), finalPages, script[..used]);
      if old(page) <= Max(1, pages) {
        PageAfterInputsBounds(old(page), finalPages, script[..used]);
      }
    }

    /** `read_last_line` on a file holding `contents`: scans backwards from
        the end, and at each line break reads the following line; the first
        one that is not blank once stripped is returned, stripped. */
    method ReadLastLine(contents: string) returns (lastLine: Option<string>)
      ensures lastLine == LastLine(contents)
    {
      ghost var found := ScanBack(contents, |contents|);
      var pos := |contents|;
      while pos > 0
        invariant 0 <= pos <= |contents|
        invariant ScanBack(contents, pos) == found
      {
        pos := pos - 1;
        var ch := contents[pos];
        if ch == '\n' {
          var line := Strip(ReadLine(contents, pos + 1));
          if line != [] {
            assert IsCandidate(contents, pos);
            return Some(line);
          }
        }
        assert !IsCandidate(contents, pos);
      }
      return None;
    }

    /** `add_record`: prompts for each column in turn until a line passes its
        check, stops at `q`, and appends the fields collected so far. Running
        out of input raises in Python, and then nothing is appended. */
    method AddRecord(script: seq<string>) returns (entry: Entry)
      modifies this`appended
      ensures entry == CollectRecord(columns, script)
      ensures appended == old(appended) + (if entry.Collected? then [FieldRow(entry.data)] else [])
    {
      ghost var target := CollectRecord(columns, script);
      var data: map<string, string> := map[];
      var userInput: Option<string> := None;
      var i := 0;
      var k := 0;
      while k < |columns|
        invariant 0 <= k <= |columns| && i <= |script|
        invariant appended == old(appended)
        invariant userInput == Some("q") ==>
          k >= 1 && target == Collected(data, k - 1, i)
        invariant userInput != Some("q") ==>
          target == CollectFrom(columns, script, k, i, data)
      {
        var step := columns[k];
        if userInput == Some("q") {
          break;
        }
        while true
          invariant i <= |script|
          invariant target == CollectFrom(columns, script, k, i, data)
          decreases |script| - i
        {
          if i == |script| {
            return InputExhausted;
          }
          var line := script[i];
          i := i + 1;
          userInput := Some(line);
          if line == "q" {
            break;
          }
          if IsNumberColumn(step) {
            userInput := Validators.CheckNumber(line);
            if userInput.None? || userInput.value == [] {
              continue;
            }
          } else {
            userInput := Validators.CheckName(line);
            if userInput.None? || userInput.value == [] {
              continue;
            }
          }
          data := data[step := userInput.value];
          break;
        }
        k := k + 1;
      }
      entry := Collected(data, if userInput == Some("q") then k - 1 else k, i);
      appended := appended + [FieldRow(data)];
    }

    /** `generate_data`: prompts until `q` or a numeral; for a numeral `n`,
        appends the generated rows `0..n-1`. */
    method GenerateData(script: seq<string>) returns (outcome: Generation, used: nat)
      modifies this`appended
      ensures used <= |script|
      ensures outcome.GenerationInputExhausted? ==>
        used == |script| && forall j :: 0 <= j < |script| ==> !IsStopLine(script[j])
      ensures !outcome.GenerationInputExhausted? ==>
        0 < used && IsStopLine(script[used - 1])
        && forall j :: 0 <= j < used - 1 ==> !IsStopLine(script[j])
      ensures outcome.GenerationQuit? <==> !outcome.GenerationInputExhausted? && script[used - 1] == "q"
      ensures outcome.Generated? ==> outcome.count == ParseNat(script[used - 1])
      ensures appended == old(appended) + if outcome.Generated? then GeneratedRows(outcome.count) else []
    {
      used := 0;
      while true
        invariant used <= |script|
        invariant forall j :: 0 <= j < used ==> !IsStopLine(script[j])
        invariant appended == old(appended)
        decreases |script| - used
      {
        if used == |script| {
          return GenerationInputExhausted, used;
        }
        var userInput := script[used];
        used := used + 1;
        if userInput == "q" {
          return GenerationQuit, used;
        }
        if IsNumeral(userInput) {
          var n := ParseNat(userInput);
          for i := 0 to n
            invariant appended == old(appended) + GeneratedRows(i)
          {
            appended := appended + [CellRow(GeneratedRow(i))];
          }
          return Generated(n), used;
        }
      }
    }
  }
}
