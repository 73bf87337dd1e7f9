/**
 * The display logic of the `ResultsTable` component: which rows and
 * columns are shown, how a column name becomes a heading, how a cell value
 * is rendered, and the summary line under the table. JavaScript strings are
 * taken to be ASCII, so one character is one UTF-16 code unit.
 */
module ResultsTable {
  import opened Wrappers
  import opened Text

  /** `Number.MAX_SAFE_INTEGER`, 2^53 - 1. */
  const MaxSafeInteger: int := 0x1F_FFFF_FFFF_FFFF

  /** The integers a JavaScript number holds exactly and one to one. */
  type SafeInteger = n: int | -MaxSafeInteger <= n <= MaxSafeInteger

  /** A JSON value as the component sees it; only safe integral numbers are modelled. */
  datatype JsValue = Undefined | Null | Boolean(b: bool) | Number(n: SafeInteger) | Str(s: string)

  /** A result row: its properties in `Object.keys` order. */
  type Row = seq<(string, JsValue)>

  // ---------------------------------------------------------------------
  // Rows and columns

  /** `tableData`: the rows when `data` is a non-empty array, otherwise none; `None` is a missing or non-array `data`. */
  function TableData(data: Option<seq<Row>>): (rows: seq<Row>)
    ensures rows == [] <==> data.None? || data.value == []
    ensures rows != [] ==> rows == data.value
  {
    if data.None? || |data.value| == 0 then [] else data.value
  }

  /** `Object.keys(row)`. */
  function Keys(row: Row): (keys: seq<string>)
    ensures |keys| == |row|
    ensures forall i :: 0 <= i < |row| ==> keys[i] == row[i].0
  {
    seq(|row|, i requires 0 <= i < |row| => row[i].0)
  }

  /**
   * `tableColumns`: the given column names when they form a non-empty
   * array, otherwise the keys of the first shown row, otherwise none.
   */
  function TableColumns(columns: Option<seq<string>>, rows: seq<Row>): (names: seq<string>)
    ensures columns.Some? && columns.value != [] ==> names == columns.value
    ensures (columns.None? || columns.value == []) && rows != [] ==> names == Keys(rows[0])
    ensures names == [] <==> (columns.None? || columns.value == []) && (rows == [] || rows[0] == [])
  {
    if columns.None? || |columns.value| == 0 then
      if |rows| > 0 then Keys(rows[0]) else []
    else columns.value
  }

  /** `row[column]`: the value of the first property with that name, `undefined` when there is none. */
  function Lookup(row: Row, column: string): (v: JsValue)
    ensures v != Undefined ==> exists i :: 0 <= i < |row| && row[i] == (column, v)
    ensures (forall i :: 0 <= i < |row| ==> row[i].0 != column) ==> v == Undefined
    ensures forall i :: 0 <= i < |row| && row[i].0 == column && (forall j :: 0 <= j < i ==> row[j].0 != column)
                        ==> v == row[i].1
    decreases |row|
  {
    if row == [] then Undefined
    else if row[0].0 == column then row[0].1
    else
      var rest := row[1..];
      assert forall i :: 1 <= i < |row| ==> row[i] == rest[i - 1];
      Lookup(rest, column)
  }

  // ---------------------------------------------------------------------
  // Cells

  /** What a table cell shows. */
  datatype Cell =
    | Placeholder                          // the muted `-`
    | Plain(text: string)
    | Shortened(shown: string, title: string) // the visible text, the full text as tooltip
    | LocaleNumber(n: int)                 // `toLocaleString()`, not modelled further

  const MaxShown: nat := 100
  const KeptPrefix: nat := 97
  const Ellipsis: string := "..."

  /**
   * `formatCellValue`: missing values show the placeholder, booleans a
   * check mark or a cross, numbers up to 999 their decimal text (larger ones
   * are left to the locale), strings over 100 characters their first 97
   * followed by `...` with the whole string as tooltip, and any other
   * string itself.
   */
  function FormatCellValue(v: JsValue): (c: Cell)
    ensures c == Placeholder <==> v == Null || v == Undefined
    ensures v.Boolean? ==> c == Plain(if v.b then "\U{2713}" else "\U{2717}")
    ensures v.Number? && v.n > 999 ==> c == LocaleNumber(v.n)
    ensures v.Number? && 0 <= v.n <= 999 ==>
              c.Plain? && |c.text| >= 1 && AllDigits(c.text) && ParseDecimal(c.text) == v.n && (|c.text| > 1 ==> c.text[0] != '0')
    ensures v.Number? && v.n < 0 ==>
              c.Plain? && |c.text| >= 2 && c.text[0] == '-' && AllDigits(c.text[1..]) && ParseDecimal(c.text[1..]) == -v.n
              && c.text[1] != '0'
    ensures v.Str? && |v.s| <= MaxShown ==> c == Plain(v.s)
    ensures v.Str? && |v.s| > MaxShown ==>
              c.Shortened? && c.title == v.s && |c.shown| == MaxShown
              && c.shown[..KeptPrefix] == v.s[..KeptPrefix] && c.shown[KeptPrefix..] == Ellipsis
  {
    match v
    case Undefined => Placeholder
    case Null => Placeholder
    case Boolean(b) => Plain(if b then "\U{2713}" else "\U{2717}")
    case Number(n) =>
      if n > 999 then LocaleNumber(n)
      else Plain(IntToString(n))
    case Str(s) =>
      if |s| > MaxShown then Shortened(s[..KeptPrefix] + Ellipsis, s) else Plain(s)
  }

  // ---------------------------------------------------------------------
  // Column headings

  /** `word.charAt(0).toUpperCase() + word.slice(1)`. */
  function Capitalize(word: string): (r: string)
    ensures |r| == |word|
    ensures word != [] ==> r[0] == UpperChar(word[0]) && r[1..] == word[1..]
  {
    if word == [] then [] else [UpperChar(word[0])] + word[1..]
  }

  function CapitalizeAll(words: seq<string>): (r: seq<string>)
    ensures |r| == |words|
    ensures forall i :: 0 <= i < |words| ==> r[i] == Capitalize(words[i])
  {
    seq(|words|, i requires 0 <= i < |words| => Capitalize(words[i]))
  }

  /** `formatColumnName`: split on `_`, capitalize every piece, join with single spaces. */
  function FormatColumnName(name: string): (heading: string)
    ensures heading == TitleCase(name, true)
  {
    TitleCaseIsJoin(name, true);
    var pieces := Split(name, '_');
    assert CapitalizeAll(pieces) == [Capitalize(pieces[0])] + CapitalizeAll(pieces[1..]);
    Join(CapitalizeAll(pieces), " ")
  }

  /**
   * The heading character for position `k` of `s`: an underscore becomes a
   * space, the first character of a piece is upper-cased, any other is kept.
   * `atStart` says whether position 0 begins a piece.
   */
  function TitleChar(s: string, k: nat, atStart: bool): char
    requires k < |s|
  {
    if s[k] == '_' then ' '
    else if (if k == 0 then atStart else s[k - 1] == '_') then UpperChar(s[k])
    else s[k]
  }

  /** The heading built one character at a time, each by `TitleChar`. */
  function TitleCase(s: string, atStart: bool): (r: string)
    ensures |r| == |s|
    ensures forall k :: 0 <= k < |s| ==> r[k] == TitleChar(s, k, atStart)
    decreases |s|
  {
    if s == [] then []
    else
      var rest := TitleCase(s[1..], s[0] == '_');
      var r := [TitleChar(s, 0, atStart)] + rest;
      assert forall k :: 0 <= k < |s| ==> r[k] == TitleChar(s, k, atStart) by {
        forall k | 1 <= k < |s|
          ensures r[k] == TitleChar(s, k, atStart)
        {
          assert r[k] == rest[k - 1] == TitleChar(s[1..], k - 1, s[0] == '_');
          assert s[1..][k - 1] == s[k];
          if k > 1 {
            assert s[1..][k - 2] == s[k - 1];
          }
        }
      }
      r
  }

  lemma {:induction false} TitleCaseIsJoin(s: string, atStart: bool)
    ensures var pieces := Split(s, '_');
      TitleCase(s, atStart) ==
        Join([if atStart then Capitalize(pieces[0]) else pieces[0]] + CapitalizeAll(pieces[1..]), " ")
    decreases |s|
  {
    if s != [] {
      var rest := Split(s[1..], '_');
      TitleCaseIsJoin(s[1..], s[0] == '_');
      if s[0] == '_' {
        var capped := CapitalizeAll(rest);
        assert capped == [Capitalize(rest[0])] + CapitalizeAll(rest[1..]);
        assert Split(s, '_')[1..] == rest;
        assert ([""] + capped)[1..] == capped;
      } else {
        var first := [s[0]] + rest[0];
        var c := if atStart then UpperChar(s[0]) else s[0];
        assert Split(s, '_') == [first] + rest[1..];
        assert (if atStart then Capitalize(first) else first) == [c] + rest[0];
        JoinConsFirst(c, rest[0], CapitalizeAll(rest[1..]), " ");
      }
    }
  }

  /**
   * The heading keeps the length of the name, turns exactly the
   * underscores into spaces, upper-cases the first character of every
   * piece, and leaves every other character alone.
   */
  lemma FormatColumnNameChars(name: string)
    ensures |FormatColumnName(name)| == |name|
    ensures forall k :: 0 <= k < |name| ==>
              FormatColumnName(name)[k] ==
                if name[k] == '_' then ' '
                else if k == 0 || name[k - 1] == '_' then UpperChar(name[k])
                else name[k]
    ensures '_' !in FormatColumnName(name)
  {
    var r := FormatColumnName(name);
    forall k | 0 <= k < |name|
      ensures r[k] == if name[k] == '_' then ' '
                      else if k == 0 || name[k - 1] == '_' then UpperChar(name[k])
                      else name[k]
      ensures r[k] != '_'
    {
      assert r[k] == TitleChar(name, k, true);
    }
  }

  /**
   * For a name without spaces, the heading has one space-separated piece
   * per underscore-separated piece of the name, empty pieces included, each
   * the capitalized piece.
   */
  lemma FormatColumnNamePieces(name: string)
    requires ' ' !in name
    ensures Split(FormatColumnName(name), ' ') == CapitalizeAll(Split(name, '_'))
    ensures |Split(FormatColumnName(name), ' ')| == |Split(name, '_')|
  {
    var pieces := Split(name, '_');
    var capped := CapitalizeAll(pieces);
    forall k | 0 <= k < |capped|
      ensures ' ' !in capped[k]
    {
      assert forall c :: c in pieces[k] ==> c in name by {
        JoinSplit(name, '_');
        JoinContainsPiece(pieces, "_", k);
      }
      if capped[k] != [] {
        assert forall j :: 0 <= j < |capped[k]| ==> capped[k][j] != ' ' by {
          forall j | 0 <= j < |capped[k]|
            ensures capped[k][j] != ' '
          {
            assert pieces[k][j] in pieces[k];
          }
        }
      }
    }
    SplitJoin(capped, ' ');
  }

  /** Every character of a piece occurs in the joined text. */
  lemma {:induction false} JoinContainsPiece(parts: seq<string>, sep: string, k: nat)
    requires k < |parts|
    ensures forall c :: c in parts[k] ==> c in Join(parts, sep)
    decreases |parts|
  {
    if |parts| > 1 && k > 0 {
      JoinContainsPiece(parts[1..], sep, k - 1);
    }
  }

  // ---------------------------------------------------------------------
  // Summary line

  /** `n` followed by the noun, with an `s` exactly when `n` is not 1. */
  function Counted(n: nat, noun: string): (r: string)
    requires noun != [] && noun[|noun| - 1] != 's'
    ensures StartsWith(r, NatToString(n) + " " + noun)
    ensures r[|r| - 1] == 's' <==> n != 1
    ensures ParseDecimal(r[..|NatToString(n)|]) == n && r[|NatToString(n)|] == ' '
    ensures |r| == |NatToString(n)| + 1 + |noun| + (if n != 1 then 1 else 0)
  {
    var digits := NatToString(n);
    ParseNatToString(n);
    var r := digits + " " + noun + (if n != 1 then "s" else "");
    assert r[..|digits|] == digits;
    r
  }

  /**
   * The line under the table: how many results, and how many columns when
   * there is at least one.
   */
  function Summary(results: nat, columns: nat): (line: string)
    ensures StartsWith(line, "Showing " + Counted(results, "result"))
    ensures columns == 0 <==> |line| == |"Showing " + Counted(results, "result")|
    ensures columns > 0 ==> line[|"Showing " + Counted(results, "result")|..] == " with " + Counted(columns, "column")
  {
    var head := "Showing " + Counted(results, "result");
    var line := head + (if columns > 0 then " with " + Counted(columns, "column") else "");
    assert line[..|head|] == head;
    line
  }

  // ---------------------------------------------------------------------
  // The whole component

  /** What the component renders. */
  datatype View =
    | NoResults
    | Table(headings: seq<string>, cells: seq<seq<Cell>>, summary: string)

  /**
   * The component: the "no results" notice when there are no rows,
   * otherwise one heading per column, one line of cells per row, and the
   * summary.
   */
  function Render(data: Option<seq<Row>>, columns: Option<seq<string>>): (view: View)
    ensures view == NoResults <==> TableData(data) == []
    ensures view.Table? ==>
              var rows, names := TableData(data), TableColumns(columns, TableData(data));
              && |view.headings| == |names|
              && (forall j :: 0 <= j < |names| ==> view.headings[j] == FormatColumnName(names[j]))
              && |view.cells| == |rows|
              && (forall i :: 0 <= i < |rows| ==> |view.cells[i]| == |names|)
              && (forall i, j :: 0 <= i < |rows| && 0 <= j < |names| ==>
                    view.cells[i][j] == FormatCellValue(Lookup(rows[i], names[j])))
              && view.summary == Summary(|rows|, |names|)
  {
    var rows := TableData(data);
    if |rows| == 0 then NoResults
    else
      var names := TableColumns(columns, rows);
      Table(
        seq(|names|, j requires 0 <= j < |names| => FormatColumnName(names[j])),
        seq(|rows|, i requires 0 <= i < |rows| =>
          seq(|names|, j requires 0 <= j < |names| => FormatCellValue(Lookup(rows[i], names[j])))),
        Summary(|rows|, |names|))
  }
}
