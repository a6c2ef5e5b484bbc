/**
 * Spreadsheet import: the file-suffix check, the normalisation of column
 * headers onto the field names `id`, `length`, `width`, `weight` and
 * `height`, and the validation that turns each row into a box or into
 * error and warning messages. A sheet is a header row and data rows of
 * cells; each cell is empty (pandas' NaN) or carries the text `str` gives
 * for it together with the number `float` gives for it, if any.
 */
module ExcelReader {
  import opened Wrappers
  import opened Boxes

  // ---------------------------------------------------------------------------
  // Characters and strings

  /** Python's `str.isspace`. */
  predicate IsSpace(c: char)
  {
    || ('\t' <= c <= '\r') || ('\U{1C}' <= c <= '\U{1F}') || c == ' ' || c == '\U{85}' || c == '\U{A0}'
    || c == '\U{1680}' || ('\U{2000}' <= c <= '\U{200A}') || c == '\U{2028}' || c == '\U{2029}'
    || c == '\U{202F}' || c == '\U{205F}' || c == '\U{3000}'
  }

  function LeadingSpaces(s: string): (n: nat)
    ensures n <= |s|
    ensures forall k :: 0 <= k < n ==> IsSpace(s[k])
    ensures n < |s| ==> !IsSpace(s[n])
  {
    if |s| == 0 || !IsSpace(s[0]) then 0 else 1 + LeadingSpaces(s[1..])
  }

  function TrailingSpaces(s: string): (n: nat)
    ensures n <= |s|
    ensures forall k :: |s| - n <= k < |s| ==> IsSpace(s[k])
    ensures n < |s| ==> !IsSpace(s[|s| - 1 - n])
  {
    if |s| == 0 || !IsSpace(s[|s| - 1]) then 0 else 1 + TrailingSpaces(s[..|s| - 1])
  }

  /** `r` sits at position `i` of `s` with only whitespace around it. */
  predicate PaddedAt(s: string, r: string, i: int)
  {
    && 0 <= i && i + |r| <= |s| && s[i..i + |r|] == r
    && (forall k :: 0 <= k < i ==> IsSpace(s[k]))
    && (forall k :: i + |r| <= k < |s| ==> IsSpace(s[k]))
  }

  /** `str.strip()`: the infix that neither starts nor ends with whitespace
      and has only whitespace around it. */
  function Strip(s: string): (r: string)
    ensures |r| > 0 ==> !IsSpace(r[0]) && !IsSpace(r[|r| - 1])
    ensures exists i :: PaddedAt(s, r, i)
  {
    var i := LeadingSpaces(s);
    if i == |s| then
      assert PaddedAt(s, "", 0);
      ""
    else
      var j := |s| - TrailingSpaces(s);
      assert i < j;
      assert PaddedAt(s, s[i..j], i);
      s[i..j]
  }

  /** A string that neither starts nor ends with whitespace is its own
      stripped form. */
  lemma StripUnpadded(s: string)
    requires |s| > 0 && !IsSpace(s[0]) && !IsSpace(s[|s| - 1])
    ensures Strip(s) == s
  {
    assert LeadingSpaces(s) == 0 && TrailingSpaces(s) == 0;
    assert s[0..|s|] == s;
  }

  /** Stripping is idempotent. */
  lemma StripIsIdempotent(s: string)
    ensures Strip(Strip(s)) == Strip(s)
  {
  }

  /** `s.replace('\n', '').replace('\r', '')`. */
  function RemoveLineBreaks(s: string): (r: string)
    ensures forall k :: 0 <= k < |r| ==> r[k] != '\n' && r[k] != '\r'
    ensures |r| <= |s|
    ensures (forall k :: 0 <= k < |s| ==> s[k] != '\n' && s[k] != '\r') ==> r == s
  {
    if |s| == 0 then ""
    else
      var rest := RemoveLineBreaks(s[1..]);
      if s[0] == '\n' || s[0] == '\r' then rest else [s[0]] + rest
  }

  /** ASCII lower-casing (the only letters the field names contain). */
  function Lower(s: string): (r: string)
    ensures |r| == |s|
    ensures forall k :: 0 <= k < |s| ==> r[k] == (if 'A' <= s[k] <= 'Z' then (s[k] as int + 32) as char else s[k])
  {
    if |s| == 0 then "" else [if 'A' <= s[0] <= 'Z' then (s[0] as int + 32) as char else s[0]] + Lower(s[1..])
  }

  /** `needle` occurs in `hay` at position `i`. */
  predicate OccursAt(hay: string, needle: string, i: int)
  {
    0 <= i && i + |needle| <= |hay| && hay[i..i + |needle|] == needle
  }

  /** Python's `needle in hay` on strings. */
  function Contains(hay: string, needle: string): (b: bool)
    ensures b <==> exists i :: OccursAt(hay, needle, i)
    decreases |hay|
  {
    if |needle| > |hay| then
      assert forall i :: !OccursAt(hay, needle, i);
      false
    else if hay[..|needle|] == needle then
      assert OccursAt(hay, needle, 0);
      true
    else
      var r := Contains(hay[1..], needle);
      forall i
        ensures OccursAt(hay, needle, i) <==> i != 0 && OccursAt(hay[1..], needle, i - 1)
      {
        if 1 <= i && i + |needle| <= |hay| {
          var a := hay[i..i + |needle|];
          var b := hay[1..][i - 1..i - 1 + |needle|];
          assert |a| == |b|;
          assert forall t :: 0 <= t < |a| ==> a[t] == hay[i + t] == b[t];
          assert a == b;
        }
      }
      if r then
        var i :| OccursAt(hay[1..], needle, i);
        assert OccursAt(hay, needle, i + 1);
        r
      else
        r
  }

  // ---------------------------------------------------------------------------
  // File suffix

  const SupportedFormats: seq<string> := [".xlsx", ".xls"]

  /** The last path component (POSIX separators, trailing slashes ignored). */
  function FileName(path: string): (r: string)
    ensures '/' !in r
    decreases |path|
  {
    if |path| == 0 then ""
    else if path[|path| - 1] == '/' then FileName(path[..|path| - 1])
    else LastComponent(path)
  }

  function LastComponent(path: string): (r: string)
    ensures '/' !in r
    ensures |r| <= |path| && r == path[|path| - |r|..]
  {
    if |path| == 0 || path[|path| - 1] == '/' then ""
    else LastComponent(path[..|path| - 1]) + [path[|path| - 1]]
  }

  /** Position of the last `'.'`, as `str.rfind`. */
  function LastDot(s: string): (i: int)
    ensures -1 <= i < |s|
    ensures i >= 0 ==> s[i] == '.'
    ensures forall k :: i < k < |s| ==> s[k] != '.'
  {
    if |s| == 0 then -1 else if s[|s| - 1] == '.' then |s| - 1 else LastDot(s[..|s| - 1])
  }

  /** `Path(path).suffix`: from the last dot of the file name, provided the
      dot is neither the first nor the last character; otherwise empty. */
  function Suffix(path: string): (r: string)
    ensures r == [] || (|r| >= 2 && r[0] == '.' && '.' !in r[1..])
    ensures r != [] ==> |r| < |FileName(path)| && r == FileName(path)[|FileName(path)| - |r|..]
  {
    var name := FileName(path);
    var i := LastDot(name);
    if 0 < i < |name| - 1 then
      assert '.' !in name[i..][1..] by {
        assert name[i..][1..] == name[i + 1..];
      }
      name[i..]
    else []
  }

  /** A name without slashes is its own file name. */
  lemma {:induction false} PlainNameIsFileName(name: string)
    requires |name| > 0 && '/' !in name
    ensures FileName(name) == name
  {
    LastComponentOfPlainName(name);
  }

  lemma {:induction false} LastComponentOfPlainName(name: string)
    requires '/' !in name
    ensures LastComponent(name) == name
    decreases |name|
  {
    if |name| > 0 {
      var init := name[..|name| - 1];
      assert name[|name| - 1] != '/';
      assert '/' !in init by {
        assert forall k :: 0 <= k < |init| ==> init[k] == name[k];
      }
      assert init + [name[|name| - 1]] == name;
      assert LastComponent(name) == LastComponent(init) + [name[|name| - 1]];
      LastComponentOfPlainName(init);
    }
  }

  /** The suffix of a plain file name `stem + ext`, where `ext` is a dot
      followed by at least one character and no further dot, is `ext`. */
  lemma SuffixOfPlainName(stem: string, ext: string)
    requires |stem| > 0 && '/' !in stem + ext
    requires |ext| >= 2 && ext[0] == '.' && '.' !in ext[1..]
    ensures Suffix(stem + ext) == ext
  {
    var name := stem + ext;
    PlainNameIsFileName(name);
    var i := LastDot(name);
    assert name[|stem|] == '.';
    assert forall k :: |stem| < k < |name| ==> name[k] == ext[1..][k - |stem| - 1];
    assert i == |stem|;
    assert name[i..] == ext;
  }

  predicate IsSupported(path: string)
  {
    Lower(Suffix(path)) in SupportedFormats
  }

  // ---------------------------------------------------------------------------
  // Column names

  /** `FIELD_MAPPING`, in declaration order. */
  const FieldMapping: seq<(string, string)> := [
    ("箱号", "id"), ("ID", "id"), ("id", "id"), ("编号", "id"),
    ("长度", "length"), ("长", "length"), ("length", "length"), ("Length", "length"),
    ("宽度", "width"), ("宽", "width"), ("width", "width"), ("Width", "width"),
    ("重量", "weight"), ("weight", "weight"), ("Weight", "weight"),
    ("高度", "height"), ("高", "height"), ("height", "height"), ("Height", "height")]

  /** The header with surrounding whitespace and line breaks removed. */
  function CleanName(col: string): string
  {
    RemoveLineBreaks(Strip(col))
  }

  /** Dictionary lookup: the value of the first entry whose key is `name`. */
  function ExactMatch(m: seq<(string, string)>, name: string): (r: Option<string>)
    ensures r.Some? ==> exists i :: 0 <= i < |m| && m[i].0 == name && m[i].1 == r.value
    ensures r.None? <==> forall i :: 0 <= i < |m| ==> m[i].0 != name
  {
    if |m| == 0 then None
    else if m[0].0 == name then Some(m[0].1)
    else
      var r := ExactMatch(m[1..], name);
      assert forall i :: 1 <= i < |m| ==> m[i] == m[1..][i - 1];
      r
  }

  /** The key matches `name` loosely: its lower-case form occurs in the
      lower-cased name. */
  predicate Loose(key: string, name: string)
  {
    Contains(Lower(name), Lower(key))
  }

  /** Entry `i` is the first whose key matches `name` loosely. */
  predicate FirstLooseAt(m: seq<(string, string)>, name: string, i: int)
  {
    0 <= i < |m| && Loose(m[i].0, name) && forall k :: 0 <= k < i ==> !Loose(m[k].0, name)
  }

  /** The value of the first entry, in order, whose key matches loosely. */
  function FuzzyMatch(m: seq<(string, string)>, name: string): (r: Option<string>)
    ensures r.Some? ==> exists i :: FirstLooseAt(m, name, i) && m[i].1 == r.value
    ensures r.None? <==> forall i :: 0 <= i < |m| ==> !Loose(m[i].0, name)
  {
    if |m| == 0 then None
    else if Loose(m[0].0, name) then Some(m[0].1)
    else
      var r := FuzzyMatch(m[1..], name);
      assert forall i :: 1 <= i < |m| ==> m[i] == m[1..][i - 1];
      if r.Some? then
        var i :| FirstLooseAt(m[1..], name, i) && m[1..][i].1 == r.value;
        assert forall k :: 0 <= k < i + 1 ==> !Loose(m[k].0, name) by {
          forall k | 0 <= k < i + 1
            ensures !Loose(m[k].0, name)
          {
            if k > 0 {
              assert m[k] == m[1..][k - 1];
            }
          }
        }
        assert FirstLooseAt(m, name, i + 1);
        r
      else
        r
  }

  /** The name a header is renamed to: an exact key wins, then the first
      loose match; a header matching nothing keeps its original text. */
  function MapColumn(col: string): (r: string)
    ensures var clean := CleanName(col);
      match ExactMatch(FieldMapping, clean)
      case Some(v) => r == v
      case None => r == FuzzyMatch(FieldMapping, clean).GetOr(col)
  {
    var clean := CleanName(col);
    match ExactMatch(FieldMapping, clean)
    case Some(v) => v
    case None => FuzzyMatch(FieldMapping, clean).GetOr(col)
  }

  function MapColumns(cols: seq<string>): (r: seq<string>)
    ensures |r| == |cols|
    ensures forall k :: 0 <= k < |cols| ==> r[k] == MapColumn(cols[k])
  {
    if |cols| == 0 then []
    else
      var rest := MapColumns(cols[1..]);
      assert forall k :: 1 <= k < |cols| ==> cols[1..][k - 1] == cols[k];
      [MapColumn(cols[0])] + rest
  }

  /** A needle whose first character is absent from the haystack does not
      occur in it. */
  lemma AbsentCharBlocksMatch(hay: string, needle: string)
    requires |needle| > 0 && needle[0] !in hay
    ensures !Contains(hay, needle)
  {
  }

  lemma CleanLengthHeader()
    ensures CleanName(" 长度\n") == "长度"
  {
    assert Strip(" 长度\n") == "长度";
    assert RemoveLineBreaks("长度") == "长度";
  }

  /** Entry `i` holds the first key equal to `name`. */
  predicate FirstKeyAt(m: seq<(string, string)>, name: string, i: int)
  {
    0 <= i < |m| && m[i].0 == name && forall k :: 0 <= k < i ==> m[k].0 != name
  }

  lemma {:induction false} ExactMatchFindsFirstKey(m: seq<(string, string)>, name: string, i: int)
    requires FirstKeyAt(m, name, i)
    ensures ExactMatch(m, name) == Some(m[i].1)
  {
    if i > 0 {
      assert FirstKeyAt(m[1..], name, i - 1) by {
        forall k | 0 <= k < i - 1
          ensures m[1..][k].0 != name
        {
          assert m[1..][k] == m[k + 1];
        }
      }
      ExactMatchFindsFirstKey(m[1..], name, i - 1);
    }
  }

  /** Headers that name a field exactly keep that field after cleaning. */
  lemma ExactHeadersWin()
    ensures MapColumn(" 长度\n") == "length"
  {
    CleanLengthHeader();
    assert FirstKeyAt(FieldMapping, "长度", 4);
    ExactMatchFindsFirstKey(FieldMapping, "长度", 4);
  }

  /** Steps of `LooseMatchFollowsOrder`, kept apart so that each proof stays
      small: cleaning leaves the header as it is. */
  lemma CleanWidthHeader()
    ensures CleanName("Width (mm)") == "Width (mm)"
  {
    var s := "Width (mm)";
    StripUnpadded(s);
    assert forall k :: 0 <= k < |s| ==> s[k] != '\n' && s[k] != '\r';
  }

  /** No key is as long as the header, so none equals it. */
  lemma WidthHeaderIsNotAKey()
    ensures ExactMatch(FieldMapping, "Width (mm)").None?
  {
    assert forall i :: 0 <= i < |FieldMapping| ==> |FieldMapping[i].0| < 10;
  }

  /** Lower-casing leaves a string without capital letters unchanged. */
  lemma LowerKeepsUncased(s: string)
    requires forall k :: 0 <= k < |s| ==> !('A' <= s[k] <= 'Z')
    ensures Lower(s) == s
  {
  }

  /** Lower-casing keeps a string within ASCII. */
  lemma LowerStaysAscii(s: string)
    requires forall k :: 0 <= k < |s| ==> s[k] < '\U{80}'
    ensures forall k :: 0 <= k < |s| ==> Lower(s)[k] < '\U{80}'
  {
  }

  /** The lower-cased header holds "id" at position 1. */
  lemma WidthHeaderHasId()
    ensures OccursAt(Lower("Width (mm)"), "id", 1)
  {
    var low := Lower("Width (mm)");
    assert low[1] == 'i' && low[2] == 'd';
    assert low[1..3] == "id";
  }

  /** The lower-cased header has no Chinese character. */
  lemma WidthHeaderIsAscii()
    ensures '箱' !in Lower("Width (mm)")
  {
    var s := "Width (mm)";
    assert forall k :: 0 <= k < |s| ==> s[k] < '\U{80}';
    LowerStaysAscii(s);
  }

  /** The first key, "箱号", is not a loose match. */
  lemma WidthHeaderMissesFirstKey()
    ensures !Loose("箱号", "Width (mm)")
  {
    WidthHeaderIsAscii();
    LowerKeepsUncased("箱号");
    AbsentCharBlocksMatch(Lower("Width (mm)"), "箱号");
  }

  /** The second key, "ID", is a loose match. */
  lemma WidthHeaderMatchesSecondKey()
    ensures Loose("ID", "Width (mm)")
  {
    WidthHeaderHasId();
    assert Lower("ID") == "id";
  }

  lemma FuzzyMatchFindsFirstLoose(m: seq<(string, string)>, name: string, i: int)
    requires FirstLooseAt(m, name, i)
    ensures FuzzyMatch(m, name) == Some(m[i].1)
  {
    var r := FuzzyMatch(m, name);
    var j :| FirstLooseAt(m, name, j) && m[j].1 == r.value;
    assert !(j < i) && !(i < j);
  }

  /** The loose match follows declaration order, so a width header that
      contains the letters "id" becomes the id column. */
  lemma LooseMatchFollowsOrder()
    ensures MapColumn("Width (mm)") == "id"
  {
    CleanWidthHeader();
    WidthHeaderIsNotAKey();
    WidthHeaderFirstLooseAtId();
    MapColumnByLooseMatch("Width (mm)", 1, "id");
  }

  /** The first loose match of the width header is the second entry, whose
      key is "ID" and whose field is id. */
  lemma WidthHeaderFirstLooseAtId()
    ensures FirstLooseAt(FieldMapping, "Width (mm)", 1) && FieldMapping[1].1 == "id"
  {
    WidthHeaderMissesFirstKey();
    WidthHeaderMatchesSecondKey();
    FirstTwoEntries();
    SecondLooseIsFirst(FieldMapping, "Width (mm)");
  }

  /** The first two entries of the field table. */
  lemma FirstTwoEntries()
    ensures |FieldMapping| >= 2
    ensures FieldMapping[0].0 == "箱号" && FieldMapping[1] == ("ID", "id")
  {
  }

  /** When the first key misses and the second matches, the second entry is
      the first loose match. */
  lemma SecondLooseIsFirst(m: seq<(string, string)>, name: string)
    requires |m| >= 2 && !Loose(m[0].0, name) && Loose(m[1].0, name)
    ensures FirstLooseAt(m, name, 1)
  {
  }

  /** A clean header that names no field exactly is renamed by its first
      loose match. */
  lemma MapColumnByLooseMatch(col: string, i: int, field: string)
    requires CleanName(col) == col && ExactMatch(FieldMapping, col).None?
    requires FirstLooseAt(FieldMapping, col, i) && FieldMapping[i].1 == field
    ensures MapColumn(col) == field
  {
    FuzzyMatchFindsFirstLoose(FieldMapping, col, i);
  }

  // ---------------------------------------------------------------------------
  // Rows

  /** A cell: empty, or the text and (if it parses) the number it holds. */
  datatype Value = Missing | Cell(text: string, number: Option<real>)

  /** The cell is `NaN` or the empty string. */
  predicate IsBlank(v: Value)
  {
    v.Missing? || v.text == ""
  }

  /** The row, in a sheet with these headers, at one column name: absent,
      one cell, or several cells (a repeated header). */
  datatype Lookup = Absent | One(value: Value) | Many

  function Positions(columns: seq<string>, field: string): (ps: seq<nat>)
    ensures forall k: int :: k in ps <==> 0 <= k < |columns| && columns[k] == field
  {
    if |columns| == 0 then []
    else
      var rest := Positions(columns[..|columns| - 1], field);
      if columns[|columns| - 1] == field then rest + [|columns| - 1] else rest
  }

  /** Cells beyond the end of a short row read as empty. */
  function CellAt(row: seq<Value>, k: nat): Value
  {
    if k < |row| then row[k] else Missing
  }

  function Get(columns: seq<string>, row: seq<Value>, field: string): (r: Lookup)
    ensures r.Absent? <==> field !in columns
  {
    var ps := Positions(columns, field);
    if |ps| == 0 then
      assert forall k :: 0 <= k < |columns| ==> columns[k] != field;
      Absent
    else
      assert ps[0] in ps;
      if |ps| == 1 then One(CellAt(row, ps[0])) else Many
  }

  predicate AllMissing(row: seq<Value>)
  {
    forall k :: 0 <= k < |row| ==> row[k].Missing?
  }

  /** `dropna(how='all')` followed by renumbering. */
  function DropEmptyRows(rows: seq<seq<Value>>): (r: seq<seq<Value>>)
    ensures |r| <= |rows|
    ensures forall row :: row in r <==> row in rows && !AllMissing(row)
  {
    if |rows| == 0 then []
    else
      var rest := DropEmptyRows(rows[..|rows| - 1]);
      assert forall row :: row in rows <==> row in rows[..|rows| - 1] || row == rows[|rows| - 1];
      if AllMissing(rows[|rows| - 1]) then rest else rest + [rows[|rows| - 1]]
  }

  /** Dropping empty rows works row by row and keeps the order: the rows
      kept from `a + b` are those kept from `a` followed by those kept
      from `b`. */
  lemma {:induction false} DropEmptyRowsAppend(a: seq<seq<Value>>, b: seq<seq<Value>>)
    ensures DropEmptyRows(a + b) == DropEmptyRows(a) + DropEmptyRows(b)
    decreases |b|
  {
    if |b| == 0 {
      assert a + b == a;
    } else {
      var init := b[..|b| - 1];
      assert (a + b)[..|a + b| - 1] == a + init;
      assert (a + b)[|a + b| - 1] == b[|b| - 1];
      DropEmptyRowsAppend(a, init);
    }
  }

  /** A single row is dropped exactly when every cell is missing. */
  lemma DropEmptyRowsOne(row: seq<Value>)
    ensures DropEmptyRows([row]) == if AllMissing(row) then [] else [row]
  {
    assert [row][..0] == [];
  }

  /** Hence the kept rows are the non-empty rows in their original order. */
  lemma {:induction false} DropEmptyRowsKeepsOrder(rows: seq<seq<Value>>)
    ensures DropEmptyRows(rows) == FilterRows(rows)
    decreases |rows|
  {
    if |rows| > 0 {
      assert rows == [rows[0]] + rows[1..];
      DropEmptyRowsAppend([rows[0]], rows[1..]);
      DropEmptyRowsOne(rows[0]);
      DropEmptyRowsKeepsOrder(rows[1..]);
    }
  }

  /** Reference definition: keep each non-empty row, front to back. */
  function FilterRows(rows: seq<seq<Value>>): seq<seq<Value>>
  {
    if |rows| == 0 then []
    else (if AllMissing(rows[0]) then [] else [rows[0]]) + FilterRows(rows[1..])
  }

  /** Messages; row numbers count from 1 after empty rows are dropped. */
  datatype Issue =
    | UnsupportedFormat(suffix: string)
    | MissingFields(fields: seq<string>)
    | EmptyField(row: nat, field: string)
    | NotPositive(row: nat)
    | ConversionError(row: nat)
    | ProcessingError(row: nat)
    | HeightNotPositive(row: nat)
    | HeightInvalid(row: nat)

  const Required: seq<string> := ["id", "length", "width", "weight"]

  /** The field's lookup gives one non-blank cell. */
  predicate Usable(l: Lookup)
  {
    l.One? && !IsBlank(l.value)
  }

  /** The required-field pass: one error per blank field, and a processing
      error (which ends the pass) at the first field that is absent or
      repeated. The flag says whether every field was usable. */
  function ScanRequired(columns: seq<string>, row: seq<Value>, rowNo: nat, fields: seq<string>): (r: (seq<Issue>, bool))
    ensures r.1 <==> forall i :: 0 <= i < |fields| ==> Usable(Get(columns, row, fields[i]))
    ensures r.1 ==> r.0 == []
    ensures !r.1 ==> |r.0| > 0
    decreases |fields|
  {
    if |fields| == 0 then ([], true)
    else
      assert forall i :: 1 <= i < |fields| ==> fields[i] == fields[1..][i - 1];
      match Get(columns, row, fields[0])
      case Absent => ([ProcessingError(rowNo)], false)
      case Many => ([ProcessingError(rowNo)], false)
      case One(v) =>
        var rest := ScanRequired(columns, row, rowNo, fields[1..]);
        if IsBlank(v) then ([EmptyField(rowNo, fields[0])] + rest.0, false) else rest
  }

  /** What the optional height column gives: a height (with a warning when
      it is ignored), or a conversion failure for a repeated header. */
  datatype Height = HeightValue(height: Option<real>, warnings: seq<Issue>) | HeightFailure

  function ReadHeight(columns: seq<string>, row: seq<Value>, rowNo: nat): (r: Height)
    ensures r.HeightFailure? <==> Get(columns, row, "height").Many?
    ensures r.HeightValue? && r.height.Some? ==> r.height.value > 0.0
    ensures r.HeightValue? ==>
      (r.height.Some? <==> Number(columns, row, "height").Some? && Number(columns, row, "height").value > 0.0)
    ensures r.HeightValue? && r.height.Some? ==> r.height == Number(columns, row, "height")
  {
    match Get(columns, row, "height")
    case Absent => HeightValue(None, [])
    case Many => HeightFailure
    case One(Missing) => HeightValue(None, [])
    case One(Cell(_, None)) => HeightValue(None, [HeightInvalid(rowNo)])
    case One(Cell(_, Some(h))) => if h <= 0.0 then HeightValue(None, [HeightNotPositive(rowNo)]) else HeightValue(Some(h), [])
  }

  /** The number a usable field's cell parses to, if any. */
  function Number(columns: seq<string>, row: seq<Value>, field: string): Option<real>
  {
    var l := Get(columns, row, field);
    if l.One? && l.value.Cell? then l.value.number else None
  }

  /** A row yields a box: every required field is one non-blank cell, the
      three measures parse to positive numbers and the height column is not
      repeated. */
  predicate Acceptable(columns: seq<string>, row: seq<Value>)
  {
    && (forall i :: 0 <= i < |Required| ==> Usable(Get(columns, row, Required[i])))
    && Number(columns, row, "length").Some? && Number(columns, row, "length").value > 0.0
    && Number(columns, row, "width").Some? && Number(columns, row, "width").value > 0.0
    && Number(columns, row, "weight").Some? && Number(columns, row, "weight").value > 0.0
    && !Get(columns, row, "height").Many?
  }

  /** The height a row's box gets: the height cell's number when it is
      positive. */
  function PositiveHeight(columns: seq<string>, row: seq<Value>): (h: Option<real>)
    ensures h.Some? ==> h.value > 0.0
  {
    var n := Number(columns, row, "height");
    if n.Some? && n.value > 0.0 then n else None
  }

  /** The box a row stands for, stated without the order of the checks. */
  function RowBox(columns: seq<string>, row: seq<Value>): Option<Box>
  {
    if Acceptable(columns, row) then
      assert Required[0] == "id" && Usable(Get(columns, row, Required[0]));
      Some(NewBox(Get(columns, row, "id").value.text, Number(columns, row, "length").value,
                  Number(columns, row, "width").value, Number(columns, row, "weight").value,
                  PositiveHeight(columns, row)))
    else None
  }

  datatype RowResult = RowResult(box: Option<Box>, errors: seq<Issue>, warnings: seq<Issue>)

  /** One iteration of the row loop of `_convert_to_boxes`. */
  function ProcessRow(columns: seq<string>, row: seq<Value>, rowNo: nat): (r: RowResult)
    ensures r.box == RowBox(columns, row)
    ensures r.box.Some? <==> r.errors == []
    ensures r.box.None? ==> r.warnings == []
  {
    var (errs, ok) := ScanRequired(columns, row, rowNo, Required);
    if !ok then RowResult(None, errs, [])
    else
      assert Usable(Get(columns, row, Required[0])) && Usable(Get(columns, row, Required[1]));
      assert Usable(Get(columns, row, Required[2])) && Usable(Get(columns, row, Required[3]));
      var id := Get(columns, row, "id").value.text;
      var length := Number(columns, row, "length");
      var width := Number(columns, row, "width");
      var weight := Number(columns, row, "weight");
      if length.None? || width.None? || weight.None? then RowResult(None, [ConversionError(rowNo)], [])
      else if length.value <= 0.0 || width.value <= 0.0 || weight.value <= 0.0 then RowResult(None, [NotPositive(rowNo)], [])
      else
        match ReadHeight(columns, row, rowNo)
        case HeightFailure => RowResult(None, [ConversionError(rowNo)], [])
        case HeightValue(h, ws) => RowResult(Some(NewBox(id, length.value, width.value, weight.value, h)), [], ws)
  }

  /** A row whose required cells are all single but one of them is blank
      yields no box and an error naming that field. */
  lemma BlankFieldIsReported(columns: seq<string>, row: seq<Value>, rowNo: nat, i: nat)
    requires i < |Required|
    requires forall j :: 0 <= j < |Required| ==> Get(columns, row, Required[j]).One?
    requires IsBlank(Get(columns, row, Required[i]).value)
    ensures ProcessRow(columns, row, rowNo).box.None?
    ensures EmptyField(rowNo, Required[i]) in ProcessRow(columns, row, rowNo).errors
  {
    BlankFieldIsReportedFrom(columns, row, rowNo, Required, i);
  }

  lemma {:induction false} BlankFieldIsReportedFrom(columns: seq<string>, row: seq<Value>, rowNo: nat, fields: seq<string>, i: nat)
    requires i < |fields|
    requires forall j :: 0 <= j < |fields| ==> Get(columns, row, fields[j]).One?
    requires IsBlank(Get(columns, row, fields[i]).value)
    ensures EmptyField(rowNo, fields[i]) in ScanRequired(columns, row, rowNo, fields).0
    decreases |fields|
  {
    assert Get(columns, row, fields[0]).One?;
    if i > 0 {
      assert forall j :: 1 <= j < |fields| ==> fields[j] == fields[1..][j - 1];
      BlankFieldIsReportedFrom(columns, row, rowNo, fields[1..], i - 1);
    }
  }

  datatype Conversion = Conversion(boxes: seq<Box>, errors: seq<Issue>, warnings: seq<Issue>)

  /** The present results of `f` over `s`, in order. */
  function FilterMap<T, U>(f: T -> Option<U>, s: seq<T>): seq<U>
  {
    if |s| == 0 then []
    else FilterMap(f, s[..|s| - 1]) + (if f(s[|s| - 1]).Some? then [f(s[|s| - 1]).value] else [])
  }

  lemma {:induction false} FilterMapAppend<T, U>(f: T -> Option<U>, a: seq<T>, b: seq<T>)
    ensures FilterMap(f, a + b) == FilterMap(f, a) + FilterMap(f, b)
    decreases |b|
  {
    if |b| == 0 {
      assert a + b == a;
    } else {
      var ab := a + b;
      assert ab[..|ab| - 1] == a + b[..|b| - 1];
      assert ab[|ab| - 1] == b[|b| - 1];
      FilterMapAppend(f, a, b[..|b| - 1]);
    }
  }

  lemma {:induction false} FilterMapOrigin<T, U>(f: T -> Option<U>, s: seq<T>, u: U)
    requires u in FilterMap(f, s)
    ensures exists k :: 0 <= k < |s| && f(s[k]) == Some(u)
  {
    var prev := s[..|s| - 1];
    if u in FilterMap(f, prev) {
      FilterMapOrigin(f, prev, u);
      var k :| 0 <= k < |prev| && f(prev[k]) == Some(u);
      assert s[k] == prev[k];
    } else {
      assert f(s[|s| - 1]) == Some(u);
    }
  }

  function RowBoxOf(columns: seq<string>): seq<Value> -> Option<Box>
  {
    row => RowBox(columns, row)
  }

  /** The boxes the rows stand for, in row order. */
  function Accepted(columns: seq<string>, rows: seq<seq<Value>>): seq<Box>
  {
    FilterMap(RowBoxOf(columns), rows)
  }

  /** The row loop over rows numbered from 1. */
  function ConvertRows(columns: seq<string>, rows: seq<seq<Value>>): (r: Conversion)
    ensures r.boxes == Accepted(columns, rows)
    ensures |r.boxes| <= |rows|
    ensures forall b :: b in r.boxes ==>
      && b.length > 0.0 && b.width > 0.0 && b.weight > 0.0
      && (b.height.Some? ==> b.height.value > 0.0)
  {
    if |rows| == 0 then Conversion([], [], [])
    else
      var prev := ConvertRows(columns, rows[..|rows| - 1]);
      var last := ProcessRow(columns, rows[|rows| - 1], |rows|);
      if last.box.Some? then
        assert ReadHeight(columns, rows[|rows| - 1], |rows|).HeightValue?;
        Conversion(prev.boxes + [last.box.value], prev.errors + last.errors, prev.warnings + last.warnings)
      else
        Conversion(prev.boxes, prev.errors + last.errors, prev.warnings + last.warnings)
  }

  /** Every accepted box is the box of some row. */
  lemma EveryBoxHasARow(columns: seq<string>, rows: seq<seq<Value>>, b: Box)
    requires b in ConvertRows(columns, rows).boxes
    ensures exists k :: 0 <= k < |rows| && RowBox(columns, rows[k]) == Some(b)
  {
    FilterMapOrigin(RowBoxOf(columns), rows, b);
  }

  /** Accepted boxes keep row order: converting two blocks of rows gives the
      boxes of the first block followed by those of the second. */
  lemma ConvertKeepsRowOrder(columns: seq<string>, a: seq<seq<Value>>, b: seq<seq<Value>>)
    ensures ConvertRows(columns, a + b).boxes == ConvertRows(columns, a).boxes + ConvertRows(columns, b).boxes
  {
    FilterMapAppend(RowBoxOf(columns), a, b);
  }

  /** The required fields missing from the headers, in order. */
  function MissingRequired(columns: seq<string>, fields: seq<string>): (r: seq<string>)
    ensures forall f :: f in r <==> f in fields && f !in columns
  {
    if |fields| == 0 then []
    else (if fields[0] in columns then [] else [fields[0]]) + MissingRequired(columns, fields[1..])
  }

  /** Every required field names a column. */
  predicate HasRequired(columns: seq<string>)
  {
    forall i :: 0 <= i < |Required| ==> Required[i] in columns
  }

  /** `_convert_to_boxes`. */
  function ConvertToBoxes(columns: seq<string>, rows: seq<seq<Value>>): (r: Conversion)
    ensures !HasRequired(columns) ==> r == Conversion([], [MissingFields(MissingRequired(columns, Required))], [])
    ensures HasRequired(columns) ==> r == ConvertRows(columns, rows)
  {
    var missing := MissingRequired(columns, Required);
    if |missing| > 0 then
      assert !HasRequired(columns) by {
        assert missing[0] in missing;
      }
      Conversion([], [MissingFields(missing)], [])
    else
      assert forall i :: 0 <= i < |Required| ==> Required[i] !in missing;
      ConvertRows(columns, rows)
  }

  /** `read_excel` on a sheet already read: the suffix check, then dropping
      empty rows, renaming the headers and converting. */
  function ReadSheet(path: string, columns: seq<string>, rows: seq<seq<Value>>): (r: Conversion)
    ensures !IsSupported(path) ==> r == Conversion([], [UnsupportedFormat(Suffix(path))], [])
    ensures IsSupported(path) ==> r == ConvertToBoxes(MapColumns(columns), DropEmptyRows(rows))
    ensures forall b :: b in r.boxes ==> b.length > 0.0 && b.width > 0.0 && b.weight > 0.0
  {
    if !IsSupported(path) then Conversion([], [UnsupportedFormat(Suffix(path))], [])
    else ConvertToBoxes(MapColumns(columns), DropEmptyRows(rows))
  }

  /** A suffix not starting `.x` in either case is not a supported format. */
  lemma UnknownSuffix(ext: string)
    requires |ext| >= 2 && ext[1] != 'x' && ext[1] != 'X'
    ensures Lower(ext) !in SupportedFormats
  {
    assert Lower(ext)[1] != 'x';
  }

  /** A step of `UpperCaseSuffixIsSupported`: the upper-case suffix
      lower-cases to a supported one. */
  lemma LowerXlsx()
    ensures Lower(".XLSX") == ".xlsx"
  {
    var l := Lower(".XLSX");
    assert l[0] == '.' && l[1] == 'x' && l[2] == 'l' && l[3] == 's' && l[4] == 'x';
  }

  /** The suffix check ignores case. */
  lemma UpperCaseSuffixIsSupported()
    ensures IsSupported("boxes.XLSX")
  {
    SuffixOfPlainName("boxes", ".XLSX");
    assert "boxes" + ".XLSX" == "boxes.XLSX";
    LowerXlsx();
  }

  lemma CsvIsRejected()
    ensures !IsSupported("boxes.csv")
  {
    SuffixOfPlainName("boxes", ".csv");
    assert "boxes" + ".csv" == "boxes.csv";
    UnknownSuffix(".csv");
  }

  /** Only the last suffix counts. */
  lemma LastSuffixDecides()
    ensures !IsSupported("boxes.xlsx.bak")
  {
    SuffixOfPlainName("boxes.xlsx", ".bak");
    assert "boxes.xlsx" + ".bak" == "boxes.xlsx.bak";
    UnknownSuffix(".bak");
  }

  /** The only dot of a string is the leading one. */
  lemma LeadingDotOnly(s: string)
    requires |s| > 0 && s[0] == '.' && '.' !in s[1..]
    ensures LastDot(s) == 0
  {
  }

  /** A name that is only a suffix, like a hidden file, has no suffix. */
  lemma DotFileHasNoSuffix()
    ensures !IsSupported(".xlsx")
  {
    DotFileSuffix();
    assert Lower([]) == [];
  }

  /** The suffix of ".xlsx" is empty: its only dot is the first character. */
  lemma DotFileSuffix()
    ensures Suffix(".xlsx") == []
  {
    var name := ".xlsx";
    assert '/' !in name;
    PlainNameIsFileName(name);
    assert name[1..] == "xlsx";
    LeadingDotOnly(name);
  }
}
