/** `TSVRow`: tab-separated text turned into one column → value dictionary
    per record line, and the typed getters over one such row. A null string
    is modelled as "" where the code tests it with `IsNullOrEmpty`. */
module Tsv {
  import opened Wrappers
  import opened Strings

  const LineBreaks: set<char> := {'\r', '\n'}

  /** One row: the dictionary, or `None` for a row built over null. */
  datatype TsvRow = TsvRow(data: Option<map<string, string>>)

  /** The first `n` header/field pairs, assigned in order, so that a
      repeated header keeps its last value. */
  function Zip(headers: seq<string>, fields: seq<string>, n: nat): (m: map<string, string>)
    requires n <= |headers| && n <= |fields|
  {
    if n == 0 then map[] else Zip(headers, fields, n - 1)[headers[n - 1] := fields[n - 1]]
  }

  function Min(a: nat, b: nat): nat { if a <= b then a else b }

  /** The dictionary of one record line: extra fields and extra headers are ignored. */
  function RowOf(headers: seq<string>, fields: seq<string>): map<string, string> {
    Zip(headers, fields, Min(|headers|, |fields|))
  }

  /** The non-empty lines of the text. */
  function Lines(text: string): seq<string> {
    NonEmpty(Split(text, LineBreaks))
  }

  /** `FromTsv(tsvText)`: no rows for empty text or fewer than two lines;
      otherwise one row per line after the header line. */
  function FromTsvSpec(text: string): seq<TsvRow> {
    var lines := Lines(text);
    if text == "" || |lines| < 2 then []
    else
      var headers := Split(lines[0], {'\t'});
      seq(|lines| - 1, i requires 0 <= i < |lines| - 1 => TsvRow(Some(RowOf(headers, Split(lines[i + 1], {'\t'})))))
  }

  method FromTsv(text: string) returns (rows: seq<TsvRow>)
    ensures rows == FromTsvSpec(text)
  {
    rows := [];
    if text == "" { return; }
    var lines := NonEmpty(Split(text, LineBreaks));
    if |lines| < 2 { return; }
    var headers := Split(lines[0], {'\t'});
    for i := 1 to |lines|
      invariant |rows| == i - 1
      invariant forall k :: 0 <= k < i - 1 ==> rows[k] == TsvRow(Some(RowOf(headers, Split(lines[k + 1], {'\t'}))))
    {
      var fields := Split(lines[i], {'\t'});
      var row: map<string, string> := map[];
      var j := 0;
      while j < |headers| && j < |fields|
        invariant j <= |headers| && j <= |fields|
        invariant row == Zip(headers, fields, j)
      {
        row := row[headers[j] := fields[j]];
        j := j + 1;
      }
      rows := rows + [TsvRow(Some(row))];
    }
  }

  // ---------------------------------------------------------------------
  // What FromTsv produces
  // ---------------------------------------------------------------------

  /** Every line is non-empty and holds no line break. */
  lemma LinesAreClean(text: string)
    ensures forall i :: 0 <= i < |Lines(text)| ==>
              Lines(text)[i] != "" && '\r' !in Lines(text)[i] && '\n' !in Lines(text)[i]
  {
    var parts := Split(text, LineBreaks);
    SplitPiecesHaveNoSeparator(text, LineBreaks);
    forall i | 0 <= i < |Lines(text)|
      ensures '\r' !in Lines(text)[i] && '\n' !in Lines(text)[i]
    {
      var line := Lines(text)[i];
      assert line in parts;
      var p :| 0 <= p < |parts| && parts[p] == line;
      assert forall j :: 0 <= j < |parts[p]| ==> parts[p][j] !in LineBreaks;
    }
  }

  /** A column is present exactly when one of the first `n` headers names it. */
  lemma {:induction false} ZipKeys(headers: seq<string>, fields: seq<string>, n: nat, k: string)
    requires n <= |headers| && n <= |fields|
    ensures k in Zip(headers, fields, n) <==> exists j :: 0 <= j < n && headers[j] == k
  {
    if n > 0 {
      ZipKeys(headers, fields, n - 1, k);
    }
  }

  /** A header that does not occur again later maps to its own field. */
  lemma {:induction false} ZipLastWins(headers: seq<string>, fields: seq<string>, n: nat, j: nat)
    requires j < n <= |headers| && n <= |fields|
    requires forall l :: j < l < n ==> headers[l] != headers[j]
    ensures headers[j] in Zip(headers, fields, n) && Zip(headers, fields, n)[headers[j]] == fields[j]
  {
    if j < n - 1 {
      ZipLastWins(headers, fields, n - 1, j);
    }
  }

  /** Only the first `n` fields matter. */
  lemma {:induction false} ZipPrefix(headers: seq<string>, fields: seq<string>, other: seq<string>, n: nat)
    requires n <= |headers| && n <= |fields| && n <= |other| && fields[..n] == other[..n]
    ensures Zip(headers, fields, n) == Zip(headers, other, n)
  {
    if n > 0 {
      assert fields[..n - 1] == fields[..n][..n - 1];
      assert other[..n - 1] == other[..n][..n - 1];
      assert fields[n - 1] == fields[..n][n - 1];
      assert other[n - 1] == other[..n][n - 1];
      ZipPrefix(headers, fields, other, n - 1);
    }
  }

  /** Fields past the last header are ignored. */
  lemma ExtraFieldsIgnored(headers: seq<string>, fields: seq<string>)
    requires |fields| > |headers|
    ensures RowOf(headers, fields) == RowOf(headers, fields[..|headers|])
  {
    ZipPrefix(headers, fields, fields[..|headers|], |headers|);
  }

  /** With distinct headers each column maps to its own field. */
  lemma RowOfDistinct(headers: seq<string>, fields: seq<string>, j: nat)
    requires |headers| == |fields| && j < |headers|
    requires forall a, b :: 0 <= a < b < |headers| ==> headers[a] != headers[b]
    ensures headers[j] in RowOf(headers, fields) && RowOf(headers, fields)[headers[j]] == fields[j]
    ensures RowOf(headers, fields).Keys == set h | h in headers
  {
    ZipLastWins(headers, fields, |headers|, j);
    forall k ensures k in RowOf(headers, fields) <==> k in headers {
      ZipKeys(headers, fields, |headers|, k);
    }
  }

  /** Writing a header line and one record line and reading them back gives
      one row mapping each header to its value. */
  lemma FromTsvOfOneRecord(headers: seq<string>, values: seq<string>, j: nat)
    requires |headers| == |values| && j < |headers|
    requires headers[0] != "" && values[0] != ""
    requires forall a, b :: 0 <= a < b < |headers| ==> headers[a] != headers[b]
    requires forall i :: 0 <= i < |headers| ==> '\t' !in headers[i] && '\r' !in headers[i] && '\n' !in headers[i]
    requires forall i :: 0 <= i < |values| ==> '\t' !in values[i] && '\r' !in values[i] && '\n' !in values[i]
    ensures var rows := FromTsvSpec(Join(headers, '\t') + "\n" + Join(values, '\t'));
      |rows| == 1 && rows[0].data.Some? && Get(rows[0], headers[j]) == Some(values[j])
  {
    var h := Join(headers, '\t');
    var v := Join(values, '\t');
    var text := h + "\n" + v;
    forall i | 0 <= i < |h| ensures h[i] !in LineBreaks {
      if h[i] in LineBreaks {
        JoinChars(headers, '\t', h[i]);
      }
    }
    forall i | 0 <= i < |v| ensures v[i] !in LineBreaks {
      if v[i] in LineBreaks {
        JoinChars(values, '\t', v[i]);
      }
    }
    SplitAfterPiece(h, '\n', LineBreaks, v);
    SplitAfterPiece(v, '\n', LineBreaks, "");
    assert h + "\n" + v == h + ['\n'] + v;
    assert Split(text, LineBreaks) == [h, v];
    assert h != "" by { assert |headers| == 1 || |h| >= |headers[0]|; }
    assert v != "" by { assert |values| == 1 || |v| >= |values[0]|; }
    assert NonEmpty([h, v]) == [h] + NonEmpty([v]);
    assert Lines(text) == [h, v];
    SplitJoin(headers, '\t');
    SplitJoin(values, '\t');
    RowOfDistinct(headers, values, j);
  }

  // ---------------------------------------------------------------------
  // Lookups
  // ---------------------------------------------------------------------

  /** `Contains(name)`. */
  predicate Contains(row: TsvRow, name: string) {
    row.data.Some? && name in row.data.value
  }

  /** `Get(name)`: `None` for null. */
  function Get(row: TsvRow, name: string): (r: Option<string>)
    ensures r.Some? <==> Contains(row, name)
    ensures r.Some? ==> r.value == row.data.value[name]
  {
    if row.data.Some? && name in row.data.value then Some(row.data.value[name]) else None
  }

  /** The value `GetValue` converts: present and non-empty. */
  function RawValue(row: TsvRow, name: string): (r: Option<string>)
    ensures r.Some? ==> r.value != "" && Get(row, name) == r
    ensures r.None? ==> Get(row, name).None? || Get(row, name) == Some("")
  {
    match Get(row, name)
    case Some(v) => if v == "" then None else Some(v)
    case None => None
  }

  /** `GetInt(name, defaultValue)`. */
  function GetInt(row: TsvRow, name: string, defaultValue: int): (r: int)
    ensures RawValue(row, name).None? ==> r == defaultValue
    ensures RawValue(row, name).Some? && ParseInt32(RawValue(row, name).value).None? ==> r == defaultValue
    ensures RawValue(row, name).Some? && ParseInt32(RawValue(row, name).value).Some? ==>
              r == ParseInt32(RawValue(row, name).value).value
  {
    match RawValue(row, name)
    case None => defaultValue
    case Some(v) => ParseInt32(v).GetOr(defaultValue)
  }

  /** `GetLong(name, defaultValue)`. */
  function GetLong(row: TsvRow, name: string, defaultValue: int): (r: int)
    ensures RawValue(row, name).None? ==> r == defaultValue
    ensures RawValue(row, name).Some? && ParseInt64(RawValue(row, name).value).None? ==> r == defaultValue
    ensures RawValue(row, name).Some? && ParseInt64(RawValue(row, name).value).Some? ==>
              r == ParseInt64(RawValue(row, name).value).value
  {
    match RawValue(row, name)
    case None => defaultValue
    case Some(v) => ParseInt64(v).GetOr(defaultValue)
  }

  /** `GetBoolean(name, defaultValue)`. */
  function GetBoolean(row: TsvRow, name: string, defaultValue: bool): (r: bool)
    ensures RawValue(row, name).None? ==> r == defaultValue
    ensures RawValue(row, name).Some? && ParseBool(RawValue(row, name).value).None? ==> r == defaultValue
    ensures RawValue(row, name).Some? && ParseBool(RawValue(row, name).value).Some? ==>
              r == ParseBool(RawValue(row, name).value).value
  {
    match RawValue(row, name)
    case None => defaultValue
    case Some(v) => ParseBool(v).GetOr(defaultValue)
  }

  /** `GetString(name, defaultValue)`. */
  function GetString(row: TsvRow, name: string, defaultValue: string): (r: string)
    ensures RawValue(row, name).None? ==> r == defaultValue
    ensures RawValue(row, name).Some? ==> r == RawValue(row, name).value
  {
    RawValue(row, name).GetOr(defaultValue)
  }

  /** An integer written in a column reads back through `GetInt`. */
  lemma GetIntOfWritten(row: TsvRow, name: string, n: int, defaultValue: int)
    requires INT32_MIN <= n <= INT32_MAX
    requires Get(row, name) == Some(IntToString(n))
    ensures GetInt(row, name, defaultValue) == n
  {
    ParseIntegerOfIntToString(n);
  }

  /** `GetStringList(name, separator)`: the separator-split pieces, trimmed;
      none for a missing or empty value. */
  function GetStringList(row: TsvRow, name: string, sep: char): (r: seq<string>)
    ensures RawValue(row, name).None? ==> r == []
    ensures RawValue(row, name).Some? ==> |r| == |Split(RawValue(row, name).value, {sep})|
  {
    match RawValue(row, name)
    case None => []
    case Some(v) =>
      var pieces := Split(v, {sep});
      seq(|pieces|, i requires 0 <= i < |pieces| => Trim(pieces[i]))
  }

  /** `GetIntList`: one entry per piece, 0 for a piece that does not parse. */
  function GetIntList(row: TsvRow, name: string, sep: char): (r: seq<int>)
    ensures |r| == |GetStringList(row, name, sep)|
    ensures forall i :: 0 <= i < |r| ==> r[i] == ParseInt32(GetStringList(row, name, sep)[i]).GetOr(0)
  {
    var pieces := GetStringList(row, name, sep);
    seq(|pieces|, i requires 0 <= i < |pieces| => ParseInt32(pieces[i]).GetOr(0))
  }

  /** `GetLongList`. */
  function GetLongList(row: TsvRow, name: string, sep: char): (r: seq<int>)
    ensures |r| == |GetStringList(row, name, sep)|
    ensures forall i :: 0 <= i < |r| ==> r[i] == ParseInt64(GetStringList(row, name, sep)[i]).GetOr(0)
  {
    var pieces := GetStringList(row, name, sep);
    seq(|pieces|, i requires 0 <= i < |pieces| => ParseInt64(pieces[i]).GetOr(0))
  }

  /** `GetBooleanList`: true only for a piece that parses as true. */
  function GetBooleanList(row: TsvRow, name: string, sep: char): (r: seq<bool>)
    ensures |r| == |GetStringList(row, name, sep)|
    ensures forall i :: 0 <= i < |r| ==> (r[i] <==> ParseBool(GetStringList(row, name, sep)[i]) == Some(true))
  {
    var pieces := GetStringList(row, name, sep);
    seq(|pieces|, i requires 0 <= i < |pieces| => ParseBool(pieces[i]) == Some(true))
  }

  /** `n.ToString()` has neither white space at its ends nor the separator. */
  lemma IntToStringShape(n: int, sep: char)
    requires !IsDigit(sep) && sep != '-'
    ensures sep !in IntToString(n) && Trim(IntToString(n)) == IntToString(n)
  {
    var s := IntToString(n);
    var digits := NatToString(if n < 0 then -n else n);
    assert n < 0 ==> s == "-" + digits;
    assert n >= 0 ==> s == digits;
    assert forall i :: 0 <= i < |s| ==> s[i] == '-' || IsDigit(s[i]) by {
      forall i | 0 <= i < |s| ensures s[i] == '-' || IsDigit(s[i]) {
        if n < 0 && i > 0 {
          assert s[i] == digits[i - 1];
        }
      }
    }
    TrimWithUntouched(s, IsWhiteSpace);
  }

  /** Pieces written with a separator read back through `GetStringList`, when
      none holds the separator or white space at its ends. */
  lemma GetStringListOfWritten(row: TsvRow, name: string, sep: char, parts: seq<string>)
    requires parts != [] && parts[0] != ""
    requires forall i :: 0 <= i < |parts| ==> sep !in parts[i] && Trim(parts[i]) == parts[i]
    requires Get(row, name) == Some(Join(parts, sep))
    ensures GetStringList(row, name, sep) == parts
  {
    SplitJoin(parts, sep);
    assert Join(parts, sep) != "" by {
      assert |parts| == 1 || |Join(parts, sep)| >= |parts[0]|;
    }
  }

  /** A list of integers written with a separator reads back through `GetIntList`. */
  lemma GetIntListOfWritten(row: TsvRow, name: string, sep: char, ns: seq<int>)
    requires !IsDigit(sep) && sep != '-' && ns != []
    requires forall i :: 0 <= i < |ns| ==> INT32_MIN <= ns[i] <= INT32_MAX
    requires Get(row, name) == Some(Join(seq(|ns|, i requires 0 <= i < |ns| => IntToString(ns[i])), sep))
    ensures GetIntList(row, name, sep) == ns
  {
    var parts := seq(|ns|, i requires 0 <= i < |ns| => IntToString(ns[i]));
    forall i | 0 <= i < |parts| ensures sep !in parts[i] && Trim(parts[i]) == parts[i] {
      IntToStringShape(ns[i], sep);
    }
    GetStringListOfWritten(row, name, sep, parts);
    var r := GetIntList(row, name, sep);
    assert |r| == |ns|;
    forall i | 0 <= i < |ns| ensures r[i] == ns[i] {
      assert r[i] == ParseInt32(parts[i]).GetOr(0);
      ParseInt32OfIntToString(ns[i]);
    }
  }

  /** A 32-bit integer's text parses back as that integer. */
  lemma ParseInt32OfIntToString(n: int)
    requires INT32_MIN <= n <= INT32_MAX
    ensures ParseInt32(IntToString(n)) == Some(n)
  {
    ParseIntegerOfIntToString(n);
  }
}
