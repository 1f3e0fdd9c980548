/**
 * Result handling of the database connector (src/connector.rs): which path a
 * statement takes, how each fetched cell becomes text, and how fetched rows
 * become a table of header names and per-row maps. The database itself is
 * abstracted: a statement's outcome is given as the rows it fetched or the
 * number of rows it changed, or an error.
 */
module Connector {
  import opened Common

  newtype byte = x: int | 0 <= x < 256

  /** A table of results: column names and, per row, the text of each named column. */
  datatype MySqlTable = MySqlTable(headers: seq<string>, values: seq<map<string, string>>)

  /** `MySqlTable::new`. */
  const EMPTY_TABLE := MySqlTable([], [])

  datatype MySqlResult = Table(table: MySqlTable) | RowsAffected(affectedRows: nat)

  /** What the database answered, or the error it reported. */
  datatype DbResult<T> = Ok(value: T) | Err(message: string)

  /** What `try_get` gives for a column: a decoded value, SQL NULL, or a decoding error. */
  datatype TryGet<T> = Decoded(value: Option<T>) | DecodeError

  /**
   * A decoded cell value, as the Rust type its column's type name selects.
   * Strings, floats, dates and JSON values are kept as the text their
   * `to_string` gives.
   */
  datatype Value = Boolean(b: bool) | Integer(i: int) | Shown(text: string) | Binary(bytes: seq<byte>)

  datatype Column = Column(name: string, typeName: string, value: TryGet<Value>)

  type Row = seq<Column>

  // ---------------------------------------------------------------- statement kind

  /** The leading run of non-whitespace characters. */
  function TakeWord(s: string): (w: string)
    ensures IsPrefix(w, s)
    ensures forall i :: 0 <= i < |w| ==> !IsWhitespace(w[i])
    ensures |w| == |s| || IsWhitespace(s[|w|])
  {
    if s == [] || IsWhitespace(s[0]) then [] else [s[0]] + TakeWord(s[1..])
  }

  /** `split_whitespace().next().unwrap_or("")`: the first word, or empty when there is none. */
  function FirstWord(q: string): (w: string)
    ensures forall i :: 0 <= i < |w| ==> !IsWhitespace(w[i])
    ensures w == [] <==> AllWhitespace(q)
  {
    var t := TrimStart(q);
    assert AllWhitespace(q) <==> t == [];
    TakeWord(t)
  }

  /**
   * Upper-casing of one character, as text. ASCII letters map to their
   * capitals; the non-ASCII characters whose capitals begin with an ASCII
   * letter map to those capitals, several of them to two or three characters.
   * Every other character is kept: its true capitals hold no ASCII character,
   * and neither does the character, so no test against an ASCII keyword can
   * tell them apart.
   */
  function UpperOf(c: char): (u: string)
    ensures u != []
    ensures IsWhitespace(u[0]) <==> IsWhitespace(c)
  {
    if 'a' <= c <= 'z' then [(c as int - 32) as char]
    else if c == '\U{131}' then "I"
    else if c == '\U{17F}' then "S"
    else if c == '\U{DF}' then "SS"
    else if c == '\U{149}' then "\U{2BC}N"
    else if c == '\U{1F0}' then "J\U{30C}"
    else if c == '\U{1E96}' then "H\U{331}"
    else if c == '\U{1E97}' then "T\U{308}"
    else if c == '\U{1E98}' then "W\U{30A}"
    else if c == '\U{1E99}' then "Y\U{30A}"
    else if c == '\U{1E9A}' then "A\U{2BE}"
    else if c == '\U{FB00}' then "FF"
    else if c == '\U{FB01}' then "FI"
    else if c == '\U{FB02}' then "FL"
    else if c == '\U{FB03}' then "FFI"
    else if c == '\U{FB04}' then "FFL"
    else if c == '\U{FB05}' || c == '\U{FB06}' then "ST"
    else [c]
  }

  /** `str::to_uppercase`: each character's capitals, in order. */
  function Upper(s: string): (u: string)
    ensures |u| >= |s|
  {
    if s == [] then [] else UpperOf(s[0]) + Upper(s[1..])
  }

  /** The keywords whose statements report a count of changed rows. */
  predicate IsRowKeyword(k: string) {
    k == "INSERT" || k == "UPDATE" || k == "DELETE"
  }

  /** The statement takes the rows-affected path: its upper-cased first word starts with a keyword. */
  predicate ChangesRows(query: string): (r: bool)
    ensures r <==> exists k :: IsRowKeyword(k) && IsPrefix(k, Upper(FirstWord(query)))
  {
    var first := Upper(FirstWord(query));
    assert IsRowKeyword("INSERT") && IsRowKeyword("UPDATE") && IsRowKeyword("DELETE");
    IsPrefix("INSERT", first) || IsPrefix("UPDATE", first) || IsPrefix("DELETE", first)
  }

  /** Whitespace before the statement does not change its first word. */
  lemma LeadingWhitespaceIgnored(a: string, q: string)
    requires AllWhitespace(a)
    ensures FirstWord(a + q) == FirstWord(q)
    ensures ChangesRows(a + q) <==> ChangesRows(q)
  {
    TrimStartPadded(a, q);
  }

  /** Only the first word counts: whatever follows the first whitespace after it is ignored. */
  lemma {:induction false} OnlyFirstWord(w: string, rest: string)
    requires forall i :: 0 <= i < |w| ==> !IsWhitespace(w[i])
    requires rest == [] || IsWhitespace(rest[0])
    ensures TakeWord(w + rest) == w
    decreases |w|
  {
    if w != [] {
      assert (w + rest)[1..] == w[1..] + rest;
      OnlyFirstWord(w[1..], rest);
    } else {
      assert w + rest == rest;
    }
  }

  /** The first word of `a + w + rest` is `w`, and so it alone decides the path. */
  lemma FirstWordDecides(a: string, w: string, rest: string)
    requires AllWhitespace(a) && w != []
    requires forall i :: 0 <= i < |w| ==> !IsWhitespace(w[i])
    requires rest == [] || IsWhitespace(rest[0])
    ensures FirstWord(a + w + rest) == w
    ensures ChangesRows(a + w + rest) <==> ChangesRows(w)
  {
    Associative(a, w, rest);
    TrimStartPadded(a, w + rest);
    assert (w + rest)[0] == w[0];
    OnlyFirstWord(w, rest);
    assert FirstWord(w) == w by {
      OnlyFirstWord(w, []);
      assert w + [] == w;
    }
  }

  /** Two texts that differ only in the case of ASCII letters. */
  predicate SameLetters(a: char, b: char) {
    a == b || ('a' <= a <= 'z' && b as int == a as int - 32) || ('a' <= b <= 'z' && a as int == b as int - 32)
  }

  predicate SameUpToCase(s: string, t: string) {
    |s| == |t| && forall i :: 0 <= i < |s| ==> SameLetters(s[i], t[i])
  }

  lemma {:induction false} TrimStartUpToCase(s: string, t: string)
    requires SameUpToCase(s, t)
    ensures SameUpToCase(TrimStart(s), TrimStart(t))
    decreases |s|
  {
    if s != [] {
      assert IsWhitespace(s[0]) <==> IsWhitespace(t[0]);
      TrimStartUpToCase(s[1..], t[1..]);
    }
  }

  lemma {:induction false} TakeWordUpToCase(s: string, t: string)
    requires SameUpToCase(s, t)
    ensures SameUpToCase(TakeWord(s), TakeWord(t))
    decreases |s|
  {
    if s != [] {
      assert IsWhitespace(s[0]) <==> IsWhitespace(t[0]);
      TakeWordUpToCase(s[1..], t[1..]);
    }
  }

  lemma {:induction false} UpperUpToCase(s: string, t: string)
    requires SameUpToCase(s, t)
    ensures Upper(s) == Upper(t)
    decreases |s|
  {
    if s != [] {
      assert UpperOf(s[0]) == UpperOf(t[0]);
      UpperUpToCase(s[1..], t[1..]);
    }
  }

  /** The path does not depend on the case of the statement's letters. */
  lemma CaseInsensitive(q: string, r: string)
    requires SameUpToCase(q, r)
    ensures ChangesRows(q) <==> ChangesRows(r)
  {
    TrimStartUpToCase(q, r);
    TakeWordUpToCase(TrimStart(q), TrimStart(r));
    UpperUpToCase(FirstWord(q), FirstWord(r));
  }

  lemma {:induction false} UpperAppend(s: string, t: string)
    ensures Upper(s + t) == Upper(s) + Upper(t)
    decreases |s|
  {
    if s == [] {
      assert s + t == t;
    } else {
      assert (s + t)[1..] == s[1..] + t;
      UpperAppend(s[1..], t);
    }
  }

  /** Upper-casing keeps capital letters. */
  lemma {:induction false} UpperOfCapitals(s: string)
    requires forall i :: 0 <= i < |s| ==> 'A' <= s[i] <= 'Z'
    ensures Upper(s) == s
    decreases |s|
  {
    if s != [] {
      UpperOfCapitals(s[1..]);
    }
  }

  lemma {:induction false} TakeWordKeeps(k: string, x: string)
    requires forall i :: 0 <= i < |k| ==> !IsWhitespace(k[i])
    ensures IsPrefix(k, TakeWord(k + x))
    decreases |k|
  {
    if k != [] {
      assert (k + x)[1..] == k[1..] + x;
      TakeWordKeeps(k[1..], x);
    }
  }

  /**
   * A first word that begins with a keyword takes the rows-affected path
   * whatever follows it, so `INSERTX` qualifies as well as `INSERT`.
   */
  lemma KeywordPrefixQualifies(k: string, x: string)
    requires IsRowKeyword(k)
    ensures ChangesRows(k + x)
  {
    assert forall i :: 0 <= i < |k| ==> 'A' <= k[i] <= 'Z';
    TakeWordKeeps(k, x);
    assert k + x == [] || !IsWhitespace((k + x)[0]);
    var w := FirstWord(k + x);
    assert w == k + w[|k|..];
    UpperAppend(k, w[|k|..]);
    UpperOfCapitals(k);
    assert IsPrefix(k, Upper(w));
  }

  /** ASCII lower-casing. */
  function Lower(s: string): (l: string)
    ensures SameUpToCase(l, s)
  {
    seq(|s|, i requires 0 <= i < |s| => if 'A' <= s[i] <= 'Z' then (s[i] as int + 32) as char else s[i])
  }

  /** The keywords qualify in lower case too, whatever follows: `insertx` takes the rows-affected path. */
  lemma LowerKeywordQualifies(k: string, x: string)
    requires IsRowKeyword(k)
    ensures ChangesRows(Lower(k) + x)
  {
    var l := Lower(k);
    assert SameUpToCase(l + x, k + x) by {
      forall i | 0 <= i < |l + x| ensures SameLetters((l + x)[i], (k + x)[i]) {
        if i < |l| {
          assert (l + x)[i] == l[i] && (k + x)[i] == k[i];
        } else {
          assert (l + x)[i] == x[i - |l|] && (k + x)[i] == x[i - |k|];
        }
      }
    }
    CaseInsensitive(l + x, k + x);
    KeywordPrefixQualifies(k, x);
  }

  /** An empty or whitespace-only statement has the empty first word and takes the table path. */
  lemma BlankStatementFetches(q: string)
    requires AllWhitespace(q)
    ensures FirstWord(q) == [] && !ChangesRows(q)
  {
  }

  // ---------------------------------------------------------------- cell text

  /** The decimal digits of `n`. */
  function Decimal(n: nat): (d: string)
    ensures d != [] && forall i :: 0 <= i < |d| ==> '0' <= d[i] <= '9'
  {
    if n < 10 then [('0' as int + n) as char] else Decimal(n / 10) + [('0' as int + n % 10) as char]
  }

  /** The number a string of decimal digits denotes. */
  function DigitsValue(d: string): nat
    requires forall i :: 0 <= i < |d| ==> '0' <= d[i] <= '9'
  {
    if d == [] then 0 else 10 * DigitsValue(d[..|d| - 1]) + (d[|d| - 1] as int - '0' as int)
  }

  /** Decimal text is read back as the same number. */
  lemma {:induction false} DecimalRoundTrip(n: nat)
    ensures DigitsValue(Decimal(n)) == n
    decreases n
  {
    if n >= 10 {
      var d := Decimal(n);
      assert d[..|d| - 1] == Decimal(n / 10);
      DecimalRoundTrip(n / 10);
    }
  }

  /** `i64::to_string` and its kin: a minus sign for negatives, then the digits. */
  function IntegerText(i: int): string {
    if i < 0 then "-" + Decimal(-i) else Decimal(i)
  }

  function ListBody(bs: seq<byte>): string {
    if bs == [] then ""
    else if |bs| == 1 then Decimal(bs[0] as nat)
    else Decimal(bs[0] as nat) + ", " + ListBody(bs[1..])
  }

  /** `format!("{:?}", bytes)`: the bytes in decimal, comma-separated, in brackets. */
  function DebugBytes(bs: seq<byte>): (text: string)
    ensures |text| >= 2 && text[0] == '[' && text[|text| - 1] == ']'
  {
    "[" + ListBody(bs) + "]"
  }

  lemma DebugBytesExamples()
    ensures DebugBytes([]) == "[]"
    ensures DebugBytes([1, 2]) == "[1, 2]"
    ensures DebugBytes([255]) == "[255]"
  {
    assert Decimal(255) == Decimal(25) + "5";
  }

  /** A value's `to_string`; a byte vector, which has none, shows its debug form. */
  function Text(v: Value): string {
    match v
    case Boolean(b) => if b then "true" else "false"
    case Integer(i) => IntegerText(i)
    case Shown(text) => text
    case Binary(bytes) => DebugBytes(bytes)
  }

  /** `handle_result`: a value's text, `NULL` for SQL NULL, `ERR` for a decoding error. */
  function HandleResult<T>(value: TryGet<T>, show: T -> string): (text: string)
    ensures value.DecodeError? ==> text == "ERR"
    ensures value == Decoded(None) ==> text == "NULL"
    ensures value.Decoded? && value.value.Some? ==> text == show(value.value.value)
  {
    match value
    case Decoded(Some(v)) => show(v)
    case Decoded(None) => "NULL"
    case DecodeError => "ERR"
  }

  /** The type names read as values with a textual form. */
  const DISPLAYED_TYPES: set<string> := {
    "BOOLEAN", "TINYINT", "SMALLINT", "INT", "BIGINT",
    "TINYINT UNSIGNED", "SMALLINT UNSIGNED", "INT UNSIGNED", "BIGINT UNSIGNED",
    "FLOAT", "DOUBLE", "VARCHAR", "CHAR", "TEXT",
    "DATETIME", "DATE", "TIME", "TIMESTAMP", "JSON"
  }

  /** The type names read as byte vectors. */
  const BINARY_TYPES: set<string> := {"VARBINARY", "BINARY", "BLOB"}

  /** The text stored for one column of a fetched row, chosen by its type name. */
  function ColumnText(c: Column): (text: string)
    ensures c.typeName !in DISPLAYED_TYPES && c.typeName !in BINARY_TYPES ==> text == "NULL"
    ensures c.typeName in BINARY_TYPES ==>
              text == match c.value
                      case Decoded(Some(Binary(bs))) => DebugBytes(bs)
                      case Decoded(Some(v)) => Text(v)
                      case Decoded(None) => "NULL"
                      case DecodeError => "ERR"
    ensures c.typeName in DISPLAYED_TYPES && c.value.Decoded? && c.value.value.Some? ==> text == Text(c.value.value.value)
    ensures (c.typeName in DISPLAYED_TYPES || c.typeName in BINARY_TYPES) && c.value == Decoded(None) ==> text == "NULL"
    ensures (c.typeName in DISPLAYED_TYPES || c.typeName in BINARY_TYPES) && c.value.DecodeError? ==> text == "ERR"
  {
    if c.typeName in DISPLAYED_TYPES then HandleResult(c.value, Text)
    else if c.typeName in BINARY_TYPES then
      match c.value
      case Decoded(Some(v)) => Text(v)
      case Decoded(None) => "NULL"
      case DecodeError => "ERR"
    else "NULL"
  }

  // ---------------------------------------------------------------- rows to table

  /** The map built from a row's first `n` columns; a later column replaces an earlier one of the same name. */
  function RowMapUpTo(row: Row, n: nat): (m: map<string, string>)
    requires n <= |row|
    ensures forall name :: name in m <==> exists j :: 0 <= j < n && row[j].name == name
  {
    if n == 0 then map[]
    else
      var m' := RowMapUpTo(row, n - 1);
      assert forall name :: name in m' ==> exists j :: 0 <= j < n && row[j].name == name;
      m'[row[n - 1].name := ColumnText(row[n - 1])]
  }

  /** A row's map: column name to column text. */
  function RowMap(row: Row): map<string, string> {
    RowMapUpTo(row, |row|)
  }

  /** Each name maps to the text of the last column carrying it. */
  lemma {:induction false} RowMapLastWins(row: Row, n: nat, j: nat)
    requires j < n <= |row|
    requires forall k :: j < k < n ==> row[k].name != row[j].name
    ensures RowMapUpTo(row, n)[row[j].name] == ColumnText(row[j])
    decreases n
  {
    var last := row[n - 1];
    assert RowMapUpTo(row, n) == RowMapUpTo(row, n - 1)[last.name := ColumnText(last)];
    if j < n - 1 {
      RowMapLastWins(row, n - 1, j);
      assert last.name != row[j].name;
    }
  }

  /** Every name in a row's map is one of its columns' names, and every column's name is in it. */
  lemma RowMapKeys(row: Row)
    ensures forall name :: name in RowMap(row) <==> exists c :: c in row && c.name == name
  {
    forall name ensures name in RowMap(row) <==> exists c :: c in row && c.name == name {
      if name in RowMap(row) {
        var j :| 0 <= j < |row| && row[j].name == name;
        assert row[j] in row;
      }
    }
  }

  /** The column names of a row, in order. */
  function ColumnNames(row: Row): (names: seq<string>)
    ensures |names| == |row| && forall i :: 0 <= i < |row| ==> names[i] == row[i].name
  {
    seq(|row|, i requires 0 <= i < |row| => row[i].name)
  }

  /** The table built from fetched rows: the first row's column names, and one map per row. */
  function TableOf(rows: seq<Row>): (t: MySqlTable)
    ensures |t.values| == |rows|
  {
    MySqlTable(if rows == [] then [] else ColumnNames(rows[0]), seq(|rows|, i requires 0 <= i < |rows| => RowMap(rows[i])))
  }

  /**
   * No rows give the empty table; otherwise the headers are the first row's
   * column names in order, and row `i`'s map holds the text of each column of
   * fetched row `i` under its name.
   */
  lemma TableOfRows(rows: seq<Row>)
    ensures rows == [] ==> TableOf(rows) == EMPTY_TABLE
    ensures rows != [] ==> TableOf(rows).headers == ColumnNames(rows[0])
    ensures forall i, j :: 0 <= i < |rows| && 0 <= j < |rows[i]|
              && (forall k :: j < k < |rows[i]| ==> rows[i][k].name != rows[i][j].name)
              ==> TableOf(rows).values[i][rows[i][j].name] == ColumnText(rows[i][j])
  {
    forall i, j | 0 <= i < |rows| && 0 <= j < |rows[i]|
              && (forall k :: j < k < |rows[i]| ==> rows[i][k].name != rows[i][j].name)
      ensures TableOf(rows).values[i][rows[i][j].name] == ColumnText(rows[i][j])
    {
      RowMapLastWins(rows[i], |rows[i]|, j);
    }
  }

  /** Builds one row's map, column by column. */
  method RowToMap(row: Row) returns (rowValues: map<string, string>)
    ensures rowValues == RowMap(row)
    ensures forall name :: name in rowValues <==> exists c :: c in row && c.name == name
  {
    rowValues := map[];
    for i := 0 to |row|
      invariant rowValues == RowMapUpTo(row, i)
    {
      var column := row[i];
      var valueText := ColumnText(column);
      rowValues := rowValues[column.name := valueText];
    }
    RowMapKeys(row);
  }

  /**
   * `MySqlResult::parse_query`, given the database's answer: the number of
   * rows a changing statement affected, or the rows any other statement
   * fetched. A changing statement reports its count, any other statement
   * its table; a database error is passed on.
   */
  method ParseQuery(query: string, executed: DbResult<nat>, fetched: DbResult<seq<Row>>) returns (r: DbResult<MySqlResult>)
    ensures ChangesRows(query) ==>
              r == if executed.Ok? then Ok(RowsAffected(executed.value)) else Err(executed.message)
    ensures !ChangesRows(query) ==>
              r == if fetched.Ok? then Ok(Table(TableOf(fetched.value))) else Err(fetched.message)
  {
    var firstWord := Upper(FirstWord(query));
    if IsPrefix("INSERT", firstWord) || IsPrefix("UPDATE", firstWord) || IsPrefix("DELETE", firstWord) {
      match executed
      case Err(e) => return Err(e);
      case Ok(affectedRows) => return Ok(RowsAffected(affectedRows));
    }
    if fetched.Err? {
      return Err(fetched.message);
    }
    var result := BuildTable(fetched.value);
    return Ok(Table(result));
  }

  /** The table path of `parse_query`: headers from the first row, then one map per row. */
  method BuildTable(rows: seq<Row>) returns (result: MySqlTable)
    ensures result == TableOf(rows)
  {
    result := EMPTY_TABLE;
    if rows != [] {
      result := result.(headers := ColumnNames(rows[0]));
    }
    for i := 0 to |rows|
      invariant result.headers == TableOf(rows).headers
      invariant result.values == TableOf(rows).values[..i]
    {
      var rowValues := RowToMap(rows[i]);
      result := result.(values := result.values + [rowValues]);
    }
    assert result.values == TableOf(rows).values;
  }
}
