/**
 * `LibCangjieHowToType::how_to_type`: the version discriminator, the
 * `WHERE` filter over the joined `chars`/`codes` tables, and the loop that
 * decodes every returned row with `from_codes`.
 */
module Lookup {
  import opened Wrappers
  import opened Alphabet
  import opened Code

  /** `CangjieVersion`. */
  datatype CangjieVersion = V3 | V5

  /** The integer the `codes.version` column holds for a version. */
  function VersionNumber(version: CangjieVersion): (n: int)
    ensures n == 3 || n == 5
  {
    match version
    case V3 => 3
    case V5 => 5
  }

  /** A cell of a result row (`rusqlite::types::ValueRef`); the float payload is left out. */
  datatype Value =
    | Null
    | Integer(i: int)
    | Real
    | Text(text: seq<Byte>)
    | Blob(blob: seq<Byte>)

  /** A row of `chars JOIN codes ON chars.char_index = codes.char_index`. */
  datatype JoinedRow = JoinedRow(chchar: string, version: int, code: Value)

  /** An error reported by the database (`rusqlite::Error`), kept abstract. */
  datatype DbError = DbError(code: int)

  /** `HowToTypeError`. */
  datatype HowToTypeError = DBError(cause: DbError)

  /** The `WHERE chars.chchar = ?1 AND codes.version = ?2` predicate. */
  predicate Matches(row: JoinedRow, character: string, versionNum: int) {
    row.chchar == character && row.version == versionNum
  }

  /** The `codes.code` cells the statement selects, in the order the table yields them. */
  function Select(table: seq<JoinedRow>, character: string, versionNum: int): (cells: seq<Value>)
    ensures |cells| <= |table|
    ensures forall v :: v in cells ==>
      exists row :: row in table && Matches(row, character, versionNum) && row.code == v
    ensures forall i :: 0 <= i < |table| && Matches(table[i], character, versionNum) ==> table[i].code in cells
  {
    if table == [] then []
    else
      var rest := Select(table[1..], character, versionNum);
      assert forall i :: 0 < i < |table| ==> table[i] == table[1..][i - 1];
      if Matches(table[0], character, versionNum) then [table[0].code] + rest else rest
  }

  /** One answer of `rows.next()`: a row, or a database failure. */
  datatype Fetch = Row(cell: Value) | Failed(error: DbError)

  /**
   * How the storage behaves while rows are fetched: it never fails, or the
   * fetch of row `index` (counting from 0) fails with `error`.
   */
  datatype Fault = NoFault | FailAt(index: nat, error: DbError)

  /** What successive `rows.next()` calls return before the first `Ok(None)`. */
  function Cursor(cells: seq<Value>, fault: Fault): (rows: seq<Fetch>)
    ensures fault.NoFault? || fault.index > |cells| ==>
      rows == seq(|cells|, i requires 0 <= i < |cells| => Row(cells[i]))
    ensures fault.FailAt? && fault.index <= |cells| ==>
      |rows| == fault.index + 1 && rows[fault.index] == Failed(fault.error)
      && forall i :: 0 <= i < fault.index ==> rows[i] == Row(cells[i])
  {
    var n := if fault.FailAt? && fault.index <= |cells| then fault.index else |cells|;
    var prefix := seq(n, i requires 0 <= i < n => Row(cells[i]));
    if n < |cells| || (fault.FailAt? && fault.index == |cells|) then prefix + [Failed(fault.error)] else prefix
  }

  /**
   * The rows up to the first failure are text cells that `from_codes`
   * decodes; otherwise the source panics ("Unexpected value type", or an
   * invalid radical code).
   */
  predicate Decodable(rows: seq<Fetch>) {
    rows == [] ||
    match rows[0]
    case Failed(_) => true
    case Row(cell) => cell.Text? && FromCodes(cell.text).Some? && Decodable(rows[1..])
  }

  /** True when some fetch of `rows` fails. */
  predicate HasFailure(rows: seq<Fetch>) {
    exists i :: 0 <= i < |rows| && rows[i].Failed?
  }

  /** `acc` put in front of the codes of a successful result. */
  function Prepend(acc: seq<CangjieCode>, result: Result<seq<CangjieCode>, HowToTypeError>): Result<seq<CangjieCode>, HowToTypeError>
  {
    match result
    case Ok(codes) => Ok(acc + codes)
    case Err(e) => Err(e)
  }

  /**
   * The result of the loop over `rows`: the first failure, or one decoded
   * code per row, in row order.
   */
  function DecodeRows(rows: seq<Fetch>): Result<seq<CangjieCode>, HowToTypeError>
    requires Decodable(rows)
  {
    if rows == [] then Ok([])
    else
      match rows[0]
      case Failed(e) => Err(DBError(e))
      case Row(cell) => Prepend([FromCodes(cell.text).value], DecodeRows(rows[1..]))
  }

  /**
   * What `DecodeRows` means: success exactly when no fetch fails, and then
   * one code per row, each `from_codes` of that row's text; otherwise the
   * error of the first failing fetch.
   */
  lemma {:induction false} DecodeRowsMeaning(rows: seq<Fetch>)
    requires Decodable(rows)
    ensures DecodeRows(rows).Ok? <==> !HasFailure(rows)
    ensures DecodeRows(rows).Ok? ==> |DecodeRows(rows).value| == |rows|
    ensures DecodeRows(rows).Ok? ==> forall i :: 0 <= i < |rows| ==>
      rows[i].Row? && rows[i].cell.Text? && Some(DecodeRows(rows).value[i]) == FromCodes(rows[i].cell.text)
    ensures DecodeRows(rows).Err? ==> exists k :: (0 <= k < |rows| && rows[k].Failed?
      && DecodeRows(rows).error == DBError(rows[k].error) && forall j :: 0 <= j < k ==> rows[j].Row?)
  {
    if rows != [] && rows[0].Row? {
      var rest := rows[1..];
      DecodeRowsMeaning(rest);
      if HasFailure(rest) {
        var i :| 0 <= i < |rest| && rest[i].Failed?;
        assert rows[i + 1].Failed?;
      }
      if HasFailure(rows) {
        var i :| 0 <= i < |rows| && rows[i].Failed?;
        assert rest[i - 1].Failed?;
      }
      if DecodeRows(rest).Ok? {
        forall i | 0 <= i < |rows|
          ensures rows[i].Row? && rows[i].cell.Text? && Some(DecodeRows(rows).value[i]) == FromCodes(rows[i].cell.text)
        {
          if i > 0 {
            assert rows[i] == rest[i - 1];
          }
        }
      } else {
        var k :| 0 <= k < |rest| && rest[k].Failed?
          && DecodeRows(rest).error == DBError(rest[k].error) && forall j :: 0 <= j < k ==> rest[j].Row?;
        assert rows[k + 1] == rest[k];
        forall j | 0 <= j < k + 1 ensures rows[j].Row? {
          if j > 0 { assert rows[j] == rest[j - 1]; }
        }
      }
    } else if rows != [] {
      assert rows[0].Failed?;
    }
  }

  /** Prepending nothing changes nothing, and two prepends are one. */
  lemma PrependLaws(a: seq<CangjieCode>, b: seq<CangjieCode>, result: Result<seq<CangjieCode>, HowToTypeError>)
    ensures Prepend([], result) == result
    ensures Prepend(a, Ok([])) == Ok(a)
    ensures Prepend(a, Prepend(b, result)) == Prepend(a + b, result)
  {
    if result.Ok? {
      assert [] + result.value == result.value;
    }
    assert a + [] == a;
    if result.Ok? {
      assert a + (b + result.value) == (a + b) + result.value;
    }
  }

  /** Decoding a row in front of `rows` puts its code in front of theirs. */
  lemma DecodeRowsCons(rows: seq<Fetch>)
    requires rows != [] && rows[0].Row? && Decodable(rows)
    ensures rows[0].cell.Text? && FromCodes(rows[0].cell.text).Some? && Decodable(rows[1..])
    ensures DecodeRows(rows) == Prepend([FromCodes(rows[0].cell.text).value], DecodeRows(rows[1..]))
  {
  }

  /**
   * `how_to_type(character, version)` against a database whose joined
   * table is `table` and whose storage behaves as `fault`.
   */
  method HowToType(table: seq<JoinedRow>, character: string, version: CangjieVersion, fault: Fault)
    returns (result: Result<seq<CangjieCode>, HowToTypeError>)
    requires Decodable(Cursor(Select(table, character, VersionNumber(version)), fault))
    ensures result == DecodeRows(Cursor(Select(table, character, VersionNumber(version)), fault))
  {
    var versionNum := VersionNumber(version);
    var rows := Cursor(Select(table, character, versionNum), fault);

    var codes: seq<CangjieCode> := [];
    var i := 0;
    assert rows[i..] == rows;
    PrependLaws(codes, codes, DecodeRows(rows));
    while i < |rows|
      invariant 0 <= i <= |rows|
      invariant Decodable(rows[i..])
      invariant DecodeRows(rows) == Prepend(codes, DecodeRows(rows[i..]))
    {
      match rows[i]
      case Failed(e) =>
        return Err(DBError(e));
      case Row(cell) =>
        var code := FromCodes(cell.text).value;
        DecodeRowsCons(rows[i..]);
        assert rows[i..][1..] == rows[i + 1..];
        PrependLaws(codes, [code], DecodeRows(rows[i + 1..]));
        codes := codes + [code];
        i := i + 1;
    }
    assert rows[i..] == [];
    PrependLaws(codes, [], DecodeRows(rows[i..]));
    result := Ok(codes);
  }

  // ---------------------------------------------------------------------
  // Properties of the lookup
  // ---------------------------------------------------------------------

  /** The two versions select rows with different discriminators. */
  lemma VersionNumbers()
    ensures VersionNumber(V3) == 3 && VersionNumber(V5) == 5
    ensures forall v, w :: VersionNumber(v) == VersionNumber(w) ==> v == w
  {
  }

  /** A table without a matching row selects nothing. */
  lemma {:induction false} SelectOfNoMatch(table: seq<JoinedRow>, character: string, versionNum: int)
    requires forall row :: row in table ==> !Matches(row, character, versionNum)
    ensures Select(table, character, versionNum) == []
  {
    if table != [] {
      SelectOfNoMatch(table[1..], character, versionNum);
    }
  }

  /** A one-row table selects that row's cell exactly when the row matches. */
  lemma SelectSingle(row: JoinedRow, character: string, versionNum: int)
    ensures Select([row], character, versionNum) == if Matches(row, character, versionNum) then [row.code] else []
  {
    assert [row][1..] == [];
  }

  /** Selecting from a concatenation concatenates the selections. */
  lemma {:induction false} SelectAppend(t: seq<JoinedRow>, u: seq<JoinedRow>, character: string, versionNum: int)
    ensures Select(t + u, character, versionNum) == Select(t, character, versionNum) + Select(u, character, versionNum)
  {
    if t == [] {
      assert t + u == u;
    } else {
      var tu := t + u;
      assert tu[0] == t[0] && tu[1..] == t[1..] + u;
      SelectAppend(t[1..], u, character, versionNum);
    }
  }

  /**
   * Without a storage failure the lookup succeeds with exactly one code per
   * selected row, in row order, each `from_codes` of that row's text.
   */
  lemma NoFaultResult(cells: seq<Value>)
    requires Decodable(Cursor(cells, NoFault))
    ensures DecodeRows(Cursor(cells, NoFault)).Ok?
    ensures |DecodeRows(Cursor(cells, NoFault)).value| == |cells|
    ensures forall i :: 0 <= i < |cells| ==>
      cells[i].Text? && Some(DecodeRows(Cursor(cells, NoFault)).value[i]) == FromCodes(cells[i].text)
  {
    var rows := Cursor(cells, NoFault);
    DecodeRowsMeaning(rows);
    assert forall i :: 0 <= i < |cells| ==> rows[i] == Row(cells[i]);
  }

  /** A character the table does not know gives an empty result, not an error. */
  lemma UnknownCharacter(table: seq<JoinedRow>, character: string, version: CangjieVersion)
    requires forall row :: row in table ==> row.chchar != character
    ensures Decodable(Cursor(Select(table, character, VersionNumber(version)), NoFault))
    ensures DecodeRows(Cursor(Select(table, character, VersionNumber(version)), NoFault)) == Ok([])
  {
  }

  /** A storage failure while a row is fetched fails the whole lookup: no partial result. */
  lemma FaultResult(cells: seq<Value>, index: nat, error: DbError)
    requires index <= |cells|
    requires Decodable(Cursor(cells, FailAt(index, error)))
    ensures DecodeRows(Cursor(cells, FailAt(index, error))) == Err(DBError(error))
  {
    var rows := Cursor(cells, FailAt(index, error));
    DecodeRowsMeaning(rows);
    assert rows[index].Failed?;
    forall k | 0 <= k < |rows| && rows[k].Failed? ensures rows[k] == Failed(error) {
    }
  }

  /** A single decodable text cell and no failure: the lookup yields exactly that cell's code. */
  lemma OneCellResult(bytes: seq<Byte>)
    requires FromCodes(bytes).Some?
    ensures Decodable(Cursor([Text(bytes)], NoFault))
    ensures DecodeRows(Cursor([Text(bytes)], NoFault)) == Ok([FromCodes(bytes).value])
  {
    var rows := Cursor([Text(bytes)], NoFault);
    assert rows == [Row(Text(bytes))];
    assert rows[1..] == [];
    PrependLaws([FromCodes(bytes).value], [], DecodeRows(rows[1..]));
  }

  /** The version-3 code of `屬` as stored: `"syyi"` parses to `[S, Y, Y, I]`. */
  lemma SyyiCodes()
    ensures FromCodes(['s' as Byte, 'y' as Byte, 'y' as Byte, 'i' as Byte]) == Some([S, Y, Y, I])
  {
    var syyi := ['s' as Byte, 'y' as Byte, 'y' as Byte, 'i' as Byte];
    assert CodesText([S, Y, Y, I]) == "syyi" == BytesText(syyi);
    FromCodesIffCodesText(syyi, [S, Y, Y, I]);
  }

  /** The version-3 code of `屬` as shown: `"尸卜卜戈"` parses to `[S, Y, Y, I]`. */
  lemma SyyiRadicals()
    ensures FromRadicals("尸卜卜戈") == Some([S, Y, Y, I])
  {
    FromRadicalToRadical(S);
    FromRadicalToRadical(Y);
    FromRadicalToRadical(I);
    assert RadicalsText([S, Y, Y, I]) == "尸卜卜戈";
    FromRadicalsIffRadicalsText("尸卜卜戈", [S, Y, Y, I]);
  }

  /** The version-5 code of `屬` as stored: `"sewi"` parses to `[S, E, W, I]`. */
  lemma SewiCodes()
    ensures FromCodes(['s' as Byte, 'e' as Byte, 'w' as Byte, 'i' as Byte]) == Some([S, E, W, I])
  {
    var sewi := ['s' as Byte, 'e' as Byte, 'w' as Byte, 'i' as Byte];
    assert CodesText([S, E, W, I]) == "sewi" == BytesText(sewi);
    FromCodesIffCodesText(sewi, [S, E, W, I]);
  }

  /** The version-5 code of `屬` as shown: `"尸水田戈"` parses to `[S, E, W, I]`. */
  lemma SewiRadicals()
    ensures FromRadicals("尸水田戈") == Some([S, E, W, I])
  {
    FromRadicalToRadical(S);
    FromRadicalToRadical(E);
    FromRadicalToRadical(W);
    FromRadicalToRadical(I);
    assert RadicalsText([S, E, W, I]) == "尸水田戈";
    FromRadicalsIffRadicalsText("尸水田戈", [S, E, W, I]);
  }

  /**
   * The test scenario for `屬`: one row per version, and the version picks
   * the row, so that the lookup answers `尸卜卜戈` under version 3 and
   * `尸水田戈` under version 5.
   */
  lemma VersionsExample()
    ensures FromRadicals("尸卜卜戈") == Some([S, Y, Y, I]) && FromRadicals("尸水田戈") == Some([S, E, W, I])
    ensures var table := [JoinedRow("屬", 3, Text(['s' as Byte, 'y' as Byte, 'y' as Byte, 'i' as Byte])),
                          JoinedRow("屬", 5, Text(['s' as Byte, 'e' as Byte, 'w' as Byte, 'i' as Byte]))];
            && Select(table, "屬", VersionNumber(V3)) == [Text(['s' as Byte, 'y' as Byte, 'y' as Byte, 'i' as Byte])]
            && Select(table, "屬", VersionNumber(V5)) == [Text(['s' as Byte, 'e' as Byte, 'w' as Byte, 'i' as Byte])]
            && Decodable(Cursor(Select(table, "屬", VersionNumber(V3)), NoFault))
            && DecodeRows(Cursor(Select(table, "屬", VersionNumber(V3)), NoFault)) == Ok([[S, Y, Y, I]])
            && Decodable(Cursor(Select(table, "屬", VersionNumber(V5)), NoFault))
            && DecodeRows(Cursor(Select(table, "屬", VersionNumber(V5)), NoFault)) == Ok([[S, E, W, I]])
  {
    var syyi := ['s' as Byte, 'y' as Byte, 'y' as Byte, 'i' as Byte];
    var sewi := ['s' as Byte, 'e' as Byte, 'w' as Byte, 'i' as Byte];
    var table := [JoinedRow("屬", 3, Text(syyi)), JoinedRow("屬", 5, Text(sewi))];
    assert table == [table[0]] + [table[1]];
    SelectAppend([table[0]], [table[1]], "屬", 3);
    SelectAppend([table[0]], [table[1]], "屬", 5);
    SelectSingle(table[0], "屬", 3);
    SelectSingle(table[1], "屬", 3);
    SelectSingle(table[0], "屬", 5);
    SelectSingle(table[1], "屬", 5);
    SyyiCodes();
    SyyiRadicals();
    SewiCodes();
    SewiRadicals();
    OneCellResult(syyi);
    OneCellResult(sewi);
  }
}
