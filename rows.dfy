/**
 * GenerateDataTableRowCollection: one record per data row, each holding the parsed
 * values of its non-blank cells under the schema's property names.
 */
module Rows {
  import opened Wrappers
  import opened Text
  import opened Config
  import opened Schema
  import opened TypeParsers

  /** A record under construction and the canonical types that have a cached parser. */
  datatype RowState<V> = RowState(record: map<string, V>, ready: set<string>)

  /**
   * Whether entry j of a row stores a value, given the types cached on reaching it: its
   * trimmed cell j is non-blank and a parser for its type keyword is found.
   */
  predicate Stores<V>(factory: TypeParserFactory<V>, row: seq<string>, infos: seq<RowInfo>, j: nat, ready: set<string>)
    requires j < |infos| && j < |row|
  {
    Trim(row[j]) != "" && ParserAvailable(factory, ready, infos[j].typeName)
  }

  /** The value entry j of a row stores: the reading of the trimmed cell by its parser. */
  function CellValue<V>(factory: TypeParserFactory<V>, row: seq<string>, infos: seq<RowInfo>, j: nat): V
    requires j < |infos| && j < |row| && factory.parserTypeOf(infos[j].typeName).Some?
  {
    factory.parse(factory.parserTypeOf(infos[j].typeName).value)(Trim(row[j]))
  }

  /**
   * The record built from the first n schema entries of a row, starting from the given
   * cached types. Entry j is read from cell j of the row, as the source does.
   */
  function RowRecord<V>(factory: TypeParserFactory<V>, row: seq<string>, infos: seq<RowInfo>, n: nat, ready: set<string>): RowState<V>
    requires n <= |infos| && n <= |row|
    decreases n
  {
    if n == 0 then RowState(map[], ready)
    else
      var before := RowRecord(factory, row, infos, n - 1, ready);
      if !Stores(factory, row, infos, n - 1, before.ready) then before
      else RowState(before.record[infos[n - 1].propertyName := CellValue(factory, row, infos, n - 1)],
                    ReadyAfter(factory, before.ready, infos[n - 1].typeName))
  }

  /** Every row has a cell for each schema entry. */
  predicate CellsFor(rows: seq<seq<string>>, infos: seq<RowInfo>) {
    forall i :: 0 <= i < |rows| ==> |infos| <= |rows[i]|
  }

  /**
   * The records of count rows from row first on, with the cached types after them. A row
   * before the sheet (first < 0) contributes an empty record; this happens only when there
   * is no schema entry to read from it.
   */
  function RowRecords<V>(factory: TypeParserFactory<V>, rows: seq<seq<string>>, first: int, count: nat, infos: seq<RowInfo>, ready: set<string>)
    : (result: (seq<map<string, V>>, set<string>))
    requires first + count <= |rows| && (first < 0 ==> |infos| == 0)
    requires CellsFor(rows, infos)
    ensures |result.0| == count
    decreases count
  {
    if count == 0 then ([], ready)
    else
      var (records, before) := RowRecords(factory, rows, first, count - 1, infos, ready);
      var i := first + count - 1;
      if i < 0 then (records + [map[]], before)
      else
        var row := RowRecord(factory, rows[i], infos, |infos|, before);
        (records + [row.record], row.ready)
  }

  /** The number of records the import builds: one per row from DataRowsStartRow - 1 on. */
  function RecordCount(rowCount: nat, startRow: int): nat {
    if startRow - 1 < rowCount then rowCount - (startRow - 1) else 0
  }

  /**
   * What GenerateDataTableRowCollection yields for a sheet whose rows have a cell for
   * each schema entry, given the cached types beforehand: the records and the cached
   * types afterwards. A start row below 1 makes the loop start at a negative row index,
   * whose read throws as soon as there is a schema entry to read.
   */
  function ImportRows<V>(factory: TypeParserFactory<V>, rows: seq<seq<string>>, startRow: int, infos: seq<RowInfo>, ready: set<string>)
    : Result<(seq<map<string, V>>, set<string>), ImportError>
    requires CellsFor(rows, infos)
  {
    var start := startRow - 1;
    if start < 0 && |infos| > 0 then Failure(RowIndexOutOfRange)
    else if start >= |rows| then Success(([], ready))
    else Success(RowRecords(factory, rows, start, |rows| - start, infos, ready))
  }

  // ---------------------------------------------------------------------------
  // Properties of the records
  // ---------------------------------------------------------------------------

  /** No two schema entries share a property name. */
  predicate DistinctNames(infos: seq<RowInfo>) {
    forall a, b :: 0 <= a < b < |infos| ==> infos[a].propertyName != infos[b].propertyName
  }

  /**
   * A record only holds property names of entries whose cell is non-blank, and the
   * cached types only grow, each new one being the parser type of an entry read.
   */
  lemma {:induction false} RowRecordKeys<V>(factory: TypeParserFactory<V>, row: seq<string>, infos: seq<RowInfo>, n: nat, ready: set<string>)
    requires n <= |infos| && n <= |row|
    ensures forall key :: key in RowRecord(factory, row, infos, n, ready).record ==>
      exists j :: 0 <= j < n && infos[j].propertyName == key && Trim(row[j]) != ""
    ensures ready <= RowRecord(factory, row, infos, n, ready).ready
    ensures forall t :: t in RowRecord(factory, row, infos, n, ready).ready && t !in ready ==>
      exists j :: 0 <= j < n && factory.parserTypeOf(infos[j].typeName) == Some(t)
    decreases n
  {
    if n > 0 {
      RowRecordKeys(factory, row, infos, n - 1, ready);
    }
  }

  /**
   * With distinct property names, entry j of a record is set exactly when its trimmed
   * cell j is non-blank and a parser for its type is found, given the types cached on
   * reaching it; the value is then that parser's reading of the trimmed cell. Otherwise
   * the property keeps its default (it is absent from the record).
   */
  lemma {:induction false} RowRecordField<V>(factory: TypeParserFactory<V>, row: seq<string>, infos: seq<RowInfo>, n: nat, ready: set<string>, j: nat)
    requires n <= |infos| && n <= |row| && j < n
    requires DistinctNames(infos)
    ensures var record := RowRecord(factory, row, infos, n, ready).record;
      (infos[j].propertyName in record <==> Stores(factory, row, infos, j, RowRecord(factory, row, infos, j, ready).ready))
      && (infos[j].propertyName in record ==> record[infos[j].propertyName] == CellValue(factory, row, infos, j))
    decreases n
  {
    if n - 1 == j {
      RowRecordKeys(factory, row, infos, j, ready);
    } else {
      RowRecordField(factory, row, infos, n - 1, ready, j);
      assert infos[n - 1].propertyName != infos[j].propertyName;
    }
  }

  /**
   * When the factory creates a parser for every keyword it knows, whether entry j is
   * set no longer depends on the cache: exactly the non-blank cells of known types.
   */
  lemma RowRecordFieldWithFactory<V>(factory: TypeParserFactory<V>, row: seq<string>, infos: seq<RowInfo>, ready: set<string>, j: nat)
    requires |infos| <= |row| && j < |infos|
    requires DistinctNames(infos)
    requires forall keyword :: factory.canCreate(keyword)
    ensures var record := RowRecord(factory, row, infos, |infos|, ready).record;
      (infos[j].propertyName in record
       <==> Trim(row[j]) != "" && infos[j].typeName != "" && factory.parserTypeOf(infos[j].typeName).Some?)
  {
    RowRecordField(factory, row, infos, |infos|, ready, j);
  }

  /**
   * Record k is built from row first + k, with the types cached by the k rows before it;
   * a row before the sheet gives an empty record.
   */
  lemma {:induction false} RowRecordsAt<V>(factory: TypeParserFactory<V>, rows: seq<seq<string>>, first: int, count: nat, infos: seq<RowInfo>, ready: set<string>, k: nat)
    requires first + count <= |rows| && (first < 0 ==> |infos| == 0)
    requires CellsFor(rows, infos)
    requires k < count
    ensures RowRecords(factory, rows, first, count, infos, ready).0[k]
      == if first + k < 0 then map[]
         else RowRecord(factory, rows[first + k], infos, |infos|, RowRecords(factory, rows, first, k, infos, ready).1).record
    decreases count
  {
    if k < count - 1 {
      RowRecordsAt(factory, rows, first, count - 1, infos, ready, k);
    }
  }

  /** The cached types only grow over the rows. */
  lemma {:induction false} RowRecordsReadyGrows<V>(factory: TypeParserFactory<V>, rows: seq<seq<string>>, first: int, count: nat, infos: seq<RowInfo>, ready: set<string>)
    requires first + count <= |rows| && (first < 0 ==> |infos| == 0)
    requires CellsFor(rows, infos)
    ensures ready <= RowRecords(factory, rows, first, count, infos, ready).1
    decreases count
  {
    if count > 0 {
      RowRecordsReadyGrows(factory, rows, first, count - 1, infos, ready);
      var before := RowRecords(factory, rows, first, count - 1, infos, ready).1;
      if first + count - 1 >= 0 {
        RowRecordKeys(factory, rows[first + count - 1], infos, |infos|, before);
      }
    }
  }

  /** With no schema entry every record is empty and no parser is looked up. */
  lemma {:induction false} RowRecordsEmptySchema<V>(factory: TypeParserFactory<V>, rows: seq<seq<string>>, first: int, count: nat, ready: set<string>)
    requires first + count <= |rows|
    ensures var result := RowRecords(factory, rows, first, count, [], ready);
      result.1 == ready && forall k :: 0 <= k < count ==> result.0[k] == map[]
    decreases count
  {
    if count > 0 {
      RowRecordsEmptySchema(factory, rows, first, count - 1, ready);
    }
  }

  /**
   * The import fails exactly when the start row is below 1 and there is a schema entry;
   * otherwise it yields one record per row from DataRowsStartRow - 1 on (none if that is
   * past the end), and the cached types only grow.
   */
  lemma ImportRowsOutcome<V>(factory: TypeParserFactory<V>, rows: seq<seq<string>>, startRow: int, infos: seq<RowInfo>, ready: set<string>)
    requires CellsFor(rows, infos)
    ensures ImportRows(factory, rows, startRow, infos, ready).Failure? <==> startRow < 1 && |infos| > 0
    ensures ImportRows(factory, rows, startRow, infos, ready).Success? ==>
      |ImportRows(factory, rows, startRow, infos, ready).value.0| == RecordCount(|rows|, startRow)
      && ready <= ImportRows(factory, rows, startRow, infos, ready).value.1
    ensures |infos| == 0 ==>
      var (records, after) := ImportRows(factory, rows, startRow, infos, ready).value;
      after == ready && forall k :: 0 <= k < |records| ==> records[k] == map[]
  {
    var start := startRow - 1;
    if !(start < 0 && |infos| > 0) && start < |rows| {
      RowRecordsReadyGrows(factory, rows, start, |rows| - start, infos, ready);
      if |infos| == 0 {
        RowRecordsEmptySchema(factory, rows, start, |rows| - start, ready);
      }
    }
  }

  /** The rows of a sheet have a cell for each schema entry when the schema is no wider. */
  lemma TableHasCells(table: DataTable, infos: seq<RowInfo>)
    requires WellFormed(table) && |infos| <= table.columnCount
    ensures CellsFor(table.rows, infos)
  {
  }

  /**
   * The inner loop of GenerateDataTableRowCollection over the schema entries: the record
   * of one row, with each parser looked up through the cache.
   */
  method FillRecord<V>(row: seq<string>, rowInfos: seq<RowInfo>, parsers: TypeParserCache<V>) returns (rowData: map<string, V>)
    requires |rowInfos| <= |row| && parsers.Valid()
    modifies parsers
    ensures parsers.Valid()
    ensures RowState(rowData, parsers.Ready()) == RowRecord(parsers.factory, row, rowInfos, |rowInfos|, old(parsers.Ready()))
    ensures |rowInfos| == 0 ==> parsers.cache == old(parsers.cache)
    ensures KeepsParsers(old(parsers.cache), parsers.cache)
  {
    rowData := map[];
    for j := 0 to |rowInfos|
      invariant parsers.Valid()
      invariant j == 0 ==> parsers.cache == old(parsers.cache)
      invariant KeepsParsers(old(parsers.cache), parsers.cache)
      invariant RowState(rowData, parsers.Ready()) == RowRecord(parsers.factory, row, rowInfos, j, old(parsers.Ready()))
    {
      var cellValue := Trim(row[j]);
      if cellValue != "" {
        var rowInfo := rowInfos[j];
        var typeParser := parsers.GetTypeParser(rowInfo.typeName);
        if typeParser != null {
          var value := parsers.factory.parse(typeParser.parserType)(cellValue);
          rowData := rowData[rowInfo.propertyName := value];
        }
      }
    }
  }

  /**
   * GenerateDataTableRowCollection. Without preferences there are no records. Otherwise
   * one record is built per row from DataRowsStartRow - 1 on: cell j of the row, trimmed,
   * is parsed with the parser for the type of schema entry j and stored under that
   * entry's property name, unless the cell is blank or no parser is found. Reading a row
   * before the first one (a start row below 1) throws before any parser is looked up.
   * Parsers cached beforehand stay cached, as the same instances.
   */
  method GenerateDataTableRowCollection<V>(table: DataTable, preferences: Option<Preferences>, rowInfos: seq<RowInfo>, parsers: TypeParserCache<V>)
    returns (result: Result<seq<map<string, V>>, ImportError>)
    requires WellFormed(table) && |rowInfos| <= table.columnCount && parsers.Valid()
    modifies parsers
    ensures parsers.Valid()
    ensures KeepsParsers(old(parsers.cache), parsers.cache)
    ensures preferences.None? ==> result == Success([]) && parsers.cache == old(parsers.cache)
    ensures preferences.Some? ==>
      (TableHasCells(table, rowInfos);
      match ImportRows(parsers.factory, table.rows, preferences.value.dataRowsStartRow, rowInfos, old(parsers.Ready()))
      case Failure(e) => result == Failure(e) && parsers.cache == old(parsers.cache)
      case Success((records, ready)) => result == Success(records) && parsers.Ready() == ready)
  {
    TableHasCells(table, rowInfos);
    var dataCollection: seq<map<string, V>> := [];
    if preferences.None? {
      return Success(dataCollection);
    }
    ghost var factory := parsers.factory;
    ghost var ready0 := parsers.Ready();
    var rowCount := |table.rows|;
    var start := preferences.value.dataRowsStartRow - 1;
    var i := start;
    while i < rowCount
      invariant start <= i && (start < rowCount ==> i <= rowCount) && (rowCount <= start ==> i == start)
      invariant parsers.Valid()
      invariant KeepsParsers(old(parsers.cache), parsers.cache)
      invariant i == start ==> dataCollection == [] && parsers.cache == old(parsers.cache)
      invariant start < 0 && |rowInfos| > 0 ==> i == start
      invariant start < rowCount && (start < 0 ==> |rowInfos| == 0) ==>
        (dataCollection, parsers.Ready()) == RowRecords(factory, table.rows, start, i - start, rowInfos, ready0)
      decreases rowCount - i
    {
      var rowData: map<string, V> := map[];
      if i < 0 {
        if |rowInfos| > 0 {
          return Failure(RowIndexOutOfRange);
        }
      } else {
        rowData := FillRecord(table.rows[i], rowInfos, parsers);
      }
      dataCollection := dataCollection + [rowData];
      i := i + 1;
    }
    return Success(dataCollection);
  }
}
