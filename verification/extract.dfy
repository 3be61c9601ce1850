/** The five loaders. Each reads a fixed column range of one named sheet, names the fields by
    position, stamps the filename's date and site on every row, and two of them drop the rows whose
    key cell is empty. */
module Extract {
  import opened Wrappers
  import opened Calendar
  import opened Sites

  /** A cell's value as the spreadsheet holds it. Decoding and typing of cells are not modelled. */
  type Cell(==,!new)

  /** A sheet as rows of cells, `None` for an empty cell. The first row is the header row. */
  type Sheet = seq<seq<Option<Cell>>>

  /** The sheets of a workbook by name. */
  type Workbook = map<string, Sheet>

  /** One output row: the cells of the column range, then `filename_date` and `filename_site`. */
  datatype Row = Row(fields: seq<Option<Cell>>, filenameDate: Date, filenameSite: Site)

  /** A loader's result: the table name it returns and the frame, whose columns are `headers`. */
  datatype Table = Table(name: string, headers: seq<string>, rows: seq<Row>)

  datatype LoadError = SheetNotFound(sheet: string)

  /** A spreadsheet column letter, `A` being column 0. */
  function Column(letter: char): nat
    requires 'A' <= letter <= 'Z'
  {
    letter as int - 'A' as int
  }

  /** What a loader reads: `sheet_name`, `usecols` as column indices, `names`, and the field whose
      empty cells drop a row. */
  datatype Schema = Schema(
    table: string, sheet: string, firstCol: nat, lastCol: nat, headers: seq<string>, key: Option<nat>)
  {
    /** Number of columns `usecols` selects. */
    function Width(): nat {
      if firstCol <= lastCol then lastCol - firstCol + 1 else 0
    }
  }

  const Masterdata := Schema(
    "hilton_masterdata", "Master Data", Column('D'), Column('G'),
    ["WOW_MATERIAL_CODE", "MATERIAL_DESCRIPTION", "PRODUCT_SOURCE", "VALUE_ADD_FLAG"],
    None)

  const ServiceLevel := Schema(
    "hilton_servicelevel", "Service Level Data", Column('A'), Column('W'),
    ["SERVICE_GROUP", "PRODUCT_SOURCE", "VALUE_ADD_FLAG", "REASON_CODE", "REASON_DESCRIPTION",
     "SHORTAGE_QTY", "PROMO_FLAG", "COMMENTS", "STATE", "PLNT", "ITEM", "SOLD_TO_PT",
     "PURCHASE_ORDER_NO", "SOLD_TO_PARTY", "MATERIAL", "MATERIAL_NUMBER",
     "CUSTOMER_MATERIAL_NUMBER", "EAN_UPC", "DC_FLAG", "MAT_AV_DT", "ORDER_QUANTITY",
     "DELIVERED_QTY", "DELIVERED_WEIGHT"],
    Some(10))

  const ServiceGroup := Schema(
    "hilton_servicegroup", "Service Group", Column('A'), Column('F'),
    ["DEPT", "WOW_MATERIAL_CODE", "MATERIAL_DESCRIPTION", "PRODUCT_SOURCE", "SPECIES",
     "SERVICE_GROUP"],
    None)

  const Forecast := Schema(
    "hilton_forecast", "Forecast Data", Column('A'), Column('V'),
    ["PROMO_FLAG", "PRODUCT_SOURCE", "PLANT", "MATERIAL_NUMBER", "WOWNR", "DESCRIPTION",
     "PLANT_MATERIAL_STATUS", "DATE", "FORECAST", "ACTUAL_SALES", "ACTUAL_TPRP", "LAST_OLD_TPRP",
     "_1_WEEK_OLD_FORECAST", "_2_WEEKS_OLD_FORECAST", "_3_WEEKS_OLD_FORECAST",
     "_4_WEEKS_OLD_FORECAST", "_5_WEEKS_OLD_FORECAST", "_1_WEEK_OLD_TPRP", "_2_WEEKS_OLD_TPRP",
     "_3_WEEKS_OLD_TPRP", "_4_WEEKS_OLD_TPRP", "_5_WEEKS_OLD_TPRP"],
    Some(3))

  const Customer := Schema(
    "hilton_customer", "Customer Master", Column('A'), Column('Q'),
    ["CUSTOMER", "NAME", "STATE", "FAIR_SHARE", "PALLET_HEI", "LOW_CODE", "STORE_SIZE",
     "STORE_LEAD", "SALES_ORG", "DISTR_CHANNEL", "DIVISION", "SHIP_CONDITIONS", "DEL_PLANT", "DC",
     "ORDER_COMB", "MAX_PART_D", "PART_DEL_PER_ITEM"],
    None)

  /** The loaders in the order a run calls them. */
  const Loaders := [Masterdata, ServiceLevel, ServiceGroup, Forecast, Customer]

  /** The cell in column `c`, empty past the end of a short row. */
  function CellAt(row: seq<Option<Cell>>, c: nat): Option<Cell> {
    if c < |row| then row[c] else None
  }

  /** The data rows: the header row is consumed, and its text is ignored because `names` are
      given. */
  function Body(sheet: Sheet): seq<seq<Option<Cell>>> {
    if |sheet| == 0 then [] else sheet[1..]
  }

  /** The cells of the schema's column range, field `i` coming from column `firstCol + i`. */
  function Project(schema: Schema, cells: seq<Option<Cell>>): seq<Option<Cell>> {
    seq(schema.Width(), i requires 0 <= i < schema.Width() => CellAt(cells, schema.firstCol + i))
  }

  /** Each data row projected onto the range and tagged with the filename's date and site. */
  function Annotate(schema: Schema, body: seq<seq<Option<Cell>>>, date: Date, site: Site): seq<Row> {
    seq(|body|, j requires 0 <= j < |body| => Row(Project(schema, body[j]), date, site))
  }

  predicate Keyed(row: Row, k: nat) {
    k < |row.fields| && row.fields[k].Some?
  }

  /** `df[df[key].notna()]`: the rows whose key cell is filled, in their original order. */
  function KeepKeyed(rows: seq<Row>, k: nat): (r: seq<Row>)
    ensures |r| <= |rows|
    ensures forall row :: row in r ==> row in rows && Keyed(row, k)
  {
    if |rows| == 0 then []
    else (if Keyed(rows[0], k) then [rows[0]] else []) + KeepKeyed(rows[1..], k)
  }

  /** One loader call on a workbook. */
  function Load(wb: Workbook, schema: Schema, date: Date, site: Site): (r: Result<Table, LoadError>)
    ensures r.Failure? <==> schema.sheet !in wb
    ensures r.Failure? ==> r.error == SheetNotFound(schema.sheet)
    ensures r.Success? ==> r.value.name == schema.table && r.value.headers == schema.headers
    ensures r.Success? ==> forall row :: row in r.value.rows ==>
      row.filenameDate == date && row.filenameSite == site && |row.fields| == schema.Width()
    ensures r.Success? && schema.key.None? ==> |r.value.rows| == |Body(wb[schema.sheet])|
    ensures r.Success? && schema.key.None? ==>
      forall j, i :: 0 <= j < |r.value.rows| && 0 <= i < schema.Width() ==>
        r.value.rows[j].fields[i] == CellAt(Body(wb[schema.sheet])[j], schema.firstCol + i)
    ensures r.Success? && schema.key.Some? ==>
      forall row :: row in r.value.rows ==> Keyed(row, schema.key.value)
  {
    if schema.sheet !in wb then Failure(SheetNotFound(schema.sheet))
    else
      var rows := Annotate(schema, Body(wb[schema.sheet]), date, site);
      match schema.key
      case None => Success(Table(schema.table, schema.headers, rows))
      case Some(k) => Success(Table(schema.table, schema.headers, KeepKeyed(rows, k)))
  }

  /** Each loader names every column of its range, and its key field is the one the source
      filters on. */
  lemma SchemasMatchRanges()
    ensures forall s :: s in Loaders ==> |s.headers| == s.Width()
    ensures Masterdata.Width() == 4 && ServiceLevel.Width() == 23 && ServiceGroup.Width() == 6
    ensures Forecast.Width() == 22 && Customer.Width() == 17
    ensures Masterdata.firstCol == 3 && ServiceLevel.firstCol == 0 && ServiceGroup.firstCol == 0
    ensures Forecast.firstCol == 0 && Customer.firstCol == 0
    ensures ServiceLevel.key == Some(10) && ServiceLevel.headers[10] == "ITEM"
    ensures Forecast.key == Some(3) && Forecast.headers[3] == "MATERIAL_NUMBER"
    ensures Masterdata.key.None? && ServiceGroup.key.None? && Customer.key.None?
  {
  }

  /** The filter keeps a row exactly when the row was there and its key cell is filled. */
  lemma {:induction false} KeepKeyedMembership(rows: seq<Row>, k: nat, row: Row)
    ensures row in KeepKeyed(rows, k) <==> row in rows && Keyed(row, k)
    decreases |rows|
  {
    if |rows| > 0 {
      KeepKeyedMembership(rows[1..], k, row);
      assert rows == [rows[0]] + rows[1..];
    }
  }

  /** The filter keeps order: filtering a concatenation filters each part in turn. */
  lemma {:induction false} KeepKeyedAppend(a: seq<Row>, b: seq<Row>, k: nat)
    ensures KeepKeyed(a + b, k) == KeepKeyed(a, k) + KeepKeyed(b, k)
    decreases |a|
  {
    if |a| == 0 {
      assert a + b == b;
    } else {
      assert (a + b)[1..] == a[1..] + b;
      KeepKeyedAppend(a[1..], b, k);
    }
  }

  lemma KeepKeyedSingle(row: Row, k: nat)
    ensures KeepKeyed([row], k) == if Keyed(row, k) then [row] else []
  {
  }

  /** Rows that all have their key are kept unchanged. */
  lemma {:induction false} KeepKeyedAllKeyed(rows: seq<Row>, k: nat)
    requires forall row :: row in rows ==> Keyed(row, k)
    ensures KeepKeyed(rows, k) == rows
    decreases |rows|
  {
    if |rows| > 0 {
      assert forall row :: row in rows[1..] ==> row in rows;
      KeepKeyedAllKeyed(rows[1..], k);
      assert rows[0] in rows;
      assert [rows[0]] + rows[1..] == rows;
    }
  }

  /** Rows none of which has its key all go. */
  lemma {:induction false} KeepKeyedNoneKeyed(rows: seq<Row>, k: nat)
    requires forall row :: row in rows ==> !Keyed(row, k)
    ensures KeepKeyed(rows, k) == []
    decreases |rows|
  {
    if |rows| > 0 {
      assert forall row :: row in rows[1..] ==> row in rows;
      KeepKeyedNoneKeyed(rows[1..], k);
      assert rows[0] in rows;
    }
  }

  /** Every row the range yields, before any filter: projected and stamped. */
  function RangeRows(wb: Workbook, schema: Schema, date: Date, site: Site): seq<Row>
    requires schema.sheet in wb
  {
    Annotate(schema, Body(wb[schema.sheet]), date, site)
  }

  /** A filtering loader returns exactly the range's rows that have their key, in order. */
  lemma LoadFiltersByKey(wb: Workbook, schema: Schema, date: Date, site: Site)
    requires schema.sheet in wb && schema.key.Some?
    ensures Load(wb, schema, date, site).Success?
    ensures Load(wb, schema, date, site).value.rows == KeepKeyed(RangeRows(wb, schema, date, site), schema.key.value)
  {
  }

  // The five loaders.

  /** `load_condensed_masterdata`. */
  function LoadCondensedMasterdata(wb: Workbook, date: Date, site: Site): (r: Result<Table, LoadError>)
    ensures r.Failure? <==> "Master Data" !in wb
    ensures r.Success? ==> r.value.name == "hilton_masterdata" && |r.value.headers| == 4
    ensures r.Success? ==> |r.value.rows| == |Body(wb["Master Data"])|
    ensures r.Success? ==> forall j :: 0 <= j < |r.value.rows| ==> |r.value.rows[j].fields| == 4
    ensures r.Success? ==> forall j, i :: 0 <= j < |r.value.rows| && 0 <= i < 4 ==>
      r.value.rows[j].fields[i] == CellAt(Body(wb["Master Data"])[j], 3 + i)
    ensures r.Success? ==> forall row :: row in r.value.rows ==>
      row.filenameDate == date && row.filenameSite == site
  {
    Load(wb, Masterdata, date, site)
  }

  /** `load_service_level_data`: rows without an `ITEM` are dropped. */
  function LoadServiceLevelData(wb: Workbook, date: Date, site: Site): (r: Result<Table, LoadError>)
    ensures r.Failure? <==> "Service Level Data" !in wb
    ensures r.Success? ==> r.value.name == "hilton_servicelevel" && |r.value.headers| == 23
    ensures r.Success? ==> forall row ::
      row in r.value.rows <==> row in RangeRows(wb, ServiceLevel, date, site) && row.fields[10].Some?
    ensures r.Success? ==> forall row :: row in r.value.rows ==>
      row.filenameDate == date && row.filenameSite == site && |row.fields| == 23
  {
    var r := Load(wb, ServiceLevel, date, site);
    if r.Success? then
      assert forall row :: row in RangeRows(wb, ServiceLevel, date, site) ==> |row.fields| == 23;
      assert forall row :: row in r.value.rows <==>
          row in RangeRows(wb, ServiceLevel, date, site) && Keyed(row, 10) by {
        forall row {
          KeepKeyedMembership(RangeRows(wb, ServiceLevel, date, site), 10, row);
        }
      }
      r
    else r
  }

  /** `load_servicegroup_data`. */
  function LoadServicegroupData(wb: Workbook, date: Date, site: Site): (r: Result<Table, LoadError>)
    ensures r.Failure? <==> "Service Group" !in wb
    ensures r.Success? ==> r.value.name == "hilton_servicegroup" && |r.value.headers| == 6
    ensures r.Success? ==> |r.value.rows| == |Body(wb["Service Group"])|
    ensures r.Success? ==> forall j :: 0 <= j < |r.value.rows| ==> |r.value.rows[j].fields| == 6
    ensures r.Success? ==> forall j, i :: 0 <= j < |r.value.rows| && 0 <= i < 6 ==>
      r.value.rows[j].fields[i] == CellAt(Body(wb["Service Group"])[j], i)
    ensures r.Success? ==> forall row :: row in r.value.rows ==>
      row.filenameDate == date && row.filenameSite == site
  {
    Load(wb, ServiceGroup, date, site)
  }

  /** `load_forecast_data`: rows without a `MATERIAL_NUMBER` are dropped. */
  function LoadForecastData(wb: Workbook, date: Date, site: Site): (r: Result<Table, LoadError>)
    ensures r.Failure? <==> "Forecast Data" !in wb
    ensures r.Success? ==> r.value.name == "hilton_forecast" && |r.value.headers| == 22
    ensures r.Success? ==> forall row ::
      row in r.value.rows <==> row in RangeRows(wb, Forecast, date, site) && row.fields[3].Some?
    ensures r.Success? ==> forall row :: row in r.value.rows ==>
      row.filenameDate == date && row.filenameSite == site && |row.fields| == 22
  {
    var r := Load(wb, Forecast, date, site);
    if r.Success? then
      assert forall row :: row in RangeRows(wb, Forecast, date, site) ==> |row.fields| == 22;
      assert forall row :: row in r.value.rows <==>
          row in RangeRows(wb, Forecast, date, site) && Keyed(row, 3) by {
        forall row {
          KeepKeyedMembership(RangeRows(wb, Forecast, date, site), 3, row);
        }
      }
      r
    else r
  }

  /** `load_customer_data`. */
  function LoadCustomerData(wb: Workbook, date: Date, site: Site): (r: Result<Table, LoadError>)
    ensures r.Failure? <==> "Customer Master" !in wb
    ensures r.Success? ==> r.value.name == "hilton_customer" && |r.value.headers| == 17
    ensures r.Success? ==> |r.value.rows| == |Body(wb["Customer Master"])|
    ensures r.Success? ==> forall j :: 0 <= j < |r.value.rows| ==> |r.value.rows[j].fields| == 17
    ensures r.Success? ==> forall j, i :: 0 <= j < |r.value.rows| && 0 <= i < 17 ==>
      r.value.rows[j].fields[i] == CellAt(Body(wb["Customer Master"])[j], i)
    ensures r.Success? ==> forall row :: row in r.value.rows ==>
      row.filenameDate == date && row.filenameSite == site
  {
    Load(wb, Customer, date, site)
  }

  /** A service-level row with its `ITEM` filled and every other cell empty is kept. */
  lemma ServiceLevelKeepsBareItemRow(wb: Workbook, header: seq<Option<Cell>>, item: Cell, date: Date, site: Site)
    requires "Service Level Data" in wb
    requires wb["Service Level Data"] == [header, seq(23, i => if i == 10 then Some(item) else None)]
    ensures LoadServiceLevelData(wb, date, site).Success?
    ensures |LoadServiceLevelData(wb, date, site).value.rows| == 1
    ensures LoadServiceLevelData(wb, date, site).value.rows[0].fields[10] == Some(item)
  {
    var rows := RangeRows(wb, ServiceLevel, date, site);
    var cells: seq<Option<Cell>> := seq(23, i => if i == 10 then Some(item) else None);
    assert Body(wb["Service Level Data"]) == [cells];
    assert |rows| == 1 && rows[0].fields == Project(ServiceLevel, cells);
    assert CellAt(cells, 10) == Some(item);
    assert rows[0].fields[10] == Some(item);
    assert Keyed(rows[0], 10);
    assert KeepKeyed(rows, 10) == rows;
  }
}
