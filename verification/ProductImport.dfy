/** Validation of a merchant's product file: one row per data line, and every objection to it. */
module ProductImport {
  import opened Common
  import opened Csv

  /** Text conventions of the runtime: trimming, header normalisation, and number parsing. */
  datatype Conventions = Conventions(
    trim: string -> string,
    normalize: string -> string,
    priceCents: (string, string) -> Option<nat>,  // header and text; none unless a finite, non-negative number
    integer: string -> Option<int>)

  datatype Field = FileField | HeaderField | NameField | PriceField | StockField | SkuField

  /** Rows are numbered from 1, the header being row 1. */
  datatype RowError = RowError(row: nat, field: Field)

  datatype ImportRow = ImportRow(row: nat, sku: string, name: string, priceCents: nat, stock: nat, valid: bool)

  datatype Columns = Columns(sku: int, name: int, price: int, stock: int)

  // ---------------------------------------------------------------- columns

  function PositionOf(headers: seq<string>, name: string): (i: int)
    ensures -1 <= i < |headers|
    ensures i >= 0 ==> headers[i] == name && name !in headers[..i]
    ensures i == -1 <==> name !in headers
  {
    if |headers| == 0 then -1
    else
      var n := |headers| - 1;
      var earlier := PositionOf(headers[..n], name);
      if earlier >= 0 then earlier else if headers[n] == name then n else -1
  }

  /** The column of the first of the names that the header has. */
  function ColumnOf(headers: seq<string>, names: seq<string>): (i: int)
    ensures -1 <= i < |headers|
    ensures i == -1 <==> forall n :: n in names ==> n !in headers
    ensures i >= 0 ==> exists n :: 0 <= n < |names| && headers[i] == names[n] && names[n] !in headers[..i]
                                   && forall m :: 0 <= m < n ==> names[m] !in headers
  {
    if |names| == 0 then -1
    else if names[0] in headers then PositionOf(headers, names[0])
    else ColumnOf(headers, names[1..])
  }

  function Headers(line: string, conv: Conventions): (r: seq<string>) {
    var fields := Split(line);
    seq(|fields|, i requires 0 <= i < |fields| => conv.normalize(fields[i]))
  }

  function ColumnsOf(headers: seq<string>): Columns {
    Columns(ColumnOf(headers, ["sku", "артикул"]),
            ColumnOf(headers, ["name", "title", "название", "наименование"]),
            ColumnOf(headers, ["price", "pricecents", "цена"]),
            ColumnOf(headers, ["stock", "qty", "quantity", "остаток"]))
  }

  // ----------------------------------------------------------- one data line

  function Cell(fields: seq<string>, column: int, conv: Conventions): string {
    if 0 <= column < |fields| && fields[column] != "" then conv.trim(fields[column]) else ""
  }

  function OrElse(text: string, other: string): string {
    if text != "" then text else other
  }

  /** The file being read: its non-blank lines, what is known of the shop, and the conventions. */
  datatype File = File(lines: seq<string>, existingSkus: set<string>, conv: Conventions)

  function HeadersOf(f: File): seq<string>
    requires |f.lines| > 0
  {
    Headers(f.lines[0], f.conv)
  }

  function CellOf(f: File, k: nat, column: int): string
    requires k + 1 < |f.lines|
  {
    Cell(Split(f.lines[k + 1]), column, f.conv)
  }

  function SkuOf(f: File, k: nat): string
    requires k + 1 < |f.lines|
  {
    CellOf(f, k, ColumnsOf(HeadersOf(f)).sku)
  }

  function NameOf(f: File, k: nat): string
    requires k + 1 < |f.lines|
  {
    OrElse(CellOf(f, k, ColumnsOf(HeadersOf(f)).name), SkuOf(f, k))
  }

  function PriceHeader(f: File): string
    requires |f.lines| > 0
  {
    var i := ColumnsOf(HeadersOf(f)).price;
    if i >= 0 then HeadersOf(f)[i] else ""
  }

  function PriceOf(f: File, k: nat): Option<nat>
    requires k + 1 < |f.lines|
  {
    var text := CellOf(f, k, ColumnsOf(HeadersOf(f)).price);
    if text == "" then None else f.conv.priceCents(PriceHeader(f), text)
  }

  function StockOf(f: File, k: nat): Option<int>
    requires k + 1 < |f.lines|
  {
    f.conv.integer(OrElse(CellOf(f, k, ColumnsOf(HeadersOf(f)).stock), "0"))
  }

  /** A SKU the shop has, or that an earlier line of the file has, valid or not. */
  predicate TakenSku(f: File, k: nat)
    requires k + 1 < |f.lines|
  {
    SkuOf(f, k) != "" && (SkuOf(f, k) in f.existingSkus || exists j :: 0 <= j < k && SkuOf(f, j) == SkuOf(f, k))
  }

  predicate Faulty(f: File, k: nat, field: Field)
    requires k + 1 < |f.lines|
  {
    match field
    case NameField => NameOf(f, k) == ""
    case PriceField => PriceOf(f, k).None?
    case StockField => StockOf(f, k).None?
    case SkuField => TakenSku(f, k)
    case _ => false
  }

  predicate ValidLine(f: File, k: nat)
    requires k + 1 < |f.lines|
  {
    !Faulty(f, k, NameField) && !Faulty(f, k, PriceField) && !Faulty(f, k, StockField) && !Faulty(f, k, SkuField)
  }

  function RowOf(f: File, k: nat): ImportRow
    requires k + 1 < |f.lines|
  {
    ImportRow(k + 2, SkuOf(f, k), NameOf(f, k), if PriceOf(f, k).Some? then PriceOf(f, k).value else 0,
              if StockOf(f, k).Some? then Max(0, StockOf(f, k).value) else 0, ValidLine(f, k))
  }

  function ErrorIf(f: File, k: nat, field: Field): seq<RowError>
    requires k + 1 < |f.lines|
  {
    if Faulty(f, k, field) then [RowError(k + 2, field)] else []
  }

  function ErrorsOf(f: File, k: nat): seq<RowError>
    requires k + 1 < |f.lines|
  {
    ErrorIf(f, k, NameField) + ErrorIf(f, k, PriceField) + ErrorIf(f, k, StockField) + ErrorIf(f, k, SkuField)
  }

  function RowsUpTo(f: File, n: nat): (rows: seq<ImportRow>)
    requires n < |f.lines|
    ensures |rows| == n && forall k :: 0 <= k < n ==> rows[k] == RowOf(f, k)
  {
    seq(n, k requires 0 <= k < n => RowOf(f, k))
  }

  function ErrorsUpTo(f: File, n: nat): seq<RowError>
    requires n < |f.lines|
  {
    if n == 0 then [] else ErrorsUpTo(f, n - 1) + ErrorsOf(f, n - 1)
  }

  predicate Readable(f: File) {
    |f.lines| >= 2 && (ColumnsOf(HeadersOf(f)).name >= 0 || ColumnsOf(HeadersOf(f)).sku >= 0)
  }

  // ------------------------------------------------------------- algorithm

  /** The SKUs collected from the first `n` data lines; those the shop has need not be among them. */
  ghost predicate Collected(f: File, n: nat, skus: set<string>)
    requires n < |f.lines|
  {
    && (forall s :: s in skus ==> exists j :: 0 <= j < n && SkuOf(f, j) == s)
    && (forall j :: 0 <= j < n && SkuOf(f, j) != "" ==> SkuOf(f, j) in skus || SkuOf(f, j) in f.existingSkus)
  }

  lemma {:induction false} TakenByCollected(f: File, k: nat, skus: set<string>)
    requires k + 1 < |f.lines| && Collected(f, k, skus)
    ensures TakenSku(f, k) <==> SkuOf(f, k) != "" && (SkuOf(f, k) in f.existingSkus || SkuOf(f, k) in skus)
    ensures Collected(f, k + 1, if SkuOf(f, k) == "" || TakenSku(f, k) then skus else skus + {SkuOf(f, k)})
  {
    hide SkuOf;
    forall s | s in skus ensures exists j :: 0 <= j < k + 1 && SkuOf(f, j) == s {
      var j :| 0 <= j < k && SkuOf(f, j) == s;
    }
  }

  /** One turn of the loop over the data lines. */
  method ReadLine(f: File, k: nat, headers: seq<string>, columns: Columns, skus: set<string>)
    returns (row: ImportRow, errors: seq<RowError>, fileSkus: set<string>)
    requires k + 1 < |f.lines| && headers == HeadersOf(f) && columns == ColumnsOf(headers)
    requires Collected(f, k, skus)
    ensures row == RowOf(f, k) && errors == ErrorsOf(f, k) && Collected(f, k + 1, fileSkus)
  {
    hide Split, ColumnOf, Collected, TakenSku, Cell, Headers;
    var cols := SplitCsvLine(f.lines[k + 1]);
    var rowNum := k + 2;
    var sku := Cell(cols, columns.sku, f.conv);
    var name := OrElse(Cell(cols, columns.name, f.conv), sku);
    var priceRaw := Cell(cols, columns.price, f.conv);
    var stockRaw := OrElse(Cell(cols, columns.stock, f.conv), "0");
    var valid := true;
    var priceCents: nat := 0;
    errors := [];
    if name == "" {
      errors := errors + [RowError(rowNum, NameField)];
      valid := false;
    }
    assert errors == ErrorIf(f, k, NameField);
    if priceRaw != "" {
      var n := f.conv.priceCents(if columns.price >= 0 then headers[columns.price] else "", priceRaw);
      if n.None? {
        errors := errors + [RowError(rowNum, PriceField)];
        valid := false;
      } else {
        priceCents := n.value;
      }
    } else {
      errors := errors + [RowError(rowNum, PriceField)];
      valid := false;
    }
    assert errors == ErrorIf(f, k, NameField) + ErrorIf(f, k, PriceField);
    var parsed := f.conv.integer(stockRaw);
    var stock: nat := if parsed.Some? then Max(0, parsed.value) else 0;
    if parsed.None? {
      errors := errors + [RowError(rowNum, StockField)];
      valid := false;
    }
    assert errors == ErrorIf(f, k, NameField) + ErrorIf(f, k, PriceField) + ErrorIf(f, k, StockField);
    TakenByCollected(f, k, skus);
    fileSkus := skus;
    if sku != "" {
      if sku in f.existingSkus || sku in fileSkus {
        errors := errors + [RowError(rowNum, SkuField)];
        valid := false;
      } else {
        fileSkus := fileSkus + {sku};
      }
    }
    row := ImportRow(rowNum, sku, name, priceCents, stock, valid);
  }

  method ParseAndValidateCsv(f: File) returns (rows: seq<ImportRow>, errors: seq<RowError>)
    ensures Readable(f) ==> rows == RowsUpTo(f, |f.lines| - 1) && errors == ErrorsUpTo(f, |f.lines| - 1)
    ensures !Readable(f) ==> rows == []
                             && errors == [if |f.lines| < 2 then RowError(0, FileField) else RowError(1, HeaderField)]
  {
    hide Split, ColumnOf, RowOf, ErrorsOf, SkuOf;
    if |f.lines| < 2 {
      return [], [RowError(0, FileField)];
    }
    var headers := Headers(f.lines[0], f.conv);
    var columns := ColumnsOf(headers);
    if columns.name < 0 && columns.sku < 0 {
      return [], [RowError(1, HeaderField)];
    }
    rows, errors := [], [];
    var fileSkus: set<string> := {};
    for li := 1 to |f.lines|
      invariant rows == RowsUpTo(f, li - 1)
      invariant errors == ErrorsUpTo(f, li - 1)
      invariant Collected(f, li - 1, fileSkus)
    {
      var row, found, skus := ReadLine(f, li - 1, headers, columns, fileSkus);
      rows, errors, fileSkus := rows + [row], errors + found, skus;
    }
  }

  // ------------------------------------------------------------- what it means

  lemma {:induction false} ErrorsExactly(f: File, n: nat, e: RowError)
    requires n < |f.lines|
    ensures e in ErrorsUpTo(f, n) <==> 2 <= e.row < n + 2 && Faulty(f, e.row - 2, e.field)
  {
    hide Faulty, ErrorsOf;
    if n == 0 {
    } else {
      ErrorsExactly(f, n - 1, e);
      ErrorsOfLine(f, n - 1, e);
    }
  }

  lemma {:induction false} ErrorsOfLine(f: File, k: nat, e: RowError)
    requires k + 1 < |f.lines|
    ensures e in ErrorsOf(f, k) <==> e.row == k + 2 && Faulty(f, k, e.field)
  {
    hide TakenSku, NameOf, PriceOf, StockOf;
  }

  /** A row is valid exactly when no error carries its number. */
  lemma {:induction false} ValidExactly(f: File, k: nat)
    requires Readable(f) && k + 1 < |f.lines|
    ensures RowsUpTo(f, |f.lines| - 1)[k].row == k + 2
    ensures RowsUpTo(f, |f.lines| - 1)[k].valid <==> forall e :: e in ErrorsUpTo(f, |f.lines| - 1) ==> e.row != k + 2
  {
    hide Faulty, ErrorsUpTo;
    var n := |f.lines| - 1;
    forall field: Field ensures RowError(k + 2, field) in ErrorsUpTo(f, n) <==> Faulty(f, k, field) {
      ErrorsExactly(f, n, RowError(k + 2, field));
    }
    NoOtherFields(f, k);
    forall e | e in ErrorsUpTo(f, n) && e.row == k + 2 ensures Faulty(f, k, e.field) {
      ErrorsExactly(f, n, e);
    }
  }

  lemma {:induction false} NoOtherFields(f: File, k: nat)
    requires k + 1 < |f.lines|
    ensures ValidLine(f, k) <==> forall field: Field :: !Faulty(f, k, field)
  {
    hide TakenSku, NameOf, PriceOf, StockOf;
  }

  /** The SKUs of valid rows are new to the shop and pairwise different. */
  lemma {:induction false} ValidSkusAreFresh(f: File, i: nat, j: nat)
    requires Readable(f) && i < j && j + 1 < |f.lines|
    requires RowOf(f, j).valid && RowOf(f, j).sku != ""
    ensures RowOf(f, j).sku !in f.existingSkus && RowOf(f, i).sku != RowOf(f, j).sku
  {
    hide SkuOf, NameOf, PriceOf, StockOf;
  }

  /** The SKUs the valid ones of these rows bring, and how many rows bring one. */
  function NewSkus(rows: seq<ImportRow>): set<string> {
    set r | r in rows && r.valid && r.sku != "" :: r.sku
  }

  function RowsWithSku(rows: seq<ImportRow>): nat {
    if |rows| == 0 then 0
    else RowsWithSku(rows[..|rows| - 1]) + (if rows[|rows| - 1].valid && rows[|rows| - 1].sku != "" then 1 else 0)
  }

  /** Importing the valid rows adds as many SKUs to the shop as there are such rows: none is known, none repeats. */
  lemma {:induction false} ImportAddsEachSku(f: File, n: nat)
    requires Readable(f) && n < |f.lines|
    ensures f.existingSkus !! NewSkus(RowsUpTo(f, n))
    ensures |f.existingSkus + NewSkus(RowsUpTo(f, n))| == |f.existingSkus| + RowsWithSku(RowsUpTo(f, n))
  {
    hide *;
    if n == 0 {
      NoRows(f);
      assert f.existingSkus + {} == f.existingSkus;
    } else {
      ImportAddsEachSku(f, n - 1);
      NewSkuIsNew(f, n - 1);
      AddSku(f.existingSkus, RowsUpTo(f, n - 1), RowOf(f, n - 1));
      OneMoreRow(f, n);
    }
  }

  lemma {:induction false} OneMoreRow(f: File, n: nat)
    requires 0 < n < |f.lines|
    ensures RowsUpTo(f, n) == RowsUpTo(f, n - 1) + [RowOf(f, n - 1)]
  {
    hide RowOf;
  }

  lemma {:induction false} NoRows(f: File)
    requires |f.lines| > 0
    ensures NewSkus(RowsUpTo(f, 0)) == {} && RowsWithSku(RowsUpTo(f, 0)) == 0
  {
  }

  /** One more row whose SKU, if it counts, is new. */
  lemma {:induction false} AddSku(existing: set<string>, rows: seq<ImportRow>, row: ImportRow)
    requires existing !! NewSkus(rows) && |existing + NewSkus(rows)| == |existing| + RowsWithSku(rows)
    requires row.valid && row.sku != "" ==> row.sku !in existing && row.sku !in NewSkus(rows)
    ensures existing !! NewSkus(rows + [row])
    ensures |existing + NewSkus(rows + [row])| == |existing| + RowsWithSku(rows + [row])
  {
    hide NewSkus;
    SkusWithRow(rows, row);
    assert (rows + [row])[..|rows|] == rows;
    if row.valid && row.sku != "" {
      assert existing + (NewSkus(rows) + {row.sku}) == (existing + NewSkus(rows)) + {row.sku};
    } else {
      assert NewSkus(rows) + {} == NewSkus(rows);
    }
  }

  lemma {:induction false} SkusWithRow(rows: seq<ImportRow>, row: ImportRow)
    ensures NewSkus(rows + [row]) == NewSkus(rows) + (if row.valid && row.sku != "" then {row.sku} else {})
  {
    assert forall r :: r in rows + [row] <==> r in rows || r == row;
  }

  lemma {:induction false} NewSkuIsNew(f: File, k: nat)
    requires Readable(f) && k + 1 < |f.lines|
    ensures RowOf(f, k).valid && RowOf(f, k).sku != "" ==>
              RowOf(f, k).sku !in f.existingSkus && RowOf(f, k).sku !in NewSkus(RowsUpTo(f, k))
  {
    if RowOf(f, k).valid && RowOf(f, k).sku != "" {
      forall i | 0 <= i < k ensures RowOf(f, i).sku != RowOf(f, k).sku && RowOf(f, k).sku !in f.existingSkus {
        ValidSkusAreFresh(f, i, k);
      }
      hide RowOf;
    }
  }

  /** A faulty line still claims its SKU: of two lines with one SKU, the later is refused even if the earlier was. */
  lemma {:induction false} FaultyLinesClaimSkus(f: File, i: nat, j: nat)
    requires Readable(f) && i < j && j + 1 < |f.lines| && SkuOf(f, i) == SkuOf(f, j) != ""
    ensures !RowOf(f, j).valid && RowError(j + 2, SkuField) in ErrorsUpTo(f, |f.lines| - 1)
  {
    hide SkuOf, NameOf, PriceOf, StockOf, ErrorsUpTo;
    ErrorsExactly(f, |f.lines| - 1, RowError(j + 2, SkuField));
  }

  /** The text of a data line in a column: trimmed, and empty where the line or the column ends. */
  function TextAt(f: File, k: nat, column: int): string
    requires k + 1 < |f.lines|
  {
    var fields := Split(f.lines[k + 1]);
    if column < 0 || column >= |fields| || fields[column] == "" then "" else f.conv.trim(fields[column])
  }

  /** Some data line before `k` has this text in the SKU column. */
  predicate SkuBefore(f: File, k: nat, sku: string)
    requires k < |f.lines|
  {
    exists j :: 0 <= j < k && TextAt(f, j, ColumnsOf(HeadersOf(f)).sku) == sku
  }

  /**
   * How a data line is read. Its name is what the name column says, or else its SKU; its price and its stock are what
   * their columns say as numbers, no stock being 0 and less than none being none. It is valid exactly when it has a
   * name, a readable price, a readable stock, and no SKU that the shop or an earlier line of the file has.
   */
  lemma {:induction false} LineReadExactly(f: File, k: nat)
    requires Readable(f) && k + 1 < |f.lines|
    ensures var c := ColumnsOf(HeadersOf(f));
            var row := RowOf(f, k);
            var sku, name := TextAt(f, k, c.sku), TextAt(f, k, c.name);
            var price, stock := TextAt(f, k, c.price), TextAt(f, k, c.stock);
            var cents := if price == "" then None
                else f.conv.priceCents(if c.price >= 0 then HeadersOf(f)[c.price] else "", price);
            var units := f.conv.integer(if stock == "" then "0" else stock);
            && row.row == k + 2 && row.sku == sku && row.name == (if name == "" then sku else name)
            && (cents.Some? ==> row.priceCents == cents.value)
            && (units.Some? ==> row.stock == if units.value > 0 then units.value else 0)
            && (row.valid <==> row.name != "" && cents.Some? && units.Some?
                               && (sku == "" || (sku !in f.existingSkus && !SkuBefore(f, k, sku))))
  {
    hide Split, ColumnsOf, HeadersOf;
    forall j | 0 <= j < k ensures TextAt(f, j, ColumnsOf(HeadersOf(f)).sku) == SkuOf(f, j) {
    }
  }

  /** The columns a header offers: for each field the first of its names that occurs, where it first occurs. */
  lemma {:induction false} ColumnsExactly(headers: seq<string>)
    ensures var c := ColumnsOf(headers);
            && Chosen(headers, ["sku", "артикул"], c.sku)
            && Chosen(headers, ["name", "title", "название", "наименование"], c.name)
            && Chosen(headers, ["price", "pricecents", "цена"], c.price)
            && Chosen(headers, ["stock", "qty", "quantity", "остаток"], c.stock)
  {
  }

  predicate Chosen(headers: seq<string>, names: seq<string>, column: int) {
    if forall n :: n in names ==> n !in headers then column == -1
    else
      && 0 <= column < |headers|
      && exists n :: 0 <= n < |names| && headers[column] == names[n] && names[n] !in headers[..column]
                     && forall m :: 0 <= m < n ==> names[m] !in headers
  }

  /** A file is read at all exactly when it has a data line below its header, and the header a name or SKU column. */
  lemma {:induction false} ReadableExactly(f: File)
    ensures Readable(f) <==>
              && |f.lines| > 1
              && exists h :: h in HeadersOf(f)
                             && h in ["sku", "артикул", "name", "title", "название", "наименование"]
  {
    hide HeadersOf;
    if |f.lines| > 1 {
      ColumnsExactly(HeadersOf(f));
      NamesKnown(HeadersOf(f), ["sku", "артикул"], ["name", "title", "название", "наименование"]);
    }
  }

  lemma {:induction false} NamesKnown(headers: seq<string>, a: seq<string>, b: seq<string>)
    ensures (ColumnOf(headers, a) >= 0 || ColumnOf(headers, b) >= 0) <==> exists h :: h in headers && h in a + b
  {
    if ColumnOf(headers, a) >= 0 {
      var h :| h in a && h in headers;
      assert h in a + b;
    }
    if ColumnOf(headers, b) >= 0 {
      var h :| h in b && h in headers;
      assert h in a + b;
    }
  }
}
