# Inventory and sales record store, modelled in Dafny

This project models the record-store layer of a small inventory-and-sales
keeper. The shop keeps two CSV tables: `productos.csv` (id, name,
category, unit price, stock, unit) and `ventas.csv` (sale id, date,
product id, quantity, unit sale price, payment method).

Two versions of that layer are modelled:

- `negocio.py` is the backend the GUI uses. It covers:
  - typed, lossy listing of both tables;
  - max + 1 id assignment;
  - product create, update and delete as read-modify-rewrite of the whole table;
  - `registrar_venta`, which checks a sale and then writes the ledger and the stock;
  - three aggregations: `calcular_total_venta`, `productos_mas_vendidos` and `generar_reporte_ventas`.
- `data/csv_repo.py` is an older repository with the same tables. It has:
  - a stricter reader, in which a missing column aborts the whole read;
  - appends with no id assignment;
  - a schema-keyed update;
  - a filter-and-rewrite delete.

## How the model is built

- **Files.** Each CSV file is a `CsvFile.Table` object with three fields:
  - `present`: whether the file exists;
  - `rows`: its data rows, each a map from column name to cell text;
  - `writable`: whether the environment lets a write or a creation succeed.

  A failed open or write becomes `writable == false` rather than an exception. A header-only file is `present` with no rows.
- **Python values.** The dictionaries the source passes around are maps to `Values.Value`: `Null`, `Int`, `Dec` or `Text`. Python's coercions are written out as total functions that return `None` where Python raises:
  - `int()`, `float()`, `str()`;
  - truthiness and `or 0`;
  - `==` across `int` and `float`;
  - `.strip()`.
- **Money.** Amounts are integer cents, so every sum is exact. `float()` of a text with more than two fractional digits truncates to cents.
- **Integer parsing.** `int()` of text first strips the characters Python counts as whitespace (`str.isspace()`), then accepts an optional sign and ASCII digits. `float()` strips the same characters.
- **negocio.py.** The model is split over four modules:
  - `NegocioRecords`: row parsing and printing, and id assignment;
  - `NegocioProducts`: product create, update and delete decisions, as functions;
  - `NegocioSales`: the sale decision;
  - `NegocioReports`: the aggregations, with their loop methods.

  The class `Negocio.Store` owns the two tables and carries the imperative operations.
- **csv_repo.py.** The module `CsvRepo` with the class `CsvRepo.Repo` plays the same role for `data/csv_repo.py`.
- **How the imperative code is specified.** Each method with a loop is proved against a function of its inputs. Each state-changing method states the full new contents of the tables it may modify.

## Behaviour of the code worth knowing

- `agregar_producto` (negocio.py:146-147) calls `float()`/`int()` on the supplied price and stock. Non-numeric text makes the call return False. It does not become 0.
- `actualizar_producto` (negocio.py:165) never changes `id`, even when `nuevos_datos` has one. Price and stock go through `or 0`, so `""` becomes 0, but other text that does not parse makes the call fail.
- `generar_reporte_ventas` (negocio.py:300) counts a sale with an empty date even when bounds are given. A bound that does not parse drops every sale that has a date (negocio.py:306, 316).
- `registrar_venta` does not append to the ledger. It rewrites the ledger as the re-printed parsed sales plus the new one (negocio.py:249), so unparseable ledger rows disappear.
- `registrar_venta` ignores the result of the catalog write (negocio.py:255): the sale is reported as recorded even when the stock write fails.
- An explicit `None` sale price is not defaulted (negocio.py:239): `float(None)` raises, giving "Error interno al registrar venta.".
- A missing `id_producto` also gives the internal error, but only when the catalog is non-empty. With no products the generator never calls `int()`, so the answer is "not found".
- `productos_mas_vendidos` applies Python slicing to `top_n`, so a negative `top_n` drops entries from the end. Ties keep first-appearance order, because `sorted` is stable over an insertion-ordered dict.
- In `data/csv_repo.py`, the readers catch only `ValueError`/`TypeError`. A file without one of the converted columns raises `KeyError` on its first row, which the outer handler turns into an empty result (data/csv_repo.py:69, 76-77). More generally, reading stops at the first row whose conversion reaches a missing column.
- In `negocio.py`, a missing column instead reads as 0 for `id` (negocio.py:117), or as empty text.
- The csv_repo rewrite raises `ValueError` in `DictWriter` on a record with a key outside the schema. By then the earlier records have been written, so the file holds the header plus the clean prefix and the call returns False (data/csv_repo.py:45-50). The appends raise before writing anything and return False (data/csv_repo.py:92-97).

## Model

| member | source | states |
|---|---|---|
| Values.Trim | negocio.py:144 | `.strip()` of Python whitespace; TrimLeftShape, TrimRightShape, TrimUnpads and TrimIdempotent state its properties. |
| Values.TrimUnpads | negocio.py:144-148 | `.strip()` leaves no leading or trailing blank. |
| Values.TrimIdempotent | negocio.py:144-148 | Stripping twice is stripping once. |
| Values.TrimLeftShape | negocio.py:144-148 | Left strip removes exactly a blank prefix and stops at a non-blank. |
| Values.TrimRightShape | negocio.py:144-148 | Right strip removes exactly a blank suffix and stops at a non-blank. |
| Values.TrimUnpadded | negocio.py:144-148 | Text without padding is unchanged by `.strip()`. |
| Values.ParseInt | negocio.py:117 | `int()` of text: strips whitespace, then reads an optional sign and ASCII digits; ParseFormatInt states that it inverts FormatInt. |
| Values.FormatInt | negocio.py:152 | `str()` of an integer; FormatNat states its digits and ParseFormatInt that `int()` reads it back. |
| Values.FormatNat | negocio.py:152 | Decimal printing of a count yields digits whose value is the count, in the shortest spelling: `"0"` for zero and no leading zero otherwise. |
| Values.ParseFormatInt | negocio.py:117 | `int(str(n)) == n` for every integer. |
| Values.ParseCents | negocio.py:120 | `float()` of text in cents: strips whitespace, then reads a signed decimal; ParseFormatCents states that it inverts FormatCents. |
| Values.FormatCents | negocio.py:152 | `str()` of an amount; ParseFormatCents states that `float()` reads it back. |
| Values.IndexOf | negocio.py:120 | Finds the first occurrence of a character (the decimal point), or reports that it is absent. |
| Values.ParseFormatCents | negocio.py:120 | `float(str(x))` gives back the same amount in cents. |
| Values.ParseUnsignedFormat | negocio.py:120 | The unsigned part of a printed amount parses back to itself. |
| Values.ParseSignedFormat | negocio.py:120 | A printed amount, negative ones included, parses back to itself. |
| Values.ToInt | negocio.py:117 | `int(v)`: None raises, a float truncates toward zero (TruncateCents), text goes through ParseInt; OrZeroConverts and IntCellOf state what it accepts. |
| Values.ToFloat | negocio.py:120 | `float(v)` in cents: None raises, text goes through ParseCents; OrZeroConverts and FloatCellOf state what it accepts. |
| Values.Str | negocio.py:249 | `str(v)`, with `None` printed as `"None"`; IntCellOf and FloatCellOf state that printed numbers read back. |
| Values.PyEq | data/csv_repo.py:106 | Python `==` across `int` and `float`; FindRecord states the first match under it. |
| Values.OrZeroConverts | negocio.py:120-121 | After `or 0`, every non-text value converts with `int()` and `float()`, and `""` converts to 0. |
| Values.TruncateCents | negocio.py:170 | `int()` of an amount truncates toward zero, on both signs. |
| CsvFile.ProjectExact | negocio.py:101 | A row that already has exactly the schema's columns is written unchanged. |
| CsvFile.FilterMap | negocio.py:114-127 | A lossy conversion loop never yields more rows than it reads. |
| CsvFile.FilterMapAppend | negocio.py:114-127 | The loop works row by row: the result over a concatenation is the concatenation of the results. |
| CsvFile.FilterMapSkips | negocio.py:125-127 | A row whose conversion fails is dropped, and nothing else changes. |
| CsvFile.FilterMapKeeps | negocio.py:124 | A row that converts appears in place, between the results of the rows around it. |
| CsvFile.FilterMapTotal | negocio.py:114-127 | When every row converts, the output is the rows' conversions in file order. |
| CsvFile.FilterMapSource | negocio.py:114-127 | Every output entry is the conversion of some input row. |
| CsvFile.FilterMapInverts | negocio.py:114-127 | A decoder applied to rows that each decode to a given list yields exactly that list. |
| CsvFile.Table.constructor | data/csv_repo.py:20-33 | A table starts with the given existence, rows and writability; a missing file has no rows. |
| CsvFile.Table.Ensure | data/csv_repo.py:20-33 | Creates a missing file holding only the header when writable, and fails otherwise; an existing file is left unchanged and the call succeeds. |
| CsvFile.Table.Overwrite | data/csv_repo.py:40-47 | A writable file's rows become exactly the new rows; an unwritable file is untouched and the call fails. |
| CsvFile.Table.Append | data/csv_repo.py:88-94 | A writable file gains exactly one row at the end; an unwritable file is untouched and the call fails. |
| NegocioRecords.IntCellOf | negocio.py:117 | A cell printed from an integer reads back as that integer, with or without `or 0`. |
| NegocioRecords.FloatCellOf | negocio.py:120 | A cell printed from an amount reads back as that amount. |
| NegocioRecords.ParseProductRow | negocio.py:116-123 | One row of `listar_productos`; ProductRowRoundTrip, EmptyIdDropsProduct and EmptyPriceAndStockDefault state its behaviour. |
| NegocioRecords.ProductRow | negocio.py:152 | `{k: str(v)}` of a product; ProductRowKeys states its columns and ProductRowRoundTrip that it reads back. |
| NegocioRecords.ProductRowKeys | negocio.py:152 | A printed product row has exactly the product columns. |
| NegocioRecords.ProductRowRoundTrip | negocio.py:116-123 | Listing reads back exactly a product that was written. |
| NegocioRecords.ProductsRoundTrip | negocio.py:111-128 | Listing a rewritten catalog gives back exactly the products written, in order. |
| NegocioRecords.EmptyIdDropsProduct | negocio.py:117 | A product row with an empty id cell is dropped. |
| NegocioRecords.EmptyPriceAndStockDefault | negocio.py:120-121 | With a readable id, an empty or missing price and stock are kept as 0. |
| NegocioRecords.ParseSaleRow | negocio.py:203-210 | One row of `listar_ventas`; SaleRowRoundTrip and EmptyQuantityDropsSale state its behaviour. |
| NegocioRecords.SaleRow | negocio.py:249 | `{k: str(v)}` of a sale; SaleRowKeys states its columns and SaleRowRoundTrip that it reads back. |
| NegocioRecords.SaleRowKeys | negocio.py:249 | A printed sale row has exactly the sale columns. |
| NegocioRecords.SaleRowRoundTrip | negocio.py:203-210 | Listing reads back exactly a sale that was written. |
| NegocioRecords.SalesRoundTrip | negocio.py:198-214 | Listing a rewritten ledger gives back exactly the sales written, in order. |
| NegocioRecords.EmptyQuantityDropsSale | negocio.py:207 | A sale row with an empty quantity cell is dropped, since that column has no `or 0`. |
| NegocioRecords.ProductRowsProjected | negocio.py:101 | `_escribir_csv` writes printed products unchanged. |
| NegocioRecords.SaleRowsProjected | negocio.py:101 | `_escribir_csv` writes printed sales unchanged. |
| NegocioRecords.MaxOf | negocio.py:132 | `max(ids)` is one of the ids and bounds them all. |
| NegocioRecords.NextId | negocio.py:130-132 | The next id is 1 for no ids, and otherwise one more than an existing id, above every existing id. |
| NegocioRecords.NextProductId | negocio.py:130-132 | The next product id is 1 for an empty catalog, and otherwise max + 1, strictly above every listed product id. |
| NegocioRecords.NextSaleId | negocio.py:216-218 | The next sale id is 1 for an empty ledger, and otherwise max + 1, strictly above every listed sale id. |
| NegocioProducts.DraftText | negocio.py:144 | `str(...).strip()` of a field is unpadded. |
| NegocioProducts.NewProduct | negocio.py:142-149 | The new product exists exactly when its price and stock convert. Its id is the given one. Its name, category and unit are `str(...).strip()` of the draft's fields, so they are unpadded. Its price and stock are the converted values. |
| NegocioProducts.NewProductDefaults | negocio.py:146-147 | With no price and no stock given, both are 0. |
| NegocioProducts.NewProductNumericText | negocio.py:146-147 | An empty text becomes 0, but other text that does not parse makes creation fail. |
| NegocioProducts.AddPlan | negocio.py:139-153 | The plan exists exactly when the draft converts. The new catalog is the listed products unchanged, followed by the NewProduct of the draft under the next id. That id is above every existing id, and it is 1 for an empty catalog. |
| NegocioProducts.FindProduct | negocio.py:162-163 | Finds the first product with the id, or reports that none has it. |
| NegocioProducts.EditedProduct | negocio.py:165-172 | Only the named fields change: texts through `str()`, price and stock coerced. The id never changes. The edit fails exactly when a given price or stock does not convert. |
| NegocioProducts.EditNothing | negocio.py:165-166 | An update naming no editable field leaves the product as it is. |
| NegocioProducts.UpdatePlan | negocio.py:158-178 | There is no new catalog when `int(id)` fails or no product has the id. Otherwise exactly the first matching product is edited and every other product is unchanged. |
| NegocioProducts.UpdateFound | negocio.py:162-174 | When the first match edits successfully, the new catalog is the old one with that entry replaced. |
| NegocioProducts.Without | negocio.py:186 | The filter removes every product with the id and keeps the others. The length stays the same exactly when none had the id, and then the list is unchanged. |
| NegocioProducts.WithoutAppend | negocio.py:186 | The filter keeps order: it works piece by piece over a concatenation. |
| NegocioProducts.DeletePlan | negocio.py:183-190 | There is a new catalog exactly when some product has `int(id)`. It is the filtered list and strictly shorter. |
| NegocioProducts.DeleteTwice | negocio.py:186-188 | Deleting the same id a second time finds nothing, so it does not write. |
| NegocioSales.RequestedProduct | negocio.py:228 | `int(venta.get('id_producto'))`, None for an absent key; CheckSale and RejectionOrder state how it is used. |
| NegocioSales.CheckSale | negocio.py:227-235 | A sale is accepted exactly when all of these hold: the catalog is non-empty, `int(id_producto)` converts, some product has that id, the quantity converts, and 0 < quantity <= that product's stock. An accepted sale names the first product with the id and the converted quantity. A refusal is never a success and never a save failure. |
| NegocioSales.RejectionOrder | negocio.py:227-235 | Each refusal holds exactly when its check is the first to fail. The order is: not found (also for an empty catalog), then the internal error when `int()` raises on the id or the quantity, then invalid quantity, then insufficient stock, which reports the available stock. |
| NegocioSales.NewSale | negocio.py:238-247 | The sale exists exactly when its price converts, and the price is that converted value. It has the fresh id, the product's id and the quantity. Its date is `str()` of the request's date when that is truthy, and the clock's otherwise. Its payment is `str()` of the request's `forma_pago`, or empty when there is none. |
| NegocioSales.DefaultPrice | negocio.py:239 | Without a price in the request, the sale is at the product's current price. |
| NegocioSales.NullPriceFails | negocio.py:239 | An explicit None price is not defaulted, and building the sale fails. |
| NegocioSales.SalePlan | negocio.py:226-255 | It refuses exactly when the checks refuse, with the same answer. It is an internal error exactly when the checks accept and the sale cannot be built. On commit the sale is the NewSale for the accepted product and quantity, and its id is above every listed sale id. Only the matched product changes, and its stock drops by exactly the quantity and stays >= 0. |
| NegocioSales.OkIffCommitted | negocio.py:250-256 | The answer is ok exactly when the plan commits and the ledger is writable. |
| NegocioSales.SellThreeOfFive | negocio.py:226-256 | Selling 3 of stock 5 in an empty ledger records sale 1 at the current price, and the stock becomes 2. |
| NegocioSales.SellTenOfFive | negocio.py:234-235 | Selling 10 of stock 5 is refused with available stock 5. |
| NegocioSales.Message | negocio.py:230-259 | The `mensaje` of each answer; InsufficientStockMessage states one of them. |
| NegocioSales.InsufficientStockMessage | negocio.py:235 | The refusal message names the available stock. |
| NegocioReports.ItemsTotal | negocio.py:266-274 | The total over the items is missing exactly when some item fails to convert. |
| NegocioReports.SaleTotal | negocio.py:261-274 | The loop returns the sum of cantidad × precio, or 0 when any item is malformed. |
| NegocioReports.RevenueIsTotal | negocio.py:266-318 | The report's total and `calcular_total_venta` agree: Σ cantidad × precio over the same sales. |
| NegocioReports.BumpKeys | negocio.py:281 | `conteo[k] += q` adds a new key at the end and keeps the existing key order. |
| NegocioReports.BumpLookup | negocio.py:281 | `conteo[k] += q` adds q to k's count and changes no other count. |
| NegocioReports.LookupEntry | negocio.py:284 | With distinct keys, an entry's count is the count looked up for its key. |
| NegocioReports.Dedup | negocio.py:278-281 | First-appearance order of product ids: distinct, and the same ids. |
| NegocioReports.TallyOf | negocio.py:278-283 | The `conteo` of `productos_mas_vendidos`; TallyCorrect and TallyEntries state its keys and counts. |
| NegocioReports.TallyCorrect | negocio.py:278-283 | The tally's keys are the product ids in first-appearance order, and each count is the sum of that product's sale quantities. |
| NegocioReports.TallyEntries | negocio.py:278-283 | The tally's entries have distinct keys, each a sold product, paired with its total. |
| NegocioReports.Tally | negocio.py:278-283 | The accumulation loop builds exactly the tally. |
| NegocioReports.Insert | negocio.py:284 | Insertion adds one entry, as multisets. |
| NegocioReports.InsertSorted | negocio.py:284 | Insertion keeps the totals non-increasing. |
| NegocioReports.SortByTotal | negocio.py:284 | The sort is a permutation of the tally. |
| NegocioReports.SortSorted | negocio.py:284 | The sorted totals are non-increasing and the length is kept. |
| NegocioReports.SortStable | negocio.py:284 | The sort is stable: the entries with any given total keep their tally order. |
| NegocioReports.PySlice | negocio.py:285 | Python's `[:n]` is a prefix, of length min(n, len) for n >= 0 and max(len + n, 0) for n < 0. |
| NegocioReports.TopSellers | negocio.py:284-285 | The sorted, sliced tally; TopSellersSpec states its properties. |
| NegocioReports.TopSellersSpec | negocio.py:276-285 | The result has at most `top_n` entries and non-increasing totals. Each entry is a sold product with its total, the products are distinct, and the result is a prefix of the stable sort. |
| NegocioReports.DistinctEntries | negocio.py:284 | A permutation of a tally with distinct keys also has distinct keys. |
| NegocioReports.TopSellerTie | negocio.py:276-285 | Two products tied at 5 units keep the order in which they were first sold. |
| NegocioReports.Counted | negocio.py:297-312 | The date filter of `generar_reporte_ventas`; NoBoundsCountsAll, InRange, BadLowerBound and Admits state it. |
| NegocioReports.Revenue | negocio.py:314 | Σ precio × cantidad; RevenueIsTotal and Summarize state what it sums. |
| NegocioReports.CountedSales | negocio.py:295-312 | The filter never counts more sales than the ledger has; CountedAppend and CountedMembers state which sales it keeps and in what order. |
| NegocioReports.CountedAppend | negocio.py:295-312 | The filter works piece by piece over a concatenation, so the counted sales are a sub-list of the ledger in ledger order. |
| NegocioReports.CountedMembers | negocio.py:295-312 | A sale is counted exactly when it is in the ledger and passes the date filter. |
| NegocioReports.Admits | negocio.py:297-312 | The inline date checks admit exactly the sales the filter counts. |
| NegocioReports.Summarize | negocio.py:292-318 | The loop's total is the revenue of the counted sales, and its per-product tally is their tally. |
| NegocioReports.NoBoundsCountsAll | negocio.py:298 | With no date bounds every sale is counted. |
| NegocioReports.InRange | negocio.py:300-312 | With both bounds, a dated sale counts exactly when its date parses into the inclusive range [inicio, fin]. |
| NegocioReports.BadLowerBound | negocio.py:305-317 | A start bound that does not parse drops every dated sale and keeps the undated ones. |
| Negocio.ReadCsv | negocio.py:79-90 | `_leer_csv` creates a missing file when it can, and returns exactly the file's rows, unchanged. |
| Negocio.WriteCsv | negocio.py:92-106 | `_escribir_csv` succeeds exactly when the file is writable, and then the file holds the rows restricted to the schema with `None` as empty. Otherwise nothing changes. |
| Negocio.KeepOthers | negocio.py:186 | The filter comprehension fails exactly on a non-empty catalog with a bad `int(id)`, and otherwise keeps exactly the products with other ids. |
| Negocio.EditFirstProduct | negocio.py:160-176 | The found-flag loop yields exactly the update plan. |
| Negocio.Store.constructor | negocio.py:61-62 | The store owns two distinct tables. |
| Negocio.Store.ListProducts | negocio.py:111-128 | `listar_productos` returns the row-by-row lossy parse of the catalog, in file order, and leaves the rows unchanged. |
| Negocio.Store.AddProduct | negocio.py:134-156 | It returns True exactly when the plan exists and the file is writable, and then the file holds the plan and lists back as it. Otherwise nothing is written. |
| Negocio.Store.UpdateProduct | negocio.py:158-181 | It returns True exactly when the update plan exists and the file is writable, and then the file holds the plan. With no matching id, nothing is written. |
| Negocio.Store.DeleteProduct | negocio.py:183-193 | It returns True exactly when some product had the id and the file is writable, and then the file holds the remaining products. Otherwise nothing is written. |
| Negocio.Store.ListSales | negocio.py:198-214 | `listar_ventas` returns the row-by-row lossy parse of the ledger and leaves the rows unchanged. |
| Negocio.Store.RecordSale | negocio.py:220-259 | The answer is the plan's outcome. A refusal writes nothing. On commit, the ledger becomes the old parsed ledger plus the sale. The catalog's stock changes only when the ledger write succeeded and the catalog is writable. |
| Negocio.Store.RecordAccepted | negocio.py:236-259 | Once the checks accept, the answer is the plan's outcome. The catalog's existence is unchanged. On commit with a writable ledger, the ledger is the old parsed ledger plus the sale. The catalog becomes the plan's catalog only when it is writable too. |
| Negocio.Store.Save | negocio.py:249-255 | It writes the ledger, and the catalog only after a successful ledger write. The catalog's result is ignored. |
| Negocio.Store.BestSellers | negocio.py:276-285 | `productos_mas_vendidos` returns the top sellers of the listed sales. |
| Negocio.Store.SalesReport | negocio.py:287-318 | `generar_reporte_ventas` returns the revenue and tally of the counted listed sales. |
| CsvRepo.StepsDistinct | data/csv_repo.py:69-152 | The columns converted by each reader are distinct. |
| CsvRepo.Convert | data/csv_repo.py:68-71 | The row conversion; its properties are stated by ConvertKept and ConvertFails. |
| CsvRepo.ConvertKept | data/csv_repo.py:66-75 | A row is kept exactly when every converted column is present and parses. The record keeps the row's columns, with the converted values there and the text elsewhere. |
| CsvRepo.ConvertFails | data/csv_repo.py:68-74 | A row that is not kept fails at its first failing column. It aborts the read when that column is missing, and it is skipped when the column does not parse. |
| CsvRepo.ReadRecords | data/csv_repo.py:62-79 | A read never yields more records than rows. AbortStops and ReadFilters state which records it yields and in what order. |
| CsvRepo.AbortStops | data/csv_repo.py:76-79 | A row with a missing column ends the read: the result is that of the rows before it. |
| CsvRepo.ReadKeepsConverting | data/csv_repo.py:66-75 | Without aborts, a record is read exactly when some row converts to it. ReadFilters adds order and multiplicity. |
| CsvRepo.ReadAppend | data/csv_repo.py:66-79 | When no row of the first part aborts, reading a concatenation gives the records of the first part followed by those of the second. |
| CsvRepo.ReadOne | data/csv_repo.py:66-75 | A single row reads as its record when it is kept, and as nothing otherwise. |
| CsvRepo.ReadSnoc | data/csv_repo.py:66-79 | Without aborts, one more row at the end adds its record at the end when it is kept, and nothing otherwise. |
| CsvRepo.ReadFilters | data/csv_repo.py:62-79 | Without aborts, the strict read is the records of the kept rows in file order, one per kept row. |
| CsvRepo.ProductConversion | data/csv_repo.py:68-74 | The product conversion checks id, price and stock in that order. |
| CsvRepo.SaleConversion | data/csv_repo.py:148-154 | The sale conversion checks id, product id, quantity and price in that order. |
| CsvRepo.EmptyCellsDoNotParse | data/csv_repo.py:69-71 | The strict reader has no default: an empty cell does not parse. |
| CsvRepo.StrictProductIsLenient | data/csv_repo.py:66-75 | Every product the strict reader keeps, the negocio reader keeps too, with the same numbers. |
| CsvRepo.StrictSaleIsLenient | data/csv_repo.py:146-155 | Every sale the strict reader keeps, the negocio reader keeps too, with the same numbers. |
| CsvRepo.EmptyStockDiverges | data/csv_repo.py:71 | A product row with an empty stock is skipped here but kept with stock 0 by negocio. |
| CsvRepo.MissingIdColumnAborts | data/csv_repo.py:69-79 | A file without an `id` column reads as empty, where negocio reads id 0. |
| CsvRepo.WrittenRows | data/csv_repo.py:45-46 | The rows the rewrite produces; CleanPrefix, RecordRoundTrip and OffSchemaFirstRecordEmptiesFile state their properties. |
| CsvRepo.CleanPrefix | data/csv_repo.py:45-46 | The rewrite writes the longest prefix of records whose keys are all in the schema. |
| CsvRepo.KeptIsTyped | data/csv_repo.py:66-75 | A kept record has numbers in its converted columns and text elsewhere. |
| CsvRepo.RecordRowCells | data/csv_repo.py:45 | `str()` of a typed record's numbers parses back to them. |
| CsvRepo.RecordRoundTrip | data/csv_repo.py:45-71 | Re-reading a written record gives it back. |
| CsvRepo.ReadBack | data/csv_repo.py:35-79 | Rewriting records read with the schema's columns and reading again gives exactly those records, in order. |
| CsvRepo.OffSchemaFirstRecordEmptiesFile | data/csv_repo.py:45-46 | A first record with a key outside the schema leaves the file with only the header. |
| CsvRepo.HasId | data/csv_repo.py:106 | The match `producto['id'] == id_producto` by Python `==`; FindRecord states that the first match is found. |
| CsvRepo.FindRecord | data/csv_repo.py:105-106 | Finds the first record whose id equals the argument, or reports that none does. |
| CsvRepo.UpdateRecords | data/csv_repo.py:102-112 | There is no update exactly when no record matches. Otherwise only the first matching record is overlaid with the schema keys and the rest are unchanged. |
| CsvRepo.RemoveRecords | data/csv_repo.py:124 | The filter leaves no record with the id. The length stays the same exactly when none had it, and then the list is unchanged. |
| CsvRepo.RemoveAppend | data/csv_repo.py:124 | The filter keeps order: it works piece by piece over a concatenation. |
| CsvRepo.RemoveFromRecords | data/csv_repo.py:124 | Every kept record was in the list. |
| CsvRepo.RemoveTwice | data/csv_repo.py:124 | Filtering twice is filtering once. |
| CsvRepo.ReadTable | data/csv_repo.py:56-79 | The reading loop returns exactly the strict read of the rows, and creates a missing file when it can. |
| CsvRepo.RewriteTable | data/csv_repo.py:35-50 | It returns True exactly when the file is writable and every record fits the schema. A writable file holds the written prefix. |
| CsvRepo.AppendTable | data/csv_repo.py:82-97 | It returns True exactly when the file is writable and the record fits the schema. Then one row is added at the end and nothing else changes. |
| CsvRepo.Overlay | data/csv_repo.py:108-110 | The key loop overwrites exactly the schema keys of the given data. |
| CsvRepo.EditFirst | data/csv_repo.py:105-112 | The found-flag loop yields exactly the record update. |
| CsvRepo.Repo.constructor | data/csv_repo.py:9-10 | The repository owns two distinct tables. |
| CsvRepo.Repo.ReadProducts | data/csv_repo.py:56-79 | `leer_productos` returns the strict read of the catalog. |
| CsvRepo.Repo.RewriteProducts | data/csv_repo.py:35-50 | `_escribir_todos_los_productos` writes the file as header plus the records, up to the first off-schema one. |
| CsvRepo.Repo.AddProduct | data/csv_repo.py:82-97 | `agregar_producto` appends exactly the given record, with no id assignment and no other change. |
| CsvRepo.Repo.UpdateProduct | data/csv_repo.py:100-117 | It returns False and writes nothing when no record matches. Otherwise the file becomes the rewritten update. |
| CsvRepo.Repo.DeleteProduct | data/csv_repo.py:119-130 | It returns False and writes nothing when nothing was removed. Otherwise the file becomes the rewritten remaining records. |
| CsvRepo.Repo.ReadSales | data/csv_repo.py:136-159 | `leer_ventas` returns the strict read of the ledger. |
| CsvRepo.Repo.SaveSale | data/csv_repo.py:161-176 | `guardar_venta` appends exactly the given record and changes nothing else. |
| CsvRepo.DeleteLeavesOnlyKept | data/csv_repo.py:119-130 | After a delete, re-reading the file gives exactly the kept records, so malformed rows are gone. |
| CsvRepo.ReadShape | data/csv_repo.py:66-75 | The records read from a schema-shaped file are typed and have the schema's columns. |

## Left out

- Real file I/O and the `csv` module are not modelled: quoting, encoding, newlines and the header line itself. A table is its data rows after `DictReader`.
- An exception while a file is being read (negocio.py:88-89, data/csv_repo.py:76-77) is not modelled: reads return all rows. The one exception modelled is the csv_repo `KeyError` from a missing column.
- Rows longer than the header, whose extra cells `DictReader` files under the key `None`, are not modelled.
- Short rows, whose missing cells `DictReader` gives as `None`, are modelled as rows whose missing cells are empty text. The numeric conversions and the product texts (negocio.py:117-122, `or ''`) behave the same either way. The difference is in two places. A sale's `fecha` and `forma_pago` are kept as `None` (negocio.py:205-209), and `registrar_venta` writes them back as the text `"None"` (negocio.py:249). The csv_repo readers keep an unconverted missing cell as `None`, and `str(v)` writes it back as `"None"` (data/csv_repo.py:45). In both places the model writes an empty cell instead.
- CsvFile.Table.Ensure: does not model the `os.makedirs` failure outside the `try` in data/csv_repo.py:22, which raises to the caller instead of returning False.
- Negocio.ReadCsv: a failed directory creation in negocio.py:69 is folded into the same `writable` flag as the file creation.
- Floating point is not modelled. Amounts are exact cents, so `round(total, 2)` is the identity, and `float()` of text with more than two fractional digits truncates to cents.
- `float()` forms outside plain decimals are not modelled: exponents, `inf`, `nan` and underscore digit groups are treated as not parsing.
- Values.ParseInt: does not accept underscore digit groups or non-ASCII digits, both of which Python's `int()` accepts. Surrounding whitespace is stripped as in Python.
- Values.ParseCents: does not accept underscore digit groups or non-ASCII digits either. Surrounding whitespace is stripped as in Python.
- Python `bool` values are not modelled: the value model has no booleans, so `True == 1` cases do not arise.
- `datetime.now().isoformat()` is a parameter, `now`, of `Negocio.Store.RecordSale`.
- `datetime.fromisoformat` is a parameter, `parse`, mapping text to an ordered key or None. The `TypeError` from comparing naive with aware datetimes is not modelled.
- negocio.py:28-62 and data/csv_repo.py:7-10 (path discovery and module-level file resolution) are not modelled: the store is an object that owns its two tables.
- Negocio.Store.BestSellers: takes `top_n` as an explicit integer. The default `top_n=10` of negocio.py:276 is not modelled, and neither is `top_n=None`, for which `orden[:None]` returns the whole ranking.
- `print` logging is not modelled.
- negocio_main.py and data/ui_ventana.py (the Tkinter UI) are not part of this model.
- The negocio.py demo block at its end is not part of this model.
- The `{'ok', 'mensaje'}` dictionary of `registrar_venta` is the datatype `NegocioSales.SaleResult`, read through `Ok` and `Message`; the message text of the internal error's exception is not kept.
- `registrar_venta` lets `venta.get('fecha')` be any truthy value. The model stores its `str()`, which agrees with what the ledger file receives.
