# Shopping-list generator, modelled in Dafny

`generate_shopping_list` reads two tables: the week's order lines and a
product-to-vendor mapping. It turns them into a purchasing list grouped by
vendor. Once both tables are in memory, the function works in five steps:

1. It tags every product name with its brand, the text inside the first
   `【…】`. `Brand.ExtractBrand` models this with Python's `re.search` and
   `str.strip` written out: leftmost `【`, lazy group, `.` not crossing a
   newline, and the Unicode whitespace table of `str.isspace`.
2. It left-joins the order lines to the mapping on the brand (module `Join`).
3. Vendors still missing after the join get the sentinel
   `店家未找到 (Not Found)` (`Join.FillVendors`).
4. It sums `Quantity` per (vendor, product name, variation name) in key order
   (`Aggregate.GroupSum`).
5. It prints one table per vendor, with vendors in ascending order. Each
   table holds that vendor's groups, and a missing variation reads `-`
   (`Report.BuildReport`).

`Pipeline.GenerateShoppingList` composes the steps.

Cells that are not text (pandas NaN, numbers) are `None` of `Cells.Option`.
Strings compare by code point, as Python's `<` does (`Order.StrLt`). In the
grouping order, a missing key sorts after every present one.

Three consequences of the code's own choices, which the model keeps:
- The fallback vendor is the literal `店家未找到 (Not Found)` of line 46.
- A brand carried by several mapping rows yields one merged row per match,
  because the left join at lines 39-44 pairs each order line with every
  mapping row of equal brand. `Join.UniqueBrandsKeepRows` shows the join is
  one-to-one on the order lines when mapping brands are unique.
- The `Product Name` cell is grouped and shown in full (`【Acme】Widget`): the
  brand is only a join key and never replaces the product name.

Two pandas defaults go against what the code evidently intends (see
"## Findings"). The model follows the intent and keeps the pandas behaviour
beside it as a separate member:
- A missing brand never matches in the join (`Join.LeftJoin`). pandas'
  behaviour is `Join.Merge` with `nullsMatch := true`.
- Rows with a missing product or variation are grouped under that missing
  key (`Aggregate.GroupSum`). pandas' `dropna=True` behaviour is
  `Aggregate.PandasGroupSum`.

## Model

| member | source | states |
|---|---|---|
| Brand.ExtractBrand | generate_shopping_list.py:28-34 | A non-text cell gives no brand. A text cell gives a brand exactly when some `【` is followed on the same line by a `】`. The brand is the stripped text between the leftmost such `【` and the first `】` after it, and it never holds `】` or a newline. |
| Brand.BracketsOnOneLine | generate_shopping_list.py:31-32 | Any `【` with a later `】` and no newline between them is enough for a brand. |
| Brand.NoOpenNoBrand | generate_shopping_list.py:31-34 | A name without `【` has no brand. |
| Brand.FirstTag | generate_shopping_list.py:31-33 | When no `【` precedes a tag, that tag's stripped text is the brand. |
| Brand.LeadingTag | generate_shopping_list.py:31-33 | Whatever follows the first `】` (even another `】`), the brand is the stripped text of the first tag. |
| Brand.TrimmedTag | generate_shopping_list.py:31-33 | A tag with no surrounding whitespace gives its text verbatim. |
| Brand.EmptyTag | generate_shopping_list.py:31-33 | `【】` gives the empty brand, not a missing one. |
| Brand.LazyStrippedTag | generate_shopping_list.py:31-33 | `【 Acme 】Widget】` gives `Acme`: the group is lazy and stripped. |
| Brand.NewlineInTag | generate_shopping_list.py:31 | `【a\nb】` has no brand, because `.` does not match a newline. |
| Whitespace.Strip | generate_shopping_list.py:33 | The result is `s` with only whitespace cut from both ends, and it neither starts nor ends with whitespace. |
| Whitespace.StrippedUnique | generate_shopping_list.py:33 | Only one string meets that description, so the description defines `strip`. |
| Whitespace.StripTrimmed | generate_shopping_list.py:33 | Text without surrounding whitespace is left as it is. |
| Whitespace.StripIdempotent | generate_shopping_list.py:33 | Stripping twice is stripping once. |
| Join.BrandOrders | generate_shopping_list.py:36 | The brand column has one cell per order line, the brand of its product name, and leaves the line unchanged. |
| Join.BrandMapping | generate_shopping_list.py:37-41 | The mapping keeps, per row, the brand of its name and its vendor. The name column is dropped. |
| Join.MatchedVendors | generate_shopping_list.py:39-44 | Every vendor listed comes from a mapping row whose brand equals the order line's brand, and every such row's vendor is listed. The list is empty exactly when no row claims the line. |
| Join.MatchedVendorsOne | generate_shopping_list.py:39-44 | A single mapping row contributes its vendor exactly when it claims the line, and nothing otherwise. |
| Join.MatchedVendorsAppend | generate_shopping_list.py:39-44 | Matching splits along the mapping table. With the one-row case, this gives one entry per claiming mapping row, in mapping order. |
| Join.RowsFor | generate_shopping_list.py:39-44 | An order line yields one row per claiming mapping row carrying that row's vendor, or a single row with no vendor when nothing claims it. |
| Join.Merge | generate_shopping_list.py:39-44 | The join has at least as many rows as the order table. Every row comes from an order line and is one of that line's rows: one per claiming mapping row, or one without a vendor when nothing claims it. |
| Join.MergeKeepsOrders | generate_shopping_list.py:39-44 | Every order line has at least one merged row. |
| Join.VendorSource | generate_shopping_list.py:39-44 | A merged row's vendor is the vendor of a mapping row that claims its order line. |
| Join.LeftJoin | generate_shopping_list.py:36-44 | The join the code runs, on the brand columns, with missing brands never matching. Every order line is kept, and a line without a brand gets no vendor. |
| Join.LeftJoinBrands | generate_shopping_list.py:36-44 | Each joined row belongs to an order line and carries the brand of its product name. |
| Join.LeftJoinVendors | generate_shopping_list.py:36-44 | A joined row's vendor comes only from a mapping row whose name carries the line's present brand. |
| Join.MergeAppend | generate_shopping_list.py:39-44 | The join splits along the order table. |
| Join.OrderRowBlock | generate_shopping_list.py:39-44 | Each order line keeps its own block of rows, in order-table order. |
| Join.UniqueBrandsKeepRows | generate_shopping_list.py:39-44 | With unique mapping brands, row `i` of the join is order line `i`. It carries the claiming row's vendor, or none when no row claims the line. |
| Join.MissingBrandNeverMatches | generate_shopping_list.py:39-44 | In the intended join, a row without a brand never gets a vendor. |
| Join.PandasMatchesMissingBrands | generate_shopping_list.py:39-44 | With pandas' null-key matching, an untagged order line takes the vendor of an untagged mapping row. The intended join leaves it without a vendor. |
| Join.FillVendors | generate_shopping_list.py:46 | Every row gets a vendor. A present vendor is kept unchanged, and a missing one becomes the sentinel. |
| Join.FallbackVendor | generate_shopping_list.py:36-46 | With unique mapping brands, merged row `i` is order line `i`. An unbranded or unmapped line gets the sentinel, and a mapped line gets its mapping row's vendor. |
| Join.UnclaimedRowsNotFound | generate_shopping_list.py:39-46 | For any mapping, a merged row that no mapping row claims, or that has no brand, carries the sentinel. |
| Aggregate.GroupSum | generate_shopping_list.py:48-50 | The groups are in strictly ascending key order. Their keys are exactly the (vendor, product, variation) triples of the merged rows. |
| Aggregate.GroupSumConserves | generate_shopping_list.py:48-50 | No key is listed twice. Each group's total is the summed quantity of exactly the merged rows with its key. |
| Aggregate.VendorConservation | generate_shopping_list.py:48-50 | A vendor's groups total what that vendor's merged rows order. |
| Aggregate.DropMissingKeys | generate_shopping_list.py:48 | pandas' default keeps exactly the rows whose product and variation are both present, each as often as it occurs. |
| Aggregate.PandasGroupSum | generate_shopping_list.py:48-50 | The grouping pandas runs by default. Groups are strictly ascending, their keys are exactly the triples of rows with product and variation present, and no group has a missing key. |
| Aggregate.PandasDropsMissingVariation | generate_shopping_list.py:48-50 | With pandas' default, two lines without a variation leave no group. Keeping the missing key sums them into one group. |
| Aggregate.KeyLtTotal | generate_shopping_list.py:48 | Any two distinct keys are ordered, so sorting the groups is well defined. |
| Aggregate.KeyLtTransitive | generate_shopping_list.py:48 | The key order is transitive. |
| Order.StrLtTotal | generate_shopping_list.py:60 | Any two distinct vendor names are ordered one way or the other. |
| Order.StrLtTransitive | generate_shopping_list.py:60 | The string order is transitive. |
| Report.UniqueVendors | generate_shopping_list.py:58 | Lists each vendor of the shopping list once, and nothing else. |
| Report.Sorted | generate_shopping_list.py:60 | A permutation of its input in ascending order. |
| Report.InsertKeepsAscending | generate_shopping_list.py:60 | Inserting into an ascending list keeps it ascending. |
| Report.SortedDistinct | generate_shopping_list.py:58-60 | Sorting distinct vendors gives a strictly ascending list. |
| Report.StoresAscending | generate_shopping_list.py:58-60 | The loop visits every vendor of the shopping list exactly once, in strictly ascending order. |
| Report.StoreRows | generate_shopping_list.py:62 | Selects exactly the groups of the given vendor, each as often as it occurs. Selecting from a strictly sorted list keeps it strictly sorted, so each group appears once and in list order. |
| Report.GroupOfRow | generate_shopping_list.py:48-58 | Every merged row's vendor is the vendor of some group. |
| Report.RowOfGroup | generate_shopping_list.py:48-58 | Every group's vendor is the vendor of some merged row. |
| Report.ShowVariation | generate_shopping_list.py:68 | A missing variation reads `-`, and a present one is unchanged. |
| Report.Display | generate_shopping_list.py:63-68 | One table row per selected group, holding its product, its variation as shown, and its total. |
| Report.SectionFor | generate_shopping_list.py:61-68 | The section is headed by its vendor. It holds the shown row of every group of that vendor and nothing else, and adds up to the vendor's total. |
| Report.DisplayMembers | generate_shopping_list.py:63-68 | The displayed rows are exactly the shown forms of the selected groups. |
| Report.SectionTotal | generate_shopping_list.py:62-68 | A vendor's table adds up to that vendor's group totals. |
| Report.BuildReport | generate_shopping_list.py:58-70 | One section per vendor, in strictly ascending vendor order, for every vendor of the shopping list and no other. Each section is that vendor's groups as displayed. |
| Pipeline.MergedRowsFacts | generate_shopping_list.py:36-46 | Every order line is kept in the merged table with the brand of its product name. A line without a brand gets the sentinel, and any other vendor is that of a mapping row carrying the line's brand. |
| Pipeline.MergedRowsKept | generate_shopping_list.py:36-46 | Every order line has a row in the merged table. |
| Pipeline.MergedRowsVendors | generate_shopping_list.py:36-46 | Merged rows carry their line's brand, and a vendor other than the sentinel comes from a mapping row carrying that brand. |
| Pipeline.GenerateShoppingList | generate_shopping_list.py:36-70 | Groups are unique and conserve quantity. Sections come in strictly ascending vendor order, one for each vendor of the merged table and no other. Each section adds up to what its vendor's merged rows order. |
| Pipeline.ExampleMerge | generate_shopping_list.py:36-46 | On the worked example, both `【Acme】Widget` lines go to `Acme Shop` and the untagged line to the sentinel. |
| Pipeline.ExampleRun | generate_shopping_list.py:36-50 | On the worked example, the widget lines sum to one group of 5, and the sentinel group sorts after `Acme Shop`. |

## Left out

- Reading the two spreadsheets, locally and over the network, and the error messages printed when that fails (generate_shopping_list.py:12-24). This is I/O. The tables are parameters of `Pipeline.GenerateShoppingList`.
- All console output (generate_shopping_list.py:18, 54-56, 61, 69-70), including the Markdown rendering by `to_markdown`, a library call. A `Report.Section` holds the data of one printed table.
- The `__main__` block (generate_shopping_list.py:73-93): finding the newest order file with `glob`, the hard-coded URL and the exception handling. This is filesystem plumbing, and the URL literal there is unterminated as written.
- In-place column assignment (generate_shopping_list.py:36-37, 46, 68). Each assignment is modelled as a function from the old column to the new one. Aliasing between data frames and dtype coercion are not modelled.
- Columns of the mapping other than its name and vendor. They ride along through the join unchanged and affect nothing downstream.
- Cell types. Any non-text cell is `None`, so a numeric product name, which `extract_brand` also rejects, is not told apart from NaN. `Quantity` is an `int`: NaN or fractional quantities are not modelled.
- Regular-expression matching in general. Only the one fixed pattern is modelled, directly.
- Join.FallbackVendor: states row-for-row correspondence only when mapping brands are unique. With repeated brands, `Join.RowsFor`, `Join.OrderRowBlock` and `Join.UnclaimedRowsNotFound` describe the result.

## Findings

| source | as written | input that shows it | evidently intended | confidence | as-written member | corrected member |
|---|---|---|---|---|---|---|
| generate_shopping_list.py:39-44 | `pd.merge` matches a missing brand to a missing brand, so an untagged order line takes the vendor of an untagged mapping row | order line `Gift card`; mapping row `Gift wrap` with vendor `Paper Shop`: the line is bought from `Paper Shop` | an untagged line matches nothing and falls back to the sentinel | not executed; follows pandas' documented null-key matching | Join.PandasMatchesMissingBrands | Join.MissingBrandNeverMatches |
| generate_shopping_list.py:48-50 | `groupby` with its default `dropna=True` drops every row whose product or variation is missing | two `Widget` lines without a variation, quantities 3 and 2: no group at all | the lines are summed into one group of 5 shown with variation `-`, which line 68 prepares for | not executed; follows pandas' documented `dropna` default | Aggregate.PandasDropsMissingVariation | Aggregate.GroupSumConserves |
