/** The brand columns (`.apply(extract_brand)`), the left join of the order
    rows to the brand-to-vendor mapping on them (`pd.merge(..., on='brand',
    how='left')`), and the fallback vendor for rows the mapping does not
    cover (`fillna`). */
module Join {
  import opened Cells
  import opened Brand

  /** A row of the order export: `Product Name`, `Variation Name`, `Quantity`. */
  datatype OrderRow = OrderRow(product: Option<string>, variation: Option<string>, quantity: int)

  /** A row of the mapping table: `商品名稱` (a product name carrying the brand
      tag) and `採購店家` (the vendor). */
  datatype MappingRow = MappingRow(name: Option<string>, vendor: Option<string>)

  /** An order row with its `brand` column. */
  datatype BrandedOrder = BrandedOrder(order: OrderRow, brand: Option<string>)

  /** A mapping row with its `brand` column, `商品名稱` dropped. */
  datatype BrandVendor = BrandVendor(brand: Option<string>, vendor: Option<string>)

  /** A row of the merged table: the order row, its brand and the vendor cell
      of the mapping row it was joined to (missing when none was). */
  datatype JoinedRow = JoinedRow(order: OrderRow, brand: Option<string>, vendor: Option<string>)

  /** A merged row after the fallback: the vendor is always text. */
  datatype FilledRow = FilledRow(order: OrderRow, brand: Option<string>, vendor: string)

  /** The vendor given to rows that no mapping row claims. */
  const NotFound: string := "店家未找到 (Not Found)"

  /** `orders_df['brand'] = orders_df['Product Name'].apply(extract_brand)` */
  function BrandOrders(orders: seq<OrderRow>): (branded: seq<BrandedOrder>)
    ensures |branded| == |orders|
    ensures forall i :: 0 <= i < |orders| ==>
      branded[i].order == orders[i] && branded[i].brand == ExtractBrand(orders[i].product)
  {
    seq(|orders|, i requires 0 <= i < |orders| => BrandedOrder(orders[i], ExtractBrand(orders[i].product)))
  }

  /** `mapping_df['brand'] = mapping_df['商品名稱'].apply(extract_brand)`, then
      `mapping_df.drop(columns=['商品名稱'])`. */
  function BrandMapping(mapping: seq<MappingRow>): (keyed: seq<BrandVendor>)
    ensures |keyed| == |mapping|
    ensures forall k :: 0 <= k < |mapping| ==>
      keyed[k].brand == ExtractBrand(mapping[k].name) && keyed[k].vendor == mapping[k].vendor
  {
    seq(|mapping|, k requires 0 <= k < |mapping| => BrandVendor(ExtractBrand(mapping[k].name), mapping[k].vendor))
  }

  /** Equality of join keys. pandas compares key cells so that a missing key
      equals a missing key (`nullsMatch`); the intended join never matches a
      missing brand. */
  predicate KeysMatch(left: Option<string>, right: Option<string>, nullsMatch: bool) {
    left == right && (nullsMatch || left.Some?)
  }

  /** Mapping row `m` is joined to order row `o`. */
  predicate Claims(m: BrandVendor, o: BrandedOrder, nullsMatch: bool) {
    KeysMatch(o.brand, m.brand, nullsMatch)
  }

  /** The vendor cells of the mapping rows that claim `o`, in mapping order. */
  function MatchedVendors(o: BrandedOrder, mapping: seq<BrandVendor>, nullsMatch: bool): (vs: seq<Option<string>>)
    ensures |vs| <= |mapping|
    ensures vs == [] <==> forall k :: 0 <= k < |mapping| ==> !Claims(mapping[k], o, nullsMatch)
    ensures forall k :: 0 <= k < |mapping| && Claims(mapping[k], o, nullsMatch) ==> mapping[k].vendor in vs
    ensures forall v :: v in vs ==>
      exists k :: 0 <= k < |mapping| && Claims(mapping[k], o, nullsMatch) && mapping[k].vendor == v
  {
    if mapping == [] then []
    else
      var rest := MatchedVendors(o, mapping[1..], nullsMatch);
      assert forall k :: 1 <= k < |mapping| ==> mapping[k] == mapping[1..][k - 1];
      if Claims(mapping[0], o, nullsMatch) then [mapping[0].vendor] + rest else rest
  }

  /** A single mapping row contributes its vendor exactly when it claims `o`. */
  lemma MatchedVendorsOne(o: BrandedOrder, m: BrandVendor, nullsMatch: bool)
    ensures MatchedVendors(o, [m], nullsMatch) == if Claims(m, o, nullsMatch) then [m.vendor] else []
  {
    assert [m][1..] == [];
  }

  /** Matching splits along the mapping table; with `MatchedVendorsOne`, this
      fixes one entry per claiming mapping row, in mapping order. */
  lemma {:induction false} MatchedVendorsAppend(o: BrandedOrder, m1: seq<BrandVendor>, m2: seq<BrandVendor>, nullsMatch: bool)
    ensures MatchedVendors(o, m1 + m2, nullsMatch) == MatchedVendors(o, m1, nullsMatch) + MatchedVendors(o, m2, nullsMatch)
  {
    if m1 == [] {
      assert m1 + m2 == m2;
    } else {
      assert (m1 + m2)[0] == m1[0];
      assert (m1 + m2)[1..] == m1[1..] + m2;
      MatchedVendorsAppend(o, m1[1..], m2, nullsMatch);
    }
  }

  /** The merged rows one order row produces: one per claiming mapping row,
      or a single row without a vendor when no mapping row claims it. */
  function RowsFor(o: BrandedOrder, mapping: seq<BrandVendor>, nullsMatch: bool): (rows: seq<JoinedRow>)
    ensures |rows| >= 1
    ensures forall r :: r in rows ==> r.order == o.order && r.brand == o.brand
    ensures MatchedVendors(o, mapping, nullsMatch) == [] ==> rows == [JoinedRow(o.order, o.brand, None)]
    ensures MatchedVendors(o, mapping, nullsMatch) != [] ==>
      && |rows| == |MatchedVendors(o, mapping, nullsMatch)|
      && forall k :: 0 <= k < |rows| ==> rows[k].vendor == MatchedVendors(o, mapping, nullsMatch)[k]
  {
    var vs := MatchedVendors(o, mapping, nullsMatch);
    if vs == [] then [JoinedRow(o.order, o.brand, None)]
    else seq(|vs|, k requires 0 <= k < |vs| => JoinedRow(o.order, o.brand, vs[k]))
  }

  /** `pd.merge(orders, mapping, on='brand', how='left')`: the blocks of the
      order rows, in order-row order. */
  function Merge(orders: seq<BrandedOrder>, mapping: seq<BrandVendor>, nullsMatch: bool): (rows: seq<JoinedRow>)
    ensures |rows| >= |orders|
    ensures forall r :: r in rows ==>
      BrandedOrder(r.order, r.brand) in orders && r in RowsFor(BrandedOrder(r.order, r.brand), mapping, nullsMatch)
  {
    if orders == [] then []
    else RowsFor(orders[0], mapping, nullsMatch) + Merge(orders[1..], mapping, nullsMatch)
  }

  /** The join as intended: a missing brand matches nothing. Every order line
      is kept, and a line without a brand gets no vendor. Which vendors the
      other lines get is stated by `LeftJoinBrands` and `LeftJoinVendors`. */
  function LeftJoin(orders: seq<OrderRow>, mapping: seq<MappingRow>): (rows: seq<JoinedRow>)
    ensures |rows| >= |orders|
    ensures forall i :: 0 <= i < |orders| ==> Kept(rows, orders[i])
    ensures forall r :: r in rows && r.brand.None? ==> r.vendor.None?
  {
    MergeKeepsOrders(BrandOrders(orders), BrandMapping(mapping), false);
    MissingBrandNeverMatches(BrandOrders(orders), BrandMapping(mapping));
    Merge(BrandOrders(orders), BrandMapping(mapping), false)
  }

  /** Each merged row belongs to an order line and carries that line's brand. */
  lemma LeftJoinBrands(orders: seq<OrderRow>, mapping: seq<MappingRow>)
    ensures forall r :: r in LeftJoin(orders, mapping) ==>
      r.order in orders && r.brand == ExtractBrand(r.order.product)
  {
    var branded := BrandOrders(orders);
    forall r | r in Merge(branded, BrandMapping(mapping), false) ensures r.order in orders && r.brand == ExtractBrand(r.order.product) {
      var i :| 0 <= i < |branded| && branded[i] == BrandedOrder(r.order, r.brand);
    }
  }

  /** A vendor comes only from a mapping row carrying the line's (present) brand. */
  lemma LeftJoinVendors(orders: seq<OrderRow>, mapping: seq<MappingRow>)
    ensures forall r :: r in LeftJoin(orders, mapping) && r.vendor.Some? ==>
      exists k :: 0 <= k < |mapping| && MappedBy(mapping[k], r.order) && mapping[k].vendor == r.vendor
  {
    var branded, keyed := BrandOrders(orders), BrandMapping(mapping);
    forall r | r in Merge(branded, keyed, false) && r.vendor.Some?
      ensures exists k :: 0 <= k < |mapping| && MappedBy(mapping[k], r.order) && mapping[k].vendor == r.vendor
    {
      VendorSource(branded, keyed, false, r);
      var k :| 0 <= k < |keyed| && Claims(keyed[k], BrandedOrder(r.order, r.brand), false) && keyed[k].vendor == r.vendor;
      var i :| 0 <= i < |branded| && branded[i] == BrandedOrder(r.order, r.brand);
      assert MappedBy(mapping[k], r.order);
    }
  }

  /** Some merged row belongs to order row `o`. */
  ghost predicate Kept(rows: seq<JoinedRow>, o: OrderRow) {
    exists r :: r in rows && r.order == o
  }

  /** Every order row has at least one merged row. */
  lemma MergeKeepsOrders(orders: seq<BrandedOrder>, mapping: seq<BrandVendor>, nullsMatch: bool)
    ensures forall i :: 0 <= i < |orders| ==> Kept(Merge(orders, mapping, nullsMatch), orders[i].order)
  {
    forall i | 0 <= i < |orders| ensures Kept(Merge(orders, mapping, nullsMatch), orders[i].order) {
      OrderRowBlock(orders, mapping, nullsMatch, i);
      var before := Merge(orders[..i], mapping, nullsMatch);
      var block := RowsFor(orders[i], mapping, nullsMatch);
      var merged := Merge(orders, mapping, nullsMatch);
      assert merged[|before|] == block[0] && block[0] in block;
      assert merged[|before|] in merged && merged[|before|].order == orders[i].order;
    }
  }

  /** A merged row's vendor is the vendor of a mapping row claiming its order row. */
  lemma VendorSource(orders: seq<BrandedOrder>, mapping: seq<BrandVendor>, nullsMatch: bool, r: JoinedRow)
    requires r in Merge(orders, mapping, nullsMatch) && r.vendor.Some?
    ensures exists k :: 0 <= k < |mapping| && Claims(mapping[k], BrandedOrder(r.order, r.brand), nullsMatch) && mapping[k].vendor == r.vendor
  {
    var o := BrandedOrder(r.order, r.brand);
    var block := RowsFor(o, mapping, nullsMatch);
    var t :| 0 <= t < |block| && block[t] == r;
    var vs := MatchedVendors(o, mapping, nullsMatch);
    assert vs != [] && r.vendor == vs[t];
    assert vs[t] in vs;
  }

  /** The line-46 fallback on one row. */
  function Fill(r: JoinedRow): FilledRow {
    FilledRow(r.order, r.brand, r.vendor.GetOr(NotFound))
  }

  /** `merged['採購店家'].fillna(NotFound)`: every row gets a vendor; rows with
      one keep it. */
  function FillVendors(rows: seq<JoinedRow>): (filled: seq<FilledRow>)
    ensures |filled| == |rows|
    ensures forall i :: 0 <= i < |rows| ==> filled[i].order == rows[i].order && filled[i].brand == rows[i].brand
    ensures forall i :: 0 <= i < |rows| && rows[i].vendor.Some? ==> filled[i].vendor == rows[i].vendor.value
    ensures forall i :: 0 <= i < |rows| && rows[i].vendor.None? ==> filled[i].vendor == NotFound
  {
    seq(|rows|, i requires 0 <= i < |rows| => Fill(rows[i]))
  }

  /** Merging splits along the order table. */
  lemma {:induction false} MergeAppend(o1: seq<BrandedOrder>, o2: seq<BrandedOrder>, mapping: seq<BrandVendor>, nullsMatch: bool)
    ensures Merge(o1 + o2, mapping, nullsMatch) == Merge(o1, mapping, nullsMatch) + Merge(o2, mapping, nullsMatch)
  {
    if o1 == [] {
      assert o1 + o2 == o2;
    } else {
      assert (o1 + o2)[0] == o1[0];
      assert (o1 + o2)[1..] == o1[1..] + o2;
      MergeAppend(o1[1..], o2, mapping, nullsMatch);
    }
  }

  /** Every order row is kept: order row `i` contributes exactly its own
      block, after the blocks of the rows before it. */
  lemma OrderRowBlock(orders: seq<BrandedOrder>, mapping: seq<BrandVendor>, nullsMatch: bool, i: int)
    requires 0 <= i < |orders|
    ensures Merge(orders, mapping, nullsMatch)
      == Merge(orders[..i], mapping, nullsMatch) + RowsFor(orders[i], mapping, nullsMatch) + Merge(orders[i + 1..], mapping, nullsMatch)
  {
    assert orders == orders[..i] + ([orders[i]] + orders[i + 1..]);
    MergeAppend(orders[..i], [orders[i]] + orders[i + 1..], mapping, nullsMatch);
    MergeAppend([orders[i]], orders[i + 1..], mapping, nullsMatch);
    assert Merge([orders[i]], mapping, nullsMatch) == RowsFor(orders[i], mapping, nullsMatch) + Merge([], mapping, nullsMatch);
  }

  /** In the intended join, an order row without a brand is never joined. */
  lemma MissingBrandNeverMatches(orders: seq<BrandedOrder>, mapping: seq<BrandVendor>)
    ensures forall r :: r in Merge(orders, mapping, false) && r.brand.None? ==> r.vendor.None?
  {
    forall r | r in Merge(orders, mapping, false) && r.brand.None? ensures r.vendor.None? {
      assert MatchedVendors(BrandedOrder(r.order, r.brand), mapping, false) == [];
    }
  }

  /** Each non-missing brand tags at most one mapping row. */
  ghost predicate UniqueBrands(mapping: seq<BrandVendor>) {
    forall k1, k2 :: 0 <= k1 < k2 < |mapping| && mapping[k1].brand.Some? ==> mapping[k1].brand != mapping[k2].brand
  }

  lemma {:induction false} AtMostOneMatch(o: BrandedOrder, mapping: seq<BrandVendor>)
    requires UniqueBrands(mapping)
    ensures |MatchedVendors(o, mapping, false)| <= 1
  {
    if mapping != [] {
      var rest := mapping[1..];
      assert forall k :: 0 <= k < |rest| ==> rest[k] == mapping[k + 1];
      AtMostOneMatch(o, rest);
      if Claims(mapping[0], o, false) {
        forall k | 0 <= k < |rest| ensures !Claims(rest[k], o, false) {
          assert mapping[0].brand != mapping[k + 1].brand;
        }
      }
    }
  }

  /** Order rows that each produce a single merged row keep their positions. */
  lemma {:induction false} SingleRowBlocks(orders: seq<BrandedOrder>, mapping: seq<BrandVendor>, nullsMatch: bool)
    requires forall i :: 0 <= i < |orders| ==> |RowsFor(orders[i], mapping, nullsMatch)| == 1
    ensures |Merge(orders, mapping, nullsMatch)| == |orders|
    ensures forall i :: 0 <= i < |orders| ==> Merge(orders, mapping, nullsMatch)[i] == RowsFor(orders[i], mapping, nullsMatch)[0]
  {
    if orders != [] {
      var rest := orders[1..];
      var head := RowsFor(orders[0], mapping, nullsMatch);
      var tail := Merge(rest, mapping, nullsMatch);
      assert |tail| == |rest| && forall i :: 0 <= i < |rest| ==> tail[i] == RowsFor(rest[i], mapping, nullsMatch)[0] by {
        forall i | 0 <= i < |rest| ensures |RowsFor(rest[i], mapping, nullsMatch)| == 1 {
          assert rest[i] == orders[i + 1];
        }
        SingleRowBlocks(rest, mapping, nullsMatch);
      }
      assert Merge(orders, mapping, nullsMatch) == head + tail;
      forall i | 1 <= i < |orders|
        ensures (head + tail)[i] == RowsFor(orders[i], mapping, nullsMatch)[0]
      {
        assert rest[i - 1] == orders[i];
      }
    }
  }

  /** No mapping row claims `o`. */
  predicate Unclaimed(o: BrandedOrder, mapping: seq<BrandVendor>) {
    forall k :: 0 <= k < |mapping| ==> !Claims(mapping[k], o, false)
  }

  /** With unique brands the join is one-to-one on the order rows: row `i` is
      order row `i` with the vendor cell of the mapping row that claims it, or
      no vendor when none does. */
  lemma UniqueBrandsKeepRows(orders: seq<BrandedOrder>, mapping: seq<BrandVendor>)
    requires UniqueBrands(mapping)
    ensures |Merge(orders, mapping, false)| == |orders|
    ensures forall i :: 0 <= i < |orders| ==>
      && Merge(orders, mapping, false)[i].order == orders[i].order
      && Merge(orders, mapping, false)[i].brand == orders[i].brand
    ensures forall i, k :: 0 <= i < |orders| && 0 <= k < |mapping| && Claims(mapping[k], orders[i], false) ==>
      Merge(orders, mapping, false)[i].vendor == mapping[k].vendor
    ensures forall i :: 0 <= i < |orders| && Unclaimed(orders[i], mapping) ==>
      Merge(orders, mapping, false)[i].vendor.None?
  {
    var merged := Merge(orders, mapping, false);
    forall i | 0 <= i < |orders| ensures |RowsFor(orders[i], mapping, false)| == 1 {
      OneRowFor(orders[i], mapping);
    }
    SingleRowBlocks(orders, mapping, false);
    forall i | 0 <= i < |orders|
      ensures merged[i].order == orders[i].order && merged[i].brand == orders[i].brand
      ensures Unclaimed(orders[i], mapping) ==> merged[i].vendor.None?
      ensures forall k :: 0 <= k < |mapping| && Claims(mapping[k], orders[i], false) ==> merged[i].vendor == mapping[k].vendor
    {
      OneRowFor(orders[i], mapping);
    }
  }

  /** With unique brands one order row yields exactly one merged row, whose
      vendor is that of the claiming mapping row, if any. */
  lemma OneRowFor(o: BrandedOrder, mapping: seq<BrandVendor>)
    requires UniqueBrands(mapping)
    ensures |RowsFor(o, mapping, false)| == 1
    ensures RowsFor(o, mapping, false)[0].order == o.order && RowsFor(o, mapping, false)[0].brand == o.brand
    ensures Unclaimed(o, mapping) ==> RowsFor(o, mapping, false)[0].vendor.None?
    ensures forall k :: 0 <= k < |mapping| && Claims(mapping[k], o, false) ==> RowsFor(o, mapping, false)[0].vendor == mapping[k].vendor
  {
    AtMostOneMatch(o, mapping);
    var rows := RowsFor(o, mapping, false);
    assert rows[0] in rows;
    forall k | 0 <= k < |mapping| && Claims(mapping[k], o, false) ensures rows[0].vendor == mapping[k].vendor {
      assert mapping[k].vendor in MatchedVendors(o, mapping, false);
    }
  }

  /** The order row has no brand, or no mapping row carries its brand. */
  ghost predicate BrandUnmapped(o: OrderRow, mapping: seq<MappingRow>) {
    ExtractBrand(o.product).None? || forall k :: 0 <= k < |mapping| ==> ExtractBrand(mapping[k].name) != ExtractBrand(o.product)
  }

  /** Mapping row `m` carries the (present) brand of order row `o`. */
  ghost predicate MappedBy(m: MappingRow, o: OrderRow) {
    ExtractBrand(o.product).Some? && ExtractBrand(m.name) == ExtractBrand(o.product)
  }

  /** After the fallback, with unique brands: a row whose brand is missing or
      unmapped, or whose mapping row has no vendor, gets `NotFound`; a matched
      vendor is kept. */
  lemma FallbackVendor(orders: seq<OrderRow>, mapping: seq<MappingRow>)
    requires UniqueBrands(BrandMapping(mapping))
    ensures |FillVendors(LeftJoin(orders, mapping))| == |orders|
    ensures forall i :: 0 <= i < |orders| ==> FillVendors(LeftJoin(orders, mapping))[i].order == orders[i]
    ensures forall i :: 0 <= i < |orders| && BrandUnmapped(orders[i], mapping) ==>
      FillVendors(LeftJoin(orders, mapping))[i].vendor == NotFound
    ensures forall i, k :: 0 <= i < |orders| && 0 <= k < |mapping| && MappedBy(mapping[k], orders[i]) ==>
      FillVendors(LeftJoin(orders, mapping))[i].vendor == mapping[k].vendor.GetOr(NotFound)
  {
    var branded, keyed := BrandOrders(orders), BrandMapping(mapping);
    UniqueBrandsKeepRows(branded, keyed);
    forall i | 0 <= i < |orders| && BrandUnmapped(orders[i], mapping) ensures Unclaimed(branded[i], keyed) {
    }
    forall i, k | 0 <= i < |orders| && 0 <= k < |mapping| && MappedBy(mapping[k], orders[i])
      ensures Claims(keyed[k], branded[i], false)
    {
    }
  }

  /** Whatever the mapping, a merged row that no mapping row claims ends up
      with `NotFound`, and one without a brand always does. */
  lemma UnclaimedRowsNotFound(orders: seq<BrandedOrder>, mapping: seq<BrandVendor>)
    ensures forall r :: r in FillVendors(Merge(orders, mapping, false)) && Unclaimed(BrandedOrder(r.order, r.brand), mapping) ==>
      r.vendor == NotFound
    ensures forall r :: r in FillVendors(Merge(orders, mapping, false)) && r.brand.None? ==> r.vendor == NotFound
  {
    var joined := Merge(orders, mapping, false);
    var filled := FillVendors(joined);
    MissingBrandNeverMatches(orders, mapping);
    forall r | r in filled ensures
      && (Unclaimed(BrandedOrder(r.order, r.brand), mapping) ==> r.vendor == NotFound)
      && (r.brand.None? ==> r.vendor == NotFound)
    {
      var i :| 0 <= i < |filled| && filled[i] == r;
      assert joined[i] in joined;
      if Unclaimed(BrandedOrder(r.order, r.brand), mapping) {
        assert MatchedVendors(BrandedOrder(joined[i].order, joined[i].brand), mapping, false) == [];
      }
    }
  }

  /** What pandas does with missing keys: an order row without a brand is
      joined to a mapping row without a brand, and takes its vendor. */
  lemma PandasMatchesMissingBrands()
    ensures
      var o := OrderRow(Some("Gift card"), Some("L"), 1);
      var m := MappingRow(Some("Gift wrap"), Some("Paper Shop"));
      && Merge(BrandOrders([o]), BrandMapping([m]), true) == [JoinedRow(o, None, Some("Paper Shop"))]
      && LeftJoin([o], [m]) == [JoinedRow(o, None, None)]
  {
    NoOpenNoBrand("Gift card");
    NoOpenNoBrand("Gift wrap");
  }
}
