/** `generate_shopping_list` once both tables are in memory: brand columns,
    left join, vendor fallback, group-by-sum, and the per-vendor report. */
module Pipeline {
  import opened Cells
  import Whitespace
  import Brand
  import opened Order
  import opened Join
  import opened Aggregate
  import opened Report

  /** The merged table after the vendor fallback (lines 36-46). */
  function MergedRows(orders: seq<OrderRow>, mapping: seq<MappingRow>): seq<FilledRow> {
    FillVendors(LeftJoin(orders, mapping))
  }

  /** Every order line is kept in the merged table with its brand; a line
      without a brand gets `NotFound`, and any other vendor is that of a
      mapping row carrying the line's brand. */
  lemma MergedRowsFacts(orders: seq<OrderRow>, mapping: seq<MappingRow>)
    ensures |MergedRows(orders, mapping)| >= |orders|
    ensures forall i :: 0 <= i < |orders| ==> exists r :: r in MergedRows(orders, mapping) && r.order == orders[i]
    ensures forall r :: r in MergedRows(orders, mapping) ==> r.order in orders && r.brand == Brand.ExtractBrand(r.order.product)
    ensures forall r :: r in MergedRows(orders, mapping) && r.brand.None? ==> r.vendor == NotFound
    ensures forall r :: r in MergedRows(orders, mapping) && r.vendor != NotFound ==>
      exists k :: 0 <= k < |mapping| && MappedBy(mapping[k], r.order) && mapping[k].vendor == Some(r.vendor)
  {
    MergedRowsKept(orders, mapping);
    MergedRowsVendors(orders, mapping);
  }

  lemma MergedRowsKept(orders: seq<OrderRow>, mapping: seq<MappingRow>)
    ensures |MergedRows(orders, mapping)| >= |orders|
    ensures forall i :: 0 <= i < |orders| ==> exists r :: r in MergedRows(orders, mapping) && r.order == orders[i]
  {
    var joined := LeftJoin(orders, mapping);
    var filled := FillVendors(joined);
    forall i | 0 <= i < |orders| ensures exists r :: r in filled && r.order == orders[i] {
      assert Kept(joined, orders[i]);
      var j :| j in joined && j.order == orders[i];
      var t :| 0 <= t < |joined| && joined[t] == j;
      assert filled[t] in filled;
    }
  }

  lemma MergedRowsVendors(orders: seq<OrderRow>, mapping: seq<MappingRow>)
    ensures forall r :: r in MergedRows(orders, mapping) ==> r.order in orders && r.brand == Brand.ExtractBrand(r.order.product)
    ensures forall r :: r in MergedRows(orders, mapping) && r.brand.None? ==> r.vendor == NotFound
    ensures forall r :: r in MergedRows(orders, mapping) && r.vendor != NotFound ==>
      exists k :: 0 <= k < |mapping| && MappedBy(mapping[k], r.order) && mapping[k].vendor == Some(r.vendor)
  {
    var joined := LeftJoin(orders, mapping);
    var filled := FillVendors(joined);
    LeftJoinBrands(orders, mapping);
    LeftJoinVendors(orders, mapping);
    forall r | r in filled
      ensures r.order in orders && r.brand == Brand.ExtractBrand(r.order.product)
      ensures r.brand.None? ==> r.vendor == NotFound
      ensures r.vendor != NotFound ==>
        exists k :: 0 <= k < |mapping| && MappedBy(mapping[k], r.order) && mapping[k].vendor == Some(r.vendor)
    {
      var t :| 0 <= t < |filled| && filled[t] == r;
      var j := joined[t];
      assert j in joined;
      if r.vendor != NotFound {
        assert j.vendor == Some(r.vendor);
      }
    }
  }

  /** Lines 36-70: the shopping list and the sections printed for it. Groups
      are unique and carry the summed quantity of their merged rows; sections
      come in strictly ascending vendor order, one for every vendor of the
      merged table, and each adds up to what that vendor's merged rows order. */
  method GenerateShoppingList(orders: seq<OrderRow>, mapping: seq<MappingRow>)
    returns (shopping: seq<Group>, report: seq<Section>)
    ensures shopping == GroupSum(MergedRows(orders, mapping))
    ensures forall i, j :: 0 <= i < j < |shopping| ==> shopping[i].key != shopping[j].key
    ensures forall i :: 0 <= i < |shopping| ==> shopping[i].total == SumFor(MergedRows(orders, mapping), shopping[i].key)
    ensures forall i, j :: 0 <= i < j < |report| ==> StrLt(report[i].store, report[j].store)
    ensures forall r :: r in MergedRows(orders, mapping) ==> exists k :: 0 <= k < |report| && report[k].store == r.vendor
    ensures forall k :: 0 <= k < |report| ==> exists r :: r in MergedRows(orders, mapping) && r.vendor == report[k].store
    ensures forall k :: 0 <= k < |report| ==> report[k] == SectionFor(shopping, report[k].store)
    ensures forall k :: 0 <= k < |report| ==>
      ItemsTotal(report[k].items) == VendorSum(MergedRows(orders, mapping), report[k].store)
  {
    var merged := MergedRows(orders, mapping);
    shopping := GroupSum(merged);
    report := BuildReport(shopping);
    GroupSumConserves(merged);
    forall r | r in merged ensures exists k :: 0 <= k < |report| && report[k].store == r.vendor {
      GroupOfRow(merged, r);
      var g :| g in shopping && g.key.vendor == r.vendor;
    }
    forall k | 0 <= k < |report| ensures exists r :: r in merged && r.vendor == report[k].store {
      RowOfGroup(merged, report[k].store);
    }
    forall k | 0 <= k < |report|
      ensures ItemsTotal(report[k].items) == VendorSum(merged, report[k].store)
    {
      SectionTotal(shopping, report[k].store);
      VendorConservation(merged, report[k].store);
    }
  }

  /** A worked run: two lines of one tagged product without a variation, and
      one untagged product. */
  const Widget := OrderRow(Some("【Acme】Widget"), None, 3)
  const Plain := OrderRow(Some("NoBrand"), Some("L"), 1)
  const ExampleOrders := [Widget, Widget.(quantity := 2), Plain]
  const ExampleMapping := [MappingRow(Some("【Acme】x"), Some("Acme Shop"))]

  lemma AcmeTag(name: string, rest: string)
    requires name == [] + [Brand.Open] + "Acme" + [Brand.Close] + rest
    ensures Brand.ExtractBrand(Some(name)) == Some("Acme")
  {
    Brand.TrimmedTag([], "Acme", rest);
  }

  /** The brand column of the example orders: "Acme" for the tagged name,
      none for the untagged one. */
  lemma ExampleOrderBrands(orders: seq<OrderRow>)
    requires orders == ExampleOrders
    ensures |BrandOrders(orders)| == 3
    ensures BrandOrders(orders)[0] == BrandedOrder(Widget, Some("Acme"))
    ensures BrandOrders(orders)[1] == BrandedOrder(Widget.(quantity := 2), Some("Acme"))
    ensures BrandOrders(orders)[2] == BrandedOrder(Plain, None)
  {
    var tagged := orders[0].product.value;
    assert tagged == [] + [Brand.Open] + "Acme" + [Brand.Close] + "Widget";
    AcmeTag(tagged, "Widget");
    NoBrandUntagged(orders[2].product.value);
  }

  /** The brand column of the example mapping. */
  lemma ExampleMappingBrands(mapping: seq<MappingRow>)
    requires mapping == ExampleMapping
    ensures |BrandMapping(mapping)| == 1
    ensures BrandMapping(mapping)[0] == BrandVendor(Some("Acme"), Some("Acme Shop"))
  {
    var tagged := mapping[0].name.value;
    assert tagged == [] + [Brand.Open] + "Acme" + [Brand.Close] + "x";
    AcmeTag(tagged, "x");
  }

  lemma NoBrandUntagged(name: string)
    requires name == "NoBrand"
    ensures Brand.ExtractBrand(Some(name)) == None
  {
    assert forall c :: c in name ==> c != Brand.Open;
    Brand.NoOpenNoBrand(name);
  }

  /** Both widget lines are claimed by the Acme mapping row; the untagged
      product is not, and falls back to `NotFound`. */
  lemma ExampleMerge()
    ensures |MergedRows(ExampleOrders, ExampleMapping)| == 3
    ensures MergedRows(ExampleOrders, ExampleMapping)[0] == FilledRow(Widget, Some("Acme"), "Acme Shop")
    ensures MergedRows(ExampleOrders, ExampleMapping)[1] == FilledRow(Widget.(quantity := 2), Some("Acme"), "Acme Shop")
    ensures MergedRows(ExampleOrders, ExampleMapping)[2] == FilledRow(Plain, None, NotFound)
  {
    ExampleOrderBrands(ExampleOrders);
    ExampleMappingBrands(ExampleMapping);
    ExampleJoin(BrandOrders(ExampleOrders), BrandMapping(ExampleMapping));
  }

  /** The join of the example columns, through `UniqueBrandsKeepRows`: one
      mapping row has unique brands, so each order row keeps its place. */
  lemma ExampleJoin(branded: seq<BrandedOrder>, keyed: seq<BrandVendor>)
    requires |branded| == 3
    requires branded[0] == BrandedOrder(Widget, Some("Acme"))
    requires branded[1] == BrandedOrder(Widget.(quantity := 2), Some("Acme"))
    requires branded[2] == BrandedOrder(Plain, None)
    requires |keyed| == 1 && keyed[0] == BrandVendor(Some("Acme"), Some("Acme Shop"))
    ensures |FillVendors(Merge(branded, keyed, false))| == 3
    ensures FillVendors(Merge(branded, keyed, false))[0] == FilledRow(Widget, Some("Acme"), "Acme Shop")
    ensures FillVendors(Merge(branded, keyed, false))[1] == FilledRow(Widget.(quantity := 2), Some("Acme"), "Acme Shop")
    ensures FillVendors(Merge(branded, keyed, false))[2] == FilledRow(Plain, None, NotFound)
  {
    UniqueBrandsKeepRows(branded, keyed);
    assert Claims(keyed[0], branded[0], false) && Claims(keyed[0], branded[1], false);
    assert Unclaimed(branded[2], keyed);
  }

  lemma NotFoundSortsLast(k1: Key, k2: Key)
    requires k1.vendor == "Acme Shop" && k2.vendor == NotFound
    ensures k1 != k2 && !KeyLt(k2, k1)
  {
    assert StrLt("Acme Shop", NotFound);
    StrLtAsymmetric("Acme Shop", NotFound);
  }

  /** The two widget lines are summed into one group of 5; the groups come in
      key order, and `NotFound` sorts after the Latin vendor name. */
  lemma ExampleRun()
    ensures GroupSum(MergedRows(ExampleOrders, ExampleMapping)) == [
      Group(Key("Acme Shop", Some("【Acme】Widget"), None), 5),
      Group(Key(NotFound, Some("NoBrand"), Some("L")), 1)]
  {
    ExampleMerge();
    ExampleGroups(MergedRows(ExampleOrders, ExampleMapping));
  }

  lemma ExampleGroups(rows: seq<FilledRow>)
    requires |rows| == 3
    requires KeyOf(rows[0]) == KeyOf(rows[1]) == Key("Acme Shop", Some("【Acme】Widget"), None)
    requires KeyOf(rows[2]) == Key(NotFound, Some("NoBrand"), Some("L"))
    requires rows[0].order.quantity == 3 && rows[1].order.quantity == 2 && rows[2].order.quantity == 1
    ensures GroupSum(rows) == [
      Group(Key("Acme Shop", Some("【Acme】Widget"), None), 5),
      Group(Key(NotFound, Some("NoBrand"), Some("L")), 1)]
  {
    var k1 := Key("Acme Shop", Some("【Acme】Widget"), None);
    var k2 := Key(NotFound, Some("NoBrand"), Some("L"));
    assert rows[..1][..0] == [];
    assert GroupSum(rows[..1]) == [Group(k1, 3)];
    assert rows[..2][..1] == rows[..1];
    assert GroupSum(rows[..2]) == Add([Group(k1, 3)], k1, 2) == [Group(k1, 5)];
    assert rows[..3] == rows;
    NotFoundSortsLast(k1, k2);
    assert GroupSum(rows) == Add([Group(k1, 5)], k2, 1);
    assert [Group(k1, 5)][1..] == [];
    assert Add([Group(k1, 5)], k2, 1) == [Group(k1, 5)] + Add([], k2, 1);
  }
}
