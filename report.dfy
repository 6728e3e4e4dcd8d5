/** The report: `for store in sorted(shopping['採購店家'].unique())`, one
    section per vendor holding that vendor's groups as
    (商品名稱, 規格, 數量) rows, a missing variation shown as "-". */
module Report {
  import opened Cells
  import opened Order
  import opened Join
  import opened Aggregate

  /** One row of a vendor's table: product, variation text, quantity. */
  datatype Item = Item(product: Option<string>, variation: string, quantity: int)

  /** The table printed under one vendor's header. */
  datatype Section = Section(store: string, items: seq<Item>)

  /** What `fillna('-')` shows for a missing variation. */
  const Placeholder: string := "-"

  predicate Distinct(s: seq<string>) {
    forall i, j :: 0 <= i < j < |s| ==> s[i] != s[j]
  }

  /** Some group belongs to vendor `v`. */
  ghost predicate HasVendor(gs: seq<Group>, v: string) {
    exists g :: g in gs && g.key.vendor == v
  }

  /** A grouped row's vendor is the vendor of some group. */
  lemma GroupOfRow(rows: seq<FilledRow>, r: FilledRow)
    requires r in rows
    ensures HasVendor(GroupSum(rows), r.vendor)
  {
    assert KeyOf(r) in Keys(GroupSum(rows));
  }

  /** A group's vendor is the vendor of some grouped row. */
  lemma RowOfGroup(rows: seq<FilledRow>, v: string)
    requires HasVendor(GroupSum(rows), v)
    ensures exists r :: r in rows && r.vendor == v
  {
    var g :| g in GroupSum(rows) && g.key.vendor == v;
    assert g.key in Keys(GroupSum(rows));
  }

  /** `shopping['採購店家'].unique()`: each vendor once, in order of first
      appearance. */
  function UniqueVendors(gs: seq<Group>): (vs: seq<string>)
    ensures Distinct(vs)
    ensures forall v :: v in vs <==> HasVendor(gs, v)
  {
    if gs == [] then []
    else
      var prev := gs[..|gs| - 1];
      var u := UniqueVendors(prev);
      var v := gs[|gs| - 1].key.vendor;
      assert gs == prev + [gs[|gs| - 1]];
      if v in u then u else u + [v]
  }

  predicate Ascending(s: seq<string>) {
    forall i, j :: 0 <= i < j < |s| ==> StrLe(s[i], s[j])
  }

  /** Puts `x` before the first element it does not exceed. */
  function Insert(x: string, s: seq<string>): (r: seq<string>)
    ensures |r| == |s| + 1
    ensures multiset(r) == multiset(s) + multiset{x}
  {
    if s == [] || StrLe(x, s[0]) then [x] + s
    else
      assert s == [s[0]] + s[1..];
      [s[0]] + Insert(x, s[1..])
  }

  lemma {:induction false} InsertKeepsAscending(x: string, s: seq<string>)
    requires Ascending(s)
    ensures Ascending(Insert(x, s))
  {
    if s != [] && !StrLe(x, s[0]) {
      StrLtTotal(x, s[0]);
      InsertKeepsAscending(x, s[1..]);
      var tail := Insert(x, s[1..]);
      forall j | 0 <= j < |tail| ensures StrLe(s[0], tail[j]) {
        assert tail[j] in multiset(tail);
        if tail[j] != x {
          assert tail[j] in multiset(s[1..]);
          var m :| 0 <= m < |s[1..]| && s[1..][m] == tail[j];
          assert s[m + 1] == tail[j];
        }
      }
    } else if s != [] {
      forall j | 1 <= j < |s| + 1 ensures StrLe(x, ([x] + s)[j]) {
        StrLeTransitive(x, s[0], s[j - 1]);
      }
    }
  }

  /** Python's `sorted` on the vendor names: a permutation in ascending order. */
  function Sorted(s: seq<string>): (r: seq<string>)
    ensures |r| == |s|
    ensures multiset(r) == multiset(s)
    ensures Ascending(r)
  {
    if s == [] then []
    else
      InsertKeepsAscending(s[0], Sorted(s[1..]));
      assert s == [s[0]] + s[1..];
      Insert(s[0], Sorted(s[1..]))
  }

  lemma {:induction false} DistinctCount(s: seq<string>, x: string)
    requires Distinct(s)
    ensures multiset(s)[x] <= 1
  {
    if s != [] {
      assert s == [s[0]] + s[1..];
      DistinctCount(s[1..], x);
      if s[0] == x {
        assert x !in s[1..];
      }
    }
  }

  lemma RepeatCount(s: seq<string>, i: int, j: int)
    requires 0 <= i < j < |s| && s[i] == s[j]
    ensures multiset(s)[s[i]] >= 2
  {
    assert s == s[..j] + [s[j]] + s[j + 1..];
    assert s[..j][i] == s[i];
    assert s[i] in multiset(s[..j]);
  }

  /** Sorting distinct vendors visits each once, strictly ascending. */
  lemma SortedDistinct(s: seq<string>)
    requires Distinct(s)
    ensures forall i, j :: 0 <= i < j < |Sorted(s)| ==> StrLt(Sorted(s)[i], Sorted(s)[j])
  {
    var r := Sorted(s);
    forall i, j | 0 <= i < j < |r| ensures StrLt(r[i], r[j]) {
      if r[i] == r[j] {
        RepeatCount(r, i, j);
        DistinctCount(s, r[i]);
      }
    }
  }

  /** A strictly sorted list minus its head is strictly sorted, and its head
      comes before every other key. */
  lemma SortedTail(gs: seq<Group>)
    requires gs != []
    ensures StrictlySorted(gs) ==> StrictlySorted(gs[1..])
    ensures StrictlySorted(gs) ==> forall g :: g in gs[1..] ==> KeyLt(gs[0].key, g.key)
  {
    forall g | StrictlySorted(gs) && g in gs[1..] ensures KeyLt(gs[0].key, g.key) {
      var m :| 0 <= m < |gs[1..]| && gs[1..][m] == g;
      assert gs[m + 1] == g;
    }
  }

  lemma SortedCons(g: Group, gs: seq<Group>)
    ensures StrictlySorted(gs) && (forall h :: h in gs ==> KeyLt(g.key, h.key)) ==> StrictlySorted([g] + gs)
  {
    var r := [g] + gs;
    forall i, j | StrictlySorted(gs) && (forall h :: h in gs ==> KeyLt(g.key, h.key)) && 0 <= i < j < |r|
      ensures KeyLt(r[i].key, r[j].key)
    {
      assert r[j] == gs[j - 1];
      if i > 0 {
        assert r[i] == gs[i - 1];
      } else {
        assert gs[j - 1] in gs;
      }
    }
  }

  /** `shopping[shopping['採購店家'] == store]`: the groups of one vendor, in
      list order. */
  function StoreRows(gs: seq<Group>, store: string): (sel: seq<Group>)
    ensures forall g :: g in sel <==> g in gs && g.key.vendor == store
    ensures forall g :: multiset(sel)[g] == if g.key.vendor == store then multiset(gs)[g] else 0
    ensures StrictlySorted(gs) ==> StrictlySorted(sel)
  {
    if gs == [] then []
    else
      var rest := StoreRows(gs[1..], store);
      assert gs == [gs[0]] + gs[1..];
      SortedTail(gs);
      SortedCons(gs[0], rest);
      (if gs[0].key.vendor == store then [gs[0]] else []) + rest
  }

  /** The `規格` cell after `fillna('-')`. */
  function ShowVariation(v: Option<string>): (text: string)
    ensures v.None? ==> text == Placeholder
    ensures v.Some? ==> text == v.value
  {
    v.GetOr(Placeholder)
  }

  /** Lines 63-68: keep product, variation and quantity, fill the variation. */
  function Display(sel: seq<Group>): (items: seq<Item>)
    ensures |items| == |sel|
    ensures forall i :: 0 <= i < |sel| ==>
      items[i] == Item(sel[i].key.product, ShowVariation(sel[i].key.variation), sel[i].total)
  {
    if sel == [] then []
    else [Item(sel[0].key.product, ShowVariation(sel[0].key.variation), sel[0].total)] + Display(sel[1..])
  }

  /** The sum of a table's `數量` column. */
  function ItemsTotal(items: seq<Item>): int {
    if items == [] then 0 else items[0].quantity + ItemsTotal(items[1..])
  }

  /** A vendor's table adds up to the vendor's groups. */
  lemma {:induction false} SectionTotal(gs: seq<Group>, store: string)
    ensures ItemsTotal(Display(StoreRows(gs, store))) == VendorTotal(gs, store)
  {
    if gs != [] {
      SectionTotal(gs[1..], store);
      var rest := StoreRows(gs[1..], store);
      if gs[0].key.vendor == store {
        assert StoreRows(gs, store) == [gs[0]] + rest;
        assert Display([gs[0]] + rest)[1..] == Display(rest);
      } else {
        assert StoreRows(gs, store) == rest;
      }
    }
  }

  /** The section printed for `store`: a row for each of the vendor's groups
      and no other, adding up to the vendor's total. */
  function SectionFor(gs: seq<Group>, store: string): (section: Section)
    ensures section.store == store
    ensures forall it :: it in section.items ==>
      exists g :: g in gs && g.key.vendor == store && it == Item(g.key.product, ShowVariation(g.key.variation), g.total)
    ensures forall g :: g in gs && g.key.vendor == store ==>
      Item(g.key.product, ShowVariation(g.key.variation), g.total) in section.items
    ensures ItemsTotal(section.items) == VendorTotal(gs, store)
  {
    SectionTotal(gs, store);
    DisplayMembers(StoreRows(gs, store));
    Section(store, Display(StoreRows(gs, store)))
  }

  /** The displayed rows are exactly the shown forms of the selected groups. */
  lemma DisplayMembers(sel: seq<Group>)
    ensures forall it :: it in Display(sel) ==>
      exists g :: g in sel && it == Item(g.key.product, ShowVariation(g.key.variation), g.total)
    ensures forall g :: g in sel ==> Item(g.key.product, ShowVariation(g.key.variation), g.total) in Display(sel)
  {
    var items := Display(sel);
    forall it | it in items ensures exists g :: g in sel && it == Item(g.key.product, ShowVariation(g.key.variation), g.total) {
      var i :| 0 <= i < |items| && items[i] == it;
      assert sel[i] in sel;
    }
    forall g | g in sel ensures Item(g.key.product, ShowVariation(g.key.variation), g.total) in items {
      var i :| 0 <= i < |sel| && sel[i] == g;
      assert items[i] == Item(g.key.product, ShowVariation(g.key.variation), g.total);
    }
  }

  /** The vendors the loop walks: each vendor of the list exactly once,
      strictly ascending. */
  lemma StoresAscending(gs: seq<Group>)
    ensures |Sorted(UniqueVendors(gs))| == |UniqueVendors(gs)|
    ensures forall i, j :: 0 <= i < j < |Sorted(UniqueVendors(gs))| ==>
      StrLt(Sorted(UniqueVendors(gs))[i], Sorted(UniqueVendors(gs))[j])
    ensures forall v :: v in Sorted(UniqueVendors(gs)) <==> HasVendor(gs, v)
  {
    var u := UniqueVendors(gs);
    SortedDistinct(u);
    forall v ensures v in Sorted(u) <==> v in u {
      assert v in multiset(Sorted(u)) <==> v in multiset(u);
    }
  }

  /** The loop at lines 60-70: one section per vendor, in ascending order of
      vendor name, each holding exactly that vendor's groups. */
  method BuildReport(gs: seq<Group>) returns (report: seq<Section>)
    ensures |report| == |UniqueVendors(gs)|
    ensures forall k :: 0 <= k < |report| ==> report[k].store == Sorted(UniqueVendors(gs))[k]
    ensures forall i, j :: 0 <= i < j < |report| ==> StrLt(report[i].store, report[j].store)
    ensures forall k :: 0 <= k < |report| ==> HasVendor(gs, report[k].store)
    ensures forall g :: g in gs ==> exists k :: 0 <= k < |report| && report[k].store == g.key.vendor
    ensures forall k :: 0 <= k < |report| ==> report[k] == SectionFor(gs, report[k].store)
  {
    var stores := Sorted(UniqueVendors(gs));
    StoresAscending(gs);
    report := [];
    for i := 0 to |stores|
      invariant |report| == i
      invariant forall k :: 0 <= k < i ==> report[k] == SectionFor(gs, stores[k])
    {
      report := report + [SectionFor(gs, stores[i])];
    }
    forall g | g in gs ensures exists k :: 0 <= k < |report| && report[k].store == g.key.vendor {
      assert HasVendor(gs, g.key.vendor);
      var k :| 0 <= k < |stores| && stores[k] == g.key.vendor;
      assert report[k].store == g.key.vendor;
    }
  }
}
