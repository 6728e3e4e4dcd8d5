/** `merged.groupby(['採購店家', 'Product Name', 'Variation Name'])['Quantity']
    .sum().reset_index()`: one group per distinct (vendor, product, variation)
    key, listed in ascending key order, carrying the sum of its quantities. */
module Aggregate {
  import opened Cells
  import opened Order
  import opened Join

  datatype Key = Key(vendor: string, product: Option<string>, variation: Option<string>)

  /** A row of the shopping list: a key and its summed `Quantity`. */
  datatype Group = Group(key: Key, total: int)

  function KeyOf(r: FilledRow): Key {
    Key(r.vendor, r.order.product, r.order.variation)
  }

  /** Order of one key column: present values ascending, missing ones last. */
  predicate OptLt(a: Option<string>, b: Option<string>) {
    match a
    case None => false
    case Some(x) => b.None? || StrLt(x, b.value)
  }

  /** Order of keys: by vendor, then product, then variation. */
  predicate KeyLt(a: Key, b: Key) {
    || StrLt(a.vendor, b.vendor)
    || (a.vendor == b.vendor && OptLt(a.product, b.product))
    || (a.vendor == b.vendor && a.product == b.product && OptLt(a.variation, b.variation))
  }

  lemma OptLtIrreflexive(a: Option<string>)
    ensures !OptLt(a, a)
  {
    if a.Some? {
      StrLtIrreflexive(a.value);
    }
  }

  lemma OptLtTransitive(a: Option<string>, b: Option<string>, c: Option<string>)
    requires OptLt(a, b) && OptLt(b, c)
    ensures OptLt(a, c)
  {
    if c.Some? {
      StrLtTransitive(a.value, b.value, c.value);
    }
  }

  lemma OptLtTotal(a: Option<string>, b: Option<string>)
    ensures a == b || OptLt(a, b) || OptLt(b, a)
  {
    if a.Some? && b.Some? {
      StrLtTotal(a.value, b.value);
    }
  }

  lemma KeyLtIrreflexive(a: Key)
    ensures !KeyLt(a, a)
  {
    StrLtIrreflexive(a.vendor);
    OptLtIrreflexive(a.product);
    OptLtIrreflexive(a.variation);
  }

  lemma KeyLtTransitive(a: Key, b: Key, c: Key)
    requires KeyLt(a, b) && KeyLt(b, c)
    ensures KeyLt(a, c)
  {
    if StrLt(a.vendor, b.vendor) && StrLt(b.vendor, c.vendor) {
      StrLtTransitive(a.vendor, b.vendor, c.vendor);
    } else if a.vendor == b.vendor == c.vendor {
      if OptLt(a.product, b.product) && OptLt(b.product, c.product) {
        OptLtTransitive(a.product, b.product, c.product);
      } else if a.product == b.product == c.product {
        OptLtTransitive(a.variation, b.variation, c.variation);
      }
    }
  }

  lemma KeyLtTotal(a: Key, b: Key)
    ensures a == b || KeyLt(a, b) || KeyLt(b, a)
  {
    StrLtTotal(a.vendor, b.vendor);
    OptLtTotal(a.product, b.product);
    OptLtTotal(a.variation, b.variation);
  }

  /** Keys strictly ascend, so no key appears twice. */
  predicate StrictlySorted(gs: seq<Group>) {
    forall i, j :: 0 <= i < j < |gs| ==> KeyLt(gs[i].key, gs[j].key)
  }

  function Keys(gs: seq<Group>): set<Key> {
    set g | g in gs :: g.key
  }

  lemma KeysCons(g: Group, gs: seq<Group>)
    ensures Keys([g] + gs) == {g.key} + Keys(gs)
  {
    assert forall h :: h in [g] + gs <==> h == g || h in gs;
  }

  /** Adds quantity `q` to the group keyed `k`, opening it at its place in key
      order when it is new. */
  function Add(gs: seq<Group>, k: Key, q: int): (r: seq<Group>)
    ensures Keys(r) == Keys(gs) + {k}
  {
    if gs == [] then [Group(k, q)]
    else if gs[0].key == k then [Group(k, gs[0].total + q)] + gs[1..]
    else if KeyLt(k, gs[0].key) then [Group(k, q)] + gs
    else
      var r := [gs[0]] + Add(gs[1..], k, q);
      KeysCons(gs[0], gs[1..]);
      KeysCons(gs[0], Add(gs[1..], k, q));
      assert gs == [gs[0]] + gs[1..];
      r
  }

  lemma {:induction false} AddKeepsSorted(gs: seq<Group>, k: Key, q: int)
    requires StrictlySorted(gs)
    ensures StrictlySorted(Add(gs, k, q))
  {
    if gs != [] && gs[0].key != k {
      if KeyLt(k, gs[0].key) {
        forall j | 0 <= j < |gs| ensures KeyLt(k, gs[j].key) {
          if j > 0 {
            KeyLtTransitive(k, gs[0].key, gs[j].key);
          }
        }
      } else {
        KeyLtTotal(k, gs[0].key);
        AddKeepsSorted(gs[1..], k, q);
        var tail := Add(gs[1..], k, q);
        forall j | 0 <= j < |tail| ensures KeyLt(gs[0].key, tail[j].key) {
          assert tail[j] in tail;
          assert tail[j].key in Keys(gs[1..]) + {k};
          if tail[j].key != k {
            var g :| g in gs[1..] && g.key == tail[j].key;
            var m :| 0 <= m < |gs[1..]| && gs[1..][m] == g;
            assert gs[m + 1] == g;
          }
        }
      }
    }
  }

  /** `.groupby(...).sum()` over the merged rows, folded one row at a time. */
  function GroupSum(rows: seq<FilledRow>): (gs: seq<Group>)
    ensures StrictlySorted(gs)
    ensures Keys(gs) == set r | r in rows :: KeyOf(r)
  {
    if rows == [] then []
    else
      var last := rows[|rows| - 1];
      var prev := GroupSum(rows[..|rows| - 1]);
      AddKeepsSorted(prev, KeyOf(last), last.order.quantity);
      assert rows == rows[..|rows| - 1] + [last];
      Add(prev, KeyOf(last), last.order.quantity)
  }

  /** The summed totals of the groups keyed `k`. */
  function TotalOf(gs: seq<Group>, k: Key): int {
    if gs == [] then 0 else (if gs[0].key == k then gs[0].total else 0) + TotalOf(gs[1..], k)
  }

  /** The summed quantities of the merged rows keyed `k`. */
  function SumFor(rows: seq<FilledRow>, k: Key): int {
    if rows == [] then 0
    else SumFor(rows[..|rows| - 1], k) + (if KeyOf(rows[|rows| - 1]) == k then rows[|rows| - 1].order.quantity else 0)
  }

  lemma {:induction false} AddTotal(gs: seq<Group>, k: Key, q: int, k': Key)
    ensures TotalOf(Add(gs, k, q), k') == TotalOf(gs, k') + (if k' == k then q else 0)
  {
    if gs != [] && gs[0].key != k && !KeyLt(k, gs[0].key) {
      AddTotal(gs[1..], k, q, k');
    }
  }

  lemma {:induction false} TotalOfAbsent(gs: seq<Group>, k: Key)
    requires k !in Keys(gs)
    ensures TotalOf(gs, k) == 0
  {
    if gs != [] {
      assert gs[0] in gs;
      assert Keys(gs[1..]) <= Keys(gs);
      TotalOfAbsent(gs[1..], k);
    }
  }

  /** In a list without repeated keys, a group's total is all there is under
      its key. */
  lemma {:induction false} SortedTotal(gs: seq<Group>, i: int)
    requires StrictlySorted(gs) && 0 <= i < |gs|
    ensures TotalOf(gs, gs[i].key) == gs[i].total
  {
    var rest := gs[1..];
    if i == 0 {
      forall g | g in rest ensures g.key != gs[0].key {
        var m :| 0 <= m < |rest| && rest[m] == g;
        assert gs[m + 1] == g;
        KeyLtIrreflexive(gs[0].key);
      }
      TotalOfAbsent(rest, gs[0].key);
    } else {
      KeyLtIrreflexive(gs[0].key);
      assert rest[i - 1] == gs[i];
      SortedTotal(rest, i - 1);
    }
  }

  lemma {:induction false} GroupTotals(rows: seq<FilledRow>, k: Key)
    ensures TotalOf(GroupSum(rows), k) == SumFor(rows, k)
  {
    if rows != [] {
      var last := rows[|rows| - 1];
      GroupTotals(rows[..|rows| - 1], k);
      AddTotal(GroupSum(rows[..|rows| - 1]), KeyOf(last), last.order.quantity, k);
    }
  }

  /** Quantity is conserved group by group: each group's total is the sum of
      the quantities of exactly the merged rows that share its key, and no
      key is listed twice. */
  lemma GroupSumConserves(rows: seq<FilledRow>)
    ensures forall i :: 0 <= i < |GroupSum(rows)| ==> GroupSum(rows)[i].total == SumFor(rows, GroupSum(rows)[i].key)
    ensures forall i, j :: 0 <= i < j < |GroupSum(rows)| ==> GroupSum(rows)[i].key != GroupSum(rows)[j].key
  {
    var gs := GroupSum(rows);
    forall i | 0 <= i < |gs| ensures gs[i].total == SumFor(rows, gs[i].key) {
      SortedTotal(gs, i);
      GroupTotals(rows, gs[i].key);
    }
    forall i, j | 0 <= i < j < |gs| ensures gs[i].key != gs[j].key {
      KeyLtIrreflexive(gs[i].key);
    }
  }

  /** The summed totals of the groups of vendor `v`. */
  function VendorTotal(gs: seq<Group>, v: string): int {
    if gs == [] then 0 else (if gs[0].key.vendor == v then gs[0].total else 0) + VendorTotal(gs[1..], v)
  }

  /** The summed quantities of the merged rows of vendor `v`. */
  function VendorSum(rows: seq<FilledRow>, v: string): int {
    if rows == [] then 0
    else VendorSum(rows[..|rows| - 1], v) + (if rows[|rows| - 1].vendor == v then rows[|rows| - 1].order.quantity else 0)
  }

  lemma {:induction false} AddVendorTotal(gs: seq<Group>, k: Key, q: int, v: string)
    ensures VendorTotal(Add(gs, k, q), v) == VendorTotal(gs, v) + (if k.vendor == v then q else 0)
  {
    if gs != [] && gs[0].key != k && !KeyLt(k, gs[0].key) {
      AddVendorTotal(gs[1..], k, q, v);
    }
  }

  /** Quantity is conserved per vendor: a vendor's groups total what its
      merged rows order. */
  lemma {:induction false} VendorConservation(rows: seq<FilledRow>, v: string)
    ensures VendorTotal(GroupSum(rows), v) == VendorSum(rows, v)
  {
    if rows != [] {
      var last := rows[|rows| - 1];
      VendorConservation(rows[..|rows| - 1], v);
      AddVendorTotal(GroupSum(rows[..|rows| - 1]), KeyOf(last), last.order.quantity, v);
    }
  }

  /** pandas' default `dropna=True`: rows with a missing key cell are left out
      of the grouping. */
  function DropMissingKeys(rows: seq<FilledRow>): (kept: seq<FilledRow>)
    ensures forall r :: r in kept <==> r in rows && r.order.product.Some? && r.order.variation.Some?
    ensures forall r :: multiset(kept)[r] == if r.order.product.Some? && r.order.variation.Some? then multiset(rows)[r] else 0
  {
    if rows == [] then []
    else
      var rest := DropMissingKeys(rows[1..]);
      assert rows == [rows[0]] + rows[1..];
      var r := rows[0];
      if r.order.product.Some? && r.order.variation.Some? then [r] + rest else rest
  }

  /** The grouping as pandas runs it by default. */
  function PandasGroupSum(rows: seq<FilledRow>): (gs: seq<Group>)
    ensures StrictlySorted(gs)
    ensures Keys(gs) == set r | r in rows && r.order.product.Some? && r.order.variation.Some? :: KeyOf(r)
    ensures forall g :: g in gs ==> g.key.product.Some? && g.key.variation.Some?
  {
    var kept := DropMissingKeys(rows);
    assert forall g :: g in GroupSum(kept) ==> g.key in Keys(GroupSum(kept));
    GroupSum(kept)
  }

  /** pandas' default grouping loses the rows of an item without a variation,
      which the grouping that keeps missing keys counts. */
  lemma PandasDropsMissingVariation()
    ensures
      var widget := OrderRow(Some("Widget"), None, 3);
      var rows := [FilledRow(widget, Some("Acme"), "Acme Shop"), FilledRow(widget.(quantity := 2), Some("Acme"), "Acme Shop")];
      && PandasGroupSum(rows) == []
      && GroupSum(rows) == [Group(Key("Acme Shop", Some("Widget"), None), 5)]
  {
    var widget := OrderRow(Some("Widget"), None, 3);
    var rows := [FilledRow(widget, Some("Acme"), "Acme Shop"), FilledRow(widget.(quantity := 2), Some("Acme"), "Acme Shop")];
    var kept := DropMissingKeys(rows);
    assert forall i :: 0 <= i < |kept| ==> kept[i] !in rows;
    assert rows[..1] == [rows[0]];
  }
}
