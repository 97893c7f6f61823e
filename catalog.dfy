/** The menu that database initialisation inserts, and what repeated
    initialisation does to the `foods` table. */
module Catalog {
  import opened Rows

  /** One seed insert: the values bound to (name, price, image). */
  datatype SeedItem = SeedItem(name: string, price: int, image: string)

  /** The eleven seed inserts, in statement order, prices in cents. */
  const SeedItems: seq<SeedItem> := [
    SeedItem("Pizza", 1099, "/static/images/pizza.jpg"),
    SeedItem("Pasta", 799, "/static/images/pasta.jpg"),
    SeedItem("Dosa", 899, "/static/images/dosa.jpg"),
    SeedItem("Idly", 549, "/static/images/idly.jpg"),
    SeedItem("Poori", 699, "/static/images/poori.jpg"),
    SeedItem("Vada", 399, "/static/images/vada.jpeg"),
    SeedItem("Meal", 1299, "/static/images/meals.jpeg"),
    SeedItem("Fried Rice", 999, "/static/images/friedrice.jpeg"),
    SeedItem("Mutton Biryani", 1499, "/static/images/muttonbiriyani.jpeg"),
    SeedItem("Veg Biryani", 1199, "/static/images/vegbiriyani.jpg"),
    SeedItem("Chicken Biryani", 1399, "/static/images/chickenbiriyni.jpg")
  ]

  /** The row a seed insert stores under the autoincrement id `id`. */
  function SeedRow(item: SeedItem, id: nat): Food {
    Food(id, item.name, item.price, item.image)
  }

  /** The rows a run of seed inserts appends when the next autoincrement
      value is `start`: consecutive ids, in statement order. */
  function SeedRows(items: seq<SeedItem>, start: nat): (r: seq<Food>)
    ensures |r| == |items|
    ensures forall k :: 0 <= k < |items| ==> r[k] == SeedRow(items[k], start + k)
  {
    if items == [] then []
    else SeedRows(items[..|items| - 1], start) + [SeedRow(items[|items| - 1], start + |items| - 1)]
  }

  /** Number of rows of `foods` named `name`. */
  function NameCount(foods: seq<Food>, name: string): nat {
    if foods == [] then 0
    else (if foods[0].name == name then 1 else 0) + NameCount(foods[1..], name)
  }

  lemma {:induction false} NameCountAppend(a: seq<Food>, b: seq<Food>, name: string)
    ensures NameCount(a + b, name) == NameCount(a, name) + NameCount(b, name)
  {
    if a == [] {
      assert a + b == b;
    } else {
      assert (a + b)[1..] == a[1..] + b;
      NameCountAppend(a[1..], b, name);
    }
  }

  predicate DistinctNames(items: seq<SeedItem>) {
    forall i, j :: 0 <= i < j < |items| ==> items[i].name != items[j].name
  }

  lemma SeedNamesDistinct()
    ensures DistinctNames(SeedItems)
  {
  }

  /** Among a run of inserts with distinct names, each name is stored once. */
  lemma {:induction false} SeedRowsNameOnce(items: seq<SeedItem>, start: nat, k: nat)
    requires DistinctNames(items) && k < |items|
    ensures NameCount(SeedRows(items, start), items[k].name) == 1
  {
    var n := |items| - 1;
    var init := items[..n];
    var last := SeedRow(items[n], start + n);
    assert DistinctNames(init) by {
      forall i, j | 0 <= i < j < |init| ensures init[i].name != init[j].name {
        assert init[i] == items[i] && init[j] == items[j];
      }
    }
    NameCountAppend(SeedRows(init, start), [last], items[k].name);
    assert NameCount([last], items[k].name) == if k == n then 1 else 0;
    if k < n {
      assert init[k] == items[k];
      SeedRowsNameOnce(init, start, k);
    } else {
      assert NameCount(SeedRows(init, start), items[k].name) == 0 by {
        NameAbsent(SeedRows(init, start), items[k].name);
      }
    }
  }

  lemma {:induction false} NameAbsent(foods: seq<Food>, name: string)
    requires forall i :: 0 <= i < |foods| ==> foods[i].name != name
    ensures NameCount(foods, name) == 0
  {
    if foods != [] {
      assert forall i :: 0 <= i < |foods[1..]| ==> foods[1..][i] == foods[i + 1];
      NameAbsent(foods[1..], name);
    }
  }

  /** The `foods` table has no UNIQUE column, so re-running the seed inserts
      stores every menu item once more: after the run, each seed name occurs
      in exactly one more row than before. */
  lemma ReseedingDuplicates(foods: seq<Food>, start: nat, k: nat)
    requires k < |SeedItems|
    ensures NameCount(foods + SeedRows(SeedItems, start), SeedItems[k].name)
            == NameCount(foods, SeedItems[k].name) + 1
  {
    SeedNamesDistinct();
    SeedRowsNameOnce(SeedItems, start, k);
    NameCountAppend(foods, SeedRows(SeedItems, start), SeedItems[k].name);
  }
}
