/** The filter computation of the grid container (src/Table.jsx:77-89) and the
    delete-by-id list update (src/Table.jsx:168), as pure functions. */
module Filtering {
  import opened Text
  import opened Wrappers
  import opened Rows

  /** Column id to the text typed into that column's search box; "" is inactive. */
  type Filters = map<string, string>

  /** One key of the filter set against one item: an empty filter passes;
      otherwise the item needs the field, and its lower-cased string must
      contain the lower-cased filter. The key is looked up on the item as it
      is, never through a column's selector. */
  predicate KeyPasses(item: Item, key: string, value: string)
  {
    value == "" || (key in item && Includes(Lower(item[key]), Lower(value)))
  }

  /** `Object.keys(filters).every(...)`: the item passes every filter key. */
  predicate RowMatches(item: Item, filters: Filters)
  {
    forall key | key in filters :: KeyPasses(item, key, filters[key])
  }

  /** `data.filter(item => RowMatches(item, filters))`. */
  function Filter(rows: seq<Item>, filters: Filters): (r: seq<Item>)
    ensures IsSubsequence(r, rows)
    ensures forall x :: x in r <==> x in rows && RowMatches(x, filters)
  {
    if rows == [] then []
    else
      var rest := Filter(rows[1..], filters);
      assert rows == [rows[0]] + rows[1..];
      if RowMatches(rows[0], filters) then [rows[0]] + rest else rest
  }

  /** What `handleFilterChange` puts on display: the matching rows, or all of
      `rows` when none matches (the "No results found" fallback). */
  function Displayed(rows: seq<Item>, filters: Filters): (r: seq<Item>)
    ensures IsSubsequence(r, rows)
    ensures r == [] <==> rows == []
    ensures (forall x :: x in rows ==> !RowMatches(x, filters)) ==> r == rows
    ensures (exists x :: x in rows && RowMatches(x, filters)) ==> r == Filter(rows, filters)
  {
    var matched := Filter(rows, filters);
    if matched == [] then
      SubsequenceReflexive(rows);
      rows
    else
      assert matched[0] in rows by { SubsequenceElements(matched, rows); }
      matched
  }

  /** True when the item's `id` field is not `id` (`item.id !== id`). */
  predicate KeepsItem(item: Item, id: Option<string>)
  {
    Get(item, "id") != id
  }

  /** `data.filter(item => item.id !== id)`. */
  function RemoveId(rows: seq<Item>, id: Option<string>): (r: seq<Item>)
    ensures IsSubsequence(r, rows)
    ensures forall x :: x in r <==> x in rows && KeepsItem(x, id)
  {
    if rows == [] then []
    else
      var rest := RemoveId(rows[1..], id);
      assert rows == [rows[0]] + rows[1..];
      if KeepsItem(rows[0], id) then [rows[0]] + rest else rest
  }

  /** The number of rows whose `id` field is `id`. */
  function CountWithId(rows: seq<Item>, id: Option<string>): (n: nat)
    ensures n <= |rows|
    ensures n == 0 <==> forall x :: x in rows ==> KeepsItem(x, id)
  {
    if rows == [] then 0
    else (if KeepsItem(rows[0], id) then 0 else 1) + CountWithId(rows[1..], id)
  }

  // ---------------------------------------------------------------------
  // Properties of the filter

  /** Filtering keeps every passing row as often as it occurs and drops every
      other row: with `IsSubsequence`, the result is exactly the passing rows
      in their original order. */
  lemma {:induction false} FilterCounts(rows: seq<Item>, filters: Filters, x: Item)
    ensures multiset(Filter(rows, filters))[x] ==
              if RowMatches(x, filters) then multiset(rows)[x] else 0
  {
    if rows != [] {
      FilterCounts(rows[1..], filters, x);
      assert rows == [rows[0]] + rows[1..];
    }
  }

  /** A key passes exactly when its filter is empty, or the item has that
      field and the lower-cased filter occurs somewhere in the lower-cased
      field. */
  lemma KeyPassesMeaning(item: Item, key: string, value: string)
    ensures KeyPasses(item, key, value) <==>
              value == "" || (key in item && exists i :: OccursAt(Lower(item[key]), Lower(value), i))
  {
    if key in item {
      IncludesIffOccurs(Lower(item[key]), Lower(value));
      assert Includes(Lower(item[key]), Lower(value)) <==>
             exists i :: OccursAt(Lower(item[key]), Lower(value), i);
    }
  }

  /** When some row passes, every displayed row carries each non-empty
      filter's field, and that field contains the filter text ignoring case. */
  lemma DisplayedRowsContainFilter(rows: seq<Item>, filters: Filters, key: string)
    requires key in filters && filters[key] != ""
    requires exists x :: x in rows && RowMatches(x, filters)
    ensures forall x :: x in Displayed(rows, filters) ==>
              key in x && Includes(Lower(x[key]), Lower(filters[key]))
  {
    forall x | x in Displayed(rows, filters)
      ensures key in x && Includes(Lower(x[key]), Lower(filters[key]))
    {
      assert KeyPasses(x, key, filters[key]);
    }
  }

  /** When every filter value is empty, every row passes and nothing is dropped. */
  lemma {:induction false} InactiveFiltersKeepAll(rows: seq<Item>, filters: Filters)
    requires forall key | key in filters :: filters[key] == ""
    ensures Filter(rows, filters) == rows
    ensures Displayed(rows, filters) == rows
  {
    if rows != [] {
      InactiveFiltersKeepAll(rows[1..], filters);
      assert RowMatches(rows[0], filters);
    }
  }

  /** An empty filter set shows the whole dataset. */
  lemma EmptyFilterSetShowsAll(rows: seq<Item>)
    ensures Displayed(rows, map[]) == rows
  {
    InactiveFiltersKeepAll(rows, map[]);
  }

  /** Two filter sets that accept the same rows of `rows` give the same result. */
  lemma {:induction false} SameVerdictsSameResult(rows: seq<Item>, f: Filters, g: Filters)
    requires forall x :: x in rows ==> (RowMatches(x, f) <==> RowMatches(x, g))
    ensures Filter(rows, f) == Filter(rows, g)
    ensures Displayed(rows, f) == Displayed(rows, g)
  {
    if rows != [] {
      assert forall x :: x in rows[1..] ==> x in rows;
      SameVerdictsSameResult(rows[1..], f, g);
    }
  }

  /** A key whose filter was set back to "" filters exactly like a key that
      was never set: clearing a column removes its contribution. */
  lemma ClearedKeyIsInactive(rows: seq<Item>, filters: Filters, key: string)
    ensures Displayed(rows, filters[key := ""]) == Displayed(rows, filters - {key})
  {
    var cleared, dropped := filters[key := ""], filters - {key};
    forall x | x in rows
      ensures RowMatches(x, cleared) <==> RowMatches(x, dropped)
    {
      if RowMatches(x, dropped) {
        forall k | k in cleared ensures KeyPasses(x, k, cleared[k]) {
          if k != key { assert k in dropped; }
        }
      }
      if RowMatches(x, cleared) {
        forall k | k in dropped ensures KeyPasses(x, k, dropped[k]) {
          assert k in cleared;
        }
      }
    }
    SameVerdictsSameResult(rows, cleared, dropped);
  }

  /** Filter values that agree after lower-casing select the same rows. */
  lemma FilterCaseInsensitive(rows: seq<Item>, filters: Filters, key: string, v: string, w: string)
    requires Lower(v) == Lower(w)
    ensures Displayed(rows, filters[key := v]) == Displayed(rows, filters[key := w])
  {
    forall x | x in rows
      ensures RowMatches(x, filters[key := v]) <==> RowMatches(x, filters[key := w])
    {
      RowMatchesCaseInsensitive(x, filters, key, v, w);
    }
    SameVerdictsSameResult(rows, filters[key := v], filters[key := w]);
  }

  /** One row's verdict does not change when a filter value changes case. */
  lemma RowMatchesCaseInsensitive(item: Item, filters: Filters, key: string, v: string, w: string)
    requires Lower(v) == Lower(w)
    ensures RowMatches(item, filters[key := v]) <==> RowMatches(item, filters[key := w])
  {
    var fv, fw := filters[key := v], filters[key := w];
    assert |v| == |Lower(v)| == |Lower(w)| == |w|;
    assert KeyPasses(item, key, v) <==> KeyPasses(item, key, w);
    if RowMatches(item, fv) {
      forall k | k in fw ensures KeyPasses(item, k, fw[k]) {
        if k != key { assert KeyPasses(item, k, fv[k]); } else { assert fv[k] == v && fw[k] == w; }
      }
    }
    if RowMatches(item, fw) {
      forall k | k in fv ensures KeyPasses(item, k, fv[k]) {
        if k != key { assert KeyPasses(item, k, fw[k]); } else { assert fv[k] == v && fw[k] == w; }
      }
    }
  }

  /** A non-empty filter on a key that no row carries as a field rejects every
      row, so the display falls back to the whole dataset. */
  lemma MissingFieldFilterShowsAll(rows: seq<Item>, filters: Filters, key: string)
    requires key in filters && filters[key] != ""
    requires forall x :: x in rows ==> key !in x
    ensures Filter(rows, filters) == []
    ensures Displayed(rows, filters) == rows
  {
    SubsequenceElements(Filter(rows, filters), rows);
  }

  // ---------------------------------------------------------------------
  // Properties of delete-by-id

  /** Deleting keeps every row without the id as often as it occurs and drops
      every row with it. */
  lemma {:induction false} RemoveIdCounts(rows: seq<Item>, id: Option<string>, x: Item)
    ensures multiset(RemoveId(rows, id))[x] == if KeepsItem(x, id) then multiset(rows)[x] else 0
  {
    if rows != [] {
      RemoveIdCounts(rows[1..], id, x);
      assert rows == [rows[0]] + rows[1..];
    }
  }

  /** `item.id !== id` in both cases: an undefined id keeps exactly the items
      that have an `id` field; a defined id keeps every item whose `id` field
      is missing or different. */
  lemma KeepsItemMeaning(item: Item, id: Option<string>)
    ensures id.None? ==> (KeepsItem(item, id) <==> "id" in item)
    ensures id.Some? ==> (KeepsItem(item, id) <==> !("id" in item && item["id"] == id.value))
  {
    if id.Some? && "id" in item && item["id"] == id.value {
      assert Get(item, "id") == id;
    }
  }

  /** Deleting an id that no row carries leaves the list as it was. */
  lemma {:induction false} RemoveAbsentId(rows: seq<Item>, id: Option<string>)
    requires forall x :: x in rows ==> KeepsItem(x, id)
    ensures RemoveId(rows, id) == rows
  {
    if rows != [] {
      RemoveAbsentId(rows[1..], id);
    }
  }

  /** Deleting drops exactly the rows that carry the id. */
  lemma {:induction false} RemoveIdLength(rows: seq<Item>, id: Option<string>)
    ensures |RemoveId(rows, id)| == |rows| - CountWithId(rows, id)
  {
    if rows != [] {
      RemoveIdLength(rows[1..], id);
    }
  }
}
