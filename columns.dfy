/** The grid's fixed column table (src/Table.jsx:92-154): the id each header
    reports filter text under, and the item field each column's selector shows. */
module Columns {
  import opened Wrappers
  import opened Rows
  import opened Filtering

  /** `selector` is the field the column displays; the actions column has none
      and no search header. */
  datatype Column = Column(id: string, name: string, selector: Option<string>)
  {
    predicate Filterable() { selector.Some? }
  }

  const ColumnTable: seq<Column> := [
    Column("name", "Name", Some("name")),
    Column("bookLanguage", "Language", Some("bookLanguage")),
    Column("description", "Description", Some("description")),
    Column("barcodeName", "Barcode Name", Some("barcodeName")),
    Column("price", "Price", Some("unitPrice")),
    Column("created", "Created At", Some("createdAt")),
    Column("updated", "Updated At", Some("updatedAt")),
    Column("actions", "Actions", None)
  ]

  /** Exactly the Price, Created At and Updated At columns display a field
      other than the one their id names. */
  lemma MislabeledColumns(c: Column)
    requires c in ColumnTable && c.Filterable()
    ensures c.selector.value != c.id <==> c.id in {"price", "created", "updated"}
  {
  }

  /** A filter reported under a column's id is looked up under that id: an item
      that has the field the column displays but no field named like the id is
      rejected by any non-empty filter text for that column. */
  lemma FilterIgnoresSelector(item: Item, filters: Filters, c: Column)
    requires c in ColumnTable && c.Filterable() && c.selector.value != c.id
    requires c.selector.value in item && c.id !in item
    requires c.id in filters && filters[c.id] != ""
    ensures !RowMatches(item, filters)
  {
    assert !KeyPasses(item, c.id, filters[c.id]);
  }

  /** Example: a price filter never narrows a list of items that carry only `unitPrice`. */
  lemma PriceFilterFallsBack(rows: seq<Item>, text: string)
    requires forall x :: x in rows ==> "price" !in x
    requires text != ""
    ensures Displayed(rows, map["price" := text]) == rows
  {
    MissingFieldFilterShowsAll(rows, map["price" := text], "price");
  }
}
