/** The grid container (src/Table.jsx): its component state, the three state
    updates (initial fetch, filter change, delete) and what it renders. */
module TableComponent {
  import opened Wrappers
  import opened Rows
  import opened Filtering

  /** How `GET /api/items` ended: the response's items, or the error's message. */
  datatype FetchOutcome = Fetched(items: seq<Item>) | FetchFailed(message: string)

  /** What the component returns from a render. */
  datatype View = LoadingView | ErrorView(message: string) | GridView(rows: seq<Item>)

  class Table {
    var data: seq<Item>
    var filteredData: seq<Item>
    var filters: Filters
    var loading: bool
    var error: Option<string>

    /** The displayed rows are rows of `data`, in order, and the grid is empty
        only when `data` is. Every update below keeps this. */
    predicate Valid()
      reads this
    {
      IsSubsequence(filteredData, data) && (filteredData == [] <==> data == [])
    }

    /** The initial state of the `useState` hooks. */
    constructor ()
      ensures Valid()
      ensures data == [] && filteredData == [] && filters == map[]
      ensures loading && error == None
    {
      data, filteredData, filters := [], [], map[];
      loading, error := true, None;
    }

    /** `fetchData` after its request settles: a response loads both lists; an
        error is recorded; either way loading ends. */
    method FetchResult(outcome: FetchOutcome)
      requires Valid()
      modifies this
      ensures Valid()
      ensures !loading && filters == old(filters)
      ensures outcome.Fetched? ==>
                data == outcome.items && filteredData == outcome.items && error == old(error)
      ensures outcome.FetchFailed? ==>
                data == old(data) && filteredData == old(filteredData) && error == Some(outcome.message)
    {
      match outcome {
        case Fetched(items) =>
          data := items;
          filteredData := items;
          SubsequenceReflexive(items);
        case FetchFailed(message) =>
          error := Some(message);
      }
      loading := false;
    }

    /** `handleFilterChange(columnId, value)`: the new value is merged into
        `filters`, but the displayed rows are recomputed from `data` with the
        filter set as it was before the merge. `noResults` is true when that
        computation matched nothing and the "No results found" alert fires. */
    method HandleFilterChange(columnId: string, value: string) returns (noResults: bool)
      requires Valid()
      modifies this
      ensures Valid()
      ensures filters == old(filters)[columnId := value]
      ensures filteredData == Displayed(data, old(filters))
      ensures noResults <==> Filter(data, old(filters)) == []
      ensures data == old(data) && loading == old(loading) && error == old(error)
    {
      var snapshot := filters;
      filters := filters[columnId := value];
      var filteredResults := Filter(data, snapshot);
      noResults := |filteredResults| == 0;
      if noResults {
        filteredData := data;
      } else {
        filteredData := filteredResults;
      }
      assert filteredData == Displayed(data, snapshot);
    }

    /** `handleDelete(id)` after `DELETE /api/items/{id}` settles: on success
        both lists become `data` without the items of that id; on failure
        nothing changes. */
    method HandleDelete(id: Option<string>, ok: bool)
      requires Valid()
      modifies this
      ensures Valid()
      ensures ok ==> data == RemoveId(old(data), id) && filteredData == data
      ensures !ok ==> data == old(data) && filteredData == old(filteredData)
      ensures filters == old(filters) && loading == old(loading) && error == old(error)
    {
      if ok {
        var updatedData := RemoveId(data, id);
        data := updatedData;
        filteredData := updatedData;
        SubsequenceReflexive(updatedData);
      }
    }

    /** The render: the loading placeholder first, then the error, and only
        then the grid, over `filteredData`. */
    function Render(): (v: View)
      reads this
      ensures v == LoadingView <==> loading
      ensures v.ErrorView? <==> !loading && error.Some?
      ensures v.ErrorView? ==> v.message == error.value
      ensures v.GridView? <==> !loading && error == None
      ensures v.GridView? ==> v.rows == filteredData
    {
      if loading then LoadingView
      else if error.Some? then ErrorView(error.value)
      else GridView(filteredData)
    }
  }
}
