/** A column's header cell (src/CustomHeader.jsx): a search toggle and a text
    input, each event reporting `(column id, text)` to the grid container. */
module CustomHeaderComponent {
  import opened Wrappers

  /** One call of `onFilterChange(columnId, text)`. */
  datatype Notification = Notification(columnId: string, text: string)

  class CustomHeader {
    const columnId: string
    const columnName: string
    var showSearch: bool
    var filterText: string

    /** The header starts with the input hidden and empty. */
    constructor (id: string, name: string)
      ensures columnId == id && columnName == name
      ensures !showSearch && filterText == ""
    {
      columnId, columnName := id, name;
      showSearch, filterText := false, "";
    }

    /** `handleSearchIconClick`: flips the input's visibility, empties the
        text, and reports an empty filter for this column. */
    method HandleSearchIconClick() returns (n: Notification)
      modifies this
      ensures showSearch == !old(showSearch) && filterText == ""
      ensures n == Notification(columnId, "")
    {
      showSearch := !showSearch;
      filterText := "";
      n := Notification(columnId, "");
    }

    /** `handleFilterChange(e)`: stores the input's raw value and reports it
        unchanged; visibility is untouched. */
    method HandleFilterChange(value: string) returns (n: Notification)
      modifies this
      ensures showSearch == old(showSearch) && filterText == value
      ensures n == Notification(columnId, value)
    {
      filterText := value;
      n := Notification(columnId, value);
    }

    /** The rendered input: present, showing `filterText`, only while
        `showSearch` holds. */
    function SearchInput(): (input: Option<string>)
      reads this
      ensures input.Some? <==> showSearch
      ensures input.Some? ==> input.value == filterText
    {
      if showSearch then Some(filterText) else None
    }
  }

  /** Two icon clicks give back the original visibility with an empty input. */
  method ClickTwice(h: CustomHeader) returns (first: Notification, second: Notification)
    modifies h
    ensures h.showSearch == old(h.showSearch) && h.filterText == ""
    ensures first == second == Notification(h.columnId, "")
  {
    first := h.HandleSearchIconClick();
    second := h.HandleSearchIconClick();
  }
}
