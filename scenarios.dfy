/** The header cells wired to the grid container, as `columns` does it in
    src/Table.jsx: each header's notification is passed to the container's
    `handleFilterChange`. */
module Scenarios {
  import opened Wrappers
  import opened Text
  import opened Rows
  import opened Filtering
  import opened TableComponent
  import opened CustomHeaderComponent

  /** A keystroke in a header's input reaches the container: the typed text is
      merged into the filter set, the view still reflects the filters from
      before the keystroke. */
  method TypeIntoHeader(t: Table, h: CustomHeader, text: string)
    requires t.Valid()
    modifies t, h
    ensures t.Valid()
    ensures h.filterText == text && h.showSearch == old(h.showSearch)
    ensures t.filters == old(t.filters)[h.columnId := text]
    ensures t.filteredData == Displayed(t.data, old(t.filters))
    ensures t.data == old(t.data) && t.loading == old(t.loading) && t.error == old(t.error)
  {
    var n := h.HandleFilterChange(text);
    var _ := t.HandleFilterChange(n.columnId, n.text);
  }

  /** An icon click reaches the container: the column's filter is set to "",
      which from then on filters exactly as if that column had never been
      filtered on. */
  method ToggleHeader(t: Table, h: CustomHeader)
    requires t.Valid()
    modifies t, h
    ensures t.Valid()
    ensures h.showSearch == !old(h.showSearch) && h.filterText == ""
    ensures t.filters == old(t.filters)[h.columnId := ""]
    ensures t.filteredData == Displayed(t.data, old(t.filters))
    ensures Displayed(t.data, t.filters) == Displayed(t.data, old(t.filters) - {h.columnId})
    ensures t.data == old(t.data) && t.loading == old(t.loading) && t.error == old(t.error)
  {
    var n := h.HandleSearchIconClick();
    var _ := t.HandleFilterChange(n.columnId, n.text);
    ClearedKeyIsInactive(t.data, old(t.filters), h.columnId);
  }

  /** The lag settles on the next notification: repeating a filter change
      leaves the filter set as the first call made it and displays the rows
      that filter set selects. */
  method RepeatFilterChange(t: Table, columnId: string, value: string)
    requires t.Valid()
    modifies t
    ensures t.Valid()
    ensures t.filters == old(t.filters)[columnId := value]
    ensures t.filteredData == Displayed(t.data, t.filters)
    ensures t.data == old(t.data) && t.loading == old(t.loading) && t.error == old(t.error)
    ensures value != "" && (exists x :: x in t.data && RowMatches(x, t.filters)) ==>
              forall x :: x in t.filteredData ==> columnId in x && Includes(Lower(x[columnId]), Lower(value))
  {
    var first := t.HandleFilterChange(columnId, value);
    var second := t.HandleFilterChange(columnId, value);
    ghost var rows, filters := t.data, t.filters;
    assert filters == old(t.filters)[columnId := value];
    if value != "" && (exists x :: x in rows && RowMatches(x, filters)) {
      DisplayedRowsContainFilter(rows, filters, columnId);
    }
  }

  const Alpha: Item := map["id" := "1", "name" := "Alpha", "unitPrice" := "10"]
  const Beta: Item := map["id" := "2", "name" := "Beta", "unitPrice" := "20"]

  /** Of two rows where only the first passes, the display is the first alone. */
  lemma FirstOfTwo(first: Item, second: Item, filters: Filters)
    requires RowMatches(first, filters) && !RowMatches(second, filters)
    ensures Displayed([first, second], filters) == [first]
  {
    assert [first, second][1..] == [second];
    assert Filter([second], filters) == [];
  }

  /** `name = "al"` selects Alpha only; with the name filter cleared both rows show. */
  lemma NameFilterExample()
    ensures Displayed([Alpha, Beta], map["name" := "al"]) == [Alpha]
    ensures Displayed([Alpha, Beta], map["name" := ""]) == [Alpha, Beta]
  {
    AlphaMatches();
    BetaDoesNotMatch();
    FirstOfTwo(Alpha, Beta, map["name" := "al"]);
    InactiveFiltersKeepAll([Alpha, Beta], map["name" := ""]);
  }

  lemma AlphaMatches()
    ensures RowMatches(Alpha, map["name" := "al"])
  {
    assert Lower("Alpha") == "alpha";
    assert Lower("al") == "al";
    assert KeyPasses(Alpha, "name", "al");
  }

  lemma BetaDoesNotMatch()
    ensures !RowMatches(Beta, map["name" := "al"])
  {
    assert Lower("Beta") == "beta";
    assert Lower("al") == "al";
    assert !Includes("beta", "al");
    assert !KeyPasses(Beta, "name", "al");
    var f := map["name" := "al"];
    assert "name" in f && f["name"] == "al";
  }

  /** The container is past loading, without error, holding `rows` and
      `filters` and displaying `shown`. */
  ghost predicate Showing(t: Table, rows: seq<Item>, filters: Filters, shown: seq<Item>)
    reads t
  {
    t.Valid() && !t.loading && t.error == None &&
    t.data == rows && t.filters == filters && t.filteredData == shown
  }

  /** Mount and load `rows`: the placeholder, then every row. */
  method Mount(rows: seq<Item>) returns (t: Table)
    ensures fresh(t) && Showing(t, rows, map[], rows)
  {
    t := new Table();
    assert t.Render() == LoadingView;
    t.FetchResult(Fetched(rows));
    assert t.Render() == GridView(rows);
  }

  /** Open a search and type `text`: the filter set holds `text`, but the grid
      still shows every row. */
  method OpenAndType(t: Table, h: CustomHeader, rows: seq<Item>, text: string)
    requires Showing(t, rows, map[], rows) && !h.showSearch
    modifies t, h
    ensures Showing(t, rows, map[h.columnId := text], rows)
    ensures h.SearchInput() == Some(text)
  {
    EmptyFilterSetShowsAll(rows);
    ToggleHeader(t, h);
    InactiveFiltersKeepAll(rows, map[h.columnId := ""]);
    TypeIntoHeader(t, h, text);
    assert t.filters == map[h.columnId := text];
  }

  /** Mount with two rows of which only `first` passes the name filter `text`,
      open the Name search and type `text`. The grid catches up with `text`
      only at the next notification, here the Language header's icon. */
  method TypingLags(first: Item, second: Item, text: string)
    returns (t: Table, nameHeader: CustomHeader, languageHeader: CustomHeader)
    requires RowMatches(first, map["name" := text]) && !RowMatches(second, map["name" := text])
    ensures fresh(t) && fresh(nameHeader) && fresh(languageHeader)
    ensures nameHeader.columnId == "name" && languageHeader.columnId == "bookLanguage"
    ensures Showing(t, [first, second], map["name" := text, "bookLanguage" := ""], [first])
    ensures nameHeader.showSearch && nameHeader.filterText == text
  {
    t := Mount([first, second]);
    nameHeader := new CustomHeader("name", "Name");
    languageHeader := new CustomHeader("bookLanguage", "Language");
    OpenAndType(t, nameHeader, [first, second], text);
    assert t.Render() == GridView([first, second]);
    FirstOfTwo(first, second, map["name" := text]);
    ToggleHeader(t, languageHeader);
    assert t.Render() == GridView([first]);
    assert t.filters == map["name" := text, "bookLanguage" := ""];
  }

  /** Closing a search lags the same way: with `first` shown under the name
      filter `text`, the icon click clears the filter and the grid still shows
      `first` alone; the next notification shows both rows again. */
  method ClosingLags(t: Table, nameHeader: CustomHeader, languageHeader: CustomHeader,
                     first: Item, second: Item, text: string)
    requires nameHeader.columnId == "name" && languageHeader.columnId == "bookLanguage"
    requires nameHeader.showSearch
    requires RowMatches(first, map["name" := text]) && !RowMatches(second, map["name" := text])
    requires Showing(t, [first, second], map["name" := text, "bookLanguage" := ""], [first])
    modifies t, nameHeader, languageHeader
    ensures Showing(t, [first, second], map["name" := "", "bookLanguage" := ""], [first, second])
    ensures !nameHeader.showSearch && nameHeader.filterText == ""
  {
    LanguageClearedKeepsNameFilter(first, second, text);
    ToggleHeader(t, nameHeader);
    assert t.Render() == GridView([first]);
    ghost var cleared := t.filters;
    assert cleared == map["name" := "", "bookLanguage" := ""];
    InactiveFiltersKeepAll([first, second], cleared);
    ToggleHeader(t, languageHeader);
    assert t.filters == cleared;
  }

  /** An empty Language filter beside the name filter `text` changes nothing. */
  lemma LanguageClearedKeepsNameFilter(first: Item, second: Item, text: string)
    requires RowMatches(first, map["name" := text]) && !RowMatches(second, map["name" := text])
    ensures Displayed([first, second], map["name" := text, "bookLanguage" := ""]) == [first]
  {
    ClearedKeyIsInactive([first, second], map["name" := text], "bookLanguage");
    assert map["name" := text] - {"bookLanguage"} == map["name" := text];
    FirstOfTwo(first, second, map["name" := text]);
  }

  /** Both scenarios can happen: Alpha and Beta with the text "al". */
  method AlphaBetaScenario()
  {
    AlphaMatches();
    BetaDoesNotMatch();
    var t, nameHeader, languageHeader := TypingLags(Alpha, Beta, "al");
    ClosingLags(t, nameHeader, languageHeader, Alpha, Beta, "al");
  }
}
