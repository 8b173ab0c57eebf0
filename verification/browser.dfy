/** The catalogue browser of internal/tui/state.go as a state machine over values:
    one function per transition of `Update` and of the pointer-receiver helpers it
    calls on its own copy of the model, and the invariant every transition keeps. */
module Browser {
  import opened Text
  import TuiStrings

  /** Rows of a list shown at once. */
  const ViewSize: int := 10

  /** Gift, Backdrop, Symbols, Start. */
  const MainMenuItems: int := 4

  datatype Screen =
    | MainMenu
    | SelectingGift
    | SelectingModel
    | SelectingBackdrop
    | SelectingSymbols
    | LoadingResults
    | ViewingResults

  /** The four screens that show a filterable list. */
  predicate IsList(s: Screen) {
    s.SelectingGift? || s.SelectingModel? || s.SelectingBackdrop? || s.SelectingSymbols?
  }

  /** What a transition asks the runtime to do. `RunQuery` stands for the delayed
      command that opens the gift's file and sends the rows back as a results
      message; it captures the selection as it was when Start was pressed, and the
      file name and cleaned names are computed only when it fires (`QueryArgs`).
      The spinner ticks that accompany it are left out. */
  datatype Command =
    | NoCommand
    | Quit
    | RunQuery(key: string, value: string, backdrop: string, symbol: string)

  datatype UiState = UiState(
    screen: Screen,
    cursor: int,
    viewOffset: int,
    page: int,
    totalPages: int,
    searchActive: bool,
    searchQuery: string,
    data: map<string, seq<string>>,
    keys: seq<string>,
    values: seq<string>,
    backdrops: seq<string>,
    symbols: seq<string>,
    filteredKeys: seq<string>,
    filteredValues: seq<string>,
    filteredBackdrops: seq<string>,
    filteredSymbols: seq<string>,
    selectedKey: string,
    selectedValue: string,
    selectedBackdrop: string,
    selectedSymbol: string,
    results: seq<int>,
    failed: bool)

  /** Start is offered once a gift and a model are chosen, and a backdrop or a symbol. */
  predicate StartEnabled(u: UiState) {
    u.selectedKey != "" && u.selectedValue != "" && (u.selectedBackdrop != "" || u.selectedSymbol != "")
  }

  /** The number of rows the cursor moves over on the current screen. */
  function ListLength(u: UiState): (n: int)
    ensures n >= 0
    ensures IsList(u.screen) ==> n == |CurrentList(u)|
  {
    match u.screen
    case MainMenu => MainMenuItems
    case SelectingGift => |u.filteredKeys|
    case SelectingModel => |u.filteredValues|
    case SelectingBackdrop => |u.filteredBackdrops|
    case SelectingSymbols => |u.filteredSymbols|
    case ViewingResults => 2
    case LoadingResults => 0
  }

  /** The filtered list the current screen shows. */
  function CurrentList(u: UiState): seq<string> {
    match u.screen
    case SelectingGift => u.filteredKeys
    case SelectingModel => u.filteredValues
    case SelectingBackdrop => u.filteredBackdrops
    case SelectingSymbols => u.filteredSymbols
    case _ => []
  }

  /** Go's map lookup: a missing key reads as an empty slice. */
  function Lookup(data: map<string, seq<string>>, key: string): seq<string> {
    if key in data then data[key] else []
  }

  /** `math.Ceil(len / viewSize)` on non-negative integers. */
  function TotalPages(n: nat): (t: nat) {
    (n + ViewSize - 1) / ViewSize
  }

  lemma TotalPagesIsCeiling(n: nat)
    ensures TotalPages(n) * ViewSize >= n
    ensures TotalPages(n) == 0 || (TotalPages(n) - 1) * ViewSize < n
    ensures TotalPages(n) == 0 <==> n == 0
  {
  }

  // ---------------------------------------------------------------- filtering

  /** An item is kept when its lower-cased text contains the lower-cased query. */
  predicate Keeps(item: string, query: string) {
    Contains(ToLower(item), ToLower(query))
  }

  /** The in-order sublist of `items` that the query keeps. */
  function FilterByQuery(items: seq<string>, query: string): (kept: seq<string>)
    ensures |kept| <= |items|
  {
    if |items| == 0 then []
    else
      FilterByQuery(items[..|items| - 1], query)
        + (if Keeps(items[|items| - 1], query) then [items[|items| - 1]] else [])
  }

  lemma {:induction false} FilterByQueryMembership(items: seq<string>, query: string, x: string)
    ensures x in FilterByQuery(items, query) <==> x in items && Keeps(x, query)
  {
    if |items| > 0 {
      var init := items[..|items| - 1];
      FilterByQueryMembership(init, query, x);
      assert items == init + [items[|items| - 1]];
    }
  }

  /** Every kept item stays, as often as it occurs: an item occurs in the filtered
      list as many times as in the list when the query keeps it, and never otherwise. */
  lemma {:induction false} FilterByQueryCount(items: seq<string>, query: string, x: string)
    ensures multiset(FilterByQuery(items, query))[x] == if Keeps(x, query) then multiset(items)[x] else 0
  {
    if |items| > 0 {
      var init := items[..|items| - 1];
      var last := items[|items| - 1];
      FilterByQueryCount(init, query, x);
      assert items == init + [last];
      assert multiset(items) == multiset(init) + multiset([last]);
      var tail := if Keeps(last, query) then [last] else [];
      assert multiset(FilterByQuery(items, query)) == multiset(FilterByQuery(init, query)) + multiset(tail);
    }
  }

  lemma {:induction false} FilterByQuerySublist(items: seq<string>, query: string)
    ensures IsSubsequence(FilterByQuery(items, query), items)
  {
    if |items| == 0 {
    } else {
      var init := items[..|items| - 1];
      var last := items[|items| - 1];
      FilterByQuerySublist(init, query);
      SubsequenceSnoc(FilterByQuery(init, query), init, last);
      assert init + [last] == items;
      if !Keeps(last, query) {
        assert FilterByQuery(init, query) + [] == FilterByQuery(init, query);
      }
    }
  }

  /** The append loop of `filterLists` over one source list. */
  method FilterItems(items: seq<string>, query: string) returns (kept: seq<string>)
    ensures kept == FilterByQuery(items, query)
  {
    var lowered := ToLower(query);
    kept := [];
    for i := 0 to |items|
      invariant kept == FilterByQuery(items[..i], query)
    {
      assert items[..i + 1][..i] == items[..i];
      if Contains(ToLower(items[i]), lowered) {
        kept := kept + [items[i]];
      }
    }
    assert items[..|items|] == items;
  }

  lemma {:induction false} SubsequenceLength<T>(a: seq<T>, b: seq<T>)
    requires IsSubsequence(a, b)
    ensures |a| <= |b|
    decreases |b|
  {
    if |a| > 0 {
      if a[0] == b[0] {
        SubsequenceLength(a[1..], b[1..]);
      } else {
        SubsequenceLength(a, b[1..]);
      }
    }
  }

  /** `resetFilteredLists`. */
  function ResetLists(u: UiState): (r: UiState) {
    u.(filteredKeys := u.keys, filteredValues := u.values,
       filteredBackdrops := u.backdrops, filteredSymbols := u.symbols)
  }

  /** `filterLists`: an empty query restores every list; otherwise the current
      screen's list becomes its source filtered by the query. */
  function FilterLists(u: UiState): (r: UiState)
    ensures r == u.(filteredKeys := r.filteredKeys, filteredValues := r.filteredValues,
                    filteredBackdrops := r.filteredBackdrops, filteredSymbols := r.filteredSymbols)
  {
    if u.searchQuery == "" then ResetLists(u)
    else match u.screen
      case SelectingGift => u.(filteredKeys := FilterByQuery(u.keys, u.searchQuery))
      case SelectingModel => u.(filteredValues := FilterByQuery(u.values, u.searchQuery))
      case SelectingBackdrop => u.(filteredBackdrops := FilterByQuery(u.backdrops, u.searchQuery))
      case SelectingSymbols => u.(filteredSymbols := FilterByQuery(u.symbols, u.searchQuery))
      case _ => u
  }

  // ---------------------------------------------------------------- navigation

  /** `moveCursorUp`. */
  function CursorUp(u: UiState): (r: UiState) {
    if u.screen == MainMenu then
      if u.cursor == 1 then u.(cursor := 0)
      else if u.cursor == 2 then u.(cursor := 1)
      else if u.cursor == 3 then u.(cursor := if StartEnabled(u) then 2 else 1)
      else u
    else if u.screen == ViewingResults then
      if u.cursor > 0 then u.(cursor := u.cursor - 1) else u
    else if u.cursor > 0 then
      u.(cursor := u.cursor - 1,
         viewOffset := if u.cursor - 1 < u.viewOffset then u.viewOffset - 1 else u.viewOffset)
    else u
  }

  /** `moveCursorDown`. */
  function CursorDown(u: UiState): (r: UiState) {
    if u.screen == MainMenu then
      if u.cursor == 0 then u.(cursor := 1)
      else if u.cursor == 1 then u.(cursor := 2)
      else if u.cursor == 2 && StartEnabled(u) then u.(cursor := 3)
      else u
    else if u.cursor < ListLength(u) - 1 then
      u.(cursor := u.cursor + 1,
         viewOffset :=
           if u.screen != ViewingResults && u.cursor + 1 >= u.viewOffset + ViewSize
           then u.viewOffset + 1 else u.viewOffset)
    else u
  }

  /** The cursor of a non-empty list screen points into the list, which is what the
      unchecked indexing of `handleEnter` needs. */
  predicate SelectionInRange(u: UiState) {
    IsList(u.screen) && ListLength(u) > 0 ==> 0 <= u.cursor < ListLength(u)
  }

  /** The command Start issues: the current selection, captured. */
  function StartQuery(u: UiState): Command {
    RunQuery(u.selectedKey, u.selectedValue, u.selectedBackdrop, u.selectedSymbol)
  }

  /** What the delayed query computes when it fires: the gift's file and the model,
      backdrop and symbol names with their rarity suffix removed. */
  function QueryArgs(cmd: Command): (string, string, string, string)
    requires cmd.RunQuery?
  {
    ("data/database/" + TuiStrings.SanitizeGiftName(cmd.key) + ".db",
     TuiStrings.RemovePercent(cmd.value),
     TuiStrings.RemovePercent(cmd.backdrop),
     TuiStrings.RemovePercent(cmd.symbol))
  }

  /** `handleEnter`. Start returns before the cursor reset. */
  function Enter(u: UiState): (r: (UiState, Command))
    requires SelectionInRange(u)
  {
    match u.screen
    case MainMenu =>
      if u.cursor == 0 then (u.(screen := SelectingGift, filteredKeys := u.keys, cursor := 0, viewOffset := 0), NoCommand)
      else if u.cursor == 1 then
        (u.(screen := SelectingBackdrop, filteredBackdrops := u.backdrops, cursor := 0, viewOffset := 0), NoCommand)
      else if u.cursor == 2 then
        (u.(screen := SelectingSymbols, filteredSymbols := u.symbols, cursor := 0, viewOffset := 0), NoCommand)
      else if u.cursor == 3 && StartEnabled(u) then (u.(screen := LoadingResults), StartQuery(u))
      else (u.(cursor := 0, viewOffset := 0), NoCommand)
    case SelectingGift =>
      if |u.filteredKeys| > 0 then
        var key := u.filteredKeys[u.cursor];
        (u.(selectedKey := key, values := Lookup(u.data, key), filteredValues := Lookup(u.data, key),
            screen := SelectingModel, searchActive := false, searchQuery := "", cursor := 0, viewOffset := 0),
         NoCommand)
      else (u.(cursor := 0, viewOffset := 0), NoCommand)
    case SelectingModel =>
      if |u.filteredValues| > 0 then
        (u.(selectedValue := u.filteredValues[u.cursor], screen := MainMenu,
            searchActive := false, searchQuery := "", cursor := 0, viewOffset := 0), NoCommand)
      else (u.(cursor := 0, viewOffset := 0), NoCommand)
    case SelectingBackdrop =>
      if |u.filteredBackdrops| > 0 then
        (u.(selectedBackdrop := u.filteredBackdrops[u.cursor], screen := MainMenu,
            searchActive := false, searchQuery := "", cursor := 0, viewOffset := 0), NoCommand)
      else (u.(cursor := 0, viewOffset := 0), NoCommand)
    case SelectingSymbols =>
      if |u.filteredSymbols| > 0 then
        (u.(selectedSymbol := u.filteredSymbols[u.cursor], screen := MainMenu,
            searchActive := false, searchQuery := "", cursor := 0, viewOffset := 0), NoCommand)
      else (u.(cursor := 0, viewOffset := 0), NoCommand)
    case _ => (u.(cursor := 0, viewOffset := 0), NoCommand)
  }

  /** The screen backspace leads to. */
  function BackTarget(s: Screen): Screen {
    match s
    case SelectingModel => SelectingGift
    case SelectingBackdrop => MainMenu
    case SelectingSymbols => MainMenu
    case SelectingGift => MainMenu
    case _ => s
  }

  /** `handleBackspace`. */
  function Backspace(u: UiState): (r: UiState) {
    u.(screen := BackTarget(u.screen),
       filteredKeys := if u.screen == SelectingModel then u.keys else u.filteredKeys,
       filteredBackdrops := if u.screen == SelectingBackdrop then u.backdrops else u.filteredBackdrops,
       filteredSymbols := if u.screen == SelectingSymbols then u.symbols else u.filteredSymbols,
       cursor := 0, viewOffset := 0, searchActive := false, searchQuery := "")
  }

  /** A key the search box accepts: one printable ASCII byte. */
  predicate IsPrintable(key: string) {
    |key| == 1 && 32 <= key[0] as int <= 126
  }

  /** Enter on the results screen: New Search goes back to the main menu with every
      list restored, Exit quits. */
  function ResultsEnter(u: UiState): (r: (UiState, Command)) {
    if u.cursor == 0 then
      (ResetLists(u.(screen := MainMenu, cursor := 0, viewOffset := 0, page := 0,
                     searchActive := false, searchQuery := "")), NoCommand)
    else if u.cursor == 1 then (u, Quit)
    else (u, NoCommand)
  }

  /** The key switch of `Update` outside search mode. */
  function NavigationKey(u: UiState, key: string): (r: (UiState, Command))
    requires SelectionInRange(u)
  {
    if key == "ctrl+c" || key == "q" then (u, Quit)
    else if key == "ctrl+f" then
      (if IsList(u.screen) then u.(searchActive := true) else u, NoCommand)
    else if key == "up" || key == "k" then (CursorUp(u), NoCommand)
    else if key == "down" || key == "j" then (CursorDown(u), NoCommand)
    else if key == "left" || key == "h" then
      (if u.screen == ViewingResults && u.page > 0 then u.(page := u.page - 1, cursor := 0) else u, NoCommand)
    else if key == "right" || key == "l" then
      (if u.screen == ViewingResults && u.page < u.totalPages - 1 then u.(page := u.page + 1, cursor := 0) else u,
       NoCommand)
    else if key == "enter" then
      if u.screen == ViewingResults then ResultsEnter(u) else Enter(u)
    else if key == "backspace" then
      (if u.screen != ViewingResults then Backspace(u) else u, NoCommand)
    else (u, NoCommand)
  }

  /** A search edit: the query changes, the lists are refiltered, the cursor resets. */
  function EditQuery(u: UiState, query: string): UiState {
    FilterLists(u.(searchQuery := query)).(cursor := 0, viewOffset := 0)
  }

  /** The key branch of `Update`: search mode first, then navigation. */
  function KeyPress(u: UiState, key: string): (r: (UiState, Command))
    requires SelectionInRange(u)
  {
    if u.searchActive && IsList(u.screen) then
      if key == "ctrl+f" then
        (ResetLists(u.(searchActive := false, searchQuery := "")), NoCommand)
      else if key == "backspace" then
        if u.searchQuery != "" then (EditQuery(u, u.searchQuery[..|u.searchQuery| - 1]), NoCommand)
        else (Backspace(u), NoCommand)
      else if key == "enter" then Enter(u)
      else if IsPrintable(key) then (EditQuery(u, u.searchQuery + key), NoCommand)
      else NavigationKey(u, key)
    else NavigationKey(u, key)
  }

  /** The results branch of `Update`: applied only while loading. */
  function ReceiveResults(u: UiState, entries: seq<int>, failed: bool): (r: UiState) {
    if u.screen == LoadingResults then
      ResetLists(u.(results := entries, failed := failed, screen := ViewingResults,
                    cursor := 0, viewOffset := 0, page := 0, totalPages := TotalPages(|entries|),
                    searchActive := false, searchQuery := ""))
    else u
  }

  // ---------------------------------------------------------------- invariant

  /** What holds in every state the browser reaches. */
  predicate Valid(u: UiState) {
    && 0 <= u.page && (u.page < u.totalPages || u.page == 0)
    && u.totalPages == TotalPages(|u.results|)
    && IsSubsequence(u.filteredKeys, u.keys)
    && IsSubsequence(u.filteredValues, u.values)
    && IsSubsequence(u.filteredBackdrops, u.backdrops)
    && IsSubsequence(u.filteredSymbols, u.symbols)
    && (u.screen == MainMenu ==>
          0 <= u.cursor <= 3 && u.viewOffset == 0 && (u.cursor == 3 ==> StartEnabled(u)))
    && (IsList(u.screen) ==>
          && 0 <= u.viewOffset <= u.cursor < u.viewOffset + ViewSize
          && (u.cursor == 0 || u.cursor < ListLength(u)))
    && (u.screen == ViewingResults ==> 0 <= u.cursor <= 1 && u.viewOffset == 0)
    && (u.screen == LoadingResults ==> 0 <= u.cursor <= 3 && u.viewOffset == 0)
  }

  /** The browser as it starts: the main menu, nothing chosen, every list unfiltered. */
  function Initial(data: map<string, seq<string>>, keys: seq<string>, backdrops: seq<string>,
                   symbols: seq<string>): (u: UiState)
    ensures u.screen == MainMenu && u.cursor == 0
  {
    UiState(MainMenu, 0, 0, 0, 0, false, "", data, keys, [], backdrops, symbols,
            keys, [], backdrops, symbols, "", "", "", "", [], false)
  }

  lemma InitialIsValid(data: map<string, seq<string>>, keys: seq<string>, backdrops: seq<string>,
                       symbols: seq<string>)
    ensures Valid(Initial(data, keys, backdrops, symbols))
  {
    SubsequenceRefl(keys);
    SubsequenceRefl(backdrops);
    SubsequenceRefl(symbols);
    SubsequenceRefl<string>([]);
  }

  lemma ValidSelectionInRange(u: UiState)
    requires Valid(u)
    ensures SelectionInRange(u)
  {
  }

  lemma ResetListsKeepsSublists(u: UiState)
    ensures var r := ResetLists(u);
      && IsSubsequence(r.filteredKeys, r.keys) && IsSubsequence(r.filteredValues, r.values)
      && IsSubsequence(r.filteredBackdrops, r.backdrops) && IsSubsequence(r.filteredSymbols, r.symbols)
  {
    SubsequenceRefl(u.keys);
    SubsequenceRefl(u.values);
    SubsequenceRefl(u.backdrops);
    SubsequenceRefl(u.symbols);
  }

  /** Restoring the lists keeps the cursor inside the current list, which can only
      grow: a filtered list is a sublist of its source. */
  lemma ResetListsKeepsValid(u: UiState)
    requires Valid(u)
    ensures Valid(ResetLists(u))
  {
    ResetListsKeepsSublists(u);
    var r := ResetLists(u);
    if IsList(u.screen) {
      SubsequenceLength(CurrentList(u), CurrentList(r));
    }
  }

  lemma FilterListsKeepsSublists(u: UiState)
    requires Valid(u)
    ensures var r := FilterLists(u);
      && IsSubsequence(r.filteredKeys, r.keys) && IsSubsequence(r.filteredValues, r.values)
      && IsSubsequence(r.filteredBackdrops, r.backdrops) && IsSubsequence(r.filteredSymbols, r.symbols)
  {
    if u.searchQuery == "" {
      ResetListsKeepsSublists(u);
    } else {
      match u.screen
      case SelectingGift => FilterByQuerySublist(u.keys, u.searchQuery);
      case SelectingModel => FilterByQuerySublist(u.values, u.searchQuery);
      case SelectingBackdrop => FilterByQuerySublist(u.backdrops, u.searchQuery);
      case SelectingSymbols => FilterByQuerySublist(u.symbols, u.searchQuery);
      case _ =>
    }
  }

  /** A search edit in a list screen keeps the invariant. */
  lemma EditQueryKeepsValid(u: UiState, query: string)
    requires Valid(u) && IsList(u.screen)
    ensures Valid(EditQuery(u, query))
  {
    FilterListsKeepsSublists(u.(searchQuery := query));
  }

  /** Up keeps the cursor at or above 0 and the window over it; on the main menu it
      leaves Start for Symbols only when Start is enabled. */
  lemma CursorUpKeepsValid(u: UiState)
    requires Valid(u)
    ensures Valid(CursorUp(u))
    ensures u.screen == MainMenu && u.cursor == 3 ==> CursorUp(u).cursor == (if StartEnabled(u) then 2 else 1)
  {
  }

  /** Down keeps the cursor below the list's length and the window over it. */
  lemma CursorDownKeepsValid(u: UiState)
    requires Valid(u)
    ensures Valid(CursorDown(u))
  {
  }

  /** Start is reached from Symbols exactly when it is enabled. */
  lemma DownReachesStartOnlyWhenEnabled(u: UiState)
    requires u.screen == MainMenu && u.cursor != 3
    ensures CursorDown(u).cursor == 3 <==> u.cursor == 2 && StartEnabled(u)
  {
  }

  lemma EnterKeepsValid(u: UiState)
    requires Valid(u)
    ensures Valid(Enter(u).0)
  {
    if u.screen == MainMenu {
      EnterMenuKeepsValid(u);
    } else if u.screen == SelectingGift {
      EnterGiftKeepsValid(u);
    } else {
      EnterOtherKeepsValid(u);
    }
  }

  lemma EnterMenuKeepsValid(u: UiState)
    requires Valid(u) && u.screen == MainMenu
    ensures Valid(Enter(u).0)
  {
    if u.cursor == 0 {
      SubsequenceRefl(u.keys);
      TopOfListKeepsValid(u, u.(screen := SelectingGift, filteredKeys := u.keys, cursor := 0, viewOffset := 0));
    } else if u.cursor == 1 {
      SubsequenceRefl(u.backdrops);
      TopOfListKeepsValid(u, u.(screen := SelectingBackdrop, filteredBackdrops := u.backdrops, cursor := 0, viewOffset := 0));
    } else if u.cursor == 2 {
      SubsequenceRefl(u.symbols);
      TopOfListKeepsValid(u, u.(screen := SelectingSymbols, filteredSymbols := u.symbols, cursor := 0, viewOffset := 0));
    }
  }

  /** A list screen with its cursor and window at the top is valid once every filtered
      list is a sublist of its source and the pages are those of `u`. */
  lemma TopOfListKeepsValid(u: UiState, r: UiState)
    requires Valid(u) && IsList(r.screen) && r.cursor == 0 && r.viewOffset == 0
    requires r.page == u.page && r.totalPages == u.totalPages && r.results == u.results
    requires IsSubsequence(r.filteredKeys, r.keys) && IsSubsequence(r.filteredValues, r.values)
    requires IsSubsequence(r.filteredBackdrops, r.backdrops) && IsSubsequence(r.filteredSymbols, r.symbols)
    ensures Valid(r)
  {
  }

  lemma EnterGiftKeepsValid(u: UiState)
    requires Valid(u) && u.screen == SelectingGift
    ensures Valid(Enter(u).0)
  {
    if |u.filteredKeys| > 0 {
      SubsequenceRefl(Lookup(u.data, u.filteredKeys[u.cursor]));
    }
  }

  lemma EnterOtherKeepsValid(u: UiState)
    requires Valid(u) && u.screen != MainMenu && u.screen != SelectingGift
    ensures Valid(Enter(u).0)
  {
  }

  /** Enter resets the cursor and the window, except on an enabled Start, which moves to
      the loading screen and issues the query; a selection stores the item under the
      cursor. */
  lemma EnterResetsCursor(u: UiState)
    requires SelectionInRange(u)
    ensures var (r, cmd) := Enter(u);
      if u.screen == MainMenu && u.cursor == 3 && StartEnabled(u) then
        r.screen == LoadingResults && cmd == StartQuery(u) && r.cursor == u.cursor
      else
        && r.cursor == 0 && r.viewOffset == 0 && cmd == NoCommand
        && (u.screen == SelectingGift && |u.filteredKeys| > 0 ==>
              r.selectedKey == u.filteredKeys[u.cursor] && r.screen == SelectingModel
              && r.filteredValues == r.values == Lookup(u.data, r.selectedKey))
        && (u.screen == SelectingModel && |u.filteredValues| > 0 ==>
              r.selectedValue == u.filteredValues[u.cursor] && r.screen == MainMenu)
  {
  }

  lemma BackspaceKeepsValid(u: UiState)
    requires Valid(u)
    ensures Valid(Backspace(u))
  {
    if u.screen == SelectingModel {
      SubsequenceRefl(u.keys);
    } else if u.screen == SelectingBackdrop {
      SubsequenceRefl(u.backdrops);
    } else if u.screen == SelectingSymbols {
      SubsequenceRefl(u.symbols);
    }
  }

  /** Backspace goes one screen back, resets the cursor and leaves search mode. */
  lemma BackspaceGoesBack(u: UiState)
    ensures var r := Backspace(u);
      && r.screen == BackTarget(u.screen)
      && r.cursor == 0 && r.viewOffset == 0 && !r.searchActive && r.searchQuery == ""
      && (u.screen == SelectingModel ==> r.screen == SelectingGift && r.filteredKeys == u.keys)
      && (!IsList(u.screen) ==> r.screen == u.screen)
  {
  }

  lemma NavigationKeyKeepsValid(u: UiState, key: string)
    requires Valid(u)
    ensures Valid(NavigationKey(u, key).0)
  {
    if key == "ctrl+c" || key == "q" || key == "ctrl+f" {
      QuitOrSearchKeyKeepsValid(u, key);
    } else if key == "up" || key == "k" || key == "down" || key == "j" {
      MoveKeyKeepsValid(u, key);
    } else if key == "left" || key == "h" || key == "right" || key == "l" {
      PageKeyKeepsValid(u, key);
    } else if key == "enter" {
      EnterKeyKeepsValid(u);
    } else if key == "backspace" {
      BackspaceKeyKeepsValid(u);
    } else {
      UnboundKeyKeepsValid(u, key);
    }
  }

  lemma QuitOrSearchKeyKeepsValid(u: UiState, key: string)
    requires Valid(u) && (key == "ctrl+c" || key == "q" || key == "ctrl+f")
    ensures Valid(NavigationKey(u, key).0)
  {
  }

  lemma MoveKeyKeepsValid(u: UiState, key: string)
    requires Valid(u) && (key == "up" || key == "k" || key == "down" || key == "j")
    ensures Valid(NavigationKey(u, key).0)
  {
    CursorUpKeepsValid(u);
    CursorDownKeepsValid(u);
  }

  lemma PageKeyKeepsValid(u: UiState, key: string)
    requires Valid(u) && (key == "left" || key == "h" || key == "right" || key == "l")
    ensures Valid(NavigationKey(u, key).0)
  {
  }

  lemma BackspaceKeyKeepsValid(u: UiState)
    requires Valid(u)
    ensures Valid(NavigationKey(u, "backspace").0)
  {
    BackspaceKeepsValid(u);
  }

  lemma UnboundKeyKeepsValid(u: UiState, key: string)
    requires Valid(u)
    requires key != "ctrl+c" && key != "q" && key != "ctrl+f" && key != "up" && key != "k"
    requires key != "down" && key != "j" && key != "left" && key != "h" && key != "right" && key != "l"
    requires key != "enter" && key != "backspace"
    ensures Valid(NavigationKey(u, key).0)
  {
  }

  lemma EnterKeyKeepsValid(u: UiState)
    requires Valid(u)
    ensures Valid(NavigationKey(u, "enter").0)
  {
    NavigationEnter(u);
    if u.screen == ViewingResults {
      ResultsEnterKeepsValid(u);
    } else {
      EnterKeepsValid(u);
    }
  }

  lemma NavigationEnter(u: UiState)
    requires SelectionInRange(u)
    ensures NavigationKey(u, "enter") == if u.screen == ViewingResults then ResultsEnter(u) else Enter(u)
  {
    var k := "enter";
    assert k != "ctrl+c" && k != "q" && k != "ctrl+f" && k != "up" && k != "k" && k != "down" && k != "j";
    assert k != "left" && k != "h" && k != "right" && k != "l";
  }

  lemma ResultsEnterKeepsValid(u: UiState)
    requires Valid(u) && u.screen == ViewingResults
    ensures Valid(ResultsEnter(u).0)
  {
    if u.cursor == 0 {
      ResetListsKeepsValid(u.(screen := MainMenu, cursor := 0, viewOffset := 0, page := 0,
                              searchActive := false, searchQuery := ""));
    }
  }

  /** Every key keeps the invariant: the cursor stays inside its list and its window,
      Start is selected only when enabled, and the page stays below the page count. */
  lemma KeyPressKeepsValid(u: UiState, key: string)
    requires Valid(u)
    ensures Valid(KeyPress(u, key).0)
  {
    if u.searchActive && IsList(u.screen) {
      if key == "ctrl+f" {
        ResetListsKeepsValid(u.(searchActive := false, searchQuery := ""));
      } else if key == "backspace" {
        if u.searchQuery != "" {
          EditQueryKeepsValid(u, u.searchQuery[..|u.searchQuery| - 1]);
        } else {
          BackspaceKeepsValid(u);
        }
      } else if key == "enter" {
        EnterKeepsValid(u);
      } else if IsPrintable(key) {
        EditQueryKeepsValid(u, u.searchQuery + key);
      } else {
        NavigationKeyKeepsValid(u, key);
      }
    } else {
      NavigationKeyKeepsValid(u, key);
    }
  }

  lemma ReceiveResultsKeepsValid(u: UiState, entries: seq<int>, failed: bool)
    requires Valid(u)
    ensures Valid(ReceiveResults(u, entries, failed))
  {
    if u.screen == LoadingResults {
      ResetListsKeepsSublists(u);
    }
  }

  /** A results message outside the loading screen changes nothing; inside it, the
      results are shown from their first page, with ceil(n / 10) pages. */
  lemma ReceiveResultsShowsFirstPage(u: UiState, entries: seq<int>, failed: bool)
    ensures var r := ReceiveResults(u, entries, failed);
      if u.screen == LoadingResults then
        && r.screen == ViewingResults && r.results == entries && r.failed == failed
        && r.page == 0 && r.cursor == 0 && !r.searchActive
        && r.totalPages * ViewSize >= |entries|
        && (r.totalPages == 0 || (r.totalPages - 1) * ViewSize < |entries|)
      else r == u
  {
    TotalPagesIsCeiling(|entries|);
  }

  /** The page shown always starts inside the results, unless there are none. */
  lemma PageStartsInsideResults(u: UiState)
    requires Valid(u) && |u.results| > 0
    ensures 0 <= u.page * ViewSize < |u.results|
  {
    TotalPagesIsCeiling(|u.results|);
  }

  /** In search mode a printable key, 'q' included, only extends the query: the
      current list is refiltered, the cursor resets and nothing quits. */
  lemma TypingExtendsQuery(u: UiState, key: string)
    requires SelectionInRange(u) && u.searchActive && IsList(u.screen) && IsPrintable(key)
    requires key != "ctrl+f" && key != "backspace" && key != "enter"
    ensures var (r, cmd) := KeyPress(u, key);
      && cmd == NoCommand && r.searchQuery == u.searchQuery + key
      && r.screen == u.screen && r.cursor == 0 && r.viewOffset == 0
      && CurrentList(r) == FilterByQuery(
           match u.screen
           case SelectingGift => u.keys
           case SelectingModel => u.values
           case SelectingBackdrop => u.backdrops
           case _ => u.symbols,
           r.searchQuery)
  {
  }

  /** In search mode backspace removes the last character of a non-empty query, and
      with an empty query goes back a screen. */
  lemma SearchBackspace(u: UiState)
    requires SelectionInRange(u) && u.searchActive && IsList(u.screen)
    ensures var (r, cmd) := KeyPress(u, "backspace");
      && cmd == NoCommand
      && (u.searchQuery != "" ==> r.searchQuery + [u.searchQuery[|u.searchQuery| - 1]] == u.searchQuery
                                  && r.screen == u.screen && r.cursor == 0)
      && (u.searchQuery == "" ==> r == Backspace(u))
  {
    if u.searchQuery != "" {
      var q := u.searchQuery;
      assert q[..|q| - 1] + [q[|q| - 1]] == q;
    }
  }

  /** Paging moves one page at a time, within [0, totalPages - 1]. */
  lemma PagingStaysInRange(u: UiState, key: string)
    requires Valid(u) && u.screen == ViewingResults
    requires key == "left" || key == "right"
    ensures var r := KeyPress(u, key).0;
      && 0 <= r.page && (r.page < r.totalPages || r.page == 0)
      && (key == "left" ==> r.page == if u.page > 0 then u.page - 1 else u.page)
      && (key == "right" ==> r.page == if u.page < u.totalPages - 1 then u.page + 1 else u.page)
  {
  }

  // ---------------------------------------------------------------- messages

  /** The messages `Update` distinguishes. Window sizes, loading ticks and spinner
      ticks change nothing modelled here and are `Other`. */
  datatype Msg =
    | KeyMsg(key: string)
    | ResultsMsg(entries: seq<int>, failed: bool)
    | Other

  /** `Update`: receives the model by value and returns the next one. */
  function Update(u: UiState, msg: Msg): (r: (UiState, Command))
    requires Valid(u)
    ensures Valid(r.0)
  {
    match msg
    case KeyMsg(key) =>
      ValidSelectionInRange(u);
      KeyPressKeepsValid(u, key);
      KeyPress(u, key)
    case ResultsMsg(entries, failed) =>
      ReceiveResultsKeepsValid(u, entries, failed);
      (ReceiveResults(u, entries, failed), NoCommand)
    case Other => (u, NoCommand)
  }

  /** A session: the messages in order, with the commands they issue. */
  function Run(u: UiState, msgs: seq<Msg>): (r: (UiState, seq<Command>))
    requires Valid(u)
    ensures Valid(r.0) && |r.1| == |msgs|
    decreases |msgs|
  {
    if |msgs| == 0 then (u, [])
    else
      var (v, cmd) := Update(u, msgs[0]);
      var (w, cmds) := Run(v, msgs[1..]);
      (w, [cmd] + cmds)
  }

  /** From the initial state, every state a session reaches keeps the invariant: the
      cursor never leaves its list or its window, Start is only ever selected when
      enabled, and the shown page always lies inside the results. */
  lemma SessionsStayValid(data: map<string, seq<string>>, keys: seq<string>, backdrops: seq<string>,
                          symbols: seq<string>, msgs: seq<Msg>)
    ensures Valid(Initial(data, keys, backdrops, symbols))
    ensures var u := Run(Initial(data, keys, backdrops, symbols), msgs).0;
      && (u.screen == MainMenu && u.cursor == 3 ==> StartEnabled(u))
      && (IsList(u.screen) ==> 0 <= u.viewOffset <= u.cursor < u.viewOffset + ViewSize)
      && (IsList(u.screen) && ListLength(u) > 0 ==> u.cursor < ListLength(u))
      && (|u.results| > 0 ==> 0 <= u.page * ViewSize < |u.results|)
  {
    InitialIsValid(data, keys, backdrops, symbols);
    var u := Run(Initial(data, keys, backdrops, symbols), msgs).0;
    if |u.results| > 0 {
      PageStartsInsideResults(u);
    }
  }
}
