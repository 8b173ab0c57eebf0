/** The older catalogue browser of internal/tui/model_state.go: four screens, no
    search, no symbols, and a Start that runs the query itself and quits. As with the
    newer browser, `Update` takes the model by value, so each transition is a
    function from one state to the next. Its Enter indexes the current list without
    checking it, which panics on an empty list; that outcome is `None` here. */
module LegacyBrowser {
  import opened Wrappers
  import TuiStrings

  /** Rows of a list shown at once. */
  const ViewSize: int := 10

  datatype Screen = MainMenu | SelectingGift | SelectingModel | SelectingBackdrop

  /** What a transition asks the runtime to do. `QueryThenQuit` stands for the
      query of the gift's file, the printing of its links and the quit that follows,
      all done inside Enter before it returns. */
  datatype Command =
    | NoCommand
    | Quit
    | QueryThenQuit(path: string, model: string, backdrop: string)

  datatype LegacyState = LegacyState(
    screen: Screen,
    cursor: int,
    viewOffset: int,
    data: map<string, seq<string>>,
    keys: seq<string>,
    values: seq<string>,
    backdrops: seq<string>,
    selectedKey: string,
    selectedValue: string,
    selectedBackdrop: string)

  /** Start is offered once a gift, a model and a backdrop are chosen. */
  predicate StartEnabled(u: LegacyState) {
    u.selectedKey != "" && u.selectedValue != "" && u.selectedBackdrop != ""
  }

  predicate IsList(s: Screen) {
    s != MainMenu
  }

  /** The list the current screen shows; the main menu shows none. */
  function CurrentList(u: LegacyState): seq<string> {
    match u.screen
    case MainMenu => []
    case SelectingGift => u.keys
    case SelectingModel => u.values
    case SelectingBackdrop => u.backdrops
  }

  /** Go's map lookup: a missing key reads as an empty slice. */
  function Lookup(data: map<string, seq<string>>, key: string): seq<string> {
    if key in data then data[key] else []
  }

  /** `moveCursorUp`: on the main menu Backdrop goes to Gift and Start to Backdrop,
      stepping over the Symbols item. */
  function CursorUp(u: LegacyState): (r: LegacyState) {
    if u.screen == MainMenu then
      if u.cursor == 1 then u.(cursor := 0)
      else if u.cursor == 3 then u.(cursor := 1)
      else u
    else if u.cursor > 0 then
      u.(cursor := u.cursor - 1,
         viewOffset := if u.cursor - 1 < u.viewOffset then u.viewOffset - 1 else u.viewOffset)
    else u
  }

  /** `moveCursorDown`: on the main menu Gift goes to Backdrop, and Backdrop to Start
      once Start is enabled; in a list the cursor moves down to the last item. */
  function CursorDown(u: LegacyState): (r: LegacyState) {
    if u.screen == MainMenu then
      if u.cursor == 0 then u.(cursor := 1)
      else if u.cursor == 1 && StartEnabled(u) then u.(cursor := 3)
      else u
    else if u.cursor < |CurrentList(u)| - 1 then
      u.(cursor := u.cursor + 1,
         viewOffset := if u.cursor + 1 >= u.viewOffset + ViewSize then u.viewOffset + 1 else u.viewOffset)
    else u
  }

  /** The query Start runs. */
  function StartQuery(u: LegacyState): Command {
    QueryThenQuit("database/" + TuiStrings.SanitizeGiftName(u.selectedKey) + ".db",
                  TuiStrings.RemovePercent(u.selectedValue),
                  TuiStrings.RemovePercent(u.selectedBackdrop))
  }

  /** `handleEnter` as written: a list screen reads the item under the cursor without
      a bounds check, so a cursor outside the list is a runtime panic (`None`). */
  function Enter(u: LegacyState): (r: Option<(LegacyState, Command)>) {
    match u.screen
    case MainMenu =>
      if u.cursor == 0 then Some((u.(screen := SelectingGift, cursor := 0, viewOffset := 0), NoCommand))
      else if u.cursor == 1 then Some((u.(screen := SelectingBackdrop, cursor := 0, viewOffset := 0), NoCommand))
      else if u.cursor == 3 && StartEnabled(u) then Some((u, StartQuery(u)))
      else Some((u.(cursor := 0, viewOffset := 0), NoCommand))
    case SelectingGift =>
      if 0 <= u.cursor < |u.keys| then
        var key := u.keys[u.cursor];
        Some((u.(selectedKey := key, values := Lookup(u.data, key), screen := SelectingModel,
                 cursor := 0, viewOffset := 0), NoCommand))
      else None
    case SelectingModel =>
      if 0 <= u.cursor < |u.values| then
        Some((u.(selectedValue := u.values[u.cursor], screen := MainMenu, cursor := 0, viewOffset := 0), NoCommand))
      else None
    case SelectingBackdrop =>
      if 0 <= u.cursor < |u.backdrops| then
        Some((u.(selectedBackdrop := u.backdrops[u.cursor], screen := MainMenu, cursor := 0, viewOffset := 0),
              NoCommand))
      else None
  }

  /** `handleBackspace`: one screen back, cursor and window reset. */
  function Backspace(u: LegacyState): (r: LegacyState) {
    u.(screen := match u.screen
                 case SelectingModel => SelectingGift
                 case _ => MainMenu,
       cursor := 0, viewOffset := 0)
  }

  /** The messages `Update` distinguishes; a window size only changes the terminal
      dimensions, which are not modelled, and is `Other` like every other message. */
  datatype Msg = KeyMsg(key: string) | Other

  /** `Update`; `None` is a panic inside it. */
  function Update(u: LegacyState, msg: Msg): (r: Option<(LegacyState, Command)>) {
    match msg
    case KeyMsg(key) =>
      if key == "ctrl+c" || key == "q" then Some((u, Quit))
      else if key == "up" || key == "k" then Some((CursorUp(u), NoCommand))
      else if key == "down" || key == "j" then Some((CursorDown(u), NoCommand))
      else if key == "enter" then Enter(u)
      else if key == "backspace" then Some((Backspace(u), NoCommand))
      else Some((u, NoCommand))
    case Other => Some((u, NoCommand))
  }

  /** A session: the messages in order and the commands they issue, or `None` once a
      message panics. */
  function Run(u: LegacyState, msgs: seq<Msg>): (r: Option<(LegacyState, seq<Command>)>)
    ensures r.Some? ==> |r.value.1| == |msgs|
    decreases |msgs|
  {
    if |msgs| == 0 then Some((u, []))
    else
      match Update(u, msgs[0])
      case None => None
      case Some((v, cmd)) =>
        match Run(v, msgs[1..])
        case None => None
        case Some((w, cmds)) => Some((w, [cmd] + cmds))
  }

  // ---------------------------------------------------------------- invariant

  /** What holds in every state the older browser reaches: the main-menu cursor is on
      Gift, Backdrop or an enabled Start, and a list cursor stays in its window and,
      unless it is 0, inside its list. */
  predicate Valid(u: LegacyState) {
    && (u.screen == MainMenu ==>
          (u.cursor == 0 || u.cursor == 1 || u.cursor == 3) && u.viewOffset == 0
          && (u.cursor == 3 ==> StartEnabled(u)))
    && (IsList(u.screen) ==>
          && 0 <= u.viewOffset <= u.cursor < u.viewOffset + ViewSize
          && (u.cursor == 0 || u.cursor < |CurrentList(u)|))
  }

  /** The older browser as it starts: the main menu, nothing chosen. */
  function Initial(data: map<string, seq<string>>, keys: seq<string>, backdrops: seq<string>): (u: LegacyState)
    ensures Valid(u) && u.screen == MainMenu && u.cursor == 0 && !StartEnabled(u)
  {
    LegacyState(MainMenu, 0, 0, data, keys, [], backdrops, "", "", "")
  }

  /** Up and Down keep the invariant; in particular neither ever stops on the
      Symbols item, and Down only reaches Start when it is enabled. */
  lemma MovesKeepValid(u: LegacyState)
    requires Valid(u)
    ensures Valid(CursorUp(u)) && Valid(CursorDown(u))
    ensures u.screen == MainMenu ==> CursorUp(u).cursor != 2 && CursorDown(u).cursor != 2
    ensures u.screen == MainMenu && u.cursor == 1 ==> (CursorDown(u).cursor == 3 <==> StartEnabled(u))
  {
  }

  /** In a reachable state Enter panics exactly when the current list is empty. */
  lemma EnterPanicsIffEmptyList(u: LegacyState)
    requires Valid(u)
    ensures Enter(u).None? <==> IsList(u.screen) && |CurrentList(u)| == 0
  {
  }

  /** When Enter does not panic it keeps the invariant; Start leaves the state as it
      was and issues the query, everything else resets the cursor and the window. */
  lemma EnterKeepsValid(u: LegacyState)
    requires Valid(u) && Enter(u).Some?
    ensures Valid(Enter(u).value.0)
    ensures var (r, cmd) := Enter(u).value;
      if u.screen == MainMenu && u.cursor == 3 then r == u && cmd == StartQuery(u)
      else r.cursor == 0 && r.viewOffset == 0 && cmd == NoCommand
  {
  }

  lemma BackspaceKeepsValid(u: LegacyState)
    ensures Valid(Backspace(u))
    ensures Backspace(u).screen == (if u.screen == SelectingModel then SelectingGift else MainMenu)
  {
  }

  /** Every message that does not panic keeps the invariant. */
  lemma UpdateKeepsValid(u: LegacyState, msg: Msg)
    requires Valid(u) && Update(u, msg).Some?
    ensures Valid(Update(u, msg).value.0)
  {
    if msg.KeyMsg? {
      var key := msg.key;
      if key == "up" || key == "k" || key == "down" || key == "j" {
        MovesKeepValid(u);
      } else if key == "enter" {
        EnterKeepsValid(u);
      }
    }
  }

  /** Every session that does not panic ends in a state satisfying the invariant. */
  lemma {:induction false} RunKeepsValid(u: LegacyState, msgs: seq<Msg>)
    requires Valid(u) && Run(u, msgs).Some?
    ensures Valid(Run(u, msgs).value.0)
    decreases |msgs|
  {
    if |msgs| > 0 {
      UpdateKeepsValid(u, msgs[0]);
      RunKeepsValid(Update(u, msgs[0]).value.0, msgs[1..]);
    }
  }

  /** A gift whose model list is empty is reachable, and Enter on it panics: Enter on
      Gift, Enter on the gift, Enter on the empty model list. */
  lemma EmptyModelListPanics()
    ensures var u := Initial(map["G" := []], ["G"], ["Black"]);
      && Run(u, [KeyMsg("enter"), KeyMsg("enter")]).Some?
      && Run(u, [KeyMsg("enter"), KeyMsg("enter")]).value.0.screen == SelectingModel
      && Run(u, [KeyMsg("enter"), KeyMsg("enter"), KeyMsg("enter")]).None?
  {
    var u := Initial(map["G" := []], ["G"], ["Black"]);
    var enter := KeyMsg("enter");
    var u1 := u.(screen := SelectingGift);
    assert Update(u, enter) == Some((u1, NoCommand));
    var u2 := u1.(selectedKey := "G", values := [], screen := SelectingModel);
    assert Update(u1, enter) == Some((u2, NoCommand));
    assert Update(u2, enter).None?;
    assert Run(u2, [enter]).None?;
    assert [enter, enter, enter][1..] == [enter, enter];
    assert [enter, enter][1..] == [enter];
    assert Run(u1, [enter, enter]).None?;
    assert Run(u2, []) == Some((u2, []));
  }
}
