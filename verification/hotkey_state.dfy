/** The hotkey state of src-tauri/src/main.rs: the `AppState` record, the `update_hotkey`
    command, the start-up path in `main` and `setup`, and the decision the global-shortcut
    handler takes when a shortcut fires.  The operating system's shortcut registry is a set
    of bindings; its calls and the window's calls are parameters and results.  The state
    logic is written over any hotkey parser and used with `ParseWithFallback`, so its
    proofs do not depend on the key tables. */
module HotkeyState {
  import opened Wrappers
  import opened KeyCodes
  import opened HotkeyParser

  /** `AppState`: the hotkey string as entered, and the binding the handler matches. */
  datatype AppState = AppState(currentHotkey: string, registeredShortcut: Option<Binding>)

  /** A hotkey parser: what every caller in the source computes from a hotkey string. */
  type Parser = string -> Option<Binding>

  /** The state describes its own string: the binding is what that string parses to. */
  predicate Consistent(parse: Parser, st: AppState) {
    st.registeredShortcut == parse(st.currentHotkey)
  }

  /** The bindings an optional binding stands for. */
  function BindingSet(b: Option<Binding>): set<Binding> {
    match b
    case Some(x) => {x}
    case None => {}
  }

  /** The operating system has registered exactly the binding the state holds. */
  predicate InSync(st: AppState, registered: set<Binding>) {
    registered == BindingSet(st.registeredShortcut)
  }

  // ---------------------------------------------------------------------------
  // update_hotkey
  // ---------------------------------------------------------------------------

  /** A call into the global-shortcut facility, in the order it is made. */
  datatype OsCall = UnregisterAll | Register(binding: Binding)

  /** The outcome of `update_hotkey`: the new state, the shortcuts registered with the
      operating system afterwards, the calls made, and the command's result. */
  datatype Update = Update(state: AppState, registered: set<Binding>, calls: seq<OsCall>,
                           result: Result<(), string>)

  const InvalidCombination: string := "Invalid hotkey combination"
  const UnregisterFailed: string := "Failed to unregister shortcuts: "
  const RegisterFailed: string := "Failed to register new hotkey: "

  /** `update_hotkey`.  `unregister` and `register` are what `unregister_all` and `register`
      return.  A failed `unregister_all` is taken to leave the registrations as they were. */
  function UpdateHotkey(parse: Parser, st: AppState, registered: set<Binding>, newHotkey: string,
                        unregister: Outcome<string>, register: Outcome<string>): (u: Update)
    ensures parse(newHotkey).None? ==> u == Update(st, registered, [], Err(InvalidCombination))
    ensures u.result == Err(InvalidCombination) <==> parse(newHotkey).None?
    ensures parse(newHotkey).Some? ==>
              && u.state == AppState(newHotkey, parse(newHotkey))
              && u.calls == if unregister.Pass? then [UnregisterAll, Register(parse(newHotkey).value)]
                            else [UnregisterAll]
    ensures u.result.Ok? <==> parse(newHotkey).Some? && unregister.Pass? && register.Pass?
    ensures u.result.Ok? ==> InSync(u.state, u.registered)
  {
    match parse(newHotkey)
    case None => Update(st, registered, [], Err(InvalidCombination))
    case Some(b) =>
      // The state is written before the operating system is asked anything.
      var committed := AppState(newHotkey, Some(b));
      match unregister
      case Fail(e) =>
        assert (UnregisterFailed + e)[0] == 'F';
        Update(committed, registered, [UnregisterAll], Err(UnregisterFailed + e))
      case Pass =>
        match register
        case Fail(e) =>
          assert (RegisterFailed + e)[0] == 'F';
          Update(committed, {}, [UnregisterAll, Register(b)], Err(RegisterFailed + e))
        case Pass => Update(committed, {b}, [UnregisterAll, Register(b)], Ok(()))
  }

  /** Every update, whatever the operating system answers, keeps the state describing its
      own string. */
  lemma UpdatePreservesConsistency(parse: Parser, st: AppState, registered: set<Binding>,
                                   newHotkey: string, unregister: Outcome<string>,
                                   register: Outcome<string>)
    requires Consistent(parse, st)
    ensures Consistent(parse, UpdateHotkey(parse, st, registered, newHotkey, unregister, register).state)
  {
  }

  /** The state is committed before the operating system is asked: when registration then
      fails, the command reports an error while the state already holds the new binding,
      which nothing has registered. */
  lemma RegistrationFailureLeavesNewBindingUnregistered(parse: Parser, st: AppState,
                                                        registered: set<Binding>,
                                                        newHotkey: string, e: string)
    requires parse(newHotkey).Some?
    ensures var u := UpdateHotkey(parse, st, registered, newHotkey, Pass, Fail(e));
      && u.result.Err?
      && u.state.registeredShortcut == parse(newHotkey)
      && u.state.currentHotkey == newHotkey
      && parse(newHotkey).value !in u.registered
      && !InSync(u.state, u.registered)
  {
  }

  // ---------------------------------------------------------------------------
  // The shortcut handler
  // ---------------------------------------------------------------------------

  /** `ShortcutState`. */
  datatype PressState = Pressed | Released

  /** What the handler does to the main window. */
  datatype WindowAction = NoOp | Hide | ShowAndFocus

  /** The handler installed with `with_handler`.  `windowExists` is whether the "main"
      window was found, `lockAcquired` whether the state's lock was obtained, `fired` the
      shortcut that fired, and `isVisible` what `is_visible` returned. */
  function HandleShortcut(event: PressState, windowExists: bool, lockAcquired: bool,
                          registered: Option<Binding>, fired: Binding,
                          isVisible: Result<bool, string>): (a: WindowAction)
    ensures a != NoOp <==> event == Pressed && windowExists && lockAcquired && registered == Some(fired)
    ensures a == Hide <==> a != NoOp && isVisible == Ok(true)
  {
    if event == Pressed && windowExists && lockAcquired then
      match registered
      case Some(b) =>
        if b == fired then
          if isVisible == Ok(true) then Hide else ShowAndFocus
        else NoOp
      case None => NoOp
    else NoOp
  }

  /** The window's visibility after an action. */
  function ApplyAction(visible: bool, a: WindowAction): bool {
    match a
    case NoOp => visible
    case Hide => false
    case ShowAndFocus => true
  }

  /** A press of the registered shortcut, with a truthful visibility query, flips the
      window's visibility; so two presses bring it back. */
  lemma {:induction false} TwoPressesRestoreVisibility(visible: bool, b: Binding)
    ensures var once := ApplyAction(visible, HandleShortcut(Pressed, true, true, Some(b), b, Ok(visible)));
      && once == !visible
      && ApplyAction(once, HandleShortcut(Pressed, true, true, Some(b), b, Ok(once))) == visible
  {
    var once := ApplyAction(visible, HandleShortcut(Pressed, true, true, Some(b), b, Ok(visible)));
    assert once == !visible;
    assert ApplyAction(once, HandleShortcut(Pressed, true, true, Some(b), b, Ok(once))) == !once;
  }

  /** An update with a string that does not parse leaves the hotkey working exactly as
      before: the handler decides every event as it did, and the registrations are kept. */
  lemma InvalidUpdateKeepsHotkeyWorking(parse: Parser, st: AppState, registered: set<Binding>,
                                        newHotkey: string, unregister: Outcome<string>,
                                        register: Outcome<string>, event: PressState,
                                        windowExists: bool, lockAcquired: bool, fired: Binding,
                                        isVisible: Result<bool, string>)
    requires parse(newHotkey).None?
    ensures var u := UpdateHotkey(parse, st, registered, newHotkey, unregister, register);
      && u.registered == registered
      && HandleShortcut(event, windowExists, lockAcquired, u.state.registeredShortcut, fired, isVisible)
         == HandleShortcut(event, windowExists, lockAcquired, st.registeredShortcut, fired, isVisible)
  {
  }

  /** After a successful update the handler answers the new binding and only it, and the
      old binding is no longer registered with the operating system. */
  lemma SuccessfulUpdateRetargets(parse: Parser, st: AppState, registered: set<Binding>,
                                  newHotkey: string, fired: Binding, visible: bool)
    requires parse(newHotkey).Some?
    ensures var u := UpdateHotkey(parse, st, registered, newHotkey, Pass, Pass);
      && u.result.Ok?
      && (HandleShortcut(Pressed, true, true, u.state.registeredShortcut, fired, Ok(visible)) != NoOp
          <==> parse(newHotkey) == Some(fired))
      && (st.registeredShortcut.Some? && st.registeredShortcut != parse(newHotkey)
          ==> st.registeredShortcut.value !in u.registered)
  {
  }

  // ---------------------------------------------------------------------------
  // Start-up
  // ---------------------------------------------------------------------------

  /** The hotkey used when no stored one can be read. */
  const DefaultHotkey: string := "F4"

  /** `load_hotkey_from_file`: the stored `hotkey` field when the file exists, reads and
      decodes (`stored` is `None` when any of that fails), otherwise the default. */
  function LoadedHotkey(stored: Option<string>): (h: string)
    ensures stored.Some? ==> h == stored.value
    ensures stored.None? ==> h == DefaultHotkey && ParseWithFallback(h) == Some(Binding({}, F4))
  {
    match stored
    case Some(h) => h
    case None =>
      assert ParseHotkeyCode(DefaultHotkey) == Some(F4);
      LegacyNameParses(DefaultHotkey);
      DefaultHotkey
  }

  /** The `AppState` built in `main` from the loaded string.  A string that does not parse
      leaves the binding empty: there is no fallback to the default at this point. */
  function InitialState(parse: Parser, hotkey: string): (st: AppState)
    ensures Consistent(parse, st)
    ensures st.currentHotkey == hotkey
    ensures st.registeredShortcut.None? <==> parse(hotkey).None?
  {
    AppState(hotkey, parse(hotkey))
  }

  /** `setup`: registers the parsed binding, if any; a refused registration aborts start-up
      with the facility's error.  Returns the registrations afterwards and the result. */
  function Setup(parse: Parser, hotkey: string, registered: set<Binding>, register: Outcome<string>)
    : (r: (set<Binding>, Result<(), string>))
    ensures r.1.Ok? <==> parse(hotkey).None? || register.Pass?
    ensures r.1.Ok? ==> r.0 == registered + BindingSet(parse(hotkey))
    ensures r.1.Err? ==> r.0 == registered && r.1 == Err(register.error)
  {
    match parse(hotkey)
    case None => (registered, Ok(()))
    case Some(b) =>
      match register
      case Pass => (registered + {b}, Ok(()))
      case Fail(e) => (registered, Err(e))
  }

  /** A successful start-up from nothing registered leaves state and operating system in
      step, whether or not the stored string parses. */
  lemma StartupInSync(parse: Parser, hotkey: string)
    ensures Setup(parse, hotkey, {}, Pass).1.Ok?
    ensures InSync(InitialState(parse, hotkey), Setup(parse, hotkey, {}, Pass).0)
  {
  }

  /** A stored string that does not parse, even with the legacy fallback, leaves no binding
      and registers nothing. */
  lemma UnparseableStoredHotkey(hotkey: string, registered: set<Binding>, register: Outcome<string>)
    requires ParseHotkeyCombination(hotkey).None?
    ensures InitialState(ParseWithFallback, hotkey).registeredShortcut == None
    ensures Setup(ParseWithFallback, hotkey, registered, register) == (registered, Ok(()))
  {
  }

  /** With the parser the source uses, the start-up binding is exactly what the combination
      parser makes of the loaded string; the legacy fallback adds nothing. */
  lemma StartupBindingIsCombination(hotkey: string)
    ensures InitialState(ParseWithFallback, hotkey).registeredShortcut == ParseHotkeyCombination(hotkey)
  {
  }

  /** With no stored hotkey the application starts bound to F4 with no modifiers. */
  lemma DefaultStartup()
    ensures InitialState(ParseWithFallback, LoadedHotkey(None)) == AppState("F4", Some(Binding({}, F4)))
  {
    assert ParseHotkeyCode("F4") == Some(F4);
    LegacyNameParses("F4");
  }

  /** The combination the end-to-end run rebinds to: Control with B. */
  lemma CtrlKeyBParses()
    ensures ParseWithFallback("Ctrl+KeyB") == Some(Binding({Control}, KeyB))
  {
    assert ParseKeyCode("KeyB") == Some(KeyB);
    assert Words([Control]) + ["KeyB"] + Words([]) == ["Ctrl", "KeyB"];
    assert Join(["Ctrl", "KeyB"]) == "Ctrl+KeyB";
    ComposeParses([Control], "KeyB", []);
    assert (set m | m in [Control] + []) == {Control};
  }

  /** Start with the default, rebind to "Ctrl+KeyB", then press it twice while the window
      starts hidden: it is shown and focused, then hidden again. */
  lemma EndToEnd()
    ensures var st0 := InitialState(ParseWithFallback, LoadedHotkey(None));
      var os0 := Setup(ParseWithFallback, LoadedHotkey(None), {}, Pass).0;
      var u := UpdateHotkey(ParseWithFallback, st0, os0, "Ctrl+KeyB", Pass, Pass);
      var b := Binding({Control}, KeyB);
      && u.result == Ok(())
      && u.state.registeredShortcut == Some(b)
      && u.registered == {b}
      && HandleShortcut(Pressed, true, true, u.state.registeredShortcut, b, Ok(false)) == ShowAndFocus
      && HandleShortcut(Pressed, true, true, u.state.registeredShortcut, b, Ok(true)) == Hide
  {
    DefaultStartup();
    CtrlKeyBParses();
    RebindThenPressTwice(ParseWithFallback, InitialState(ParseWithFallback, LoadedHotkey(None)),
                         Setup(ParseWithFallback, LoadedHotkey(None), {}, Pass).0, "Ctrl+KeyB",
                         Binding({Control}, KeyB));
  }

  /** Rebinding, with the operating system agreeing, to a string that parses to `b` leaves
      exactly `b` registered; pressing it then shows a window the system reports hidden and
      hides one it reports shown. */
  lemma RebindThenPressTwice(parse: Parser, st: AppState, registered: set<Binding>, h: string, b: Binding)
    requires parse(h) == Some(b)
    ensures var u := UpdateHotkey(parse, st, registered, h, Pass, Pass);
      && u.result == Ok(())
      && u.state.registeredShortcut == Some(b)
      && u.registered == {b}
      && HandleShortcut(Pressed, true, true, u.state.registeredShortcut, b, Ok(false)) == ShowAndFocus
      && HandleShortcut(Pressed, true, true, u.state.registeredShortcut, b, Ok(true)) == Hide
  {
  }
}
