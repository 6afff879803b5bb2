/** Concrete hotkey strings worked through the parser: the empty string, modifiers alone,
    an unknown piece, two key pieces, a lower-case modifier word and three spellings of
    one combination. */
module HotkeyExamples {
  import opened Wrappers
  import opened KeyCodes
  import opened HotkeyParser

  /** The two key names the examples use. */
  lemma KeyNamesAB()
    ensures ParseKeyCode("KeyA") == Some(KeyA) && ParseKeyCode("KeyB") == Some(KeyB)
  {
  }

  /** Two tokens that are neither modifier words nor key names. */
  lemma NotKeyNames()
    ensures ParseKeyCode("Foo") == None && ModifierToken("Foo") == None
    ensures ParseKeyCode("ctrl") == None && ModifierToken("ctrl") == None
  {
  }

  /** The empty string splits into one empty piece, so the `is_empty` guard does not fire
      and parsing fails because no piece resolves. */
  lemma EmptyStringFails()
    ensures Split("") == [""]
    ensures ParseWithFallback("") == None
  {
    assert ParseKeyCode("") == None;
  }

  /** Modifiers alone do not make a hotkey. */
  lemma ModifiersAloneFail()
    ensures ParseWithFallback("Ctrl+Shift") == None
  {
    assert Join(["Ctrl", "Shift"]) == "Ctrl+Shift";
    ParseOfJoin(["Ctrl", "Shift"]);
    assert KeyTokens(["Ctrl", "Shift"]) == [];
  }

  lemma UnknownPieceSkippedDenotation()
    ensures Denotation(ParseKeyCode, ["Foo", "KeyA"]) == Some(Binding({}, KeyA))
  {
    NotKeyNames();
    KeyNamesAB();
    assert KeyTokens(["Foo", "KeyA"]) == ["Foo", "KeyA"];
    assert FirstResolvable(ParseKeyCode, ["Foo", "KeyA"]) == Some(KeyA);
    assert ModifiersIn(["Foo", "KeyA"]) == {};
  }

  /** An unresolvable piece before the key is skipped. */
  lemma UnknownPieceSkipped()
    ensures ParseHotkeyCombination("Foo+KeyA") == Some(Binding({}, KeyA))
  {
    assert Join(["Foo", "KeyA"]) == "Foo+KeyA";
    ParseOfJoin(["Foo", "KeyA"]);
    UnknownPieceSkippedDenotation();
  }

  lemma FirstKeyWinsDenotation()
    ensures Denotation(ParseKeyCode, ["KeyA", "KeyB"]) == Some(Binding({}, KeyA))
  {
    KeyNamesAB();
    assert KeyTokens(["KeyA", "KeyB"]) == ["KeyA", "KeyB"];
    assert FirstResolvable(ParseKeyCode, ["KeyA", "KeyB"]) == Some(KeyA);
    assert ModifiersIn(["KeyA", "KeyB"]) == {};
  }

  /** Once a key is found, later key pieces are ignored. */
  lemma FirstKeyWins()
    ensures ParseHotkeyCombination("KeyA+KeyB") == Some(Binding({}, KeyA))
  {
    assert Join(["KeyA", "KeyB"]) == "KeyA+KeyB";
    ParseOfJoin(["KeyA", "KeyB"]);
    FirstKeyWinsDenotation();
  }

  lemma CaseSensitiveDenotation()
    ensures Denotation(ParseKeyCode, ["ctrl", "KeyA"]) == Some(Binding({}, KeyA))
  {
    NotKeyNames();
    KeyNamesAB();
    assert KeyTokens(["ctrl", "KeyA"]) == ["ctrl", "KeyA"];
    assert FirstResolvable(ParseKeyCode, ["ctrl", "KeyA"]) == Some(KeyA);
    assert ModifiersIn(["ctrl", "KeyA"]) == {};
  }

  /** Modifier words are case-sensitive: "ctrl" is an unresolvable key piece. */
  lemma ModifierWordsCaseSensitive()
    ensures ParseHotkeyCombination("ctrl+KeyA") == Some(Binding({}, KeyA))
  {
    assert Join(["ctrl", "KeyA"]) == "ctrl+KeyA";
    ParseOfJoin(["ctrl", "KeyA"]);
    CaseSensitiveDenotation();
  }

  lemma ShiftCtrlSpelling()
    ensures Compose([Shift, Control], "KeyA", []) == "Shift+Ctrl+KeyA"
  {
    assert Words([Shift, Control]) + ["KeyA"] + Words([]) == ["Shift", "Ctrl", "KeyA"];
    assert Join(["Shift", "Ctrl", "KeyA"]) == "Shift+Ctrl+KeyA";
  }

  lemma CtrlShiftSpelling()
    ensures Compose([Control, Shift], "KeyA", []) == "Ctrl+Shift+KeyA"
  {
    assert Words([Control, Shift]) + ["KeyA"] + Words([]) == ["Ctrl", "Shift", "KeyA"];
    assert Join(["Ctrl", "Shift", "KeyA"]) == "Ctrl+Shift+KeyA";
  }

  lemma KeyInMiddleSpelling()
    ensures Compose([Shift], "KeyA", [Control]) == "Shift+KeyA+Ctrl"
  {
    assert Words([Shift]) + ["KeyA"] + Words([Control]) == ["Shift", "KeyA", "Ctrl"];
    assert Join(["Shift", "KeyA", "Ctrl"]) == "Shift+KeyA+Ctrl";
  }

  /** "Shift+Ctrl+KeyA" and "Ctrl+Shift+KeyA" are the same hotkey. */
  lemma ModifierOrderExample()
    ensures ParseHotkeyCombination("Shift+Ctrl+KeyA") == ParseHotkeyCombination("Ctrl+Shift+KeyA")
    ensures ParseHotkeyCombination("Ctrl+Shift+KeyA") == Some(Binding({Control, Shift}, KeyA))
  {
    ShiftCtrlKeyAParses();
    CtrlShiftKeyAParses();
  }

  lemma ShiftCtrlKeyAParses()
    ensures ParseHotkeyCombination("Shift+Ctrl+KeyA") == Some(Binding({Control, Shift}, KeyA))
  {
    KeyNamesAB();
    ShiftCtrlSpelling();
    ComposeParses([Shift, Control], "KeyA", []);
    assert (set m | m in [Shift, Control] + []) == {Control, Shift};
  }

  lemma CtrlShiftKeyAParses()
    ensures ParseHotkeyCombination("Ctrl+Shift+KeyA") == Some(Binding({Control, Shift}, KeyA))
  {
    KeyNamesAB();
    CtrlShiftSpelling();
    ComposeParses([Control, Shift], "KeyA", []);
    assert (set m | m in [Control, Shift] + []) == {Control, Shift};
  }

  /** The key need not come last: "Shift+KeyA+Ctrl" is Control and Shift with A too. */
  lemma KeyInMiddleExample()
    ensures ParseHotkeyCombination("Shift+KeyA+Ctrl") == Some(Binding({Control, Shift}, KeyA))
  {
    KeyNamesAB();
    KeyInMiddleSpelling();
    ComposeParses([Shift], "KeyA", [Control]);
    assert (set m | m in [Shift] + [Control]) == {Control, Shift};
  }
}
