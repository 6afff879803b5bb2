/** The key-name tables of the hotkey subsystem: the legacy table `parse_hotkey_code`
    and the wider table `parse_key_code` of src-tauri/src/main.rs, each a total map from
    a token to an optional key code.  Absence (`None`) is how an unknown token is reported. */
module KeyCodes {
  import opened Wrappers

  /** The subset of the global-shortcut plugin's `Code` enumeration that the tables name. */
  datatype Code =
    | End | Home | Insert | Delete | F1 | F2 | F3 | F4
    | F5 | F6 | F7 | F8 | F9 | F10 | F11 | F12
    | Space | Enter | Escape | Tab | Backspace | PageUp | PageDown | ArrowUp
    | ArrowDown | ArrowLeft | ArrowRight | KeyA | KeyB | KeyC | KeyD | KeyE
    | KeyF | KeyG | KeyH | KeyI | KeyJ | KeyK | KeyL | KeyM
    | KeyN | KeyO | KeyP | KeyQ | KeyR | KeyS | KeyT | KeyU
    | KeyV | KeyW | KeyX | KeyY | KeyZ | Digit0 | Digit1 | Digit2
    | Digit3 | Digit4 | Digit5 | Digit6 | Digit7 | Digit8 | Digit9

  /** `parse_hotkey_code`: the narrow legacy table.  It knows only canonical names and
      none of the page keys, arrows or digits. */
  function ParseHotkeyCode(s: string): (r: Option<Code>)
    ensures r.Some? ==> ParseKeyCode(s).Some?
  {
    match s
    case "End" => Some(End)
    case "Home" => Some(Home)
    case "Insert" => Some(Insert)
    case "Delete" => Some(Delete)
    case "F1" => Some(F1)
    case "F2" => Some(F2)
    case "F3" => Some(F3)
    case "F4" => Some(F4)
    case "F5" => Some(F5)
    case "F6" => Some(F6)
    case "F7" => Some(F7)
    case "F8" => Some(F8)
    case "F9" => Some(F9)
    case "F10" => Some(F10)
    case "F11" => Some(F11)
    case "F12" => Some(F12)
    case "Space" => Some(Space)
    case "Enter" => Some(Enter)
    case "Escape" => Some(Escape)
    case "Tab" => Some(Tab)
    case "Backspace" => Some(Backspace)
    case "KeyA" => Some(KeyA)
    case "KeyB" => Some(KeyB)
    case "KeyC" => Some(KeyC)
    case "KeyD" => Some(KeyD)
    case "KeyE" => Some(KeyE)
    case "KeyF" => Some(KeyF)
    case "KeyG" => Some(KeyG)
    case "KeyH" => Some(KeyH)
    case "KeyI" => Some(KeyI)
    case "KeyJ" => Some(KeyJ)
    case "KeyK" => Some(KeyK)
    case "KeyL" => Some(KeyL)
    case "KeyM" => Some(KeyM)
    case "KeyN" => Some(KeyN)
    case "KeyO" => Some(KeyO)
    case "KeyP" => Some(KeyP)
    case "KeyQ" => Some(KeyQ)
    case "KeyR" => Some(KeyR)
    case "KeyS" => Some(KeyS)
    case "KeyT" => Some(KeyT)
    case "KeyU" => Some(KeyU)
    case "KeyV" => Some(KeyV)
    case "KeyW" => Some(KeyW)
    case "KeyX" => Some(KeyX)
    case "KeyY" => Some(KeyY)
    case "KeyZ" => Some(KeyZ)
    case _ => None
  }

  /** `parse_key_code`: the wide table.  It adds the page keys, the arrows, the digits and
      a one-character alias for every letter and digit. */
  function ParseKeyCode(s: string): (r: Option<Code>)
    ensures r.Some? ==> '+' !in s
  {
    match s
    case "End" => Some(End)
    case "Home" => Some(Home)
    case "Insert" => Some(Insert)
    case "Delete" => Some(Delete)
    case "F1" => Some(F1)
    case "F2" => Some(F2)
    case "F3" => Some(F3)
    case "F4" => Some(F4)
    case "F5" => Some(F5)
    case "F6" => Some(F6)
    case "F7" => Some(F7)
    case "F8" => Some(F8)
    case "F9" => Some(F9)
    case "F10" => Some(F10)
    case "F11" => Some(F11)
    case "F12" => Some(F12)
    case "Space" => Some(Space)
    case "Enter" => Some(Enter)
    case "Escape" => Some(Escape)
    case "Tab" => Some(Tab)
    case "Backspace" => Some(Backspace)
    case "PageUp" => Some(PageUp)
    case "PageDown" => Some(PageDown)
    case "ArrowUp" => Some(ArrowUp)
    case "ArrowDown" => Some(ArrowDown)
    case "ArrowLeft" => Some(ArrowLeft)
    case "ArrowRight" => Some(ArrowRight)
    case "KeyA" | "A" => Some(KeyA)
    case "KeyB" | "B" => Some(KeyB)
    case "KeyC" | "C" => Some(KeyC)
    case "KeyD" | "D" => Some(KeyD)
    case "KeyE" | "E" => Some(KeyE)
    case "KeyF" | "F" => Some(KeyF)
    case "KeyG" | "G" => Some(KeyG)
    case "KeyH" | "H" => Some(KeyH)
    case "KeyI" | "I" => Some(KeyI)
    case "KeyJ" | "J" => Some(KeyJ)
    case "KeyK" | "K" => Some(KeyK)
    case "KeyL" | "L" => Some(KeyL)
    case "KeyM" | "M" => Some(KeyM)
    case "KeyN" | "N" => Some(KeyN)
    case "KeyO" | "O" => Some(KeyO)
    case "KeyP" | "P" => Some(KeyP)
    case "KeyQ" | "Q" => Some(KeyQ)
    case "KeyR" | "R" => Some(KeyR)
    case "KeyS" | "S" => Some(KeyS)
    case "KeyT" | "T" => Some(KeyT)
    case "KeyU" | "U" => Some(KeyU)
    case "KeyV" | "V" => Some(KeyV)
    case "KeyW" | "W" => Some(KeyW)
    case "KeyX" | "X" => Some(KeyX)
    case "KeyY" | "Y" => Some(KeyY)
    case "KeyZ" | "Z" => Some(KeyZ)
    case "Digit1" | "1" => Some(Digit1)
    case "Digit2" | "2" => Some(Digit2)
    case "Digit3" | "3" => Some(Digit3)
    case "Digit4" | "4" => Some(Digit4)
    case "Digit5" | "5" => Some(Digit5)
    case "Digit6" | "6" => Some(Digit6)
    case "Digit7" | "7" => Some(Digit7)
    case "Digit8" | "8" => Some(Digit8)
    case "Digit9" | "9" => Some(Digit9)
    case "Digit0" | "0" => Some(Digit0)
    case _ => None
  }

  /** Every name the legacy table resolves, the wide table resolves to the same code. */
  lemma LegacyTableWithinWide(s: string)
    ensures ParseHotkeyCode(s).Some? ==> ParseKeyCode(s) == ParseHotkeyCode(s)
  {
  }

  /** The page and arrow keys. */
  const PageAndArrowNames: set<string> := {
    "PageUp", "PageDown", "ArrowUp", "ArrowDown", "ArrowLeft", "ArrowRight"
  }

  /** The `Digit…` names. */
  const DigitNames: set<string> := {
    "Digit0", "Digit1", "Digit2", "Digit3", "Digit4", "Digit5", "Digit6", "Digit7",
    "Digit8", "Digit9"
  }

  /** The one-character aliases of the letter keys, in three groups. */
  const LettersAToI: set<string> := {"A", "B", "C", "D", "E", "F", "G", "H", "I"}
  const LettersJToR: set<string> := {"J", "K", "L", "M", "N", "O", "P", "Q", "R"}
  const LettersSToZ: set<string> := {"S", "T", "U", "V", "W", "X", "Y", "Z"}
  const LetterAliases: set<string> := LettersAToI + LettersJToR + LettersSToZ

  /** The one-character aliases of the digit keys. */
  const DigitAliases: set<string> := {
    "0", "1", "2", "3", "4", "5", "6", "7", "8", "9"
  }

  /** The names the wide table adds to the legacy one. */
  const AddedNames: set<string> := PageAndArrowNames + DigitNames + LetterAliases + DigitAliases

  /** The wide table extends the legacy one by exactly the added names. */
  lemma WideTableExtendsLegacy(s: string)
    ensures ParseHotkeyCode(s).None? && ParseKeyCode(s).Some? <==> s in AddedNames
  {
    if s in PageAndArrowNames {
      PageAndArrowNamesAreNew(s);
    } else if s in DigitNames {
      DigitNamesAreNew(s);
    } else if s in LetterAliases {
      LetterAliasesAreNew(s);
    } else if s in DigitAliases {
      DigitAliasesAreNew(s);
    } else {
      OnlyAddedNamesAreNew(s);
    }
  }

  /** Every page or arrow key name is known to the wide table only. */
  lemma PageAndArrowNamesAreNew(s: string)
    requires s in PageAndArrowNames
    ensures ParseHotkeyCode(s).None? && ParseKeyCode(s).Some?
  {
  }

  /** Every `Digit…` name is known to the wide table only. */
  lemma DigitNamesAreNew(s: string)
    requires s in DigitNames
    ensures ParseHotkeyCode(s).None? && ParseKeyCode(s).Some?
  {
  }

  /** Every letter alias is known to the wide table only. */
  lemma LetterAliasesAreNew(s: string)
    requires s in LetterAliases
    ensures ParseHotkeyCode(s).None? && ParseKeyCode(s).Some?
  {
    if s in LettersAToI {
      LettersAToIAreNew(s);
    } else if s in LettersJToR {
      LettersJToRAreNew(s);
    } else {
      LettersSToZAreNew(s);
    }
  }

  /** The letter aliases `A` to `I` are known to the wide table only. */
  lemma LettersAToIAreNew(s: string)
    requires s in LettersAToI
    ensures ParseHotkeyCode(s).None? && ParseKeyCode(s).Some?
  {
  }

  /** The letter aliases `J` to `R` are known to the wide table only. */
  lemma LettersJToRAreNew(s: string)
    requires s in LettersJToR
    ensures ParseHotkeyCode(s).None? && ParseKeyCode(s).Some?
  {
  }

  /** The letter aliases `S` to `Z` are known to the wide table only. */
  lemma LettersSToZAreNew(s: string)
    requires s in LettersSToZ
    ensures ParseHotkeyCode(s).None? && ParseKeyCode(s).Some?
  {
  }

  /** Every digit alias is known to the wide table only. */
  lemma DigitAliasesAreNew(s: string)
    requires s in DigitAliases
    ensures ParseHotkeyCode(s).None? && ParseKeyCode(s).Some?
  {
  }

  /** Any other name the wide table knows, the legacy table knows too. */
  lemma OnlyAddedNamesAreNew(s: string)
    requires s !in PageAndArrowNames && s !in DigitNames && s !in LettersAToI && s !in LettersJToR && s !in LettersSToZ && s !in DigitAliases
    ensures ParseHotkeyCode(s).Some? || ParseKeyCode(s).None?
  {
  }

  /** A one-character token resolves exactly as the canonical name it abbreviates:
      a digit `d` as `Digit` followed by `d`, any other character `x` as `Key` followed by `x`. */
  lemma OneCharacterAliases(ch: char)
    ensures ParseKeyCode([ch]) == ParseKeyCode(if '0' <= ch <= '9' then "Digit" + [ch] else "Key" + [ch])
  {
    assert "Digit" + [ch] == ['D', 'i', 'g', 'i', 't', ch];
    assert "Key" + [ch] == ['K', 'e', 'y', ch];
  }

  /** No key name contains the separator `+` (of the wide table, hence of either). */
  lemma KeyNamesHaveNoSeparator(s: string)
    ensures ParseKeyCode(s).Some? ==> '+' !in s
  {
  }

  /** No key name is one of the modifier words (of the wide table, hence of either). */
  lemma KeyNamesAreNotModifierWords(s: string)
    ensures ParseKeyCode(s).Some? ==> s != "Ctrl" && s != "Shift" && s != "Alt" && s != "Meta"
  {
  }
}
