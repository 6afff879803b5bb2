# Krona-Lite hotkey and to-do core in Dafny

Krona-Lite is a small desktop to-do list with per-item timers. A global hotkey shows or
hides its main window. This project models two parts of it.

**The hotkey subsystem** of `src-tauri/src/main.rs`:

- the two key-name tables: the legacy `parse_hotkey_code` and the wider `parse_key_code`;
- the combination parser `parse_hotkey_combination`, for strings such as `Ctrl+Shift+KeyA`;
- the legacy fallback that every caller wraps around the parser;
- the `update_hotkey` command, with its state write and operating-system calls;
- the decision the global-shortcut handler takes when a shortcut fires;
- start-up: loading the stored hotkey, building `AppState`, and registering in `setup`.

**The to-do list store** of `src/lib/stores.ts`: the updaters `add`, `delete`, `toggle`,
`update`, `toggleTimer` and `reorder` returned by `createTodos`. Each is a pure function
on the list.

Modules:

- `Wrappers` (`wrappers.dfy`): `Option`, `Result` and `Outcome`.
- `KeyCodes` (`key_codes.dfy`): the `Code` enumeration and both key tables.
- `HotkeyParser` (`hotkey_parser.dfy`): splitting on `+`, and a reference reading of a
  token list (`Denotation`). It also holds the parser as the source writes it, a left
  fold, proved equal to that reading. The parser is written over any key table and
  instantiated with `parse_key_code`.
- `HotkeyExamples` (`hotkey_examples.dfy`): concrete strings worked through the parser.
- `HotkeyState` (`hotkey_state.dfy`): `AppState`, `update_hotkey`, the handler and
  start-up. The state logic is written over any hotkey parser. The end-to-end lemmas
  instantiate it with `ParseWithFallback`, the parser every caller in the source uses.
- `Todos` (`todos.dfy`): the `Todo` record and the store's updaters.

Four behaviours of the code a reader might not expect; the model follows the code:

- **State is written first.** `update_hotkey` writes the new hotkey into the state before
  it calls `unregister_all` and `register`. So a refused registration leaves the state
  naming a binding that nothing has registered
  (`RegistrationFailureLeavesNewBindingUnregistered`).
- **No fallback to F4 on a bad string.** If the stored string does not parse, start-up
  does not fall back to `F4`. The binding stays empty and nothing is registered
  (`UnparseableStoredHotkey`). `F4` is used only when no stored hotkey can be read.
- **The empty-split guard never fires.** `split('+')` always yields at least one piece,
  so the `parts.is_empty()` guard in `parse_hotkey_combination` is dead code. The empty
  string fails for another reason: its single empty piece resolves to no key.
- **The legacy fallback never matters.** Every legacy name already parses through the
  combination parser (the contract of `ParseWithFallback`).

## Model

| member | source | states |
|---|---|---|
| KeyCodes.ParseHotkeyCode | src-tauri/src/main.rs:82-133 | the legacy table, entry for entry; every name it knows, the wide table knows too |
| KeyCodes.ParseKeyCode | src-tauri/src/main.rs:161-228 | the wide table, entry for entry; no name it knows contains the separator `+` |
| KeyCodes.LegacyTableWithinWide | src-tauri/src/main.rs:82-133 | every name the legacy table knows, the wide table resolves to the same code |
| KeyCodes.WideTableExtendsLegacy | src-tauri/src/main.rs:82-228 | for every string: the legacy table rejects it and the wide table resolves it if and only if it is one of the 52 added names (page and arrow keys, `Digit0`-`Digit9`, single-letter and single-digit aliases) |
| KeyCodes.OneCharacterAliases | src-tauri/src/main.rs:190-225 | a one-character token resolves exactly as the canonical `Key…`/`Digit…` name it abbreviates |
| KeyCodes.KeyNamesHaveNoSeparator | src-tauri/src/main.rs:161-228 | no key name contains `+`, so a key name survives splitting intact |
| KeyCodes.KeyNamesAreNotModifierWords | src-tauri/src/main.rs:145-150 | no key name is one of `Ctrl`, `Shift`, `Alt`, `Meta`, so the modifier arms never shadow a key |
| HotkeyParser.ModifierWordInverse | src-tauri/src/main.rs:146-149 | a token denotes modifier `m` if and only if it is exactly `m`'s word (case-sensitive) |
| HotkeyParser.Split | src-tauri/src/main.rs:136-139 | `split('+')` yields at least one piece and no piece contains `+`, which is why the `is_empty` guard is dead |
| HotkeyParser.JoinSplit | src-tauri/src/main.rs:136 | joining the pieces of a split with `+` gives back the original string |
| HotkeyParser.SplitJoin | src-tauri/src/main.rs:136 | splitting a `+`-join of separator-free pieces gives back those pieces |
| HotkeyParser.SplitAtFirstSeparator | src-tauri/src/main.rs:136 | splitting `a+b`, with `a` free of `+`, gives `a` followed by the pieces of `b` |
| HotkeyParser.SplitSingle | src-tauri/src/main.rs:136 | a string without `+` splits into itself alone |
| HotkeyParser.ModifiersIn | src-tauri/src/main.rs:141-149 | the modifier set holds `m` if and only if some piece is `m`'s word |
| HotkeyParser.KeyTokens | src-tauri/src/main.rs:150-154 | the key candidates are exactly the pieces that are not modifier words, no more of them than pieces |
| HotkeyParser.KeyTokensAppend | src-tauri/src/main.rs:144-154 | the key candidates keep the order of the pieces: those of two lists in sequence are the first list's followed by the second's |
| HotkeyParser.FirstResolvable | src-tauri/src/main.rs:150-154 | none if and only if no candidate resolves; otherwise the code of a resolving candidate before which none resolves |
| HotkeyParser.ScanParts | src-tauri/src/main.rs:144-156 | the loop as written (modifier words add flags, other tokens are looked up only while no key is found) computes the reference reading of the pieces from any starting state: the named modifiers added, and the key already found or else the first resolvable key candidate |
| HotkeyParser.ParseCombinationWith | src-tauri/src/main.rs:135-159 | the parser's result over any key table is the reference reading of the split string |
| HotkeyParser.ParseHotkeyCombination | src-tauri/src/main.rs:135-159 | `parse_hotkey_combination` is the reference reading of the split string with the wide table |
| HotkeyParser.ParseOfJoin | src-tauri/src/main.rs:135-159 | parsing a `+`-join of separator-free pieces reads exactly those pieces |
| HotkeyParser.CombinationFailsIff | src-tauri/src/main.rs:150-158 | parsing fails if and only if no non-modifier piece resolves |
| HotkeyParser.CombinationFirstKey | src-tauri/src/main.rs:150-158 | on success: the modifiers named anywhere, and the code of the first non-modifier piece that resolves (earlier unresolvable ones skipped, later ones ignored) |
| HotkeyParser.KeyTokensOfWords | src-tauri/src/main.rs:145-154 | among modifier words with one non-modifier token anywhere between them, that token is the only key candidate |
| HotkeyParser.ModifiersOfWords | src-tauri/src/main.rs:145-149 | modifier words around one non-modifier token name exactly the listed modifiers, before and after the token |
| HotkeyParser.ComposeParsesWith | src-tauri/src/main.rs:135-159 | over any table, modifier words with one resolvable separator-free key token at any position parse to exactly those modifiers with that key |
| HotkeyParser.ComposeParses | src-tauri/src/main.rs:135-159 | the same with the wide table, for every key name it knows and every position of the key |
| HotkeyParser.ModifierOrderIrrelevant | src-tauri/src/main.rs:141-156 | spellings naming the same modifier set around the same key parse to the same binding, whatever the order, the repetition or the key's position |
| HotkeyParser.BareKeyParsesWith | src-tauri/src/main.rs:135-159 | over any table, a lone separator-free non-modifier token that the table resolves parses to that key with no modifiers |
| HotkeyParser.BareKeyParses | src-tauri/src/main.rs:135-159 | a bare key name parses to that key with no modifiers |
| HotkeyParser.FallbackNeverChangesOutcomeWith | src-tauri/src/main.rs:55-59 | over any two tables, if every legacy name is a lone key token the wide table resolves the same way, the fallback never changes the parser's outcome |
| HotkeyParser.ParseWithFallback | src-tauri/src/main.rs:55-59 | the parser every caller uses, combination first and then the legacy table on the whole string, gives on every string exactly what the combination parser alone gives |
| HotkeyParser.LegacyNameParses | src-tauri/src/main.rs:55-59 | every legacy name, alone, yields its code with no modifiers |
| HotkeyExamples.EmptyStringFails | src-tauri/src/main.rs:136-139 | the empty string splits into one empty piece and fails to parse, with or without the fallback |
| HotkeyExamples.ModifiersAloneFail | src-tauri/src/main.rs:158 | `Ctrl+Shift` has no main key and is rejected |
| HotkeyExamples.UnknownPieceSkipped | src-tauri/src/main.rs:150-154 | in `Foo+KeyA` the unknown piece is skipped and `KeyA` is the key |
| HotkeyExamples.FirstKeyWins | src-tauri/src/main.rs:151-153 | in `KeyA+KeyB` the first key is kept and the second ignored |
| HotkeyExamples.ModifierWordsCaseSensitive | src-tauri/src/main.rs:146 | `ctrl` is no modifier: `ctrl+KeyA` is `KeyA` alone |
| HotkeyExamples.ModifierOrderExample | src-tauri/src/main.rs:146-147 | `Shift+Ctrl+KeyA` and `Ctrl+Shift+KeyA` are the same hotkey, Control and Shift with A |
| HotkeyExamples.KeyInMiddleExample | src-tauri/src/main.rs:144-156 | the key need not come last: `Shift+KeyA+Ctrl` is Control and Shift with A |
| HotkeyState.UpdateHotkey | src-tauri/src/main.rs:52-80 | an unparseable string changes nothing and is rejected with "Invalid hotkey combination", and only then; otherwise the state is written, then unregister and register are called in order, register only if unregister succeeded; success if and only if parse and both calls succeed, and then state and registrations agree |
| HotkeyState.UpdatePreservesConsistency | src-tauri/src/main.rs:62-69 | the stored binding always remains what the stored string parses to, whatever the operating system answers |
| HotkeyState.RegistrationFailureLeavesNewBindingUnregistered | src-tauri/src/main.rs:62-77 | a refused registration returns an error, yet the state already holds the new binding, which is not registered |
| HotkeyState.InvalidUpdateKeepsHotkeyWorking | src-tauri/src/main.rs:55-60 | rejecting a string keeps the registrations and every decision of the handler |
| HotkeyState.SuccessfulUpdateRetargets | src-tauri/src/main.rs:62-79 | a parseable string with both calls succeeding is accepted; the handler then acts on the new binding and only it, and a different old binding is unregistered |
| HotkeyState.HandleShortcut | src-tauri/src/main.rs:262-279 | the handler acts if and only if the event is a press, the window exists, the lock is taken and the fired shortcut is the stored one; it hides if and only if it acts and the window reports visible |
| HotkeyState.TwoPressesRestoreVisibility | src-tauri/src/main.rs:270-275 | a press flips the window's visibility, so two presses restore it |
| HotkeyState.LoadedHotkey | src-tauri/src/main.rs:230-244 | the stored hotkey is used when one could be read; otherwise the default `F4`, which parses to F4 with no modifiers |
| HotkeyState.InitialState | src-tauri/src/main.rs:249-256 | the start-up state keeps the loaded string, is consistent, and has no binding if and only if the string fails to parse |
| HotkeyState.Setup | src-tauri/src/main.rs:284-294 | start-up fails if and only if there is a binding and its registration is refused, in which case nothing is added and the facility's error is returned; on success exactly the parsed binding, if any, is added |
| HotkeyState.StartupInSync | src-tauri/src/main.rs:246-294 | a start-up with nothing registered leaves state and operating system in agreement, whether or not the string parses |
| HotkeyState.StartupBindingIsCombination | src-tauri/src/main.rs:249-256 | with the source's parser, the start-up binding is exactly what the combination parser makes of the loaded string |
| HotkeyState.UnparseableStoredHotkey | src-tauri/src/main.rs:249-256 | a stored string that does not parse leaves no binding and registers nothing: no fallback to `F4` |
| HotkeyState.DefaultStartup | src-tauri/src/main.rs:230-256 | with no readable stored hotkey the application starts bound to `F4` with no modifiers |
| HotkeyState.CtrlKeyBParses | src-tauri/src/main.rs:135-159 | `Ctrl+KeyB` parses to Control with B |
| HotkeyState.EndToEnd | src-tauri/src/main.rs:52-294 | default start-up, rebinding to `Ctrl+KeyB`, then two presses show and focus, then hide the window |
| Todos.Add | src/lib/stores.ts:59-70 | appends one item with the given id and text, not completed, timer stopped, nothing elapsed; the rest unchanged |
| Todos.Delete | src/lib/stores.ts:71 | never grows, leaves no item with the id, and is a no-op when the id is absent |
| Todos.DeleteMembers | src/lib/stores.ts:71 | an item survives a delete if and only if it was in the list and its id differs |
| Todos.DeleteDistributes | src/lib/stores.ts:71 | delete distributes over concatenation, so the order of the survivors is kept |
| Todos.DeleteIdempotent | src/lib/stores.ts:71 | deleting twice is deleting once |
| Todos.DeleteUndoesAdd | src/lib/stores.ts:59-71 | deleting an item just added with a fresh id gives back the list |
| Todos.ToggleTimerItem | src/lib/stores.ts:84-105 | other items untouched; a stopped timer starts at `now`; a running one stops and adds `now - start` when the start is truthy, nothing otherwise |
| Todos.Toggle | src/lib/stores.ts:72-77 | same ids in the same order; items with the id have `completed` flipped and nothing else changed; other items unchanged |
| Todos.Update | src/lib/stores.ts:78-81 | same ids in the same order; items with the id get the new text and nothing else changed; other items unchanged |
| Todos.ToggleTimer | src/lib/stores.ts:82-107 | same ids in the same order; other items unchanged; items with the id change as one timer toggle |
| Todos.ToggleInvolution | src/lib/stores.ts:72-77 | toggling the same id twice gives back the list |
| Todos.UpdateLastWins | src/lib/stores.ts:78-81 | two updates of the same id keep only the second text |
| Todos.StartThenStop | src/lib/stores.ts:82-107 | starting a stopped timer at a non-zero time and stopping it later adds exactly the difference and restores every other field |
| Todos.StartAtZeroRecordsNothing | src/lib/stores.ts:89 | a timer started when the clock read 0 records nothing, because 0 is falsy |
| Todos.DeletePreservesWellFormed | src/lib/stores.ts:71 | deleting keeps ids unique and timers consistent |
| Todos.ApplyPreservesWellFormed | src/lib/stores.ts:58-109 | every updater keeps ids unique and timers consistent, given a fresh id for `add` and a well-formed list for `reorder` |
| Todos.ReorderReplaces | src/lib/stores.ts:108 | `reorder` replaces the list with the given items, whatever it held |

## Left out

- File I/O and JSON are left out: `save_todos`, `load_todos`, and reading and decoding
  `todos.json` in `load_hotkey_from_file`. The stored hotkey is an `Option<string>`
  parameter, `None` when any step fails. That function reads the same `todos.json` that
  the store writes as a bare array. Whether such a file decodes as `AppData` depends on
  serde's behaviour, which is not modelled.
- The hotkey is loaded twice at start-up, once in `main` and once in `setup`. The model
  assumes both reads return the same string.
- The Tauri application lifecycle is left out: the builder, `invoke_handler`, and the
  `ExitRequested` handler that prevents exit.
- Mutexes are not modelled. A lock that cannot be taken in the handler is the
  `lockAcquired` flag. The `unwrap` on a poisoned lock in `update_hotkey` is not modelled.
- Window calls are left out. `hide`, `show` and `set_focus` are the `WindowAction` the
  handler returns, and their own errors are ignored, as the source ignores them.
- `unregister_all` and `register` are `Outcome` parameters. A failed `unregister_all` is
  assumed to leave the registrations unchanged. A failed `register` is assumed to
  register nothing.
- `Shortcut::matches` is modelled as equality of the stored and fired bindings.
- HotkeyState.UpdateHotkey: for a failed `unregister_all` or `register`, the contract
  states only that the result is an error, not its text. The model builds the text as the
  source's fixed prefix followed by an opaque error string, because the operating
  system's error formatting is not modelled.
- JavaScript numbers are modelled as unbounded integers. Floating-point times and `NaN`
  are left out.
- `Date.now()` becomes a single `now` parameter for `toggleTimer`. The source reads the
  clock once per matching item, and with unique ids that is once.
- `crypto.randomUUID()` becomes the `id` parameter of `add`. Its freshness is a
  precondition, `Admissible`, rather than a property proved.
- The Svelte store machinery is left out: `subscribe`, `set`, `update`, saving after each
  change (`updateAndSave`, `setAndSave`) and the initial load.
- `src/tauri/src/main.rs` is not part of this model. It is a separate stub entry point.
