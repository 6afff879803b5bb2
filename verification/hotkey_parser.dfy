/** The hotkey-string parser of src-tauri/src/main.rs: `parse_hotkey_combination`, which
    splits a string such as "Ctrl+Shift+KeyA" on `+`, folds the modifier words into a set
    and keeps the first other token that the wide key table resolves; and the
    parse-with-legacy-fallback that every caller wraps around it. */
module HotkeyParser {
  import opened Wrappers
  import opened KeyCodes

  /** The four modifier flags the parser can set (`Modifiers::SUPER` for "Meta"). */
  datatype Modifier = Control | Shift | Alt | Super

  /** A fully resolved, registrable hotkey: `(Modifiers, Code)` in the source. */
  datatype Binding = Binding(modifiers: set<Modifier>, code: Code)

  /** A key table: a total map from a token to an optional key code.  The parser is stated
      over any table and used with `ParseKeyCode`, which keeps the proofs about its loop
      independent of the table's hundred entries. */
  type KeyTable = string -> Option<Code>

  /** The modifier a token denotes.  Matching is exact and case-sensitive. */
  function ModifierToken(t: string): Option<Modifier> {
    match t
    case "Ctrl" => Some(Control)
    case "Shift" => Some(Shift)
    case "Alt" => Some(Alt)
    case "Meta" => Some(Super)
    case _ => None
  }

  /** The word that denotes a modifier in a hotkey string. */
  function ModifierWord(m: Modifier): string {
    match m
    case Control => "Ctrl"
    case Shift => "Shift"
    case Alt => "Alt"
    case Super => "Meta"
  }

  /** `ModifierWord` and `ModifierToken` are inverse: a token denotes `m` exactly when it is
      `m`'s word. */
  lemma ModifierWordInverse(t: string, m: Modifier)
    ensures ModifierToken(t) == Some(m) <==> t == ModifierWord(m)
  {
  }

  // ---------------------------------------------------------------------------
  // Splitting on '+'
  // ---------------------------------------------------------------------------

  /** Rust's `str::split('+')`: `n` separators give `n + 1` pieces, empty pieces included,
      so even the empty string yields one (empty) piece. */
  function Split(s: string): (parts: seq<string>)
    ensures |parts| >= 1
    ensures forall i :: 0 <= i < |parts| ==> '+' !in parts[i]
    decreases |s|
  {
    if |s| == 0 then [""]
    else
      var rest := Split(s[1..]);
      if s[0] == '+' then [""] + rest
      else [[s[0]] + rest[0]] + rest[1..]
  }

  /** The inverse of `Split`: the pieces glued back together with `+` between them. */
  function Join(parts: seq<string>): string
    requires |parts| >= 1
    decreases |parts|
  {
    if |parts| == 1 then parts[0] else parts[0] + "+" + Join(parts[1..])
  }

  lemma {:induction false} JoinConsFirst(c: char, parts: seq<string>)
    requires |parts| >= 1
    ensures Join([[c] + parts[0]] + parts[1..]) == [c] + Join(parts)
  {
    var p := [[c] + parts[0]] + parts[1..];
    assert p[1..] == parts[1..];
  }

  /** Gluing the pieces of a split gives back the original string. */
  lemma {:induction false} JoinSplit(s: string)
    ensures Join(Split(s)) == s
    decreases |s|
  {
    if |s| == 0 {
    } else {
      var rest := Split(s[1..]);
      JoinSplit(s[1..]);
      if s[0] == '+' {
        assert ([""] + rest)[1..] == rest;
        assert s == "+" + s[1..];
      } else {
        JoinConsFirst(s[0], rest);
        assert s == [s[0]] + s[1..];
      }
    }
  }

  /** A string without separators is a single piece. */
  lemma {:induction false} SplitSingle(s: string)
    requires '+' !in s
    ensures Split(s) == [s]
    decreases |s|
  {
    if |s| != 0 {
      assert '+' !in s[1..];
      SplitSingle(s[1..]);
      assert s == [s[0]] + s[1..];
    }
  }

  /** Splitting at the first separator. */
  lemma {:induction false} SplitAtFirstSeparator(a: string, b: string)
    requires '+' !in a
    ensures Split(a + "+" + b) == [a] + Split(b)
    decreases |a|
  {
    var s := a + "+" + b;
    if |a| == 0 {
      assert s == "+" + b;
      assert s[1..] == b;
    } else {
      assert s[1..] == a[1..] + "+" + b;
      assert '+' !in a[1..];
      SplitAtFirstSeparator(a[1..], b);
      assert [s[0]] + a[1..] == a;
    }
  }

  /** Splitting a join of separator-free pieces gives back the pieces. */
  lemma {:induction false} SplitJoin(parts: seq<string>)
    requires |parts| >= 1
    requires forall i :: 0 <= i < |parts| ==> '+' !in parts[i]
    ensures Split(Join(parts)) == parts
    decreases |parts|
  {
    if |parts| == 1 {
      SplitSingle(parts[0]);
    } else {
      SplitJoin(parts[1..]);
      SplitAtFirstSeparator(parts[0], Join(parts[1..]));
    }
  }

  // ---------------------------------------------------------------------------
  // Reference reading of a token list
  // ---------------------------------------------------------------------------

  /** Whether some token of the list is the word of modifier `m`. */
  predicate Names(parts: seq<string>, m: Modifier) {
    exists i :: 0 <= i < |parts| && ModifierToken(parts[i]) == Some(m)
  }

  /** The modifiers named anywhere in a token list. */
  function ModifiersIn(parts: seq<string>): (ms: set<Modifier>)
    ensures forall m :: m in ms <==> Names(parts, m)
    decreases |parts|
  {
    if |parts| == 0 then {}
    else
      var head := match ModifierToken(parts[0]) case Some(m) => {m} case None => {};
      assert forall m :: Names(parts, m) <==> ModifierToken(parts[0]) == Some(m) || Names(parts[1..], m) by {
        forall m ensures Names(parts, m) ==> ModifierToken(parts[0]) == Some(m) || Names(parts[1..], m) {
          if Names(parts, m) && ModifierToken(parts[0]) != Some(m) {
            var i :| 0 <= i < |parts| && ModifierToken(parts[i]) == Some(m);
            assert parts[1..][i - 1] == parts[i];
          }
        }
        forall m ensures Names(parts[1..], m) ==> Names(parts, m) {
          if Names(parts[1..], m) {
            var i :| 0 <= i < |parts[1..]| && ModifierToken(parts[1..][i]) == Some(m);
            assert parts[i + 1] == parts[1..][i];
          }
        }
      }
      head + ModifiersIn(parts[1..])
  }

  /** The tokens that are not modifier words, in their original order. */
  function KeyTokens(parts: seq<string>): (ks: seq<string>)
    ensures forall t :: t in ks <==> t in parts && ModifierToken(t).None?
    ensures |ks| <= |parts|
    decreases |parts|
  {
    if |parts| == 0 then []
    else if ModifierToken(parts[0]).Some? then KeyTokens(parts[1..])
    else [parts[0]] + KeyTokens(parts[1..])
  }

  /** The key candidates keep their order: taking them from two lists one after the other
      gives those of the first list followed by those of the second. */
  lemma {:induction false} KeyTokensAppend(a: seq<string>, b: seq<string>)
    ensures KeyTokens(a + b) == KeyTokens(a) + KeyTokens(b)
    decreases |a|
  {
    if |a| == 0 {
      assert a + b == b;
    } else {
      assert (a + b)[0] == a[0];
      assert (a + b)[1..] == a[1..] + b;
      KeyTokensAppend(a[1..], b);
    }
  }

  /** The code of the first token that `table` resolves. */
  function FirstResolvable(table: KeyTable, tokens: seq<string>): (r: Option<Code>)
    ensures r.None? <==> forall i :: 0 <= i < |tokens| ==> table(tokens[i]).None?
    ensures r.Some? ==> exists i :: 0 <= i < |tokens| && table(tokens[i]) == r
                                    && forall j :: 0 <= j < i ==> table(tokens[j]).None?
    decreases |tokens|
  {
    if |tokens| == 0 then None
    else if table(tokens[0]).Some? then table(tokens[0])
    else
      var r := FirstResolvable(table, tokens[1..]);
      assert forall i :: 1 <= i < |tokens| ==> tokens[i] == tokens[1..][i - 1];
      if r.Some? then
        var k :| 0 <= k < |tokens[1..]| && table(tokens[1..][k]) == r
                 && forall j :: 0 <= j < k ==> table(tokens[1..][j]).None?;
        assert table(tokens[k + 1]) == r;
        r
      else r
  }

  /** What a token list means: the modifiers it names paired with its first key token that
      `table` resolves, or nothing when no key token resolves. */
  function Denotation(table: KeyTable, parts: seq<string>): Option<Binding> {
    match FirstResolvable(table, KeyTokens(parts))
    case Some(code) => Some(Binding(ModifiersIn(parts), code))
    case None => None
  }

  // ---------------------------------------------------------------------------
  // The parser as written: a left fold over the pieces
  // ---------------------------------------------------------------------------

  /** The loop state of `parse_hotkey_combination`: `modifiers` and `main_key`. */
  datatype Scan = Scan(modifiers: set<Modifier>, mainKey: Option<Code>)

  /** One iteration of the loop: a modifier word adds its flag; any other token is looked
      up, but only while no key has been found yet. */
  function Step(table: KeyTable, acc: Scan, part: string): Scan {
    match ModifierToken(part)
    case Some(m) => acc.(modifiers := acc.modifiers + {m})
    case None => if acc.mainKey.None? then acc.(mainKey := table(part)) else acc
  }

  /** The whole loop over the pieces, in order.  It computes the reference reading: it adds
      the named modifiers, and keeps an already found key or else takes the first resolvable
      key token. */
  function ScanParts(table: KeyTable, acc: Scan, parts: seq<string>): (r: Scan)
    ensures r == Scan(acc.modifiers + ModifiersIn(parts), acc.mainKey.OrElse(FirstResolvable(table, KeyTokens(parts))))
    decreases |parts|
  {
    if |parts| == 0 then acc
    else
      var r := ScanParts(table, Step(table, acc, parts[0]), parts[1..]);
      if ModifierToken(parts[0]).None? then
        assert KeyTokens(parts) == [parts[0]] + KeyTokens(parts[1..]);
        assert ([parts[0]] + KeyTokens(parts[1..]))[1..] == KeyTokens(parts[1..]);
        r
      else r
  }

  /** The body of `parse_hotkey_combination` over a given key table.  The source's
      `parts.is_empty()` guard is omitted: a split always yields at least one piece (see
      the contract of `Split`), so it never fires. */
  function ParseCombinationWith(table: KeyTable, s: string): (r: Option<Binding>)
    ensures r == Denotation(table, Split(s))
  {
    var parts := Split(s);
    var scan := ScanParts(table, Scan({}, None), parts);
    assert scan.modifiers == ModifiersIn(parts);
    assert scan.mainKey == FirstResolvable(table, KeyTokens(parts));
    match scan.mainKey
    case Some(code) => Some(Binding(scan.modifiers, code))
    case None => None
  }

  /** `parse_hotkey_combination`: the loop above with the wide key table. */
  function ParseHotkeyCombination(s: string): (r: Option<Binding>)
    ensures r == Denotation(ParseKeyCode, Split(s))
  {
    ParseCombinationWith(ParseKeyCode, s)
  }

  /** Parsing a joined list of separator-free pieces reads exactly those pieces. */
  lemma ParseOfJoin(parts: seq<string>)
    requires |parts| >= 1
    requires forall i :: 0 <= i < |parts| ==> '+' !in parts[i]
    ensures ParseHotkeyCombination(Join(parts)) == Denotation(ParseKeyCode, parts)
  {
    SplitJoin(parts);
  }

  /** The parser fails exactly when no non-modifier token resolves, and otherwise yields
      the named modifiers with the first key token that resolves: earlier unresolvable
      tokens are skipped and later ones ignored. */
  lemma CombinationFailsIff(table: KeyTable, s: string)
    ensures ParseCombinationWith(table, s).None?
        <==> forall t :: t in Split(s) && ModifierToken(t).None? ==> table(t).None?
  {
    var ks := KeyTokens(Split(s));
    assert forall t :: t in ks <==> exists i :: 0 <= i < |ks| && ks[i] == t;
  }

  /** On success the parser yields the modifiers the pieces name together with the code of
      the first non-modifier piece the table resolves: earlier unresolvable pieces are
      skipped, later ones ignored. */
  lemma CombinationFirstKey(table: KeyTable, s: string)
    requires ParseCombinationWith(table, s).Some?
    ensures ParseCombinationWith(table, s).value.modifiers == ModifiersIn(Split(s))
    ensures exists i :: FirstKeyAt(table, KeyTokens(Split(s)), i, ParseCombinationWith(table, s).value.code)
  {
    var ks := KeyTokens(Split(s));
    var i :| 0 <= i < |ks| && table(ks[i]) == FirstResolvable(table, ks)
             && forall j :: 0 <= j < i ==> table(ks[j]).None?;
    assert FirstKeyAt(table, ks, i, ParseCombinationWith(table, s).value.code);
  }

  /** Token `i` is the first one that `table` resolves, and it resolves to `code`. */
  predicate FirstKeyAt(table: KeyTable, tokens: seq<string>, i: int, code: Code) {
    && 0 <= i < |tokens|
    && table(tokens[i]) == Some(code)
    && forall j :: 0 <= j < i ==> table(tokens[j]).None?
  }

  // ---------------------------------------------------------------------------
  // Well-formed combinations
  // ---------------------------------------------------------------------------

  /** The words of a sequence of modifiers. */
  function Words(mods: seq<Modifier>): (ws: seq<string>)
    ensures |ws| == |mods|
    ensures forall i :: 0 <= i < |mods| ==> ws[i] == ModifierWord(mods[i])
  {
    seq(|mods|, i requires 0 <= i < |mods| => ModifierWord(mods[i]))
  }

  /** A spelling of a combination: modifier words, the key token, more modifier words. */
  function Compose(pre: seq<Modifier>, key: string, post: seq<Modifier>): string {
    Join(Words(pre) + [key] + Words(post))
  }

  /** No modifier word contains the separator. */
  lemma WordsHaveNoSeparator(mods: seq<Modifier>)
    ensures forall i :: 0 <= i < |mods| ==> '+' !in Words(mods)[i]
  {
    forall i | 0 <= i < |mods| ensures '+' !in Words(mods)[i] {
      match mods[i]
      case Control =>
      case Shift =>
      case Alt =>
      case Super =>
    }
  }

  /** Modifier words alone offer no key candidate. */
  lemma {:induction false} KeyTokensOfOnlyWords(mods: seq<Modifier>)
    ensures KeyTokens(Words(mods)) == []
    decreases |mods|
  {
    if |mods| != 0 {
      ModifierWordInverse(Words(mods)[0], mods[0]);
      assert Words(mods)[1..] == Words(mods[1..]);
      KeyTokensOfOnlyWords(mods[1..]);
    }
  }

  /** `KeyTokens` on a list with a known first piece. */
  lemma KeyTokensCons(t: string, rest: seq<string>)
    ensures KeyTokens([t] + rest) == if ModifierToken(t).Some? then KeyTokens(rest) else [t] + KeyTokens(rest)
  {
    assert ([t] + rest)[0] == t;
    assert ([t] + rest)[1..] == rest;
  }

  /** Among modifier words around one non-modifier token, that token is the only key
      candidate, wherever it stands. */
  lemma {:induction false} KeyTokensOfWords(pre: seq<Modifier>, key: string, post: seq<Modifier>)
    requires ModifierToken(key).None?
    ensures KeyTokens(Words(pre) + [key] + Words(post)) == [key]
    decreases |pre|
  {
    if |pre| == 0 {
      assert Words(pre) + [key] + Words(post) == [key] + Words(post);
      KeyTokensOfOnlyWords(post);
      KeyTokensCons(key, Words(post));
    } else {
      var w := ModifierWord(pre[0]);
      var rest := Words(pre[1..]) + [key] + Words(post);
      assert Words(pre) + [key] + Words(post) == [w] + rest;
      ModifierWordInverse(w, pre[0]);
      KeyTokensCons(w, rest);
      KeyTokensOfWords(pre[1..], key, post);
    }
  }

  /** Modifier words around one non-modifier token name exactly the listed modifiers. */
  lemma {:induction false} ModifiersOfWords(pre: seq<Modifier>, key: string, post: seq<Modifier>)
    requires ModifierToken(key).None?
    ensures ModifiersIn(Words(pre) + [key] + Words(post)) == set m | m in pre + post
  {
    var parts := Words(pre) + [key] + Words(post);
    var n := |pre|;
    assert forall i :: 0 <= i < n ==> parts[i] == Words(pre)[i];
    assert parts[n] == key;
    assert forall j :: 0 <= j < |post| ==> parts[n + 1 + j] == Words(post)[j];
    forall m ensures Names(parts, m) <==> m in pre + post {
      if m in pre {
        var i :| 0 <= i < |pre| && pre[i] == m;
        ModifierWordInverse(parts[i], m);
      }
      if m in post {
        var j :| 0 <= j < |post| && post[j] == m;
        ModifierWordInverse(parts[n + 1 + j], m);
      }
      if Names(parts, m) {
        var i :| 0 <= i < |parts| && ModifierToken(parts[i]) == Some(m);
        if i < n {
          ModifierWordInverse(parts[i], m);
          ModifierWordInverse(parts[i], pre[i]);
          assert m in pre;
        } else if i > n {
          ModifierWordInverse(parts[i], m);
          ModifierWordInverse(parts[i], post[i - n - 1]);
          assert m in post;
        }
      }
    }
  }

  /** Over any table: modifier words with one separator-free key token somewhere among
      them, which the table resolves, parse to exactly the listed modifiers with that
      key's code. */
  lemma {:induction false} ComposeParsesWith(table: KeyTable, pre: seq<Modifier>, key: string,
                                             post: seq<Modifier>)
    requires table(key).Some? && '+' !in key && ModifierToken(key).None?
    ensures ParseCombinationWith(table, Compose(pre, key, post))
         == Some(Binding((set m | m in pre + post), table(key).value))
  {
    var parts := Words(pre) + [key] + Words(post);
    var n := |pre|;
    WordsHaveNoSeparator(pre);
    WordsHaveNoSeparator(post);
    assert forall i :: 0 <= i < |parts| ==> '+' !in parts[i] by {
      forall i | 0 <= i < |parts| ensures '+' !in parts[i] {
        if i < n {
          assert parts[i] == Words(pre)[i];
        } else if i > n {
          assert parts[i] == Words(post)[i - n - 1];
        }
      }
    }
    SplitJoin(parts);
    KeyTokensOfWords(pre, key, post);
    ModifiersOfWords(pre, key, post);
    assert FirstResolvable(table, [key]) == table(key);
  }

  /** With the wide table: modifier words with any one of its key names somewhere among
      them parse to exactly the listed modifiers with that key's code. */
  lemma {:induction false} ComposeParses(pre: seq<Modifier>, key: string, post: seq<Modifier>)
    requires ParseKeyCode(key).Some?
    ensures ParseHotkeyCombination(Compose(pre, key, post))
         == Some(Binding((set m | m in pre + post), ParseKeyCode(key).value))
  {
    KeyNamesHaveNoSeparator(key);
    KeyNamesAreNotModifierWords(key);
    assert ModifierToken(key).None?;
    ComposeParsesWith(ParseKeyCode, pre, key, post);
  }

  /** Order, repetition and the key's position do not matter: two spellings naming the
      same set of modifiers around the same key token parse to the same binding. */
  lemma {:induction false} ModifierOrderIrrelevant(pre1: seq<Modifier>, post1: seq<Modifier>,
                                                   pre2: seq<Modifier>, post2: seq<Modifier>,
                                                   key: string)
    requires ParseKeyCode(key).Some?
    requires forall m :: m in pre1 + post1 <==> m in pre2 + post2
    ensures ParseHotkeyCombination(Compose(pre1, key, post1))
         == ParseHotkeyCombination(Compose(pre2, key, post2))
    ensures ParseHotkeyCombination(Compose(pre1, key, post1)).Some?
  {
    ComposeParses(pre1, key, post1);
    ComposeParses(pre2, key, post2);
    assert (set m | m in pre1 + post1) == (set m | m in pre2 + post2);
  }

  /** Over any table: a lone separator-free token that is no modifier word and that the
      table resolves parses to that key with no modifiers. */
  lemma {:induction false} BareKeyParsesWith(table: KeyTable, s: string)
    requires table(s).Some? && '+' !in s && ModifierToken(s).None?
    ensures ParseCombinationWith(table, s) == Some(Binding({}, table(s).value))
  {
    ComposeParsesWith(table, [], s, []);
    assert Words([]) + [s] + Words([]) == [s];
    assert Compose([], s, []) == s;
    assert (set m: Modifier | m in [] + []) == {};
  }

  /** A bare key name, with no separator, parses to that key with no modifiers. */
  lemma {:induction false} BareKeyParses(s: string)
    requires ParseKeyCode(s).Some?
    ensures ParseHotkeyCombination(s) == Some(Binding({}, ParseKeyCode(s).value))
  {
    KeyNamesHaveNoSeparator(s);
    KeyNamesAreNotModifierWords(s);
    assert ModifierToken(s).None?;
    BareKeyParsesWith(ParseKeyCode, s);
  }

  // ---------------------------------------------------------------------------
  // The legacy fallback
  // ---------------------------------------------------------------------------

  /** The combination parser over `table`, then `legacy` on the whole string with no
      modifiers. */
  function FallbackWith(table: KeyTable, legacy: KeyTable, s: string): Option<Binding> {
    ParseCombinationWith(table, s).OrElse(
      match legacy(s)
      case Some(c) => Some(Binding({}, c))
      case None => None)
  }

  /** Over any tables: when every name `legacy` resolves is a lone key token that `table`
      resolves the same way, the fallback never changes the combination parser's outcome. */
  lemma {:induction false} FallbackNeverChangesOutcomeWith(table: KeyTable, legacy: KeyTable, s: string)
    requires legacy(s).Some? ==> table(s) == legacy(s) && '+' !in s && ModifierToken(s).None?
    ensures FallbackWith(table, legacy, s) == ParseCombinationWith(table, s)
  {
    if legacy(s).Some? {
      BareKeyParsesWith(table, s);
    }
  }

  /** What `update_hotkey`, `main` and `setup` all compute: the combination parser, then the
      legacy table on the whole string, with no modifiers.  The fallback never changes the
      outcome: whatever the legacy table resolves, the combination parser already resolves
      to the same binding. */
  function ParseWithFallback(s: string): (r: Option<Binding>)
    ensures r == ParseHotkeyCombination(s)
  {
    LegacyTableWithinWide(s);
    KeyNamesHaveNoSeparator(s);
    KeyNamesAreNotModifierWords(s);
    FallbackNeverChangesOutcomeWith(ParseKeyCode, ParseHotkeyCode, s);
    FallbackWith(ParseKeyCode, ParseHotkeyCode, s)
  }

  /** Every name of the legacy table, alone, parses with no modifiers. */
  lemma LegacyNameParses(s: string)
    requires ParseHotkeyCode(s).Some?
    ensures ParseWithFallback(s) == Some(Binding({}, ParseHotkeyCode(s).value))
  {
    LegacyTableWithinWide(s);
    BareKeyParses(s);
  }
}
