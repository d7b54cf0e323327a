/** The console menus of bagman: which keys each menu offers, which typed
    lines a menu accepts, and which line a menu returns for a given run of
    typed lines.  Rendering and sleeping are not modelled. */
module Menus {
  import opened Areas

  /** One menu entry: the key the user types and the description shown. */
  datatype Choice = Choice(key: string, description: string)

  /** The dict comprehension `{k: v for k, v in {...}.items() if v}`: an entry
      whose description is blank is not offered. */
  function Offered(cs: seq<Choice>): (r: seq<Choice>)
    ensures forall c :: c in r <==> c in cs && c.description != ""
  {
    if cs == [] then []
    else (if cs[0].description != "" then [cs[0]] else []) + Offered(cs[1..])
  }

  function Keys(cs: seq<Choice>): seq<string>
  {
    seq(|cs|, i requires 0 <= i < |cs| => cs[i].key)
  }

  /** `str.lower()` for ASCII letters; every other character is kept. */
  function LowerChar(c: char): char
  {
    if 'A' <= c <= 'Z' then (c as int + 32) as char else c
  }

  function Lower(s: string): string
  {
    seq(|s|, i requires 0 <= i < |s| => LowerChar(s[i]))
  }

  function LowerAll(keys: seq<string>): seq<string>
  {
    seq(|keys|, i requires 0 <= i < |keys| => Lower(keys[i]))
  }

  /** The test `_present_menu` applies to a typed line: an exact key, or (when
      case is ignored) a line equal to a key up to letter case.  The line is
      returned as typed, not as the key it matched. */
  predicate Accepts(keys: seq<string>, line: string, ignoreCase: bool): (b: bool)
    ensures b <==> exists k :: k in keys && (line == k || (ignoreCase && Lower(line) == Lower(k)))
  {
    assert forall k :: k in keys ==> Lower(k) in LowerAll(keys) by {
      forall k | k in keys ensures Lower(k) in LowerAll(keys) {
        var i :| 0 <= i < |keys| && keys[i] == k;
        assert LowerAll(keys)[i] == Lower(k);
      }
    }
    line in keys || (ignoreCase && Lower(line) in LowerAll(keys))
  }

  predicate AllLowerCase(keys: seq<string>)
  {
    forall k :: k in keys ==> Lower(k) == k
  }

  /** `_present_menu`: lines are read one at a time and rejected until one is
      accepted; the result is that line and the lines not yet read.  When the
      input runs out first (Python raises EOFError) the result is None. */
  function NextChoice(inputs: seq<string>, keys: seq<string>, ignoreCase: bool): (r: (Option<string>, seq<string>))
    ensures r.0.Some? ==> Accepts(keys, r.0.value, ignoreCase) && |r.1| < |inputs|
    ensures r.0.Some? ==> inputs[|inputs| - |r.1| - 1] == r.0.value && inputs[|inputs| - |r.1|..] == r.1
    ensures r.0.None? ==> r.1 == []
    ensures forall j :: 0 <= j < |inputs| - |r.1| - 1 ==> !Accepts(keys, inputs[j], ignoreCase)
    ensures r.0.None? ==> forall j :: 0 <= j < |inputs| ==> !Accepts(keys, inputs[j], ignoreCase)
  {
    if inputs == [] then (None, [])
    else if Accepts(keys, inputs[0], ignoreCase) then (Some(inputs[0]), inputs[1..])
    else NextChoice(inputs[1..], keys, ignoreCase)
  }

  // ---------------------------------------------------------------------------
  // Decimal keys of the main menu (`str(idx)` and `int(choice)`)

  function DigitChar(d: nat): char
    requires d < 10
  {
    ('0' as int + d) as char
  }

  predicate IsDigit(c: char)
  {
    '0' <= c <= '9'
  }

  /** `str(n)` for a natural number. */
  function DecimalString(n: nat): string
  {
    if n < 10 then [DigitChar(n)] else DecimalString(n / 10) + [DigitChar(n % 10)]
  }

  function DigitsValue(s: string): nat
    requires forall i :: 0 <= i < |s| ==> IsDigit(s[i])
  {
    if s == [] then 0
    else
      assert IsDigit(s[|s| - 1]);
      10 * DigitsValue(s[..|s| - 1]) + (s[|s| - 1] as int - '0' as int)
  }

  /** `int(s)` on the lines a menu can return: a non-empty run of decimal
      digits gives its value, anything else is a ValueError (None). */
  function ParseDecimal(s: string): Option<nat>
  {
    if s != [] && forall i :: 0 <= i < |s| ==> IsDigit(s[i]) then Some(DigitsValue(s)) else None
  }

  lemma {:induction false} DecimalStringDigits(n: nat)
    ensures DecimalString(n) != []
    ensures forall i :: 0 <= i < |DecimalString(n)| ==> IsDigit(DecimalString(n)[i])
  {
    if n >= 10 {
      DecimalStringDigits(n / 10);
    }
  }

  /** `int(str(n)) == n`. */
  lemma {:induction false} DecimalRoundTrip(n: nat)
    ensures ParseDecimal(DecimalString(n)) == Some(n)
  {
    DecimalStringDigits(n);
    var s := DecimalString(n);
    assert s[|s| - 1] == DigitChar(n % 10);
    if n >= 10 {
      DecimalRoundTrip(n / 10);
      assert s[..|s| - 1] == DecimalString(n / 10);
      DecimalStringDigits(n / 10);
      assert DigitsValue(s[..|s| - 1]) == n / 10;
      assert DigitsValue(s) == 10 * (n / 10) + n % 10;
    } else {
      assert s[..|s| - 1] == [];
      assert DigitsValue(s) == n;
    }
  }

  /** A line whose lower-case form is all digits is itself that digit string. */
  lemma LowerOfDigits(line: string)
    requires forall i :: 0 <= i < |Lower(line)| ==> IsDigit(Lower(line)[i])
    ensures Lower(line) == line
  {
    forall i | 0 <= i < |line|
      ensures Lower(line)[i] == line[i]
    {
      assert IsDigit(Lower(line)[i]);
      assert Lower(line)[i] == LowerChar(line[i]);
    }
  }

  /** When every key is lower case, an accepted line is, once lower-cased,
      one of the keys. */
  lemma AcceptedLowerIsKey(keys: seq<string>, line: string, ignoreCase: bool)
    requires AllLowerCase(keys) && Accepts(keys, line, ignoreCase)
    ensures Lower(line) in keys
  {
    if line in keys {
      var k :| k in keys && k == line;
      assert Lower(k) == k;
    } else {
      var j :| 0 <= j < |keys| && LowerAll(keys)[j] == Lower(line);
      assert keys[j] in keys;
    }
  }

  // ---------------------------------------------------------------------------
  // The menus

  const KeySave: string := "save"
  const KeyQuit: string := "quit"
  const KeyName: string := "name"
  const KeyRemove: string := "remove"
  const KeyFirst: string := "first"
  const KeyLast: string := "last"
  const KeyUp: string := "up"
  const KeyDown: string := "down"
  const KeyBack: string := "back"
  const KeyYes: string := "yes"
  const KeyNo: string := "no"
  const KeyChange: string := "change"

  /** The label of an item in the main menu; its exact text (the rendered
      time stamp and padding) is display only, and it is never blank. */
  function ItemLabel(x: BagItem): string
  {
    "Topic: '" + x.topic + "'"
  }

  /** The entries of the main menu before the blank ones are filtered out. */
  function MainEntries(items: seq<BagItem>, dirty: bool, outputPath: string): seq<Choice>
  {
    seq(|items|, i requires 0 <= i < |items| => Choice(DecimalString(i), ItemLabel(items[i])))
    + [ Choice(KeySave, if dirty then "Save to " + outputPath else ""),
        Choice(KeyQuit, "Quit") ]
  }

  /** The main menu: one numbered entry per item, "save" only while there are
      unsaved changes, and "quit". */
  function MainMenu(items: seq<BagItem>, dirty: bool, outputPath: string): seq<Choice>
  {
    Offered(MainEntries(items, dirty, outputPath))
  }

  /** The entries of the menu for one item before the blank ones are filtered out. */
  function ItemEntries(isFirst: bool, isLast: bool, isNameable: bool): seq<Choice>
  {
    [ Choice(KeyName, if isNameable then "Set name" else ""),
      Choice(KeyFirst, if !isFirst then "Move to first position" else ""),
      Choice(KeyLast, if !isLast then "Move to last position" else ""),
      Choice(KeyUp, if !isFirst then "Move up one position" else ""),
      Choice(KeyDown, if !isLast then "Move down one position" else ""),
      Choice(KeyRemove, "Remove from bag"),
      Choice(KeyBack, "Go back to the main menu") ]
  }

  /** The menu for one item, given whether it is the first, whether it is the
      last and whether its topic can be named. */
  function ItemMenu(isFirst: bool, isLast: bool, isNameable: bool): seq<Choice>
  {
    Offered(ItemEntries(isFirst, isLast, isNameable))
  }

  /** The prompt before an existing file is overwritten. */
  const OverwriteMenu: seq<Choice> :=
    [ Choice(KeyYes, "Yes, overwrite the file"),
      Choice(KeyNo, "No, discard changes"),
      Choice(KeyChange, "Change output file path") ]

  /** The prompt when quitting with unsaved changes. */
  function QuitMenu(outputPath: string): seq<Choice>
  {
    [ Choice(KeySave, "Save to " + outputPath),
      Choice(KeyQuit, "Quit without saving") ]
  }

  /** A key is offered exactly when some entry with that key has a
      non-blank description. */
  lemma OfferedKeys(cs: seq<Choice>, k: string)
    ensures k in Keys(Offered(cs)) <==> exists c :: c in cs && c.description != "" && c.key == k
  {
    var r := Offered(cs);
    if k in Keys(r) {
      var i :| 0 <= i < |r| && Keys(r)[i] == k;
      assert r[i] in r;
    }
    if exists c :: c in cs && c.description != "" && c.key == k {
      var c :| c in cs && c.description != "" && c.key == k;
      assert c in r;
      var i :| 0 <= i < |r| && r[i] == c;
      assert Keys(r)[i] == k;
    }
  }

  /** Every offered key is the key of an entry. */
  lemma OfferedKeysSub(cs: seq<Choice>, k: string)
    requires k in Keys(Offered(cs))
    ensures k in Keys(cs)
  {
    OfferedKeys(cs, k);
    var c :| c in cs && c.description != "" && c.key == k;
    var j :| 0 <= j < |cs| && cs[j] == c;
    assert Keys(cs)[j] == k;
  }

  /** In the item menu the entry at position `i` is the only one with its key. */
  lemma ItemEntryFor(isFirst: bool, isLast: bool, isNameable: bool, k: string, i: nat)
    requires i < 7 && ItemEntries(isFirst, isLast, isNameable)[i].key == k
    ensures forall c :: c in ItemEntries(isFirst, isLast, isNameable) && c.key == k ==> c == ItemEntries(isFirst, isLast, isNameable)[i]
  {
    var es := ItemEntries(isFirst, isLast, isNameable);
    forall c | c in es && c.key == k
      ensures c == es[i]
    {
      var j :| 0 <= j < 7 && es[j] == c;
      assert es[j].key == es[i].key;
      assert |es[j].key| == |es[i].key| && es[j].key[0] == es[i].key[0];
    }
  }

  /** Whether the item menu offers the entry at position `i` of its entries. */
  lemma ItemKeyOffered(isFirst: bool, isLast: bool, isNameable: bool, i: nat)
    requires i < 7
    ensures var e := ItemEntries(isFirst, isLast, isNameable)[i];
      e.key in Keys(ItemMenu(isFirst, isLast, isNameable)) <==> e.description != ""
  {
    var es := ItemEntries(isFirst, isLast, isNameable);
    ItemEntryFor(isFirst, isLast, isNameable, es[i].key, i);
    OfferedKeys(es, es[i].key);
    assert es[i] in es;
  }

  /** Which operations the item menu offers: "name" only for mowing and
      navigation areas, "first" and "up" except at the first position, "last"
      and "down" except at the last position, "remove" and "back" always;
      and nothing else. */
  lemma ItemMenuOffers(isFirst: bool, isLast: bool, isNameable: bool)
    ensures var keys := Keys(ItemMenu(isFirst, isLast, isNameable));
      && (KeyName in keys <==> isNameable)
      && (KeyFirst in keys <==> !isFirst)
      && (KeyLast in keys <==> !isLast)
      && (KeyUp in keys <==> !isFirst)
      && (KeyDown in keys <==> !isLast)
      && KeyRemove in keys && KeyBack in keys
      && forall k :: k in keys ==> k in [KeyName, KeyFirst, KeyLast, KeyUp, KeyDown, KeyRemove, KeyBack]
  {
    var es := ItemEntries(isFirst, isLast, isNameable);
    assert Keys(es) == [KeyName, KeyFirst, KeyLast, KeyUp, KeyDown, KeyRemove, KeyBack];
    forall k | k in Keys(ItemMenu(isFirst, isLast, isNameable))
      ensures k in Keys(es)
    {
      OfferedKeysSub(es, k);
    }
    ItemKeyOffered(isFirst, isLast, isNameable, 0);
    ItemKeyOffered(isFirst, isLast, isNameable, 1);
    ItemKeyOffered(isFirst, isLast, isNameable, 2);
    ItemKeyOffered(isFirst, isLast, isNameable, 3);
    ItemKeyOffered(isFirst, isLast, isNameable, 4);
    ItemKeyOffered(isFirst, isLast, isNameable, 5);
    ItemKeyOffered(isFirst, isLast, isNameable, 6);
  }

  /** The menu keys are lower case. */
  lemma KeysLowerCase()
    ensures Lower(KeyName) == KeyName && Lower(KeyFirst) == KeyFirst && Lower(KeyLast) == KeyLast
    ensures Lower(KeyUp) == KeyUp && Lower(KeyDown) == KeyDown && Lower(KeyRemove) == KeyRemove
    ensures Lower(KeyBack) == KeyBack && Lower(KeySave) == KeySave && Lower(KeyQuit) == KeyQuit
    ensures Lower(KeyYes) == KeyYes && Lower(KeyNo) == KeyNo && Lower(KeyChange) == KeyChange
  {
  }

  lemma ItemMenuLowerCase(isFirst: bool, isLast: bool, isNameable: bool)
    ensures AllLowerCase(Keys(ItemMenu(isFirst, isLast, isNameable)))
  {
    var es := ItemEntries(isFirst, isLast, isNameable);
    assert Keys(es) == [KeyName, KeyFirst, KeyLast, KeyUp, KeyDown, KeyRemove, KeyBack];
    KeysLowerCase();
    forall k | k in Keys(ItemMenu(isFirst, isLast, isNameable))
      ensures Lower(k) == k
    {
      OfferedKeysSub(es, k);
    }
  }

  /** An accepted item-menu line that spells "first" or "up" exactly is only
      possible away from the first position, and one that spells "last" or
      "down" only away from the last position. */
  lemma ItemMenuGuards(isFirst: bool, isLast: bool, isNameable: bool, line: string)
    requires Accepts(Keys(ItemMenu(isFirst, isLast, isNameable)), line, true)
    ensures (line == KeyFirst || line == KeyUp) ==> !isFirst
    ensures (line == KeyLast || line == KeyDown) ==> !isLast
  {
    ItemMenuAccepts(isFirst, isLast, isNameable, line);
    ItemMenuOffers(isFirst, isLast, isNameable);
    KeysLowerCase();
  }

  /** Every key the item menu offers is lower case, so a line it accepts is,
      once lower-cased, one of its keys. */
  lemma ItemMenuAccepts(isFirst: bool, isLast: bool, isNameable: bool, line: string)
    requires Accepts(Keys(ItemMenu(isFirst, isLast, isNameable)), line, true)
    ensures Lower(line) in Keys(ItemMenu(isFirst, isLast, isNameable))
  {
    var keys := Keys(ItemMenu(isFirst, isLast, isNameable));
    ItemMenuLowerCase(isFirst, isLast, isNameable);
    AcceptedLowerIsKey(keys, line, true);
  }

  /** The keys of the items of a list of `n` items: "0", "1", ... */
  function ItemNumbers(n: nat): seq<string>
  {
    seq(n, i requires 0 <= i < n => DecimalString(i))
  }

  lemma MainEntryKeys(items: seq<BagItem>, dirty: bool, outputPath: string)
    ensures Keys(MainEntries(items, dirty, outputPath)) == ItemNumbers(|items|) + [KeySave, KeyQuit]
  {
  }

  /** No item number is spelled "save". */
  lemma SaveIsNoNumber(i: nat)
    ensures DecimalString(i) != KeySave
  {
    DecimalStringDigits(i);
    assert IsDigit(DecimalString(i)[0]);
  }

  lemma MainMenuSave(items: seq<BagItem>, dirty: bool, outputPath: string)
    ensures KeySave in Keys(MainMenu(items, dirty, outputPath)) <==> dirty
  {
    var es := MainEntries(items, dirty, outputPath);
    var n := |items|;
    OfferedKeys(es, KeySave);
    if dirty {
      assert es[n] in es;
    } else {
      forall c | c in es && c.key == KeySave
        ensures c.description == ""
      {
        var j :| 0 <= j < |es| && es[j] == c;
        if j < n {
          SaveIsNoNumber(j);
        }
      }
    }
  }

  lemma MainMenuQuit(items: seq<BagItem>, dirty: bool, outputPath: string)
    ensures KeyQuit in Keys(MainMenu(items, dirty, outputPath))
  {
    var es := MainEntries(items, dirty, outputPath);
    assert es[|items| + 1] in es;
    OfferedKeys(es, KeyQuit);
  }

  lemma MainMenuNumber(items: seq<BagItem>, dirty: bool, outputPath: string, i: nat)
    requires i < |items|
    ensures DecimalString(i) in Keys(MainMenu(items, dirty, outputPath))
  {
    var es := MainEntries(items, dirty, outputPath);
    assert es[i] in es;
    OfferedKeys(es, DecimalString(i));
  }

  lemma MainMenuOnly(items: seq<BagItem>, dirty: bool, outputPath: string, k: string)
    requires k in Keys(MainMenu(items, dirty, outputPath))
    ensures k == KeySave || k == KeyQuit || k in ItemNumbers(|items|)
  {
    var es := MainEntries(items, dirty, outputPath);
    MainEntryKeys(items, dirty, outputPath);
    OfferedKeysSub(es, k);
  }

  /** The keys of the main menu: "save" exactly when there are unsaved
      changes, "quit" always, the number of every item, and nothing else. */
  lemma MainMenuOffers(items: seq<BagItem>, dirty: bool, outputPath: string)
    ensures var keys := Keys(MainMenu(items, dirty, outputPath));
      && (KeySave in keys <==> dirty)
      && KeyQuit in keys
      && (forall i :: 0 <= i < |items| ==> DecimalString(i) in keys)
      && (forall k :: k in keys ==> k == KeySave || k == KeyQuit || k in ItemNumbers(|items|))
  {
    MainMenuSave(items, dirty, outputPath);
    MainMenuQuit(items, dirty, outputPath);
    forall i | 0 <= i < |items|
      ensures DecimalString(i) in Keys(MainMenu(items, dirty, outputPath))
    {
      MainMenuNumber(items, dirty, outputPath, i);
    }
    forall k | k in Keys(MainMenu(items, dirty, outputPath))
      ensures k == KeySave || k == KeyQuit || k in ItemNumbers(|items|)
    {
      MainMenuOnly(items, dirty, outputPath, k);
    }
  }

  /** A line the main menu accepts is either the number of an item, and then
      `int` of it is that item's position, or it is not a number at all, and
      then it is "save" or "quit" up to letter case. */
  lemma MainMenuAccepts(items: seq<BagItem>, dirty: bool, outputPath: string, line: string)
    requires Accepts(Keys(MainMenu(items, dirty, outputPath)), line, true)
    ensures ParseDecimal(line).Some? ==>
      ParseDecimal(line).value < |items| && line == DecimalString(ParseDecimal(line).value)
    ensures ParseDecimal(line).None? ==> Lower(line) == KeySave || Lower(line) == KeyQuit
  {
    var keys := Keys(MainMenu(items, dirty, outputPath));
    KeysLowerCase();
    forall k | k in keys
      ensures Lower(k) == k
    {
      MainMenuOnly(items, dirty, outputPath, k);
      if k in ItemNumbers(|items|) {
        var j :| 0 <= j < |items| && ItemNumbers(|items|)[j] == k;
        DecimalStringDigits(j);
        LowerOfDigits(k);
      }
    }
    AcceptedLowerIsKey(keys, line, true);
    var k := Lower(line);
    MainMenuOnly(items, dirty, outputPath, k);
    if k == KeySave || k == KeyQuit {
      assert k[0] == LowerChar(line[0]) && !IsDigit(k[0]);
    } else {
      var j :| 0 <= j < |items| && ItemNumbers(|items|)[j] == k;
      DecimalStringDigits(j);
      LowerOfDigits(line);
      DecimalRoundTrip(j);
    }
  }
}
