/** The menu flows of a bagman session as functions of the session state.

    The state is the list being edited, the unsaved-changes flag, the bag
    files on disk (by path; a path exists when it is a key) and the lines the
    user is going to type, read front first.  Each function below says what
    one loop of the session does to that state; the methods of
    Session.BagMan are proved to do exactly that, and the lemmas here state
    what the flows promise. */
module Flows {
  import opened Areas
  import opened Menus

  datatype State = State(
    items: seq<BagItem>,
    dirty: bool,
    disk: map<string, seq<BagItem>>,
    inputs: seq<string>)

  datatype SaveOutcome =
    | Saved(path: string)   // the list was written to `path`
    | Declined              // "no" at the overwrite prompt: nothing written
    | SaveInputEnded        // the typed lines ran out at a prompt
    | Spin                  // the path does not exist: the save loop never ends

  /** How a session that chose "quit" ended. */
  datatype QuitHow =
    | Clean                     // no unsaved changes
    | DiscardedChanges          // "quit" at the unsaved-changes prompt
    | AfterSave(save: SaveOutcome)  // "save" at the unsaved-changes prompt

  datatype QuitResult = Leave(how: QuitHow) | BackToMenu | QuitInputEnded

  datatype ItemResult = Back | RemovedItem | ItemInputEnded

  /** How a session ends.  When the typed lines run out, Python's `input()`
      raises EOFError: that is InputEnded. */
  datatype Exit =
    | Finished(how: QuitHow)
    | InputEnded
    | Hang                   // a save to a path that does not exist
    | EmptyList              // the main menu of an empty list raises IndexError
    | NotANumber(line: string)  // `int(line)` raises ValueError

  /** `os.path.abspath` of a typed path: an absolute path is kept, an empty
      one is the working directory, any other is taken relative to it.  The
      result is not normalised. */
  function AbsPath(cwd: string, p: string): string
  {
    if p == "" then cwd
    else if p[0] == '/' then p
    else cwd + "/" + p
  }

  // ---------------------------------------------------------------------------
  // Saving

  /** The loop of `save_bag` up to the write: the outcome and the lines left.
      An existing path is confirmed with "yes", abandoned with "no", or
      replaced with "change" and a typed path; any other accepted line (a
      case variant such as "YES") asks again.  A path that does not exist
      is never left. */
  function SaveRun(disk: map<string, seq<BagItem>>, inputs: seq<string>, path: string, cwd: string)
    : (r: (SaveOutcome, seq<string>))
    ensures |r.1| <= |inputs|
    ensures path !in disk ==> r == (Spin, inputs)
    ensures r.0.Saved? ==> r.0.path in disk
    ensures r.0.Saved? ==> r.0.path == path || exists l :: l in inputs && r.0.path == AbsPath(cwd, l)
    ensures r.0 == SaveInputEnded ==> r.1 == []
    decreases |inputs|
  {
    if path !in disk then (Spin, inputs)
    else
      var (c, rest) := NextChoice(inputs, Keys(OverwriteMenu), true);
      if c.None? then (SaveInputEnded, rest)
      else if c.value == KeyYes then (Saved(path), rest)
      else if c.value == KeyNo then (Declined, rest)
      else if c.value == KeyChange then
        if rest == [] then (SaveInputEnded, [])
        else
          assert inputs[|inputs| - |rest|..] == rest;
          assert rest[0] == inputs[|inputs| - |rest|];
          SaveRun(disk, rest[1..], AbsPath(cwd, rest[0]), cwd)
      else SaveRun(disk, rest, path, cwd)
  }

  /** `save_bag`: the loop, then the write and the cleared flag. */
  function Save(s: State, path: string, cwd: string): (r: (SaveOutcome, State))
    ensures r.1.items == s.items && |r.1.inputs| <= |s.inputs|
  {
    var (o, rest) := SaveRun(s.disk, s.inputs, path, cwd);
    if o.Saved? then (o, s.(disk := s.disk[o.path := s.items], dirty := false, inputs := rest))
    else (o, s.(inputs := rest))
  }

  // ---------------------------------------------------------------------------
  // Quitting

  /** "quit" at the main menu: leave at once without unsaved changes;
      otherwise ask whether to save first ("save") or to quit without saving
      ("quit"); any other accepted line goes back to the main menu. */
  function QuitRun(s: State, outputPath: string, cwd: string): (r: (QuitResult, State))
    ensures r.1.items == s.items && |r.1.inputs| <= |s.inputs|
  {
    if !s.dirty then (Leave(Clean), s)
    else
      var (c, rest) := NextChoice(s.inputs, Keys(QuitMenu(outputPath)), true);
      if c.None? then (QuitInputEnded, s.(inputs := rest))
      else if c.value == KeySave then
        var (o, t) := Save(s.(inputs := rest), outputPath, cwd);
        (Leave(AfterSave(o)), t)
      else if c.value == KeyQuit then (Leave(DiscardedChanges), s.(inputs := rest))
      else (BackToMenu, s.(inputs := rest))
  }

  // ---------------------------------------------------------------------------
  // The item menu

  /** What the item menu does with an accepted line for item `i`: the result
      (None: show the item menu again), the new state and the new position of
      the selected item.  "name" reads the new name; an empty one changes
      nothing. */
  function ItemAction(s: State, i: nat, line: string): (r: (Option<ItemResult>, State, nat))
    requires i < |s.items|
    requires line == KeyFirst || line == KeyUp ==> 0 < i
    requires line == KeyLast || line == KeyDown ==> i < |s.items| - 1
    ensures r.1.disk == s.disk && |r.1.inputs| <= |s.inputs|
    ensures r.0 != Some(RemovedItem) ==> |r.1.items| == |s.items| && r.2 < |r.1.items|
  {
    if line == KeyBack then (Some(Back), s, i)
    else if line == KeyName then
      if s.inputs == [] then (Some(ItemInputEnded), s, i)
      else
        var newName := s.inputs[0];
        var t := s.(inputs := s.inputs[1..]);
        if newName != "" then (None, t.(items := Renamed(s.items, i, newName), dirty := true), i)
        else (None, t, i)
    else if line == KeyRemove then (Some(RemovedItem), s.(items := Pop(s.items, i), dirty := true), i)
    else if line == KeyFirst then (None, s.(items := MovedToFirst(s.items, i), dirty := true), 0)
    else if line == KeyLast then (None, s.(items := MovedToLast(s.items, i), dirty := true), |s.items| - 1)
    else if line == KeyUp then (None, s.(items := MovedUp(s.items, i), dirty := true), i - 1)
    else if line == KeyDown then (None, s.(items := MovedDown(s.items, i), dirty := true), i + 1)
    else (None, s, i)
  }

  /** The item menu loop for item `i`: show the menu the item's position and
      topic call for, act on the accepted line, and repeat until "back",
      "remove" or the end of the typed lines. */
  function ItemRun(s: State, i: nat): (r: (ItemResult, State))
    requires i < |s.items|
    ensures r.1.disk == s.disk && |r.1.inputs| <= |s.inputs|
    decreases |s.inputs|
  {
    var isFirst := i == 0;
    var isLast := i == |s.items| - 1;
    var (c, rest) := NextChoice(s.inputs, Keys(ItemMenu(isFirst, isLast, IsNameable(s.items[i].topic))), true);
    if c.None? then (ItemInputEnded, s.(inputs := rest))
    else
      ItemMenuGuards(isFirst, isLast, IsNameable(s.items[i].topic), c.value);
      var (res, t, j) := ItemAction(s.(inputs := rest), i, c.value);
      if res.Some? then (res.value, t) else ItemRun(t, j)
  }

  // ---------------------------------------------------------------------------
  // The main menu

  /** How a save started from the main menu ends the session, if it does. */
  function SaveExit(o: SaveOutcome): Option<Exit>
  {
    match o
    case Spin => Some(Hang)
    case SaveInputEnded => Some(InputEnded)
    case _ => None
  }

  /** How a "quit" at the main menu ends the session, if it does. */
  function QuitExit(q: QuitResult): Option<Exit>
  {
    match q
    case BackToMenu => None
    case QuitInputEnded => Some(InputEnded)
    case Leave(how) =>
      if how == AfterSave(Spin) then Some(Hang)
      else if how == AfterSave(SaveInputEnded) then Some(InputEnded)
      else Some(Finished(how))
  }

  /** What the main menu does with an accepted line: "save" and "quit" as
      typed exactly, otherwise `int(line)` selects an item.  None means the
      main menu is shown again. */
  function ChoiceRun(s: State, line: string, outputPath: string, cwd: string): (r: (Option<Exit>, State))
    requires ParseDecimal(line).Some? ==> ParseDecimal(line).value < |s.items|
    ensures |r.1.inputs| <= |s.inputs|
  {
    if line == KeySave then
      var (o, t) := Save(s, outputPath, cwd);
      (SaveExit(o), t)
    else if line == KeyQuit then
      var (q, t) := QuitRun(s, outputPath, cwd);
      (QuitExit(q), t)
    else
      match ParseDecimal(line)
      case None => (Some(NotANumber(line)), s)
      case Some(n) =>
        var (res, t) := ItemRun(s, n);
        (if res == ItemInputEnded then Some(InputEnded) else None, t)
  }

  /** One pass of the main menu loop. */
  function RoundRun(s: State, outputPath: string, cwd: string): (r: (Option<Exit>, State))
    ensures r.0.None? ==> |r.1.inputs| < |s.inputs|
  {
    if s.items == [] then (Some(EmptyList), s)
    else
      var (c, rest) := NextChoice(s.inputs, Keys(MainMenu(s.items, s.dirty, outputPath)), true);
      if c.None? then (Some(InputEnded), s.(inputs := rest))
      else
        MainMenuAccepts(s.items, s.dirty, outputPath, c.value);
        ChoiceRun(s.(inputs := rest), c.value, outputPath, cwd)
  }

  /** `interactive_menu`: main menu passes until one ends the session. */
  function SessionRun(s: State, outputPath: string, cwd: string): (r: (Exit, State))
    decreases |s.inputs|
  {
    var (e, t) := RoundRun(s, outputPath, cwd);
    if e.Some? then (e.value, t) else SessionRun(t, outputPath, cwd)
  }

  // ---------------------------------------------------------------------------
  // Properties of saving and quitting

  /** The first answer at the overwrite prompt decides: "yes" writes the
      given path, "no" writes nothing. */
  lemma SaveFirstAnswer(disk: map<string, seq<BagItem>>, inputs: seq<string>, path: string, cwd: string)
    requires path in disk
    ensures NextChoice(inputs, Keys(OverwriteMenu), true).0 == Some(KeyYes) ==>
              SaveRun(disk, inputs, path, cwd) == (Saved(path), NextChoice(inputs, Keys(OverwriteMenu), true).1)
    ensures NextChoice(inputs, Keys(OverwriteMenu), true).0 == Some(KeyNo) ==>
              SaveRun(disk, inputs, path, cwd) == (Declined, NextChoice(inputs, Keys(OverwriteMenu), true).1)
  {
  }

  /** "change", a typed path that exists, then "yes": the list is written to
      that path, taken relative to the working directory. */
  lemma SaveChangeThenYes(disk: map<string, seq<BagItem>>, path: string, cwd: string, l: string, rest: seq<string>)
    requires path in disk && AbsPath(cwd, l) in disk
    ensures SaveRun(disk, [KeyChange, l, KeyYes] + rest, path, cwd) == (Saved(AbsPath(cwd, l)), rest)
  {
    var keys := Keys(OverwriteMenu);
    assert keys == [KeyYes, KeyNo, KeyChange];
    var inputs := [KeyChange, l, KeyYes] + rest;
    assert inputs[0] == KeyChange && inputs[1..] == [l, KeyYes] + rest;
    assert NextChoice(inputs, keys, true) == (Some(KeyChange), [l, KeyYes] + rest);
    assert ([l, KeyYes] + rest)[1..] == [KeyYes] + rest;
    assert ([KeyYes] + rest)[1..] == rest;
    assert NextChoice([KeyYes] + rest, keys, true) == (Some(KeyYes), rest);
  }

  /** An upper-case "YES" is accepted by the overwrite prompt but matches no
      answer, so the prompt is shown again. */
  lemma SaveCaseVariantAsksAgain(disk: map<string, seq<BagItem>>, path: string, cwd: string, rest: seq<string>)
    requires path in disk
    ensures SaveRun(disk, ["YES"] + rest, path, cwd) == SaveRun(disk, rest, path, cwd)
  {
    var keys := Keys(OverwriteMenu);
    assert keys == [KeyYes, KeyNo, KeyChange];
    assert Lower("YES") == KeyYes;
    assert LowerAll(keys)[0] == Lower(KeyYes);
    KeysLowerCase();
    assert Accepts(keys, "YES", true);
    assert (["YES"] + rest)[1..] == rest;
  }

  /** A save that writes stores the list at its path and clears the flag; any
      other outcome leaves the files and the flag as they were. */
  lemma SavePersists(s: State, path: string, cwd: string)
    ensures var (o, t) := Save(s, path, cwd);
      && (o.Saved? ==> o.path in s.disk && t.disk == s.disk[o.path := s.items] && !t.dirty && t.items in t.disk.Values)
      && (!o.Saved? ==> t.disk == s.disk && t.dirty == s.dirty)
  {
    var (o, t) := Save(s, path, cwd);
    if o.Saved? {
      assert t.disk[o.path] == t.items;
    }
  }

  /** Quitting: immediate and changing nothing without unsaved changes;
      otherwise "quit" discards the changes, "save" saves to the output path
      first (and spins when it does not exist), any other accepted line goes
      back to the main menu. */
  lemma QuitOutcomes(s: State, outputPath: string, cwd: string)
    ensures var (q, t) := QuitRun(s, outputPath, cwd);
      var (c, rest) := NextChoice(s.inputs, Keys(QuitMenu(outputPath)), true);
      && (!s.dirty ==> q == Leave(Clean) && t == s)
      && (s.dirty ==> q != Leave(Clean))
      && (s.dirty && c == Some(KeyQuit) ==> q == Leave(DiscardedChanges) && t == s.(inputs := rest))
      && (s.dirty && c == Some(KeySave) && outputPath !in s.disk ==>
            q == Leave(AfterSave(Spin)) && t == s.(inputs := rest))
      && (s.dirty && c == Some(KeySave) && outputPath in s.disk
          && NextChoice(rest, Keys(OverwriteMenu), true).0 == Some(KeyYes) ==>
            q == Leave(AfterSave(Saved(outputPath))) && t.disk == s.disk[outputPath := s.items] && !t.dirty)
      && (s.dirty && c.Some? && c.value != KeySave && c.value != KeyQuit ==>
            q == BackToMenu && t == s.(inputs := rest))
  {
    if s.dirty {
      var (c, rest) := NextChoice(s.inputs, Keys(QuitMenu(outputPath)), true);
      if c == Some(KeySave) && outputPath in s.disk {
        SaveFirstAnswer(s.disk, rest, outputPath, cwd);
      }
    }
  }

  /** A quit is clean exactly when there are no unsaved changes, and a
      discarding quit keeps the flag set. */
  lemma QuitFlag(s: State, outputPath: string, cwd: string)
    ensures var (q, t) := QuitRun(s, outputPath, cwd);
      && (q == Leave(Clean) <==> !s.dirty)
      && (q == Leave(Clean) ==> t == s)
      && (q == Leave(DiscardedChanges) ==> t.dirty)
  {
  }

  /** Only a save that writes changes the files or clears the flag when
      quitting. */
  lemma QuitPersists(s: State, outputPath: string, cwd: string)
    ensures var (q, t) := QuitRun(s, outputPath, cwd);
      && (q.Leave? && q.how.AfterSave? && q.how.save.Saved? ==>
            q.how.save.path in s.disk && t.disk == s.disk[q.how.save.path := s.items]
            && !t.dirty && t.items in t.disk.Values)
      && (!(q.Leave? && q.how.AfterSave? && q.how.save.Saved?) ==> t.disk == s.disk && t.dirty == s.dirty)
  {
    if s.dirty {
      var (c, rest) := NextChoice(s.inputs, Keys(QuitMenu(outputPath)), true);
      if c == Some(KeySave) {
        SavePersists(s.(inputs := rest), outputPath, cwd);
      }
    }
  }

  // ---------------------------------------------------------------------------
  // Properties of the item menu

  /** One item-menu action keeps time order, never clears the flag, changes
      the list only together with setting the flag, and removes one item
      exactly when it reports a removal. */
  lemma ItemActionPreserves(s: State, i: nat, line: string)
    requires i < |s.items|
    requires line == KeyFirst || line == KeyUp ==> 0 < i
    requires line == KeyLast || line == KeyDown ==> i < |s.items| - 1
    ensures var (r, t, j) := ItemAction(s, i, line);
      && (Ordered(s.items) ==> Ordered(t.items))
      && (s.dirty ==> t.dirty)
      && (!t.dirty ==> t.items == s.items)
      && (r == Some(RemovedItem) ==> |t.items| == |s.items| - 1)
  {
    if line == KeyName && s.inputs != [] {
      RenamePreserves(s.items, i, s.inputs[0]);
    } else if line == KeyRemove {
      RemovePreserves(s.items, i);
    } else if line == KeyFirst {
      MoveToFirstPreserves(s.items, i);
    } else if line == KeyLast {
      MoveToLastPreserves(s.items, i);
    } else if line == KeyUp {
      MoveUpPreserves(s.items, i);
    } else if line == KeyDown {
      MoveDownPreserves(s.items, i);
    }
  }

  /** The item menu loop keeps time order, never clears the flag, leaves the
      list as it was while the flag stays clear, never touches the files,
      and shortens the list by one exactly when the item was removed. */
  lemma {:induction false} ItemRunPreserves(s: State, i: nat)
    requires i < |s.items|
    ensures var (r, t) := ItemRun(s, i);
      && (Ordered(s.items) ==> Ordered(t.items))
      && (s.dirty ==> t.dirty)
      && (!t.dirty ==> t.items == s.items)
      && t.disk == s.disk
      && (r == RemovedItem ==> |t.items| == |s.items| - 1)
      && (r != RemovedItem ==> |t.items| == |s.items|)
    decreases |s.inputs|
  {
    var isFirst := i == 0;
    var isLast := i == |s.items| - 1;
    var nameable := IsNameable(s.items[i].topic);
    var (c, rest) := NextChoice(s.inputs, Keys(ItemMenu(isFirst, isLast, nameable)), true);
    if c.Some? {
      ItemMenuGuards(isFirst, isLast, nameable, c.value);
      var (res, t, j) := ItemAction(s.(inputs := rest), i, c.value);
      ItemActionPreserves(s.(inputs := rest), i, c.value);
      if res.None? {
        ItemRunPreserves(t, j);
      }
    }
  }

  // ---------------------------------------------------------------------------
  // Properties of the session

  /** From `s` to `t`: when the flag is clear at `t`, either nothing was
      changed or written since the clean state `s`, or the list at `t` is
      stored in some file. */
  predicate CleanIsSaved(s: State, t: State)
  {
    !t.dirty ==> (!s.dirty && t.items == s.items && t.disk == s.disk) || t.items in t.disk.Values
  }

  lemma CleanIsSavedTrans(s: State, t: State, u: State)
    requires CleanIsSaved(s, t) && CleanIsSaved(t, u)
    ensures CleanIsSaved(s, u)
  {
  }

  lemma ChoiceRunPreserves(s: State, line: string, outputPath: string, cwd: string)
    requires ParseDecimal(line).Some? ==> ParseDecimal(line).value < |s.items|
    ensures var (e, t) := ChoiceRun(s, line, outputPath, cwd);
      (Ordered(s.items) ==> Ordered(t.items)) && CleanIsSaved(s, t)
  {
    if line == KeySave {
      SavePersists(s, outputPath, cwd);
    } else if line == KeyQuit {
      QuitPersists(s, outputPath, cwd);
    } else if ParseDecimal(line).Some? {
      ItemRunPreserves(s, ParseDecimal(line).value);
    }
  }

  /** How a main-menu line ends the session: a clean quit only without
      unsaved changes, a discarding quit only with them, a saving quit with
      the list stored and the flag clear, and a failed `int()` only on a case
      variant of "save" or "quit". */
  lemma ChoiceRunOutcomes(s: State, line: string, outputPath: string, cwd: string)
    requires ParseDecimal(line).Some? ==> ParseDecimal(line).value < |s.items|
    ensures var (e, t) := ChoiceRun(s, line, outputPath, cwd);
      && (e == Some(Finished(Clean)) ==> !t.dirty)
      && (e == Some(Finished(DiscardedChanges)) ==> t.dirty)
      && (e.Some? && e.value.Finished? && e.value.how.AfterSave? ==>
            e.value.how.save.Declined?
            || (e.value.how.save.Saved? && !t.dirty && e.value.how.save.path in t.disk
                && t.disk[e.value.how.save.path] == t.items))
      && (e.Some? && e.value.NotANumber? ==> e.value.line == line && ParseDecimal(line).None?)
      && (e != Some(EmptyList))
  {
    if line == KeySave {
      SavePersists(s, outputPath, cwd);
    } else if line == KeyQuit {
      QuitFlag(s, outputPath, cwd);
      QuitPersists(s, outputPath, cwd);
      var (q, t) := QuitRun(s, outputPath, cwd);
      assert ChoiceRun(s, line, outputPath, cwd) == (QuitExit(q), t);
    } else if ParseDecimal(line).None? {
      assert ChoiceRun(s, line, outputPath, cwd) == (Some(NotANumber(line)), s);
    } else {
      var (res, t) := ItemRun(s, ParseDecimal(line).value);
      assert ChoiceRun(s, line, outputPath, cwd).0 == (if res == ItemInputEnded then Some(InputEnded) else None);
    }
  }

  lemma RoundRunPreserves(s: State, outputPath: string, cwd: string)
    ensures var (e, t) := RoundRun(s, outputPath, cwd);
      (Ordered(s.items) ==> Ordered(t.items)) && CleanIsSaved(s, t)
  {
    if s.items != [] {
      var (c, rest) := NextChoice(s.inputs, Keys(MainMenu(s.items, s.dirty, outputPath)), true);
      if c.Some? {
        MainMenuAccepts(s.items, s.dirty, outputPath, c.value);
        ChoiceRunPreserves(s.(inputs := rest), c.value, outputPath, cwd);
      }
    }
  }

  lemma RoundRunOutcomes(s: State, outputPath: string, cwd: string)
    ensures var (e, t) := RoundRun(s, outputPath, cwd);
      && (e == Some(Finished(Clean)) ==> !t.dirty)
      && (e == Some(Finished(DiscardedChanges)) ==> t.dirty)
      && (e.Some? && e.value.Finished? && e.value.how.AfterSave? ==>
            e.value.how.save.Declined?
            || (e.value.how.save.Saved? && !t.dirty && e.value.how.save.path in t.disk
                && t.disk[e.value.how.save.path] == t.items))
      && (e.Some? && e.value.NotANumber? ==> Lower(e.value.line) == KeySave || Lower(e.value.line) == KeyQuit)
      && (e == Some(EmptyList) ==> t.items == [])
  {
    if s.items != [] {
      var (c, rest) := NextChoice(s.inputs, Keys(MainMenu(s.items, s.dirty, outputPath)), true);
      if c.Some? {
        MainMenuAccepts(s.items, s.dirty, outputPath, c.value);
        ChoiceRunOutcomes(s.(inputs := rest), c.value, outputPath, cwd);
      }
    }
  }

  /** The whole session keeps the list in time order if it was, and whenever
      the flag is clear at the end the list is the clean one the session
      started with (nothing written) or one stored in a file. */
  lemma {:induction false} SessionRunPreserves(s: State, outputPath: string, cwd: string)
    ensures var (e, t) := SessionRun(s, outputPath, cwd);
      (Ordered(s.items) ==> Ordered(t.items)) && CleanIsSaved(s, t)
    decreases |s.inputs|
  {
    var (e, t) := RoundRun(s, outputPath, cwd);
    RoundRunPreserves(s, outputPath, cwd);
    if e.None? {
      SessionRunPreserves(t, outputPath, cwd);
      var (e2, u) := SessionRun(t, outputPath, cwd);
      CleanIsSavedTrans(s, t, u);
    }
  }

  /** How a session ends: a clean quit leaves no unsaved changes, a
      discarding quit had some, a saving quit stored the final list and
      cleared the flag, an empty list ends at the main menu, and a failed
      `int()` is always a case variant of "save" or "quit". */
  lemma {:induction false} SessionRunOutcomes(s: State, outputPath: string, cwd: string)
    ensures var (e, t) := SessionRun(s, outputPath, cwd);
      && (e == Finished(Clean) ==> !t.dirty)
      && (e == Finished(DiscardedChanges) ==> t.dirty)
      && (e.Finished? && e.how.AfterSave? ==>
            e.how.save.Declined?
            || (e.how.save.Saved? && !t.dirty && e.how.save.path in t.disk && t.disk[e.how.save.path] == t.items))
      && (e.NotANumber? ==> Lower(e.line) == KeySave || Lower(e.line) == KeyQuit)
      && (e == EmptyList ==> t.items == [])
    decreases |s.inputs|
  {
    var (e, t) := RoundRun(s, outputPath, cwd);
    RoundRunOutcomes(s, outputPath, cwd);
    if e.None? {
      SessionRunOutcomes(t, outputPath, cwd);
    }
  }

  /** Without unsaved changes, "quit" at the first main menu ends the session
      at once: nothing is changed or written. */
  lemma SessionQuitWhenClean(s: State, outputPath: string, cwd: string)
    requires s.items != [] && !s.dirty
    requires NextChoice(s.inputs, Keys(MainMenu(s.items, false, outputPath)), true).0 == Some(KeyQuit)
    ensures SessionRun(s, outputPath, cwd)
            == (Finished(Clean), s.(inputs := NextChoice(s.inputs, Keys(MainMenu(s.items, false, outputPath)), true).1))
  {
    var s1 := s.(inputs := NextChoice(s.inputs, Keys(MainMenu(s.items, false, outputPath)), true).1);
    assert QuitRun(s1, outputPath, cwd) == (Leave(Clean), s1);
    assert ParseDecimal(KeyQuit).None? by {
      assert !IsDigit(KeyQuit[0]);
    }
    assert ChoiceRun(s1, KeyQuit, outputPath, cwd) == (Some(Finished(Clean)), s1);
    assert RoundRun(s, outputPath, cwd) == (Some(Finished(Clean)), s1);
  }

  /** A line that is a key is taken at once. */
  lemma NextChoiceFront(inputs: seq<string>, keys: seq<string>, line: string, rest: seq<string>)
    requires inputs == [line] + rest && line in keys
    ensures NextChoice(inputs, keys, true) == (Some(line), rest)
  {
    assert inputs[1..] == rest;
  }

  lemma NextChoicePair(inputs: seq<string>, keys: seq<string>, l1: string, l2: string, rest: seq<string>)
    requires inputs == [l1, l2] + rest && l1 in keys
    ensures NextChoice(inputs, keys, true) == (Some(l1), [l2] + rest)
  {
    assert inputs[1..] == [l2] + rest;
  }

  /** "first" is offered away from the first position, "back" always. */
  lemma ItemMenuHasFirstAndBack(isFirst: bool, isLast: bool, nameable: bool)
    ensures !isFirst ==> KeyFirst in Keys(ItemMenu(isFirst, isLast, nameable))
    ensures KeyBack in Keys(ItemMenu(isFirst, isLast, nameable))
  {
    ItemMenuOffers(isFirst, isLast, nameable);
  }

  /** "first" accepted at the last of two items: the item menu goes on at
      the front position of the moved list. */
  lemma ItemRunFirstOfTwo(s: State, rest: seq<string>)
    requires |s.items| == 2
    requires NextChoice(s.inputs, Keys(ItemMenu(false, true, IsNameable(s.items[1].topic))), true) == (Some(KeyFirst), rest)
    ensures ItemRun(s, 1) == ItemRun(s.(items := MovedToFirst(s.items, 1), dirty := true, inputs := rest), 0)
  {
    var t := s.(items := MovedToFirst(s.items, 1), dirty := true, inputs := rest);
    assert ItemAction(s.(inputs := rest), 1, KeyFirst) == (None, t, 0);
  }

  /** "back" accepted at the item menu returns to the main menu unchanged. */
  lemma ItemRunBack(s: State, i: nat, rest: seq<string>)
    requires i < |s.items|
    requires NextChoice(s.inputs, Keys(ItemMenu(i == 0, i == |s.items| - 1, IsNameable(s.items[i].topic))), true)
             == (Some(KeyBack), rest)
    ensures ItemRun(s, i) == (Back, s.(inputs := rest))
  {
  }

  /** On the second of two items, "first" then "back" moves it to the front
      and returns to the main menu. */
  lemma ItemFirstThenBack(s: State, rest: seq<string>)
    requires |s.items| == 2 && s.inputs == [KeyFirst, KeyBack] + rest
    ensures ItemRun(s, 1) == (Back, s.(items := MovedToFirst(s.items, 1), dirty := true, inputs := rest))
  {
    var n := IsNameable(s.items[1].topic);
    ItemMenuHasFirstAndBack(false, true, n);
    NextChoicePair(s.inputs, Keys(ItemMenu(false, true, n)), KeyFirst, KeyBack, rest);
    ItemRunFirstOfTwo(s, [KeyBack] + rest);
    var t := s.(items := MovedToFirst(s.items, 1), dirty := true, inputs := [KeyBack] + rest);
    var m := IsNameable(t.items[0].topic);
    ItemMenuHasFirstAndBack(true, false, m);
    NextChoiceFront(t.inputs, Keys(ItemMenu(true, false, m)), KeyBack, rest);
    ItemRunBack(t, 0, rest);
  }

  /** "1" at the main menu of a two-item list opens the item menu of the
      second item. */
  lemma RoundSelectSecond(s: State, outputPath: string, cwd: string, rest: seq<string>)
    requires |s.items| == 2 && s.inputs == ["1"] + rest
    ensures RoundRun(s, outputPath, cwd).1 == ItemRun(s.(inputs := rest), 1).1
    ensures ItemRun(s.(inputs := rest), 1).0 != ItemInputEnded ==> RoundRun(s, outputPath, cwd).0 == None
  {
    assert DecimalString(1) == "1";
    MainMenuNumber(s.items, s.dirty, outputPath, 1);
    NextChoiceFront(s.inputs, Keys(MainMenu(s.items, s.dirty, outputPath)), "1", rest);
    DecimalRoundTrip(1);
  }

  /** "yes" at the overwrite prompt for an existing path writes it. */
  lemma SaveYes(s: State, path: string, cwd: string, rest: seq<string>)
    requires path in s.disk && s.inputs == [KeyYes] + rest
    ensures Save(s, path, cwd) == (Saved(path), s.(disk := s.disk[path := s.items], dirty := false, inputs := rest))
  {
    var keys := Keys(OverwriteMenu);
    assert keys == [KeyYes, KeyNo, KeyChange];
    NextChoiceFront(s.inputs, keys, KeyYes, rest);
  }

  /** "save" accepted at the main menu runs the save to the output path. */
  lemma RoundRunSave(s: State, outputPath: string, cwd: string, rest: seq<string>)
    requires s.items != []
    requires NextChoice(s.inputs, Keys(MainMenu(s.items, s.dirty, outputPath)), true) == (Some(KeySave), rest)
    ensures RoundRun(s, outputPath, cwd)
            == (SaveExit(Save(s.(inputs := rest), outputPath, cwd).0), Save(s.(inputs := rest), outputPath, cwd).1)
  {
  }

  /** "save" then "yes" at the main menu of a changed list writes it over the
      existing output file and clears the flag. */
  lemma RoundSaveYes(s: State, outputPath: string, cwd: string, rest: seq<string>)
    requires s.items != [] && s.dirty && outputPath in s.disk && s.inputs == [KeySave, KeyYes] + rest
    ensures RoundRun(s, outputPath, cwd)
            == (None, s.(disk := s.disk[outputPath := s.items], dirty := false, inputs := rest))
  {
    MainMenuSave(s.items, true, outputPath);
    NextChoicePair(s.inputs, Keys(MainMenu(s.items, true, outputPath)), KeySave, KeyYes, rest);
    RoundRunSave(s, outputPath, cwd, [KeyYes] + rest);
    SaveYes(s.(inputs := [KeyYes] + rest), outputPath, cwd, rest);
  }

  /** A main menu pass that does not end the session hands over to the next. */
  lemma SessionRunContinues(s: State, t: State, outputPath: string, cwd: string)
    requires RoundRun(s, outputPath, cwd) == (None, t)
    ensures SessionRun(s, outputPath, cwd) == SessionRun(t, outputPath, cwd)
  {
  }

  /** Selecting the second of two items, moving it first and going back
      returns to the main menu with the moved list and unsaved changes. */
  lemma SessionSelectMoveBack(s: State, out: string, cwd: string, rest: seq<string>)
    requires |s.items| == 2 && s.inputs == ["1", KeyFirst, KeyBack] + rest
    ensures SessionRun(s, out, cwd)
            == SessionRun(s.(items := MovedToFirst(s.items, 1), dirty := true, inputs := rest), out, cwd)
  {
    var s1 := s.(inputs := [KeyFirst, KeyBack] + rest);
    assert s.inputs == ["1"] + s1.inputs;
    ItemFirstThenBack(s1, rest);
    RoundSelectSecond(s, out, cwd, s1.inputs);
    SessionRunContinues(s, s.(items := MovedToFirst(s.items, 1), dirty := true, inputs := rest), out, cwd);
  }

  /** "save", "yes" and "quit" on a changed list whose output file exists:
      the file is written and the session ends clean. */
  lemma SessionSaveYesQuit(s: State, out: string, cwd: string)
    requires s.items != [] && s.dirty && out in s.disk && s.inputs == [KeySave, KeyYes, KeyQuit]
    ensures SessionRun(s, out, cwd)
            == (Finished(Clean), s.(disk := s.disk[out := s.items], dirty := false, inputs := []))
  {
    var t := s.(disk := s.disk[out := s.items], dirty := false, inputs := [KeyQuit]);
    assert s.inputs == [KeySave, KeyYes] + [KeyQuit];
    RoundSaveYes(s, out, cwd, [KeyQuit]);
    SessionRunContinues(s, t, out, cwd);
    MainMenuQuit(s.items, false, out);
    assert t.inputs == [KeyQuit] + [];
    NextChoiceFront(t.inputs, Keys(MainMenu(s.items, false, out)), KeyQuit, []);
    SessionQuitWhenClean(t, out, cwd);
  }

  /** A whole session on two items: select item 1, move it to the first
      position, go back, save over the existing output file, quit. The file
      then holds the reordered list and the session ends clean. */
  lemma SessionMoveSaveQuit(s: State, out: string, cwd: string)
    requires |s.items| == 2 && out in s.disk
    requires s.inputs == ["1", KeyFirst, KeyBack, KeySave, KeyYes, KeyQuit]
    ensures SessionRun(s, out, cwd)
            == (Finished(Clean), State(MovedToFirst(s.items, 1), false, s.disk[out := MovedToFirst(s.items, 1)], []))
  {
    var rest := [KeySave, KeyYes, KeyQuit];
    assert s.inputs == ["1", KeyFirst, KeyBack] + rest;
    SessionSelectMoveBack(s, out, cwd, rest);
    SessionSaveYesQuit(s.(items := MovedToFirst(s.items, 1), dirty := true, inputs := rest), out, cwd);
  }
}
