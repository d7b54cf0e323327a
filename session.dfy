/** The interactive editing session of bagman.

    A BagMan object holds the list of messages being edited (changed in place
    by the item operations), the unsaved-changes flag, the bag files on disk
    (by path; a path exists when it is a key) and the lines the user is going
    to type, read front first.  Each loop of the session is proved to do what
    the function of the same flow in module Flows says. */
module Session {
  import opened Areas
  import opened Menus
  import opened Flows

  class BagMan {
    var items: seq<BagItem>
    var dirty: bool
    const outputPath: string
    const cwd: string
    var disk: map<string, seq<BagItem>>
    var inputs: seq<string>

    constructor (items: seq<BagItem>, outputPath: string, cwd: string,
                 disk: map<string, seq<BagItem>>, inputs: seq<string>)
      ensures this.items == items && this.outputPath == outputPath && this.cwd == cwd
      ensures this.disk == disk && this.inputs == inputs && !dirty
    {
      this.items := items;
      this.outputPath := outputPath;
      this.cwd := cwd;
      this.disk := disk;
      this.inputs := inputs;
      dirty := false;
    }

    /** The session state the flows of module Flows speak about. */
    function St(): State
      reads this
    {
      State(items, dirty, disk, inputs)
    }

    /** `input()`: the next typed line, or None when there is none left. */
    method ReadLine() returns (line: Option<string>)
      modifies this`inputs
      ensures old(inputs) == [] ==> line == None && inputs == []
      ensures old(inputs) != [] ==> line == Some(old(inputs)[0]) && inputs == old(inputs)[1..]
    {
      if inputs == [] {
        line := None;
      } else {
        line := Some(inputs[0]);
        inputs := inputs[1..];
      }
    }

    /** `_present_menu`: reads lines until one is accepted and returns it. */
    method PresentMenu(choices: seq<Choice>) returns (choice: Option<string>)
      modifies this`inputs
      ensures (choice, inputs) == NextChoice(old(inputs), Keys(choices), true)
    {
      while true
        invariant NextChoice(inputs, Keys(choices), true) == NextChoice(old(inputs), Keys(choices), true)
        decreases |inputs|
      {
        var line := ReadLine();
        if line.None? {
          return None;
        }
        if Accepts(Keys(choices), line.value, true) {
          return line;
        }
      }
    }

    // -------------------------------------------------------------------------
    // The item operations

    /** Set the name of item `idx`; an empty name changes nothing. */
    method Rename(idx: nat, newName: string)
      requires idx < |items|
      modifies this`items, this`dirty
      ensures newName == "" ==> items == old(items) && dirty == old(dirty)
      ensures newName != "" ==> items == Renamed(old(items), idx, newName) && dirty
    {
      if newName != "" {
        items := items[idx := items[idx].(name := Some(newName))];
        dirty := true;
      }
    }

    method Remove(idx: nat)
      requires idx < |items|
      modifies this`items, this`dirty
      ensures items == Pop(old(items), idx) && dirty
    {
      items := Pop(items, idx);
      dirty := true;
    }

    method MoveToFirst(idx: nat) returns (newIdx: nat)
      requires 0 < idx < |items|
      modifies this`items, this`dirty
      ensures items == MovedToFirst(old(items), idx) && dirty
      ensures newIdx == 0
    {
      var selected := items[idx];
      selected := selected.(stamp := selected.stamp.(secs := items[0].stamp.secs - 60));
      items := Pop(items, idx);
      items := Insert(items, 0, selected);
      newIdx := 0;
      dirty := true;
    }

    method MoveToLast(idx: nat) returns (newIdx: nat)
      requires idx < |items| - 1
      modifies this`items, this`dirty
      ensures items == MovedToLast(old(items), idx) && dirty
      ensures newIdx == |items| - 1
    {
      var selected := items[idx];
      selected := selected.(stamp := selected.stamp.(secs := items[|items| - 1].stamp.secs + 60));
      items := Pop(items, idx);
      items := items + [selected];
      newIdx := |items| - 1;
      dirty := true;
    }

    method MoveUp(idx: nat) returns (newIdx: nat)
      requires 0 < idx < |items|
      modifies this`items, this`dirty
      ensures items == MovedUp(old(items), idx) && dirty
      ensures newIdx == idx - 1
    {
      var selected := items[idx];
      var oldStamp := selected.stamp;
      selected := selected.(stamp := selected.stamp.(secs := items[idx - 1].stamp.secs));
      selected := selected.(stamp := selected.stamp.(nsecs := items[idx - 1].stamp.nsecs));
      items := items[idx - 1 := items[idx - 1].(stamp := items[idx - 1].stamp.(secs := oldStamp.secs))];
      items := items[idx - 1 := items[idx - 1].(stamp := items[idx - 1].stamp.(nsecs := oldStamp.nsecs))];
      items := Pop(items, idx);
      items := Insert(items, idx - 1, selected);
      newIdx := idx - 1;
      dirty := true;
    }

    method MoveDown(idx: nat) returns (newIdx: nat)
      requires idx < |items| - 1
      modifies this`items, this`dirty
      ensures items == MovedDown(old(items), idx) && dirty
      ensures newIdx == idx + 1
    {
      var selected := items[idx];
      var oldStamp := selected.stamp;
      selected := selected.(stamp := selected.stamp.(secs := items[idx + 1].stamp.secs));
      selected := selected.(stamp := selected.stamp.(nsecs := items[idx + 1].stamp.nsecs));
      items := items[idx + 1 := items[idx + 1].(stamp := items[idx + 1].stamp.(secs := oldStamp.secs))];
      items := items[idx + 1 := items[idx + 1].(stamp := items[idx + 1].stamp.(nsecs := oldStamp.nsecs))];
      items := Pop(items, idx);
      items := Insert(items, idx + 1, selected);
      newIdx := idx + 1;
      dirty := true;
    }

    // -------------------------------------------------------------------------
    // Saving and quitting

    /** `save_bag`: asks before overwriting; "change" asks for another path and
        asks again.  As written the loop only ever leaves through the
        overwrite prompt, so a path that does not exist makes it spin
        forever (outcome Spin). */
    method SaveBag(path: string) returns (o: SaveOutcome)
      modifies this`inputs, this`disk, this`dirty
      ensures (o, St()) == Save(old(St()), path, cwd)
    {
      var p := path;
      while true
        invariant disk == old(disk) && dirty == old(dirty)
        invariant SaveRun(disk, inputs, p, cwd) == SaveRun(old(disk), old(inputs), path, cwd)
        decreases |inputs|
      {
        if p !in disk {
          return Spin;
        }
        var choice := PresentMenu(OverwriteMenu);
        if choice.None? {
          return SaveInputEnded;
        }
        if choice.value == KeyYes {
          break;
        } else if choice.value == KeyNo {
          return Declined;
        } else if choice.value == KeyChange {
          var line := ReadLine();
          if line.None? {
            return SaveInputEnded;
          }
          p := AbsPath(cwd, line.value);
        }
        // any other accepted line (a case variant such as "YES") matches no
        // branch, and the loop asks again
      }
      disk := disk[p := items];
      dirty := false;
      o := Saved(p);
    }

    /** "quit" at the main menu: leaves at once without unsaved changes;
        otherwise asks whether to save first or to quit without saving, and
        any other accepted line goes back to the main menu. */
    method Quit() returns (q: QuitResult)
      modifies this`inputs, this`disk, this`dirty
      ensures (q, St()) == QuitRun(old(St()), outputPath, cwd)
    {
      if !dirty {
        return Leave(Clean);
      }
      var choice := PresentMenu(QuitMenu(outputPath));
      if choice.None? {
        return QuitInputEnded;
      }
      if choice.value == KeySave {
        var o := SaveBag(outputPath);
        return Leave(AfterSave(o));
      } else if choice.value == KeyQuit {
        return Leave(DiscardedChanges);
      }
      return BackToMenu;
    }

    // -------------------------------------------------------------------------
    // The menus

    /** One pass of the item menu of item `i` once a line is accepted: each
        key runs its own edit, "back" and any line that spells no key exactly
        (a case variant such as "Up") change nothing. */
    method ItemStep(i: nat, line: string) returns (r: Option<ItemResult>, newIdx: nat)
      requires i < |items|
      requires line == KeyFirst || line == KeyUp ==> 0 < i
      requires line == KeyLast || line == KeyDown ==> i < |items| - 1
      modifies this`items, this`dirty, this`inputs
      ensures (r, St(), newIdx) == ItemAction(old(St()), i, line)
      ensures line == KeyBack ==>
                r == Some(Back) && items == old(items) && dirty == old(dirty) && inputs == old(inputs)
      ensures (line == KeyName && old(inputs) == []) ==>
                r == Some(ItemInputEnded) && items == old(items) && dirty == old(dirty) && inputs == []
      ensures (line == KeyName && old(inputs) != [] && old(inputs)[0] == "") ==>
                r == None && newIdx == i && items == old(items) && dirty == old(dirty) && inputs == old(inputs)[1..]
      ensures (line == KeyName && old(inputs) != [] && old(inputs)[0] != "") ==>
                r == None && newIdx == i && items == Renamed(old(items), i, old(inputs)[0]) && dirty
                && inputs == old(inputs)[1..]
      ensures line == KeyRemove ==>
                r == Some(RemovedItem) && items == Pop(old(items), i) && dirty && inputs == old(inputs)
      ensures line == KeyFirst ==>
                r == None && newIdx == 0 && items == MovedToFirst(old(items), i) && dirty && inputs == old(inputs)
      ensures line == KeyLast ==>
                r == None && newIdx == |items| - 1 && items == MovedToLast(old(items), i) && dirty && inputs == old(inputs)
      ensures line == KeyUp ==>
                r == None && newIdx == i - 1 && items == MovedUp(old(items), i) && dirty && inputs == old(inputs)
      ensures line == KeyDown ==>
                r == None && newIdx == i + 1 && items == MovedDown(old(items), i) && dirty && inputs == old(inputs)
      ensures line !in [KeyBack, KeyName, KeyRemove, KeyFirst, KeyLast, KeyUp, KeyDown] ==>
                r == None && newIdx == i && items == old(items) && dirty == old(dirty) && inputs == old(inputs)
    {
      newIdx := i;
      r := None;
      if line == KeyBack {
        return Some(Back), i;
      }
      if line == KeyName {
        var newName := ReadLine();
        if newName.None? {
          return Some(ItemInputEnded), i;
        }
        Rename(i, newName.value);
      } else if line == KeyRemove {
        Remove(i);
        return Some(RemovedItem), i;
      } else if line == KeyFirst {
        newIdx := MoveToFirst(i);
      } else if line == KeyLast {
        newIdx := MoveToLast(i);
      } else if line == KeyUp {
        newIdx := MoveUp(i);
      } else if line == KeyDown {
        newIdx := MoveDown(i);
      }
    }

    /** The menu for item `idx`: the operations are applied until "back",
        "remove" or the end of the typed lines; the selection follows the
        moved item. */
    method OperateOnItem(idx: nat) returns (r: ItemResult)
      requires idx < |items|
      modifies this`items, this`dirty, this`inputs
      ensures (r, St()) == ItemRun(old(St()), idx)
    {
      var i: nat := idx;
      while true
        invariant i < |items|
        invariant disk == old(disk)
        invariant ItemRun(St(), i) == ItemRun(old(St()), idx)
        decreases |inputs|
      {
        var isFirst := i == 0;
        var isLast := i == |items| - 1;
        var nameable := IsNameable(items[i].topic);
        ghost var before := St();
        var choice := PresentMenu(ItemMenu(isFirst, isLast, nameable));
        if choice.None? {
          return ItemInputEnded;
        }
        ItemMenuGuards(isFirst, isLast, nameable, choice.value);
        var res, j := ItemStep(i, choice.value);
        assert ItemRun(before, i) == (if res.Some? then (res.value, St()) else ItemRun(St(), j));
        if res.Some? {
          return res.value;
        }
        i := j;
      }
    }

    /** What the main menu does with an accepted line: "save", "quit" or an
        item number; None means the main menu is shown again. */
    method MainMenuChoice(line: string) returns (e: Option<Exit>)
      requires ParseDecimal(line).Some? ==> ParseDecimal(line).value < |items|
      modifies this`items, this`dirty, this`disk, this`inputs
      ensures (e, St()) == ChoiceRun(old(St()), line, outputPath, cwd)
    {
      if line == KeySave {
        var o := SaveBag(outputPath);
        return SaveExit(o);
      } else if line == KeyQuit {
        var q := Quit();
        return QuitExit(q);
      }
      var n := ParseDecimal(line);
      if n.None? {
        return Some(NotANumber(line));
      }
      var r := OperateOnItem(n.value);
      if r == ItemInputEnded {
        return Some(InputEnded);
      }
      return None;
    }

    /** One pass of the main menu loop: show the menu, read an accepted line
        and act on it.  None means the menu is shown again. */
    method MainMenuRound() returns (e: Option<Exit>)
      modifies this`items, this`dirty, this`disk, this`inputs
      ensures (e, St()) == RoundRun(old(St()), outputPath, cwd)
    {
      if items == [] {
        return Some(EmptyList);
      }
      var choice := PresentMenu(MainMenu(items, dirty, outputPath));
      if choice.None? {
        return Some(InputEnded);
      }
      MainMenuAccepts(items, dirty, outputPath, choice.value);
      e := MainMenuChoice(choice.value);
    }

    /** `interactive_menu`: the main menu loop. */
    method InteractiveMenu() returns (e: Exit)
      modifies this`items, this`dirty, this`disk, this`inputs
      ensures (e, St()) == SessionRun(old(St()), outputPath, cwd)
    {
      while true
        invariant SessionRun(St(), outputPath, cwd) == SessionRun(old(St()), outputPath, cwd)
        decreases |inputs|
      {
        var r := MainMenuRound();
        if r.Some? {
          return r.value;
        }
      }
    }
  }
}
