# BagMan model

BagMan (`utils/map/bagman.py`) is the OpenMower console tool for editing a
recorded map bag. It backs the bag up, reads its messages into a list and
runs a menu session over that list. In the session the user can name a
mowing or navigation area, remove an item, or reorder items. The mower
follows the messages' time stamps, so reordering is done by rewriting time
stamps. The result is saved to an output file.

The model has five modules.

- `Areas` (areas.dfy): a bag item is a value (topic, time stamp, optional
  name, and an opaque stand-in for the rest of the message). The six edits are reference functions on the item list: rename,
  remove, move to first, move to last, move up and move down. Lemmas show
  what each edit does to the list. They also show that each edit keeps a
  list in strict time order.
- `Menus` (menus.dfy): the accept test of `_present_menu`, with ASCII case
  folding. `NextChoice` is the function that picks the accepted line out of
  a run of typed lines. The module also has the main menu, the item menu,
  the overwrite prompt and the quit prompt, with blank entries filtered
  out. Lemmas say which keys the main and item menus offer, that they
  offer no others, and what an accepted line can be. The decimal item keys (`str(idx)` and
  `int(...)`) are proved to round-trip.
- `Backups` (backups.dfy): the archive name `<basename>_<time>_<hash>.zip`
  and the hash read back from a file name. This uses Python's `rfind`,
  `split`, `os.path.splitext` and `join`. The module also covers the dedup
  test, `sorted(..., reverse=True)` over strings, and the `[30:]` pruning
  selection.
- `Flows` (flows.dfy): each loop of a session as a function of the session
  state. The state is:
  - the item list;
  - the unsaved-changes flag;
  - the files on disk, as a map from path to saved list;
  - the lines the user will type, consumed front first.

  The functions are the `save_bag` overwrite loop, the quit prompt, one
  item-menu action, the item submenu loop, one main-menu line, one
  main-menu pass and the whole `interactive_menu`. Lemmas state what they
  promise: which answer writes which file, that the time order and the
  unsaved-changes discipline are kept, and how a session can end.
- `Session` (session.dfy): class `BagMan` holds that state as fields the
  methods update. The edits are done step by step (`pop`, `insert`, field
  writes) and are proved equal to the reference functions of `Areas`. The
  menu loops are `while` loops over the fields. Each is proved to leave
  exactly the result and state that its `Flows` function gives.

Running out of typed lines stands for `input()` raising EOFError. It ends
the session with the outcome `InputEnded`.

The model keeps the behaviour of the code as written:

- `save_bag` leaves its loop only through the overwrite prompt. A save to a
  path that does not exist therefore never ends (outcome `Spin`, session
  exit `Hang`).
- The main menu compares "save" and "quit" exactly, but `_present_menu`
  accepts them in any letter case. A line such as `Quit` reaches `int()`
  and fails (exit `NotANumber`).
- A list with no items fails at `sorted([])[-1]` (exit `EmptyList`).
- The pruning list holds bare file names. They are passed to `os.remove`
  as they are, not joined to the backup directory.
- An accepted case variant of an item-menu key (`Up`) matches no branch,
  and the item menu is shown again.

## Model

| member | source | states |
|---|---|---|
| Areas.RemovePreserves | utils/map/bagman.py:372-376 | removing item i drops exactly that item: one shorter, items before i unchanged, items after i shifted down by one, multiset minus that item; a list in time order stays in time order |
| Areas.RenamePreserves | utils/map/bagman.py:362-371 | renaming sets only the name of item i; its topic and message body, every other item and all time stamps are unchanged, so time order is kept |
| Areas.MoveToFirstPreserves | utils/map/bagman.py:377-383 | the moved item (the same message, body included) is at the front, stamped 60 s before the old first item with its nanoseconds kept; the rest is the list without it; a list in time order stays in order with the moved item earliest |
| Areas.MoveToLastPreserves | utils/map/bagman.py:384-390 | the moved item (the same message, body included) is at the end, stamped 60 s after the old last item; the rest is the list without it; time order is kept with the moved item latest |
| Areas.MoveUpPreserves | utils/map/bagman.py:391-402 | moving up swaps the contents (topic, name and message body) of positions i-1 and i while every position keeps its time stamp; other items are untouched; stamps and contents are permutations of the old ones; time order is kept |
| Areas.MoveDownPreserves | utils/map/bagman.py:403-414 | moving down swaps the contents (topic, name and message body) of positions i and i+1 while every position keeps its time stamp; other items are untouched; time order is kept |
| Areas.UpDownRoundTrip | utils/map/bagman.py:391-414 | moving an item up and then down (or down and then up) gives back the original list |
| Areas.MoveLastToFrontExample | utils/map/bagman.py:377-383 | items stamped 100, 200, 300 s: moving the last to the front stamps it 40 s and puts it first, and the list stays in time order |
| Areas.MoveUpSwapsAreasExample | utils/map/bagman.py:391-402 | two unnamed mowing areas stamped 100 and 200 s: moving the second up puts its message first with stamp 100 and the other second with stamp 200, so the list really changes |
| Menus.Accepts | utils/map/bagman.py:110 | a line is accepted exactly when it equals some key, or, with case ignored, equals some key after lower-casing both |
| Menus.Offered | utils/map/bagman.py:284-298 | an entry is offered exactly when it is in the full entry list and its description is not blank |
| Menus.NextChoice | utils/map/bagman.py:98-114 | the chosen line is accepted, is the first accepted line typed, and the lines after it are left unread; when no typed line is accepted the result is None and every line is consumed |
| Menus.AcceptedLowerIsKey | utils/map/bagman.py:110 | with all-lower-case keys, an accepted line lower-cased is one of the keys |
| Menus.OfferedKeys | utils/map/bagman.py:284-298 | a key is offered exactly when some entry with that key has a non-blank description |
| Menus.ItemMenuOffers | utils/map/bagman.py:343-355 | the item menu offers "name" iff the topic is nameable, "first" and "up" iff the item is not first, "last" and "down" iff it is not last, and always "remove" and "back" |
| Menus.ItemMenuAccepts | utils/map/bagman.py:340-356 | a line the item menu accepts, lower-cased, is one of the offered keys |
| Menus.DecimalStringDigits | utils/map/bagman.py:287 | `str(idx)` is a non-empty string of decimal digits |
| Menus.DecimalRoundTrip | utils/map/bagman.py:326 | `int(str(n)) == n` for every index n |
| Menus.MainMenuSave | utils/map/bagman.py:295 | "save" is offered exactly when there are unsaved changes |
| Menus.MainMenuQuit | utils/map/bagman.py:296 | "quit" is always offered |
| Menus.MainMenuNumber | utils/map/bagman.py:286-293 | every item index is offered as its decimal key |
| Menus.MainMenuOffers | utils/map/bagman.py:284-298 | the main menu offers every item index and "quit", and offers nothing but item indices, "save" and "quit" |
| Menus.MainMenuAccepts | utils/map/bagman.py:301-326 | an accepted main menu line that parses as a number is the decimal key of an existing index; any other accepted line is "save" or "quit" up to letter case |
| Backups.SplitExt | utils/map/bagman.py:149 | root and extension concatenate back to the path; the extension is empty or one '.' followed by neither '.' nor '/'; it is empty exactly when every '.' of the last path component has only dots before it, so leading dots stay in the root |
| Backups.ArchiveName | utils/map/bagman.py:157-164 | the archive name is basename, "_", time, "_", hash, ".zip" |
| Backups.SplitLastPiece | utils/map/bagman.py:149 | the last piece of `split(sep)` is the longest suffix without `sep`; there is one piece exactly when `sep` does not occur |
| Backups.HashOf | utils/map/bagman.py:149 | the hash read from a name is the longest suffix of its root (extension removed) that holds no '_' |
| Backups.PruneList | utils/map/bagman.py:169 | `[30:]` of the sorted listing: max(0, n-30) names, all taken from the listing |
| Backups.KeptList | utils/map/bagman.py:169 | the names that survive: min(n, 30) names of the listing in descending order |
| Backups.BackupBag | utils/map/bagman.py:146-172 | nothing is written exactly when a name in the listing carries the hash; otherwise the archive is named basename_time_hash.zip, its hash reads back for a hash without '_' or '/', and the names to delete are exactly `PruneList` of the listing with the new archive (so `PruneSelection` applies): max(0, n+1-30) of those names, the least in descending string order |
| Backups.ArchiveNameRoundTrip | utils/map/bagman.py:146-164 | for a hash without '_' or '/', the hash read back from the archive name is the hash written into it |
| Backups.UnderscoreHashNotRecovered | utils/map/bagman.py:149 | a hash containing '_' is read back as only its last '_'-separated part, not as itself |
| Backups.BackupDeduplicates | utils/map/bagman.py:146-164 | nothing is written iff some name in the directory carries the hash; a written archive carries the hash, so backing up the same content again writes nothing |
| Backups.SortDescCorrect | utils/map/bagman.py:169 | `sorted(reverse=True)` yields a permutation of the names in descending string order |
| Backups.PruneSelection | utils/map/bagman.py:169-172 | max(0, n-30) names are pruned and min(n, 30) kept; kept and pruned together are the listing; every pruned name sorts at or below every kept name |
| Menus.ItemMenuGuards | utils/map/bagman.py:340-356 | an accepted item-menu line is "first" or "up" only away from the first position, "last" or "down" only away from the last |
| Flows.SaveRun | utils/map/bagman.py:196-220 | a path that does not exist spins with no input read; a written path exists on disk and is the given path or a typed path made absolute; running out of lines consumes them all |
| Flows.SaveFirstAnswer | utils/map/bagman.py:209-214 | at an existing path a first answer "yes" writes that path and "no" declines, leaving the rest of the input |
| Flows.SaveChangeThenYes | utils/map/bagman.py:215-220 | "change", a typed path that exists, then "yes" writes the typed path made absolute against the working directory |
| Flows.SaveCaseVariantAsksAgain | utils/map/bagman.py:201-220 | "YES" is accepted by the prompt but matches no answer, so the prompt is asked again |
| Flows.SavePersists | utils/map/bagman.py:222-226 | a save that writes stores the list at the written path and clears the flag; any other outcome changes neither disk nor flag |
| Flows.QuitOutcomes | utils/map/bagman.py:306-323 | no unsaved changes: leave at once, nothing changed; with changes: "quit" discards, "save" of a missing output path spins, "save" then "yes" writes the output path and clears the flag, any other accepted line goes back to the main menu |
| Flows.QuitFlag | utils/map/bagman.py:306-323 | a quit is clean exactly when there are no unsaved changes; a discarding quit keeps the flag set |
| Flows.QuitPersists | utils/map/bagman.py:316-323 | only a quit that saved and wrote changes the disk (storing the list) or the flag |
| Flows.ItemActionPreserves | utils/map/bagman.py:358-414 | one item-menu action keeps time order, never clears the flag, leaves the list unchanged while the flag is clear, and shortens the list by one exactly on "remove" |
| Flows.ItemRunPreserves | utils/map/bagman.py:328-414 | the item submenu keeps time order, never clears the flag, never touches the disk, and shortens the list by one exactly when it ends with a removal |
| Flows.ItemRunFirstOfTwo | utils/map/bagman.py:377-383 | "first" on the last of two items moves it to the front and the submenu goes on at position 0 |
| Flows.ItemFirstThenBack | utils/map/bagman.py:328-383 | "first" then "back" on the last of two items returns with the list moved and unsaved changes |
| Flows.ChoiceRunPreserves | utils/map/bagman.py:301-414 | acting on a main-menu line keeps time order and the clear-flag-means-saved property |
| Flows.ChoiceRunOutcomes | utils/map/bagman.py:301-326 | a clean quit ends with no unsaved changes, a discarding quit with some; a saving quit was declined or stored the final list at the written path with the flag clear; `NotANumber` carries the line and only for a line `int()` rejects; one line never reports `EmptyList` |
| Flows.RoundRunPreserves | utils/map/bagman.py:279-414 | one main-menu pass keeps time order and the clear-flag-means-saved property |
| Flows.RoundRunOutcomes | utils/map/bagman.py:279-326 | as for one line, plus: a line that fails `int()` is a case variant of "save" or "quit", and `EmptyList` happens only on an empty list |
| Flows.RoundSelectSecond | utils/map/bagman.py:301-329 | "1" at the main menu of two items runs the item submenu of the second item |
| Flows.SaveYes | utils/map/bagman.py:209-211 | "yes" at an existing path writes the list there and clears the flag |
| Flows.RoundSaveYes | utils/map/bagman.py:302-305 | "save" then "yes" on a changed list writes the output file and clears the flag |
| Flows.SessionRunPreserves | utils/map/bagman.py:275-414 | the session keeps time order; whenever the flag is clear the list is the original clean one or one stored on disk |
| Flows.SessionRunOutcomes | utils/map/bagman.py:275-414 | a clean quit has no unsaved changes and a discarding quit had some; a saving quit was declined or wrote the final list at its path with the flag clear; a `NotANumber` exit is a case variant of "save"/"quit"; `EmptyList` only for an empty list |
| Flows.SessionQuitWhenClean | utils/map/bagman.py:306-323 | without unsaved changes, "quit" at the first main menu ends the session at once with nothing changed |
| Flows.SessionSelectMoveBack | utils/map/bagman.py:301-383 | "1", "first", "back" on two items returns to the main menu with the second item moved first and unsaved changes |
| Flows.SessionSaveYesQuit | utils/map/bagman.py:302-323 | "save", "yes", "quit" on a changed list writes the output file and ends clean |
| Flows.SessionMoveSaveQuit | utils/map/bagman.py:275-414 | a whole session on two items (select 1, first, back, save, yes, quit) ends clean with the reordered list in the output file |
| Session.BagMan.constructor | utils/map/bagman.py:82-84 | a session starts with no unsaved changes |
| Session.BagMan.ReadLine | utils/map/bagman.py:108 | `input()` returns the next typed line and consumes it, or ends the input when none is left |
| Session.BagMan.PresentMenu | utils/map/bagman.py:98-114 | the menu loop returns the line and leaves the input that `NextChoice` gives for the menu's keys |
| Session.BagMan.Rename | utils/map/bagman.py:362-371 | an empty name changes nothing; otherwise the list becomes `Renamed` and changes are unsaved |
| Session.BagMan.Remove | utils/map/bagman.py:372-376 | the list becomes the list without item i, and changes are unsaved |
| Session.BagMan.MoveToFirst | utils/map/bagman.py:377-383 | pop and insert at 0 give `MovedToFirst`; the selection moves to 0; changes are unsaved |
| Session.BagMan.MoveToLast | utils/map/bagman.py:384-390 | pop and append give `MovedToLast`; the selection moves to the last index; changes are unsaved |
| Session.BagMan.MoveUp | utils/map/bagman.py:391-402 | the field-by-field stamp exchange followed by pop and insert gives `MovedUp`; the selection moves to i-1 |
| Session.BagMan.MoveDown | utils/map/bagman.py:403-414 | the field-by-field stamp exchange followed by pop and insert gives `MovedDown`; the selection moves to i+1 |
| Session.BagMan.SaveBag | utils/map/bagman.py:188-226 | result and new state are exactly `Flows.Save`: the overwrite loop including "change", then the write and the cleared flag |
| Session.BagMan.Quit | utils/map/bagman.py:306-323 | result and new state are exactly `Flows.QuitRun`; a save from the quit prompt targets the output path |
| Session.BagMan.ItemStep | utils/map/bagman.py:358-414 | exactly `Flows.ItemAction`; per key: "back" returns, "name" renames (nothing for an empty name, end of input at EOF), "remove" pops, "first"/"last"/"up"/"down" give the moved list and new index; any other line (a case variant) changes nothing |
| Session.BagMan.OperateOnItem | utils/map/bagman.py:328-414 | result and new state are exactly `Flows.ItemRun` |
| Session.BagMan.MainMenuChoice | utils/map/bagman.py:301-329 | exactly `Flows.ChoiceRun`: "save" saves to the output path, "quit" runs the quit prompt, a number runs that item's submenu, anything else is `NotANumber` |
| Session.BagMan.MainMenuRound | utils/map/bagman.py:279-329 | exactly `Flows.RoundRun`: an empty list is reported, otherwise the accepted main-menu line is acted on |
| Session.BagMan.InteractiveMenu | utils/map/bagman.py:275-414 | exactly `Flows.SessionRun`: main-menu passes until one ends the session |

## Left out

- Reading and writing bag files (rosbag). Files on disk are a map from path to item list, and a path exists exactly when it is a key.
- `read_bag` is not modelled. It checks that the path exists and then always opens `map.bag` in the working directory, whatever path it was given.
- `hash_bag_file` (SHA-1) is not modelled. The hash is a parameter of `Backups.BackupBag`.
- Zip writing, `os.makedirs`, `os.listdir` and `os.remove`. `Backups.BackupBag` takes the directory listing as a parameter and returns the archive name and the names to delete.
- The UTC clock. The time string is a parameter.
- Logging, `time.sleep`, menu rendering and padding, and argument parsing (`parse_command_line_args`).
- The `run` sequence (backup, read, session) is not modelled as one operation.
- `_stringify_bag_item`: `Menus.ItemLabel` is a fixed non-blank label. The real label is display text and is never blank.
- `str.lower()` folds ASCII letters only. Unicode case folding is not modelled.
- Flows.AbsPath: Python's `os.path.abspath` normalises the path (it removes `..`, `.` and repeated slashes). The model's `AbsPath` does not. It keeps an absolute path, maps an empty path to the working directory and prefixes any other path with the working directory and "/". Two spellings of one file are therefore two different paths in the model.
- `int()` accepts only plain decimal digits here. Python also accepts surrounding whitespace, a sign, underscores and non-ASCII digits. A main-menu line of that form can only be accepted if it equals an offered key up to letter case, and letter case does not change digits. So no such line reaches `int()`.
- The message body is an opaque integer (`body`). Bagman never reads the area outline or the other message fields; it only carries them along, and the integer is enough to tell two messages apart.
- Items are values. The source mutates message and time stamp objects in place. The model assumes no two list entries share one object, so it does not capture aliasing between entries.
- The bag format stores `secs` and `nsecs` as unsigned 32-bit fields. Time stamps here are unbounded integers. Moving an item to the first position subtracts 60 s (bagman.py:379), and the result may be negative. Such a stamp cannot be written to a bag, and the model does not capture that failure.
