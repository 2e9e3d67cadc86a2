# Task tracker list logic, in Dafny

A model of the in-memory task list behind a small command-line task
tracker written in Rust (`src/main.rs`). The program loads a list of tasks
from `tasks.json`, then runs a menu loop with five choices: add a task,
display the tasks, update a task's status, delete a task, or quit. Quitting
saves the list back to the file. Every task has a title, a status
(Pending, In Progress or Completed) and a numeric id. Ids come from a
counter `next_id`. After loading, the counter is set to the number of
loaded tasks plus one, and every add increments it.

The model has five modules.

- `Options` (`options.dfy`) defines the optional-value type.
- `Text` (`text.dfy`) models `str::trim`. The loop trims every line it
  reads, and `trim` strips Unicode White_Space from both ends.
- `Tasks` (`tasks.dfy`) defines `Status`, `Task`, the constructor
  `add_task` and the mapping from a status-menu answer to a status.
- `Store` (`store.dfy`) defines the session state: the list `todo` and the
  counter `next_id`. It models the add, update and delete steps of the
  loop, as well as loading and the counter's initialisation. It also holds
  a corrected initialisation; see "Findings".
- `Session` (`session.dfy`) models the menu loop. It runs on the sequence
  of lines the user types and returns the list that "Quit" saves. It also
  holds the lemmas about whole sessions.

The user's input is a finite sequence of raw lines. Past its end,
`read_line` yields the empty string, as Rust's does at end of input. That
empty string is an invalid menu choice, so a session whose input runs out
before a "5" never saves, and `Run` returns `None`. The parse of an id
(`u64::parse` on the trimmed line) is the parameter
`parse: string -> Option<nat>`.

Two facts about the code that the model keeps as they are:

- The counter comes from the list length at load time (`src/main.rs:71`)
  and goes up by one on each add. After a delete, a save and a reload,
  this can hand out an id that is already taken; see "Findings". Starting
  the counter past the largest loaded id would avoid that. The model
  proves this for the corrected start, which it keeps separately as
  `Store.InitFixed`.
- Update and delete of an id no task has print a message and leave the
  list unchanged. No error is returned. The model returns the unchanged
  list.

## Model

| member | source | states |
|---|---|---|
| Text.TrimBounds | src/main.rs:84 | `trim` keeps one slice of the line: everything before it and everything after it is whitespace, and the slice itself neither starts nor ends with whitespace |
| Text.TrimPadded | src/main.rs:58 | trimming `pre + t + post` gives back exactly `t` when `pre` and `post` are whitespace and `t` has no whitespace at either end, so `trim` strips exactly the surrounding whitespace and nothing more |
| Text.Trim | src/main.rs:84 | `str::trim`: the result has no whitespace at either end, and it is empty exactly when the line is nothing but whitespace, such as the bare newline of an empty answer |
| Tasks.NewTask | src/main.rs:35-41 | `add_task` returns a task whose title and id are exactly the arguments and whose status is Pending |
| Tasks.MenuNumber | src/main.rs:50-53 | the number the status menu shows for each status is a line with no surrounding whitespace |
| Tasks.ApplyChoice | src/main.rs:58-63 | a trimmed answer of "1", "2" or "3" selects the status the menu lists under that number; any other answer leaves the status as it was; the status changes only when the trimmed answer is the number of the new status |
| Tasks.ChooseMenuNumber | src/main.rs:50-61 | answering with the number shown for a status, padded with any whitespace such as the newline `read_line` keeps, selects that status whatever the current one is |
| Store.FindIndex | src/main.rs:124-146 | the first match that both `iter_mut().find` (line 124) and `iter().position` (line 146) look for: the found position holds a task with the id, and no earlier task has it; nothing is found exactly when no task has the id |
| Store.Add | src/main.rs:91-93 | the list grows by one; the earlier tasks are unchanged; the new last task is Pending and carries the given title and the old counter as its id; the counter goes up by exactly 1; distinct ids below the counter stay so |
| Store.UpdateStatus | src/main.rs:124-129 | walking the list to the first task with the id and answering the status menu gives the list with only that position's status replaced by what the answer selects; when no task has the id, the list is identical |
| Store.UpdateOnlyStatus | src/main.rs:124-129 | an update keeps the length, the order, every id and every title; any task that differs afterwards is the first one with the id, and its status is what the answer selects |
| Store.UpdateKeepsValid | src/main.rs:124-129 | an update keeps ids distinct and below the counter |
| Store.Delete | src/main.rs:146-151 | with the first matching position `i`, the result is `todo[..i] + todo[i+1..]`; when no task has the id, the list is identical |
| Store.DeleteRemovesOne | src/main.rs:146-147 | a delete that finds its id shortens the list by one, and the survivors plus the removed task are the original list as a multiset |
| Store.DeleteKeepsSurvivors | src/main.rs:146-147 | every task left after a delete was in the list before |
| Store.DeleteRemovesId | src/main.rs:146-147 | when ids are distinct, no task with the deleted id remains |
| Store.DeleteKeepsValid | src/main.rs:146-151 | a delete keeps ids distinct and below the counter |
| Store.Load | src/main.rs:27-32 | a file that cannot be read (missing, a directory, not UTF-8, unreadable) gives the empty list, and a file that can be read gives its decoded contents |
| Store.Init | src/main.rs:69-71 | after loading, the list is the loaded one and the counter is the number of loaded tasks plus one; the loaded state keeps ids distinct and below the counter exactly when the loaded ids are distinct and none exceeds the number of loaded tasks |
| Store.InitFixed | src/main.rs:71 | corrected initialisation: the counter starts past every loaded id, so a list with distinct ids starts in the invariant |
| Store.IdReuseAfterReload | src/main.rs:69-93 | adding "a" and "b" and deleting id 1 leaves only "b" with id 2; loading that list starts outside the invariant, and adding "c" then hands out id 2 a second time |
| Store.NoReuseAfterReloadFixed | src/main.rs:71 | from the same saved list, the corrected initialisation starts the counter at 3 and an add keeps the ids distinct |
| Store.InitFixedAgrees | src/main.rs:71 | when the loaded ids are 1, 2, ... in order, as they are when nothing was ever deleted, the corrected initialisation equals the original |
| Session.ReadLine | src/main.rs:82 | no contract: `read_line` gives the next raw line of the input, or "" once the input is exhausted |
| Session.Menu | src/main.rs:84-166 | the trimmed choice "1" selects add, "2" display, "3" update, "4" delete and "5" quit; anything other than "1" to "5" is invalid |
| Session.Step | src/main.rs:81-166 | a pass of the loop that does not quit consumes at least one line of input |
| Session.StepEffects | src/main.rs:84-166 | a pass quits exactly on "5", saving the list as it is; the counter rises by one on an add and stays put otherwise; an add is `Store.Add` with the trimmed title; display and an invalid choice change nothing; an id that fails to parse leaves the list and the counter alone on update and on delete |
| Session.StepById | src/main.rs:109-153 | with an id line that parses: update of an id no task has reads no further line and changes nothing; update of a present id reads the next line as the status answer and applies it to the first task with the id (`Store.UpdateStatus`); delete drops the first task with the id (`Store.Delete`) |
| Session.StepKeepsValid | src/main.rs:84-153 | every pass keeps ids distinct and below the counter |
| Session.Run | src/main.rs:74-168 | the menu loop saves only after reading some line of the input that trims to "5", so an input without such a line gives None: the loop, once the input is exhausted, reads empty lines forever and never saves |
| Session.RunKeepsUnique | src/main.rs:74-161 | a session that starts with distinct ids below the counter saves a list with distinct ids |
| Session.IssuedIncreasing | src/main.rs:91-93 | within one session, the ids handed out by successive adds strictly increase and none is below the starting counter |
| Session.Program | src/main.rs:66-169 | `main`: load, set the counter to the number of loaded tasks plus one, run the loop; it saves only after some line of the input that trims to "5" |
| Session.ProgramUniqueWhenDense | src/main.rs:69-71 | the program as written saves distinct ids when the loaded ids are distinct and none exceeds the number of loaded tasks |
| Session.RunAdd | src/main.rs:84-96 | a choice line that trims to "1" and then a title line add a task with the trimmed title, and the loop goes on with the rest of the input |
| Session.RunDelete | src/main.rs:133-152 | a choice line that trims to "4" and then an id line whose trimmed text parses delete the first task with that id, and the loop goes on with the rest of the input |
| Session.RunQuit | src/main.rs:155-160 | a choice line that trims to "5" ends the loop and saves the current list, whatever input follows |
| Session.SecondSession | src/main.rs:69-93 | loading a file that holds only "b" with id 2 and answering "1", "c", "5" saves "c" with id 2 as well, so the saved ids are not distinct |
| Session.NoReuseWhenFixed | src/main.rs:71 | in the same session, the corrected program gives "c" the id 3 and the saved ids are distinct |
| Session.ProgramFixed | src/main.rs:71 | `main` with the counter started past the largest loaded id: it saves only after a line that trims to "5", and while the loaded ids are 1, 2, ... in order it gives exactly what `Session.Program` gives |
| Session.ProgramFixedUnique | src/main.rs:69-71 | the corrected program saves distinct ids for every input whenever the loaded ids are distinct |

## Left out

- Terminal I/O is not modelled: the menu and prompt text, `println!` and the formatting of `display_tasks`. Display is modelled only as a pass that changes nothing.
- File I/O and JSON encoding are not modelled. Saving is the list `Run` returns. Loading is an optional list. `None` stands for any failure of `read_to_string`, not only a missing file: the file may be a directory, unreadable, or not UTF-8.
- Store.Load: the model does not record what the next save does to a file that exists but cannot be read. When the file can be written (it is not UTF-8, or it is write-only), the save at `src/main.rs:158` overwrites it and its earlier contents are lost. When it cannot be written (a directory, a read-only file), `fs::write` fails and the `.expect` at `src/main.rs:24` panics, so nothing is saved. The model has no notion of the file's earlier contents.
- The serde round-trip is not modelled, because that library's code is not part of this model.
- Panics from `.expect(...)` are not modelled: a failed read of standard input, a failed write of the file or a failed decode aborts the process.
- The grammar of `u64::parse` is not modelled. It is the parameter `parse`, applied to the trimmed line.
- Store.Add: the id and the counter are unbounded naturals. The source's `u64` counter would overflow after 2^64 adds, which panics in a debug build and wraps in a release build. The model leaves that out because no session reaches it.
- Store.Init: `todo.len() as u64 + 1` is modelled without the `u64` cast, for the same reason.

## Findings

| source | as written | input that shows it | evidently intended | confidence | as-written member | corrected member |
|---|---|---|---|---|---|---|
| src/main.rs:71 | after loading, `next_id` is the number of loaded tasks plus one, which can be at or below an id that is still in the list | run 1 starts from no file, adds "a" (id 1) and "b" (id 2), deletes id 1 and saves only "b" with id 2; run 2 loads that list, adds "c" and saves "b" and "c" both with id 2 (run 2 also goes through the menu loop on the lines "1", "c", "5" in `Session.SecondSession`) | ids stay distinct: start the counter past the largest loaded id | high; not executed | Store.IdReuseAfterReload | Session.ProgramFixedUnique |
