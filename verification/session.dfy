/** The menu loop of `main` in `src/main.rs`, driven by the lines the user
    types. Input is a finite sequence of raw lines; once it is exhausted,
    `read_line` yields the empty string, as it does at end of input.
    Printing is not modelled. Parsing an id (`u64::parse` on the trimmed
    line) is the parameter `parse`. */
module Session {

  import opened Options
  import opened Text
  import opened Tasks
  import opened Store

  /** The entries of the main menu. */
  datatype MenuItem = AddItem | DisplayItem | UpdateItem | DeleteItem | QuitItem | InvalidItem

  /** What one pass of the loop leaves: the next state and the unread
      input, or, after "Quit", the list written to the file. */
  datatype Outcome = Continue(state: State, rest: seq<string>) | Exit(saved: seq<Task>)

  /** `read_line`: the next line, or the empty string at end of input. */
  function ReadLine(lines: seq<string>): (string, seq<string>) {
    if |lines| == 0 then ("", []) else (lines[0], lines[1..])
  }

  /** The menu entry the line `choice` selects once trimmed. */
  function Menu(choice: string): (m: MenuItem)
    ensures m == InvalidItem <==> Trim(choice) !in {"1", "2", "3", "4", "5"}
    ensures m == QuitItem <==> Trim(choice) == "5"
    ensures m == AddItem <==> Trim(choice) == "1"
    ensures m == DisplayItem <==> Trim(choice) == "2"
    ensures m == UpdateItem <==> Trim(choice) == "3"
    ensures m == DeleteItem <==> Trim(choice) == "4"
  {
    var c := Trim(choice);
    if c == "1" then AddItem
    else if c == "2" then DisplayItem
    else if c == "3" then UpdateItem
    else if c == "4" then DeleteItem
    else if c == "5" then QuitItem
    else InvalidItem
  }

  /** The line holding the menu choice of the next pass. */
  function Choice(lines: seq<string>): string {
    ReadLine(lines).0
  }

  /** The line after the menu choice: the title or the id. */
  function Argument(lines: seq<string>): string {
    ReadLine(ReadLine(lines).1).0
  }

  /** One pass of the menu loop. Each pass that goes on consumes input;
      `StepEffects` states what a pass does to the state. */
  function Step(s: State, lines: seq<string>, parse: string -> Option<nat>): (r: Outcome)
    ensures |lines| > 0 && r.Continue? ==> |r.rest| < |lines|
    ensures r.Continue? ==> |r.rest| <= |lines| && r.rest == lines[|lines| - |r.rest|..]
  {
    var (choice, rest) := ReadLine(lines);
    match Menu(choice)
    case AddItem =>
      var (title, rest') := ReadLine(rest);
      Continue(Add(s, Trim(title)), rest')
    case DisplayItem =>
      Continue(s, rest)
    case UpdateItem =>
      var (idLine, rest') := ReadLine(rest);
      (match parse(Trim(idLine))
       case None => Continue(s, rest')
       case Some(id) =>
         if FindIndex(s.tasks, id).None? then Continue(s, rest')
         else
           var (answer, rest'') := ReadLine(rest');
           Continue(s.(tasks := UpdateStatus(s.tasks, id, answer)), rest''))
    case DeleteItem =>
      var (idLine, rest') := ReadLine(rest);
      (match parse(Trim(idLine))
       case None => Continue(s, rest')
       case Some(id) => Continue(s.(tasks := Delete(s.tasks, id)), rest'))
    case QuitItem =>
      Exit(s.tasks)
    case InvalidItem =>
      Continue(s, rest)
  }

  /** The loop until "Quit": the list it saves, or None when the input ends
      first (the loop then reads empty lines forever and never saves). It
      saves only after some line of the input that trims to "5". */
  function Run(s: State, lines: seq<string>, parse: string -> Option<nat>): (r: Option<seq<Task>>)
    ensures r.Some? ==> exists i :: 0 <= i < |lines| && Trim(lines[i]) == "5"
    decreases |lines|
  {
    if |lines| == 0 then None
    else
      match Step(s, lines, parse)
      case Exit(saved) => Some(saved)
      case Continue(next, rest) => Run(next, rest, parse)
  }

  /** The ids the "Add" entries of a run hand out, in order. */
  function Issued(s: State, lines: seq<string>, parse: string -> Option<nat>): seq<nat>
    decreases |lines|
  {
    if |lines| == 0 then []
    else
      match Step(s, lines, parse)
      case Exit(_) => []
      case Continue(next, rest) =>
        (if Menu(Choice(lines)) == AddItem then [s.nextId] else []) + Issued(next, rest, parse)
  }

  /** The whole program: load the file (None when it cannot be read), set
      up the counter, run the loop; the result is what it saves. */
  function Program(file: Option<seq<Task>>, lines: seq<string>, parse: string -> Option<nat>): (r: Option<seq<Task>>)
    ensures r.Some? ==> exists i :: 0 <= i < |lines| && Trim(lines[i]) == "5"
  {
    Run(Init(file), lines, parse)
  }

  /** The same program with the counter started past the largest loaded id.
      While the loaded ids are 1, 2, ... in order, as they are when nothing
      was ever deleted, it behaves exactly like the original. */
  function ProgramFixed(file: Option<seq<Task>>, lines: seq<string>, parse: string -> Option<nat>): (r: Option<seq<Task>>)
    ensures r.Some? ==> exists i :: 0 <= i < |lines| && Trim(lines[i]) == "5"
    ensures (forall i :: 0 <= i < |Load(file)| ==> Load(file)[i].id == i + 1) ==> r == Program(file, lines, parse)
  {
    InitFixedAgrees(Load(file));
    Run(InitFixed(file), lines, parse)
  }

  /** What one pass does: it quits exactly on "5", saving the list as it
      is; the counter rises by one on an add and stays put otherwise; an add
      is `Store.Add` with the trimmed title; display and an invalid choice
      change nothing; an id line that does not parse leaves the state alone
      on update and on delete. `StepById` covers an id that parses. */
  lemma StepEffects(s: State, lines: seq<string>, parse: string -> Option<nat>)
    ensures Step(s, lines, parse).Exit? <==> Menu(Choice(lines)) == QuitItem
    ensures Step(s, lines, parse).Exit? ==> Step(s, lines, parse).saved == s.tasks
    ensures Step(s, lines, parse).Continue? ==>
      Step(s, lines, parse).state.nextId == if Menu(Choice(lines)) == AddItem then s.nextId + 1 else s.nextId
    ensures Menu(Choice(lines)) == AddItem ==>
      Step(s, lines, parse) == Continue(Add(s, Trim(Argument(lines))), ReadLine(ReadLine(lines).1).1)
    ensures Menu(Choice(lines)) in {DisplayItem, InvalidItem} ==>
      Step(s, lines, parse) == Continue(s, ReadLine(lines).1)
    ensures Menu(Choice(lines)) in {UpdateItem, DeleteItem} && parse(Trim(Argument(lines))).None? ==>
      Step(s, lines, parse) == Continue(s, ReadLine(ReadLine(lines).1).1)
  {
  }

  /** Update and delete once the id line parses. Update reads the status
      answer only when some task has the id, and applies it to the first
      such task; delete drops the first task with the id. */
  lemma StepById(s: State, lines: seq<string>, parse: string -> Option<nat>, id: nat)
    requires parse(Trim(Argument(lines))) == Some(id)
    ensures Menu(Choice(lines)) == UpdateItem && FindIndex(s.tasks, id).None? ==>
      Step(s, lines, parse) == Continue(s, ReadLine(ReadLine(lines).1).1)
    ensures Menu(Choice(lines)) == UpdateItem && FindIndex(s.tasks, id).Some? ==>
      var afterId := ReadLine(ReadLine(lines).1).1;
      Step(s, lines, parse)
        == Continue(s.(tasks := UpdateStatus(s.tasks, id, ReadLine(afterId).0)), ReadLine(afterId).1)
    ensures Menu(Choice(lines)) == DeleteItem ==>
      Step(s, lines, parse) == Continue(s.(tasks := Delete(s.tasks, id)), ReadLine(ReadLine(lines).1).1)
  {
  }

  /** Every pass keeps ids distinct and below the counter. */
  lemma StepKeepsValid(s: State, lines: seq<string>, parse: string -> Option<nat>)
    requires Valid(s)
    ensures Step(s, lines, parse).Continue? ==> Valid(Step(s, lines, parse).state)
  {
    var rest := ReadLine(lines).1;
    var idLine := ReadLine(rest).0;
    var rest' := ReadLine(rest).1;
    match Menu(Choice(lines))
    case UpdateItem =>
      if parse(Trim(idLine)).Some? {
        UpdateKeepsValid(s, parse(Trim(idLine)).value, ReadLine(rest').0);
      }
    case DeleteItem =>
      if parse(Trim(idLine)).Some? {
        DeleteKeepsValid(s, parse(Trim(idLine)).value);
      }
    case _ =>
  }

  /** A run that starts in the invariant saves a list with distinct ids. */
  lemma {:induction false} RunKeepsUnique(s: State, lines: seq<string>, parse: string -> Option<nat>)
    requires Valid(s)
    ensures Run(s, lines, parse).Some? ==> UniqueIds(Run(s, lines, parse).value)
    decreases |lines|
  {
    if |lines| > 0 {
      StepKeepsValid(s, lines, parse);
      match Step(s, lines, parse)
      case Exit(_) =>
      case Continue(next, rest) =>
        RunKeepsUnique(next, rest, parse);
    }
  }

  /** The ids successive adds hand out within one session strictly
      increase, and none is below the counter the session started with. */
  lemma {:induction false} IssuedIncreasing(s: State, lines: seq<string>, parse: string -> Option<nat>)
    ensures forall i :: 0 <= i < |Issued(s, lines, parse)| ==> s.nextId <= Issued(s, lines, parse)[i]
    ensures forall i, j :: 0 <= i < j < |Issued(s, lines, parse)| ==>
      Issued(s, lines, parse)[i] < Issued(s, lines, parse)[j]
    decreases |lines|
  {
    var stop, head, next, rest := IssuedUnfold(s, lines, parse);
    if !stop {
      IssuedIncreasing(next, rest, parse);
      PrependIncreasing(head, Issued(next, rest, parse), s.nextId, next.nextId);
    }
  }

  /** Putting the counter's current value, or nothing, in front of ids that
      are strictly increasing from the next counter value keeps them so. */
  lemma PrependIncreasing(head: seq<nat>, tail: seq<nat>, lo: nat, lo': nat)
    requires lo <= lo' && |head| <= 1 && (|head| == 1 ==> head[0] == lo && lo' == lo + 1)
    requires forall i :: 0 <= i < |tail| ==> lo' <= tail[i]
    requires forall i, j :: 0 <= i < j < |tail| ==> tail[i] < tail[j]
    ensures forall i :: 0 <= i < |head + tail| ==> lo <= (head + tail)[i]
    ensures forall i, j :: 0 <= i < j < |head + tail| ==> (head + tail)[i] < (head + tail)[j]
  {
  }

  /** One pass of `Issued`: either the run saves or stops here and hands
      out nothing more, or the id an add hands out, if any, comes before
      those of the rest of the run, and the counter never goes down. */
  lemma IssuedUnfold(s: State, lines: seq<string>, parse: string -> Option<nat>)
    returns (stop: bool, head: seq<nat>, next: State, rest: seq<string>)
    ensures stop ==> Issued(s, lines, parse) == []
    ensures !stop ==> |rest| < |lines| && Issued(s, lines, parse) == head + Issued(next, rest, parse)
    ensures !stop ==> s.nextId <= next.nextId && |head| <= 1
    ensures !stop && |head| == 1 ==> head[0] == s.nextId && next.nextId == s.nextId + 1
  {
    stop, head, next, rest := true, [], s, lines;
    if |lines| > 0 && Step(s, lines, parse).Continue? {
      StepEffects(s, lines, parse);
      stop, next, rest := false, Step(s, lines, parse).state, Step(s, lines, parse).rest;
      head := if Menu(Choice(lines)) == AddItem then [s.nextId] else [];
    }
  }

  /** The corrected program saves distinct ids whenever the file it loads
      has distinct ids, whatever the user types. */
  lemma ProgramFixedUnique(file: Option<seq<Task>>, lines: seq<string>, parse: string -> Option<nat>)
    requires file.Some? ==> UniqueIds(file.value)
    ensures ProgramFixed(file, lines, parse).Some? ==> UniqueIds(ProgramFixed(file, lines, parse).value)
  {
    RunKeepsUnique(InitFixed(file), lines, parse);
  }

  /** The program as written keeps ids distinct only while no loaded id
      exceeds the number of loaded tasks. */
  lemma ProgramUniqueWhenDense(file: Option<seq<Task>>, lines: seq<string>, parse: string -> Option<nat>)
    requires file.Some? ==> UniqueIds(file.value)
    requires file.Some? ==> forall i :: 0 <= i < |file.value| ==> file.value[i].id <= |file.value|
    ensures Program(file, lines, parse).Some? ==> UniqueIds(Program(file, lines, parse).value)
  {
    RunKeepsUnique(Init(file), lines, parse);
  }

  /** One pass that does not quit, followed by the rest of the run. */
  lemma RunUnfold(s: State, lines: seq<string>, parse: string -> Option<nat>)
    requires |lines| > 0 && Step(s, lines, parse).Continue?
    ensures Run(s, lines, parse) == Run(Step(s, lines, parse).state, Step(s, lines, parse).rest, parse)
  {
  }

  /** A choice line that trims to "1" followed by a title line adds a
      task with the trimmed title, and the loop goes on. */
  lemma RunAdd(s: State, choice: string, title: string, rest: seq<string>, parse: string -> Option<nat>)
    requires Trim(choice) == "1"
    ensures Run(s, [choice, title] + rest, parse) == Run(Add(s, Trim(title)), rest, parse)
  {
    var lines := [choice, title] + rest;
    assert lines[2..] == rest;
    StepEffects(s, lines, parse);
    RunUnfold(s, lines, parse);
  }

  /** A choice line that trims to "4" followed by an id line that parses
      deletes the first task with that id, and the loop goes on. */
  lemma RunDelete(s: State, choice: string, idLine: string, id: nat, rest: seq<string>, parse: string -> Option<nat>)
    requires Trim(choice) == "4" && parse(Trim(idLine)) == Some(id)
    ensures Run(s, [choice, idLine] + rest, parse) == Run(s.(tasks := Delete(s.tasks, id)), rest, parse)
  {
    var lines := [choice, idLine] + rest;
    assert lines[2..] == rest;
    StepById(s, lines, parse, id);
    RunUnfold(s, lines, parse);
  }

  /** A choice line that trims to "5" ends the loop and saves the current
      list, whatever input follows. */
  lemma RunQuit(s: State, choice: string, rest: seq<string>, parse: string -> Option<nat>)
    requires Trim(choice) == "5"
    ensures Run(s, [choice] + rest, parse) == Some(s.tasks)
  {
    StepEffects(s, [choice] + rest, parse);
  }

  /** Id reuse through the menu loop. A file that holds only "b" with id 2
      is what a session that added "a" and "b" and deleted id 1 saves (see
      `Store.IdReuseAfterReload`). Loading it and answering "1", "c", "5"
      saves "c" with id 2 as well. */
  lemma SecondSession(parse: string -> Option<nat>)
    ensures Program(Some([Task("b", Pending, 2)]), ["1", "c", "5"], parse)
      == Some([Task("b", Pending, 2), Task("c", Pending, 2)])
    ensures !UniqueIds(Program(Some([Task("b", Pending, 2)]), ["1", "c", "5"], parse).value)
  {
    var t0 := Init(Some([Task("b", Pending, 2)]));
    var saved := [Task("b", Pending, 2), Task("c", Pending, 2)];
    assert t0 == State([Task("b", Pending, 2)], 2);
    assert Run(t0, ["1", "c", "5"], parse) == Some(Add(t0, "c").tasks) by {
      TrimTrimmed("c");
      AddThenQuit(t0, "c", parse);
    }
    assert Add(t0, "c").tasks == saved;
    assert saved[0].id == saved[1].id;
  }

  /** The same session under the corrected program: "c" gets id 3. */
  lemma NoReuseWhenFixed(parse: string -> Option<nat>)
    ensures ProgramFixed(Some([Task("b", Pending, 2)]), ["1", "c", "5"], parse)
      == Some([Task("b", Pending, 2), Task("c", Pending, 3)])
    ensures UniqueIds(ProgramFixed(Some([Task("b", Pending, 2)]), ["1", "c", "5"], parse).value)
  {
    var t0 := InitFixed(Some([Task("b", Pending, 2)]));
    var saved := [Task("b", Pending, 2), Task("c", Pending, 3)];
    assert t0 == State([Task("b", Pending, 2)], 3) by {
      assert [Task("b", Pending, 2)][..0] == [];
    }
    assert Run(t0, ["1", "c", "5"], parse) == Some(Add(t0, "c").tasks) by {
      TrimTrimmed("c");
      AddThenQuit(t0, "c", parse);
    }
    assert Add(t0, "c").tasks == saved;
  }

  /** Answering "1", a title, then "5" adds the title and saves. */
  lemma AddThenQuit(s: State, title: string, parse: string -> Option<nat>)
    requires Trimmed(title)
    ensures Run(s, ["1", title, "5"], parse) == Some(Add(s, title).tasks)
  {
    AddFirst(s, title, parse);
    QuitNow(Add(s, title), parse);
  }

  /** The input "1", a trimmed title, "5": the add consumes two lines. */
  lemma AddFirst(s: State, title: string, parse: string -> Option<nat>)
    requires Trimmed(title)
    ensures Run(s, ["1", title, "5"], parse) == Run(Add(s, title), ["5"], parse)
  {
    TrimTrimmed("1");
    TrimTrimmed(title);
    RunAdd(s, "1", title, ["5"], parse);
    assert ["1", title] + ["5"] == ["1", title, "5"];
  }

  /** The input "5" alone saves the list as it is. */
  lemma QuitNow(s: State, parse: string -> Option<nat>)
    ensures Run(s, ["5"], parse) == Some(s.tasks)
  {
    TrimTrimmed("5");
    RunQuit(s, "5", [], parse);
    assert ["5"] + [] == ["5"];
  }

}
