/** The in-memory task list that `main` in `src/main.rs` drives: the list
    `todo` with the counter `next_id`, and the add, update-status and
    delete steps of its menu loop, plus the counter's initialisation after
    loading. */
module Store {

  import opened Options
  import opened Tasks

  /** The session state: the list `todo` and the counter `next_id`. */
  datatype State = State(tasks: seq<Task>, nextId: nat)

  predicate UniqueIds(tasks: seq<Task>) {
    forall i, j :: 0 <= i < j < |tasks| ==> tasks[i].id != tasks[j].id
  }

  predicate IdsBelow(tasks: seq<Task>, bound: nat) {
    forall i :: 0 <= i < |tasks| ==> tasks[i].id < bound
  }

  /** The session invariant under which adding keeps ids unique: ids are
      distinct and the counter is past every one of them. */
  predicate Valid(s: State) {
    UniqueIds(s.tasks) && IdsBelow(s.tasks, s.nextId)
  }

  /** The position of the first task with id `id` (`iter().position`,
      and the element `iter_mut().find` yields). */
  function FindIndex(tasks: seq<Task>, id: nat): (r: Option<nat>)
    ensures r.Some? ==> r.value < |tasks| && tasks[r.value].id == id
    ensures r.Some? ==> forall j :: 0 <= j < r.value ==> tasks[j].id != id
    ensures r.None? <==> forall j :: 0 <= j < |tasks| ==> tasks[j].id != id
    decreases |tasks|
  {
    if |tasks| == 0 then None
    else if tasks[0].id == id then Some(0)
    else
      match FindIndex(tasks[1..], id)
      case None => None
      case Some(i) => Some(i + 1)
  }

  /** Menu entry 1: push a Pending task numbered `next_id`, then bump the
      counter. */
  function Add(s: State, title: string): (r: State)
    ensures |r.tasks| == |s.tasks| + 1
    ensures r.tasks[..|s.tasks|] == s.tasks
    ensures r.tasks[|s.tasks|].title == title
    ensures r.tasks[|s.tasks|].id == s.nextId
    ensures r.tasks[|s.tasks|].status == Pending
    ensures r.nextId == s.nextId + 1
    ensures Valid(s) ==> Valid(r)
  {
    State(s.tasks + [NewTask(title, s.nextId)], s.nextId + 1)
  }

  /** `tasks` with the status of position `i` set by the answer `input`. */
  function SetStatusAt(tasks: seq<Task>, i: nat, input: string): seq<Task>
    requires i < |tasks|
  {
    tasks[i := tasks[i].(status := ApplyChoice(input, tasks[i].status))]
  }

  /** Menu entry 3 once the id has parsed: walk the list to the first
      task with that id (`iter_mut().find`) and apply the status answer
      `input` to it. */
  function UpdateStatus(tasks: seq<Task>, id: nat, input: string): (r: seq<Task>)
    ensures FindIndex(tasks, id).Some? ==> r == SetStatusAt(tasks, FindIndex(tasks, id).value, input)
    ensures FindIndex(tasks, id).None? ==> r == tasks
    decreases |tasks|
  {
    if |tasks| == 0 then []
    else if tasks[0].id == id then [tasks[0].(status := ApplyChoice(input, tasks[0].status))] + tasks[1..]
    else
      var rest := UpdateStatus(tasks[1..], id, input);
      UpdateCons(tasks, id, input, rest);
      [tasks[0]] + rest
  }

  /** The step of `UpdateStatus` past a first task that does not match. */
  lemma UpdateCons(tasks: seq<Task>, id: nat, input: string, rest: seq<Task>)
    requires |tasks| > 0 && tasks[0].id != id
    requires FindIndex(tasks[1..], id).Some? ==> rest == SetStatusAt(tasks[1..], FindIndex(tasks[1..], id).value, input)
    requires FindIndex(tasks[1..], id).None? ==> rest == tasks[1..]
    ensures FindIndex(tasks, id).Some? ==> [tasks[0]] + rest == SetStatusAt(tasks, FindIndex(tasks, id).value, input)
    ensures FindIndex(tasks, id).None? ==> [tasks[0]] + rest == tasks
  {
  }

  /** An update changes nothing but the status of the first task with the
      id: length, order, every id and every title are kept, and every
      other task is identical. */
  lemma UpdateOnlyStatus(tasks: seq<Task>, id: nat, input: string)
    ensures |UpdateStatus(tasks, id, input)| == |tasks|
    ensures forall j :: 0 <= j < |tasks| ==>
      && UpdateStatus(tasks, id, input)[j].id == tasks[j].id
      && UpdateStatus(tasks, id, input)[j].title == tasks[j].title
    ensures forall j :: 0 <= j < |tasks| && UpdateStatus(tasks, id, input)[j] != tasks[j] ==>
      FindIndex(tasks, id) == Some(j)
    ensures FindIndex(tasks, id).Some? ==>
      var i := FindIndex(tasks, id).value;
      UpdateStatus(tasks, id, input)[i].status == ApplyChoice(input, tasks[i].status)
  {
  }

  /** Menu entry 4 once the id has parsed: drop the first task with that id
      (`Vec::remove` at the position `iter().position` finds). */
  function Delete(tasks: seq<Task>, id: nat): (r: seq<Task>)
    ensures FindIndex(tasks, id).Some? ==>
      var i := FindIndex(tasks, id).value;
      r == tasks[..i] + tasks[i + 1..]
    ensures FindIndex(tasks, id).None? ==> r == tasks
    decreases |tasks|
  {
    if |tasks| == 0 then []
    else if tasks[0].id == id then tasks[1..]
    else
      var rest := Delete(tasks[1..], id);
      DeleteCons(tasks, id, rest);
      [tasks[0]] + rest
  }

  /** The step of `Delete` past a first task that does not match. */
  lemma DeleteCons(tasks: seq<Task>, id: nat, rest: seq<Task>)
    requires |tasks| > 0 && tasks[0].id != id
    requires FindIndex(tasks[1..], id).Some? ==>
      var j := FindIndex(tasks[1..], id).value;
      rest == tasks[1..][..j] + tasks[1..][j + 1..]
    requires FindIndex(tasks[1..], id).None? ==> rest == tasks[1..]
    ensures FindIndex(tasks, id).Some? ==>
      var i := FindIndex(tasks, id).value;
      [tasks[0]] + rest == tasks[..i] + tasks[i + 1..]
    ensures FindIndex(tasks, id).None? ==> [tasks[0]] + rest == tasks
  {
  }

  /** `load_tasks`: a file that cannot be read (`None`: missing, a
      directory, unreadable, not UTF-8) gives the empty list. */
  function Load(file: Option<seq<Task>>): (r: seq<Task>)
    ensures file.None? ==> r == []
    ensures file.Some? ==> r == file.value
  {
    match file
    case None => []
    case Some(tasks) => tasks
  }

  /** Start of `main`: load, then set `next_id` to the number of loaded
      tasks plus one. The loaded state is in the session invariant exactly
      when the loaded ids are distinct and none exceeds the number of
      loaded tasks, which a delete before the last save can break. */
  function Init(file: Option<seq<Task>>): (r: State)
    ensures r.tasks == Load(file)
    ensures r.nextId == |r.tasks| + 1
    ensures Valid(r) <==> UniqueIds(r.tasks) && forall i :: 0 <= i < |r.tasks| ==> r.tasks[i].id <= |r.tasks|
  {
    var tasks := Load(file);
    State(tasks, |tasks| + 1)
  }

  /** The largest id in `tasks`, or 0 for the empty list. */
  function MaxId(tasks: seq<Task>): (m: nat)
    ensures forall i :: 0 <= i < |tasks| ==> tasks[i].id <= m
    ensures m == 0 || exists i :: 0 <= i < |tasks| && tasks[i].id == m
    decreases |tasks|
  {
    if |tasks| == 0 then 0
    else
      var last := tasks[|tasks| - 1].id;
      var m := MaxId(tasks[..|tasks| - 1]);
      if m < last then last else m
  }

  /** The initialisation that keeps ids fresh: start the counter past the
      largest loaded id instead of past the number of loaded tasks. */
  function InitFixed(file: Option<seq<Task>>): (r: State)
    ensures r.tasks == Load(file)
    ensures IdsBelow(r.tasks, r.nextId)
    ensures UniqueIds(r.tasks) ==> Valid(r)
  {
    var tasks := Load(file);
    State(tasks, MaxId(tasks) + 1)
  }

  /** Updating a status leaves every id where it was, so the session
      invariant survives. */
  lemma UpdateKeepsValid(s: State, id: nat, input: string)
    requires Valid(s)
    ensures Valid(s.(tasks := UpdateStatus(s.tasks, id, input)))
  {
  }

  /** Deleting removes exactly the found task: the survivors together with
      it are the original list, as a multiset. */
  lemma DeleteRemovesOne(tasks: seq<Task>, id: nat)
    requires FindIndex(tasks, id).Some?
    ensures |Delete(tasks, id)| == |tasks| - 1
    ensures multiset(Delete(tasks, id)) + multiset{tasks[FindIndex(tasks, id).value]} == multiset(tasks)
  {
    var i := FindIndex(tasks, id).value;
    assert Delete(tasks, id) == tasks[..i] + tasks[i + 1..];
    RemoveAtMultiset(tasks, i);
  }

  /** Removing position `i` takes exactly `tasks[i]` out of the multiset. */
  lemma RemoveAtMultiset(tasks: seq<Task>, i: nat)
    requires i < |tasks|
    ensures multiset(tasks[..i] + tasks[i + 1..]) + multiset{tasks[i]} == multiset(tasks)
  {
    assert tasks == tasks[..i] + ([tasks[i]] + tasks[i + 1..]);
  }

  /** Every task left after a delete was in the list before. */
  lemma DeleteKeepsSurvivors(tasks: seq<Task>, id: nat)
    ensures forall t :: t in Delete(tasks, id) ==> t in tasks
  {
  }

  /** With distinct ids, a delete leaves no task carrying the deleted id. */
  lemma DeleteRemovesId(tasks: seq<Task>, id: nat)
    requires UniqueIds(tasks)
    ensures forall j :: 0 <= j < |Delete(tasks, id)| ==> Delete(tasks, id)[j].id != id
  {
  }

  /** Deleting keeps the session invariant. */
  lemma DeleteKeepsValid(s: State, id: nat)
    requires Valid(s)
    ensures Valid(s.(tasks := Delete(s.tasks, id)))
  {
  }

  /** While nothing has been deleted, so that the loaded ids are 1, 2, ...,
      in order, the corrected initialisation agrees with the original. */
  lemma InitFixedAgrees(tasks: seq<Task>)
    ensures (forall i :: 0 <= i < |tasks| ==> tasks[i].id == i + 1) ==>
      MaxId(tasks) == |tasks| && InitFixed(Some(tasks)) == Init(Some(tasks))
  {
  }

  /** Id reuse across two runs of the program, as the list operations of
      `main` see it. The first run adds "a" (id 1) and "b" (id 2), deletes
      id 1 and saves only "b". The second run loads that list, so the
      counter restarts at 2, and adding "c" hands out id 2 a second time. */
  lemma IdReuseAfterReload()
    ensures Delete(Add(Add(Init(None), "a"), "b").tasks, 1) == [Task("b", Pending, 2)]
    ensures Add(Init(Some([Task("b", Pending, 2)])), "c").tasks
      == [Task("b", Pending, 2), Task("c", Pending, 2)]
    ensures !Valid(Init(Some([Task("b", Pending, 2)])))
    ensures !UniqueIds(Add(Init(Some([Task("b", Pending, 2)])), "c").tasks)
  {
    var saved := [Task("b", Pending, 2)];
    assert Add(Add(Init(None), "a"), "b").tasks == [Task("a", Pending, 1), Task("b", Pending, 2)];
    var reused := Add(Init(Some(saved)), "c").tasks;
    assert reused == [Task("b", Pending, 2), Task("c", Pending, 2)];
    assert reused[0].id == reused[1].id;
  }

  /** The corrected initialisation on the same saved list: the counter
      starts at 3, and every add keeps the ids distinct. */
  lemma NoReuseAfterReloadFixed(title: string)
    ensures InitFixed(Some([Task("b", Pending, 2)])).nextId == 3
    ensures Valid(Add(InitFixed(Some([Task("b", Pending, 2)])), title))
  {
  }

}
