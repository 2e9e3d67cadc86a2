/** The task entity of `src/main.rs`: the three-valued status, the task
    record, the constructor `add_task` and the status menu of
    `update_task_status`. */
module Tasks {

  import opened Text

  datatype Status = Pending | InProgress | Completed

  /** A task. The source stores the id as `u64`; here it is a `nat`. */
  datatype Task = Task(title: string, status: Status, id: nat)

  /** `add_task`: a new task carries exactly the given title and id and
      always starts out Pending. */
  function NewTask(title: string, id: nat): (t: Task)
    ensures t.title == title && t.id == id
    ensures t.status == Pending
  {
    Task(title, Pending, id)
  }

  /** The number under which the status menu lists `st`. */
  function MenuNumber(st: Status): (n: string)
    ensures Trimmed(n)
  {
    match st
    case Pending => "1"
    case InProgress => "2"
    case Completed => "3"
  }

  /** The status a task has after the user answers the status menu with
      the line `input` while the task is `current`: the trimmed answer
      "1", "2" or "3" selects a status, anything else keeps `current`. */
  function ApplyChoice(input: string, current: Status): (r: Status)
    ensures Trim(input) in {"1", "2", "3"} ==> MenuNumber(r) == Trim(input)
    ensures Trim(input) !in {"1", "2", "3"} ==> r == current
    ensures r != current ==> Trim(input) == MenuNumber(r)
  {
    var answer := Trim(input);
    if answer == "1" then Pending
    else if answer == "2" then InProgress
    else if answer == "3" then Completed
    else current
  }

  /** Answering with the number the menu shows for `st`, surrounded by any
      whitespace (the newline `read_line` keeps, say), selects `st`
      whatever the current status. */
  lemma {:induction false} ChooseMenuNumber(pre: string, st: Status, post: string, current: Status)
    requires AllWhitespace(pre) && AllWhitespace(post)
    ensures ApplyChoice(pre + MenuNumber(st) + post, current) == st
  {
    TrimPadded(pre, MenuNumber(st), post);
  }

}
