/**
 * The two rules the window of the application applies before it calls the
 * board: which column a task's move button sends it to, and the title check
 * of the "Add Task" form.
 */
module App {
  import opened Wrappers
  import opened Text
  import opened BoardSpec
  import opened Kanban

  /** The columns in the order the move buttons walk them. */
  const Workflow: seq<string> := [ToDo, InProgress, Done]

  /**
   * The column a task shown in column `name` is moved to: "To Do" leads to
   * "In Progress", every other name except "Done" leads to "Done", and a
   * task in "Done" gets no move button.
   */
  function NextColumn(name: string): (next: Option<string>)
    ensures next == None <==> name == Done
    ensures forall k :: 0 <= k < |Workflow| - 1 && name == Workflow[k] ==> next == Some(Workflow[k + 1])
    ensures name !in ColumnNames ==> next == Some(Done)
  {
    if name == Done then None
    else if name == ToDo then Some(InProgress)
    else Some(Done)
  }

  /**
   * Walking the move buttons from a column of the board visits each later
   * column in turn and ends in "Done" after at most two moves.
   */
  lemma NextColumnWalk(name: string)
    requires name in ColumnNames
    ensures name == Done || NextColumn(name).value in ColumnNames
    ensures name == Done
         || NextColumn(name).value == Done
         || NextColumn(NextColumn(name).value) == Some(Done)
  {
  }

  /**
   * A move button always works. The button hands the board the task's title,
   * not the task, so the board moves the first task of the column with that
   * title (the task itself, unless an earlier one shares its title); that
   * task leaves the column and lands at the tail of the next column with
   * that column as its status.
   */
  lemma ForwardMoveSucceeds(b: BoardView, name: string, i: nat)
    requires WellFormed(b) && name in b && name != Done && i < |b[name]|
    ensures var title := b[name][i].title;
      var to := NextColumn(name).value;
      var first := FirstMatch(Titles(b[name]), title).value;
      var r := Move(b, title, name, to);
      && title in Titles(b[name])
      && first <= i && b[name][first].title == title
      && r.moved
      && r.board[to] == b[to] + [b[name][first].(status := to)]
      && r.board[name] == RemoveAt(b[name], first)
  {
    var title := b[name][i].title;
    var to := NextColumn(name).value;
    assert Titles(b[name])[i] == title;
    var first := FirstMatch(Titles(b[name]), title).value;
    MoveSuccess(b, title, name, to, first);
    var r := Move(b, title, name, to).board;
    assert r[to] == r[to][..|r[to]| - 1] + [r[to][|r[to]| - 1]];
  }

  /**
   * `add_task` of the window: strip the typed title and description; a blank
   * title is refused and nothing changes; otherwise a new task with no
   * assigned user joins the tail of "To Do".
   */
  method SubmitTask(board: Board, rawTitle: string, rawDescription: string) returns (created: Task?)
    requires board.Valid()
    modifies board.columns[ToDo]
    ensures created == null <==> AllSpace(rawTitle)
    ensures created == null ==> unchanged(board.columns[ToDo])
    ensures created != null ==>
      && fresh(created)
      && created.View() == NewCard(Strip(rawTitle), Strip(rawDescription), None)
      && board.Contents() == old(board.Contents())[ToDo := old(board.columns[ToDo].tasks) + [created]]
      && board.View() == BoardSpec.AddTask(old(board.View()), created.View())
    ensures old(board.Distinct()) ==> board.Distinct()
  {
    var title := Strip(rawTitle);
    var description := Strip(rawDescription);
    if title == [] {
      created := null;
    } else {
      created := AddNewTask(board, title, description);
    }
  }

  /** `Task(title, description)` put on the board by `board.add_task`. */
  method AddNewTask(board: Board, title: string, description: string) returns (task: Task)
    requires board.Valid()
    modifies board.columns[ToDo]
    ensures fresh(task)
    ensures task.View() == NewCard(title, description, None)
    ensures board.Contents() == old(board.Contents())[ToDo := old(board.columns[ToDo].tasks) + [task]]
    ensures board.View() == BoardSpec.AddTask(old(board.View()), task.View())
    ensures old(board.Distinct()) ==> board.Distinct()
  {
    task := new Task(title, description, None);
    assert task !in board.Tasks();
    board.AddTask(task);
  }

  /**
   * A title the window accepts is the typed text with only surrounding
   * whitespace removed: typing it with other padding gives the same title.
   */
  lemma AcceptedTitle(raw: string)
    requires !AllSpace(raw)
    ensures var t := Strip(raw);
      && t != []
      && raw == raw[..LeadingSpace(raw)] + t + raw[LeadingSpace(raw) + |t|..]
      && forall pre, post :: AllSpace(pre) && AllSpace(post) ==> Strip(pre + t + post) == t
  {
    var t := Strip(raw);
    var lo := LeadingSpace(raw);
    assert raw[lo..lo + |t|] == t;
    assert raw == raw[..lo] + raw[lo..lo + |t|] + raw[lo + |t|..];
    forall pre, post | AllSpace(pre) && AllSpace(post) ensures Strip(pre + t + post) == t {
      StripPadded(pre, t, post);
    }
  }
}
