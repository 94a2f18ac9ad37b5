/**
 * The board state of main.py: `Task`, `Column` and `Board` as classes whose
 * fields the operations update in place. Each operation states its new heap
 * state exactly and, through `View()`, the value-level board of module
 * BoardSpec it produces.
 */
module Kanban {
  import opened Wrappers
  import opened BoardSpec

  class Task {
    const title: string
    const description: string
    const assignedUser: Option<string>
    var status: string

    /** `Task(title, description, assigned_user)`: every new task starts in "To Do". */
    constructor (title: string, description: string, assignedUser: Option<string>)
      ensures this.title == title && this.description == description
      ensures this.assignedUser == assignedUser
      ensures status == ToDo
    {
      this.title := title;
      this.description := description;
      this.status := ToDo;
      this.assignedUser := assignedUser;
    }

    /** The task's fields at this instant. */
    ghost function View(): Card
      reads this
    {
      Card(title, description, assignedUser, status)
    }
  }

  function TaskTitles(ts: seq<Task>): (titles: seq<string>)
    ensures |titles| == |ts|
    ensures forall i :: 0 <= i < |ts| ==> titles[i] == ts[i].title
  {
    seq(|ts|, i requires 0 <= i < |ts| => ts[i].title)
  }

  ghost function CardsOf(ts: seq<Task>): (cs: seq<Card>)
    reads set t | t in ts
    ensures |cs| == |ts|
    ensures forall i :: 0 <= i < |ts| ==> cs[i] == ts[i].View()
    ensures Titles(cs) == TaskTitles(ts)
  {
    seq(|ts|, i requires 0 <= i < |ts| reads set t | t in ts => ts[i].View())
  }

  class Column {
    const name: string
    var tasks: seq<Task>

    constructor (name: string)
      ensures this.name == name && tasks == []
    {
      this.name := name;
      tasks := [];
    }

    /** `Column.add_task`: append, with no duplicate check. */
    method AddTask(task: Task)
      modifies this
      ensures tasks == old(tasks) + [task]
    {
      tasks := tasks + [task];
    }

    /**
     * `Column.remove_task`: take out and return the first task titled
     * `title`, or return null and change nothing when there is none.
     */
    method RemoveTask(title: string) returns (removed: Task?)
      modifies this
      ensures removed == null <==> title !in TaskTitles(old(tasks))
      ensures removed == null ==> unchanged(this)
      ensures title in TaskTitles(old(tasks)) ==>
        var i := FirstMatch(TaskTitles(old(tasks)), title).value;
        removed == old(tasks)[i] && tasks == RemoveAt(old(tasks), i)
    {
      var i := 0;
      while i < |tasks|
        invariant i <= |tasks| && tasks == old(tasks)
        invariant forall j :: 0 <= j < i ==> tasks[j].title != title
      {
        var task := tasks[i];
        if task.title == title {
          RemoveFirstAt(tasks, task, i);
          assert FirstMatch(TaskTitles(tasks), title) == Some(i);
          // Python's list.remove: by identity, the first occurrence of `task`
          tasks := RemoveFirst(tasks, task);
          return task;
        }
        i := i + 1;
      }
      assert TaskTitles(tasks) == TaskTitles(old(tasks));
      return null;
    }
  }

  class Board {
    const columns: map<string, Column>

    /** The fixed key set, each column named after its key. */
    ghost predicate Valid() {
      columns.Keys == ColumnNames && forall k :: k in columns ==> columns[k].name == k
    }

    /** Column name to the task objects it holds. */
    ghost function Contents(): (c: map<string, seq<Task>>)
      requires Valid()
      reads columns.Values
      ensures c.Keys == ColumnNames
    {
      map[ToDo := columns[ToDo].tasks, InProgress := columns[InProgress].tasks, Done := columns[Done].tasks]
    }

    /** Every task on the board, column after column. */
    ghost function AllTasks(): seq<Task>
      requires Valid()
      reads columns.Values
    {
      Flatten(Contents())
    }

    ghost function Tasks(): set<Task>
      requires Valid()
      reads columns.Values
    {
      set t | t in AllTasks()
    }

    /** The board as a value. */
    ghost function View(): BoardView
      requires Valid()
      reads columns.Values, Tasks()
    {
      map[ToDo := CardsOf(columns[ToDo].tasks), InProgress := CardsOf(columns[InProgress].tasks),
          Done := CardsOf(columns[Done].tasks)]
    }

    /** No task object is held twice on the board. */
    ghost predicate Distinct()
      requires Valid()
      reads columns.Values
    {
      Unique(Contents())
    }

    /** `Board()`: three empty columns "To Do", "In Progress", "Done". */
    constructor ()
      ensures Valid()
      ensures forall k :: k in columns ==> fresh(columns[k])
      ensures View() == NewBoard()
      ensures Distinct()
    {
      var todo := new Column(ToDo);
      var doing := new Column(InProgress);
      var done := new Column(Done);
      columns := map[ToDo := todo, InProgress := doing, Done := done];
      new;
      assert AllTasks() == [];
    }

    /** `Board.add_task`: the task goes to the tail of "To Do". */
    method AddTask(task: Task)
      requires Valid()
      modifies columns[ToDo]
      ensures Contents() == old(Contents())[ToDo := old(columns[ToDo].tasks) + [task]]
      ensures View() == BoardSpec.AddTask(old(View()), task.View())
      ensures multiset(AllTasks()) == old(multiset(AllTasks())) + multiset{task}
      ensures old(Distinct()) && task !in old(Tasks()) ==> Distinct()
    {
      ghost var c0 := Contents();
      columns[ToDo].AddTask(task);
      assert CardsOf(columns[ToDo].tasks) == old(CardsOf(columns[ToDo].tasks)) + [task.View()];
      FlattenUpdate(c0, ToDo, c0[ToDo] + [task]);
    }

    /**
     * `Board.move_task`: when both names are columns and `from` holds a task
     * titled `title`, move the first such task to the tail of `to` with
     * status `to`; otherwise change nothing and report failure.
     */
    method MoveTask(title: string, from: string, to: string) returns (ok: bool)
      requires Valid()
      modifies columns.Values, Tasks()
      ensures ok <==> from in columns && to in columns && title in TaskTitles(old(columns[from].tasks))
      ensures !ok ==> unchanged(columns.Values) && unchanged(Tasks())
      ensures ok ==>
        var before := old(columns[from].tasks);
        var i := FirstMatch(TaskTitles(before), title).value;
        var moved := before[i];
        && (from != to ==> columns[from].tasks == RemoveAt(before, i))
        && columns[to].tasks == (if from == to then RemoveAt(before, i) else old(columns[to].tasks)) + [moved]
        && moved.status == to
        && forall t :: t in old(Tasks()) && t != moved ==> t.status == old(t.status)
      ensures forall k :: k in columns && k != from && k != to ==> columns[k].tasks == old(columns[k].tasks)
    {
      ok := false;
      if from in columns && to in columns {
        var moved := columns[from].RemoveTask(title);
        if moved != null {
          moved.status := to;
          columns[to].AddTask(moved);
          ok := true;
        }
      }
    }

    /**
     * What `MoveTask` means for the board as a value: any change of state
     * that meets its contract keeps every task object on the board, and on a
     * board holding no task twice it turns the view into `Move`'s result,
     * reporting `Move`'s outcome.
     */
    twostate lemma MoveTaskIsMove(title: string, from: string, to: string, ok: bool)
      requires Valid()
      requires ok <==> from in columns && to in columns && title in TaskTitles(old(columns[from].tasks))
      requires !ok ==> unchanged(columns.Values) && unchanged(old(Tasks()))
      requires ok ==>
        var before := old(columns[from].tasks);
        var i := FirstMatch(TaskTitles(before), title).value;
        var moved := before[i];
        && (from != to ==> columns[from].tasks == RemoveAt(before, i))
        && columns[to].tasks == (if from == to then RemoveAt(before, i) else old(columns[to].tasks)) + [moved]
        && moved.status == to
        && forall t :: t in old(Tasks()) && t != moved ==> t.status == old(t.status)
      requires forall k :: k in columns && k != from && k != to ==> columns[k].tasks == old(columns[k].tasks)
      ensures ok ==>
        var i := FirstMatch(TaskTitles(old(columns[from].tasks)), title).value;
        Contents() == Transfer(old(Contents()), from, to, i, old(columns[from].tasks)[i])
      ensures multiset(AllTasks()) == old(multiset(AllTasks()))
      ensures ok == Move(old(View()), title, from, to).moved
      ensures old(Distinct()) ==> Distinct() && View() == Move(old(View()), title, from, to).board
    {
      if from in columns && to in columns {
        assert old(Titles(View()[from]) == TaskTitles(columns[from].tasks));
      }
      if ok {
        var i := FirstMatch(TaskTitles(old(columns[from].tasks)), title).value;
        MovedContents(from, to, i, old(columns[from].tasks)[i]);
        MovedIsMove(from, to, i, old(columns[from].tasks)[i]);
      } else {
        Unmoved();
      }
    }

    /** A board none of whose objects changed shows the same contents and view. */
    twostate lemma Unmoved()
      requires Valid() && unchanged(columns.Values) && unchanged(old(Tasks()))
      ensures Contents() == old(Contents()) && View() == old(View())
    {
    }

    /** The value-level effect of moving the task at position `i` of `from`. */
    twostate lemma MovedIsMove(new from: string, new to: string, new i: nat, new moved: Task)
      requires Valid() && from in columns && to in columns
      requires i < |old(columns[from].tasks)| && moved == old(columns[from].tasks)[i]
      requires Contents() == Transfer(old(Contents()), from, to, i, moved)
      requires moved.status == to
      requires forall t :: t in old(Tasks()) && t != moved ==> t.status == old(t.status)
      ensures multiset(AllTasks()) == old(multiset(AllTasks()))
      ensures old(Distinct()) ==> Distinct() && View() == Transfer(old(View()), from, to, i, old(View())[from][i].(status := to))
    {
      ghost var c0 := old(Contents());
      ghost var v0: BoardView := old(View());
      assert from in c0 && to in c0 && c0[from] == old(columns[from].tasks);
      if Unique(c0) {
        OldCards(moved);
        HeldOnce(c0, from, i);
        assert v0[from][i] == old(moved.View());
        MovedView(c0, v0, from, to, i, moved);
        TransferUnique(c0, from, to, i);
      }
      TransferMultiset(c0, from, to, i);
    }

    /** A move changes no card but the moved task's own. */
    twostate lemma OldCards(moved: Task)
      requires Valid()
      requires forall t :: t in old(Tasks()) && t != moved ==> t.status == old(t.status)
      ensures forall k, j :: k in old(Contents()) && 0 <= j < |old(Contents())[k]| && old(Contents())[k][j] != moved ==>
        old(Contents())[k][j].View() == old(View())[k][j]
    {
      forall k, j | k in old(Contents()) && 0 <= j < |old(Contents())[k]| && old(Contents())[k][j] != moved
        ensures old(Contents())[k][j].View() == old(View())[k][j]
      {
        var t := old(columns[k].tasks[j]);
        assert t in old(Tasks());
      }
    }

    /** The lists after a move, column by column, make up `Transfer` of the lists before. */
    twostate lemma MovedContents(new from: string, new to: string, new i: nat, new moved: Task)
      requires Valid() && from in columns && to in columns
      requires i < |old(columns[from].tasks)| && moved == old(columns[from].tasks)[i]
      requires from != to ==> columns[from].tasks == RemoveAt(old(columns[from].tasks), i)
      requires columns[to].tasks == (if from == to then RemoveAt(old(columns[from].tasks), i) else old(columns[to].tasks)) + [moved]
      requires forall k :: k in columns && k != from && k != to ==> columns[k].tasks == old(columns[k].tasks)
      ensures Contents() == Transfer(old(Contents()), from, to, i, moved)
    {
      var c0 := old(Contents());
      var c1 := Transfer(c0, from, to, i, moved);
      forall k | k in ColumnNames
        ensures Contents()[k] == c1[k]
      {
        assert c0[k] == old(columns[k].tasks);
      }
    }

    /**
     * The view after a move, from the object-level facts about it: every task
     * other than the moved one shows the card it showed before, and the moved
     * one is held nowhere else.
     */
    lemma MovedView(c0: map<string, seq<Task>>, v0: BoardView, from: string, to: string, i: nat, moved: Task)
      requires Valid() && c0.Keys == ColumnNames && v0.Keys == ColumnNames
      requires forall k :: k in c0 ==> |v0[k]| == |c0[k]|
      requires from in c0 && to in c0 && i < |c0[from]| && moved == c0[from][i]
      requires moved !in RemoveAt(c0[from], i)
      requires forall k :: k in c0 && k != from ==> moved !in c0[k]
      requires forall k, j :: k in c0 && 0 <= j < |c0[k]| && c0[k][j] != moved ==> c0[k][j].View() == v0[k][j]
      requires Contents() == Transfer(c0, from, to, i, moved)
      requires moved.View() == v0[from][i].(status := to)
      ensures View() == Transfer(v0, from, to, i, v0[from][i].(status := to))
    {
      var m: BoardView := Transfer(v0, from, to, i, v0[from][i].(status := to));
      forall k | k in ColumnNames
        ensures View()[k] == m[k]
      {
        var kept := if k == from then RemoveAt(c0[from], i) else c0[k];
        var shown := if k == from then RemoveAt(v0[from], i) else v0[k];
        if k == from {
          RemovedCards(c0[from], v0[from], i, moved);
        } else {
          KeptCards(c0[k], v0[k], moved);
        }
        if k == to {
          CardsOfAppend(kept, moved);
        }
      }
    }
  }

  lemma CardsOfAppend(ts: seq<Task>, t: Task)
    ensures CardsOf(ts + [t]) == CardsOf(ts) + [t.View()]
  {
  }

  /** A list none of whose tasks is `moved` shows the cards `cs` shows wherever they agree off `moved`. */
  lemma KeptCards(ts: seq<Task>, cs: seq<Card>, moved: Task)
    requires |ts| == |cs| && moved !in ts
    requires forall j :: 0 <= j < |ts| && ts[j] != moved ==> ts[j].View() == cs[j]
    ensures CardsOf(ts) == cs
  {
  }

  /** Taking `moved` out of a list takes its card out of the list's cards. */
  lemma RemovedCards(ts: seq<Task>, cs: seq<Card>, i: nat, moved: Task)
    requires |ts| == |cs| && i < |ts| && ts[i] == moved && moved !in RemoveAt(ts, i)
    requires forall j :: 0 <= j < |ts| && ts[j] != moved ==> ts[j].View() == cs[j]
    ensures CardsOf(RemoveAt(ts, i)) == RemoveAt(cs, i)
  {
    var r := RemoveAt(ts, i);
    forall j | 0 <= j < |r|
      ensures r[j].View() == RemoveAt(cs, i)[j]
    {
      assert r[j] == ts[if j < i then j else j + 1];
    }
  }
}
