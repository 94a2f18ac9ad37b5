/**
 * The board as a value: every column name mapped to the ordered cards it
 * holds. The heap classes of module Kanban are proved against the functions
 * here, and the promises of the board (fixed key set, first match by title,
 * no loss or duplication on a move, status naming the column) are proved as
 * lemmas about these functions.
 */
module BoardSpec {
  import opened Wrappers

  const ToDo: string := "To Do"
  const InProgress: string := "In Progress"
  const Done: string := "Done"

  /** The fixed key set of every board. */
  const ColumnNames: set<string> := {ToDo, InProgress, Done}

  /** What a task holds at one instant. */
  datatype Card = Card(title: string, description: string, assignedUser: Option<string>, status: string)

  /** Column name to the cards of that column, in list order. */
  type BoardView = map<string, seq<Card>>

  datatype MoveResult = MoveResult(moved: bool, board: BoardView)

  /** A sequence of board operations, as the application issues them. */
  datatype Op =
    | AddOp(title: string, description: string, assignedUser: Option<string>)
    | MoveOp(title: string, from: string, to: string)

  // ---------------------------------------------------------------------
  // Searching and removing in a list

  function Titles(cs: seq<Card>): (ts: seq<string>)
    ensures |ts| == |cs|
    ensures forall i :: 0 <= i < |cs| ==> ts[i] == cs[i].title
  {
    seq(|cs|, i requires 0 <= i < |cs| => cs[i].title)
  }

  /** Position of the first title equal to `title`, in list order. */
  function FirstMatch(titles: seq<string>, title: string): (r: Option<nat>)
    ensures r.None? <==> title !in titles
    ensures r.Some? ==> r.value < |titles| && titles[r.value] == title
    ensures r.Some? ==> forall j :: 0 <= j < r.value ==> titles[j] != title
  {
    if titles == [] then None
    else if titles[0] == title then Some(0)
    else
      match FirstMatch(titles[1..], title)
      case None => None
      case Some(k) => Some(k + 1)
  }

  /** The list without its element at position `i`; the others keep their order. */
  function RemoveAt<T>(s: seq<T>, i: nat): (r: seq<T>)
    requires i < |s|
    ensures |r| == |s| - 1
    ensures forall j :: 0 <= j < i ==> r[j] == s[j]
    ensures forall j :: i <= j < |r| ==> r[j] == s[j + 1]
  {
    s[..i] + s[i + 1..]
  }

  /** Python's `list.remove(x)`: drop the first element equal to `x`. */
  function RemoveFirst<T(==)>(s: seq<T>, x: T): (r: seq<T>)
    requires x in s
    ensures |r| == |s| - 1
  {
    if s[0] == x then s[1..] else [s[0]] + RemoveFirst(s[1..], x)
  }

  /**
   * Removing by equality drops the element at position `i` when no earlier
   * element equals it.
   */
  lemma {:induction false} RemoveFirstAt<T>(s: seq<T>, x: T, i: nat)
    requires i < |s| && s[i] == x
    requires forall j :: 0 <= j < i ==> s[j] != x
    ensures RemoveFirst(s, x) == RemoveAt(s, i)
  {
    if i > 0 {
      RemoveFirstAt(s[1..], x, i - 1);
      assert s[1..][..i - 1] + s[1..][i..] == s[1..i] + s[i + 1..];
      assert [s[0]] + s[1..i] == s[..i];
    }
  }

  lemma RemoveAtMultiset<T>(s: seq<T>, i: nat)
    requires i < |s|
    ensures multiset(RemoveAt(s, i)) + multiset{s[i]} == multiset(s)
  {
    assert s == s[..i] + [s[i]] + s[i + 1..];
  }

  /** The lists of the three columns, in board order. */
  function Flatten<T>(c: map<string, seq<T>>): seq<T>
    requires ColumnNames <= c.Keys
  {
    c[ToDo] + c[InProgress] + c[Done]
  }

  /**
   * Take the element at position `i` out of list `from`, then append `x` to
   * list `to` (which may be `from` itself).
   */
  function Transfer<T>(c: map<string, seq<T>>, from: string, to: string, i: nat, x: T): (r: map<string, seq<T>>)
    requires from in c && to in c && i < |c[from]|
    ensures r.Keys == c.Keys
    ensures r[to] == (if from == to then RemoveAt(c[from], i) else c[to]) + [x]
    ensures from != to ==> r[from] == RemoveAt(c[from], i)
    ensures forall k :: k in c && k != from && k != to ==> r[k] == c[k]
  {
    var rest := c[from := RemoveAt(c[from], i)];
    rest[to := rest[to] + [x]]
  }

  lemma FlattenUpdate<T>(c: map<string, seq<T>>, k: string, s: seq<T>)
    requires ColumnNames <= c.Keys && k in ColumnNames
    ensures multiset(Flatten(c[k := s])) + multiset(c[k]) == multiset(Flatten(c)) + multiset(s)
  {
  }

  /** Moving an element from one list to another keeps the multiset of all elements. */
  lemma TransferMultiset<T>(c: map<string, seq<T>>, from: string, to: string, i: nat)
    requires c.Keys == ColumnNames && from in c && to in c && i < |c[from]|
    ensures multiset(Flatten(Transfer(c, from, to, i, c[from][i]))) == multiset(Flatten(c))
  {
    var x := c[from][i];
    var s1 := RemoveAt(c[from], i);
    var rest := c[from := s1];
    FlattenUpdate(c, from, s1);
    FlattenUpdate(rest, to, rest[to] + [x]);
    RemoveAtMultiset(c[from], i);
    BagTransfer(multiset(Flatten(c)), multiset(Flatten(rest)), multiset(Flatten(Transfer(c, from, to, i, x))),
      multiset(c[from]), multiset(s1), multiset(rest[to]), multiset(rest[to] + [x]), multiset{x});
  }

  /** No element is held twice across the three lists. */
  predicate Unique<T(==)>(c: map<string, seq<T>>)
    requires ColumnNames <= c.Keys
  {
    forall x :: x in multiset(Flatten(c)) ==> multiset(Flatten(c))[x] == 1
  }

  /** Moving an element keeps the lists free of repeats. */
  lemma TransferUnique<T>(c: map<string, seq<T>>, from: string, to: string, i: nat)
    requires c.Keys == ColumnNames && from in c && to in c && i < |c[from]|
    requires Unique(c)
    ensures Unique(Transfer(c, from, to, i, c[from][i]))
  {
    TransferMultiset(c, from, to, i);
  }

  /** An element of lists free of repeats is held nowhere but at its own position. */
  lemma HeldOnce<T>(c: map<string, seq<T>>, from: string, i: nat)
    requires c.Keys == ColumnNames && from in c && i < |c[from]|
    requires Unique(c)
    ensures c[from][i] !in RemoveAt(c[from], i)
    ensures forall k :: k in c && k != from ==> c[from][i] !in c[k]
  {
    var x := c[from][i];
    RemoveAtMultiset(c[from], i);
    assert multiset(Flatten(c)) == multiset(c[ToDo]) + multiset(c[InProgress]) + multiset(c[Done]);
    assert x in multiset(Flatten(c));
  }

  // ---------------------------------------------------------------------
  // Boards

  /** A board whose key set is the fixed one. */
  predicate WellFormed(b: BoardView) {
    b.Keys == ColumnNames
  }

  /** Every card's status names the column that holds it. */
  predicate Consistent(b: BoardView) {
    forall k, i :: k in b && 0 <= i < |b[k]| ==> b[k][i].status == k
  }

  function TaskCount(b: BoardView): nat
    requires WellFormed(b)
  {
    |b[ToDo]| + |b[InProgress]| + |b[Done]|
  }

  /** All titles on the board, counted with multiplicity. */
  function TitleBag(b: BoardView): multiset<string>
    requires WellFormed(b)
  {
    multiset(Titles(b[ToDo])) + multiset(Titles(b[InProgress])) + multiset(Titles(b[Done]))
  }

  /** `Board()`: the three columns, each empty. */
  function NewBoard(): (b: BoardView)
    ensures WellFormed(b)
    ensures forall k :: k in b ==> b[k] == []
  {
    map[ToDo := [], InProgress := [], Done := []]
  }

  /** `Task(title, description, assigned_user)` as a value. */
  function NewCard(title: string, description: string, assignedUser: Option<string>): (c: Card)
    ensures c.status == ToDo
    ensures c.title == title && c.description == description && c.assignedUser == assignedUser
  {
    Card(title, description, assignedUser, ToDo)
  }

  /** `Board.add_task`: the card goes to the tail of "To Do". */
  function AddTask(b: BoardView, c: Card): (r: BoardView)
    requires ToDo in b
    ensures r.Keys == b.Keys
    ensures |r[ToDo]| == |b[ToDo]| + 1 && r[ToDo][..|b[ToDo]|] == b[ToDo] && r[ToDo][|b[ToDo]|] == c
  {
    b[ToDo := b[ToDo] + [c]]
  }

  /** `Board.move_task`. */
  function Move(b: BoardView, title: string, from: string, to: string): (r: MoveResult)
    ensures r.board.Keys == b.Keys
    ensures !r.moved ==> r.board == b
    ensures r.moved ==> to in r.board && |r.board[to]| > 0 && r.board[to][|r.board[to]| - 1].status == to
  {
    if from in b && to in b then
      match FirstMatch(Titles(b[from]), title)
      case None => MoveResult(false, b)
      case Some(i) => MoveResult(true, Transfer(b, from, to, i, b[from][i].(status := to)))
    else
      MoveResult(false, b)
  }

  // ---------------------------------------------------------------------
  // Properties of AddTask

  lemma AddTaskAppends(b: BoardView, c: Card)
    requires WellFormed(b)
    ensures WellFormed(AddTask(b, c))
    ensures AddTask(b, c)[ToDo] == b[ToDo] + [c]
    ensures AddTask(b, c)[InProgress] == b[InProgress] && AddTask(b, c)[Done] == b[Done]
    ensures TaskCount(AddTask(b, c)) == TaskCount(b) + 1
  {
  }

  lemma AddTaskKeepsConsistent(b: BoardView, c: Card)
    requires ToDo in b && Consistent(b) && c.status == ToDo
    ensures Consistent(AddTask(b, c))
  {
  }

  // ---------------------------------------------------------------------
  // Properties of Move

  /** Move fails exactly when a column name is unknown or `from` holds no such title; then nothing changes. */
  lemma MoveFailure(b: BoardView, title: string, from: string, to: string)
    ensures !Move(b, title, from, to).moved <==>
      from !in b || to !in b || title !in Titles(b[from])
    ensures !Move(b, title, from, to).moved ==> Move(b, title, from, to).board == b
  {
  }

  /**
   * A successful move takes the first card titled `title` out of `from`
   * (the rest keep their order) and appends it, restamped with status `to`,
   * at the tail of `to`; no other column changes.
   */
  lemma MoveSuccess(b: BoardView, title: string, from: string, to: string, i: nat)
    requires from in b && to in b
    requires i < |b[from]| && b[from][i].title == title
    requires forall j :: 0 <= j < i ==> b[from][j].title != title
    ensures Move(b, title, from, to).moved
    ensures var r := Move(b, title, from, to).board;
      && r.Keys == b.Keys
      && |r[to]| > 0 && r[to][|r[to]| - 1] == b[from][i].(status := to)
      && r[to][..|r[to]| - 1] == (if from == to then RemoveAt(b[from], i) else b[to])
      && (from != to ==> r[from] == RemoveAt(b[from], i))
      && forall k :: k in b && k != from && k != to ==> r[k] == b[k]
  {
    assert Titles(b[from])[i] == title;
  }

  lemma TitlesAppend(s: seq<Card>, c: Card)
    ensures Titles(s + [c]) == Titles(s) + [c.title]
  {
  }

  lemma TitlesRemoveAt(s: seq<Card>, i: nat)
    requires i < |s|
    ensures Titles(RemoveAt(s, i)) == RemoveAt(Titles(s), i)
  {
  }

  lemma RemovedListBag(s: seq<Card>, i: nat)
    requires i < |s|
    ensures multiset(Titles(RemoveAt(s, i))) + multiset{s[i].title} == multiset(Titles(s))
  {
    TitlesRemoveAt(s, i);
    RemoveAtMultiset(Titles(s), i);
  }

  /** Replacing one column's list changes the title bag by exactly the two lists' bags. */
  lemma BagUpdate(b: BoardView, k: string, s: seq<Card>)
    requires WellFormed(b) && k in b
    ensures WellFormed(b[k := s])
    ensures TitleBag(b[k := s]) + multiset(Titles(b[k])) == TitleBag(b) + multiset(Titles(s))
    ensures TaskCount(b[k := s]) + |b[k]| == TaskCount(b) + |s|
  {
  }

  /** A move never loses or duplicates a task: the count and the titles on the board are kept. */
  lemma MoveConserves(b: BoardView, title: string, from: string, to: string)
    requires WellFormed(b)
    ensures WellFormed(Move(b, title, from, to).board)
    ensures TaskCount(Move(b, title, from, to).board) == TaskCount(b)
    ensures TitleBag(Move(b, title, from, to).board) == TitleBag(b)
  {
    var r := Move(b, title, from, to);
    if r.moved {
      var i := FirstMatch(Titles(b[from]), title).value;
      var c := b[from][i].(status := to);
      var s1 := RemoveAt(b[from], i);
      var rest := b[from := s1];
      assert r.board == rest[to := rest[to] + [c]];
      BagUpdate(b, from, s1);
      BagUpdate(rest, to, rest[to] + [c]);
      RemovedListBag(b[from], i);
      TitlesAppend(rest[to], c);
      BagTransfer(TitleBag(b), TitleBag(rest), TitleBag(r.board),
        multiset(Titles(b[from])), multiset(Titles(s1)),
        multiset(Titles(rest[to])), multiset(Titles(rest[to] + [c])), multiset{c.title});
    }
  }

  /** Bookkeeping of a transfer: one title leaves a list and enters another. */
  lemma BagTransfer<T>(b: multiset<T>, rest: multiset<T>, r: multiset<T>,
                       f: multiset<T>, f1: multiset<T>,
                       g: multiset<T>, g1: multiset<T>, t: multiset<T>)
    requires rest + f == b + f1 && f1 + t == f
    requires r + g == rest + g1 && g1 == g + t
    ensures r == b
  {
    forall x ensures r[x] == b[x] {
      assert (rest + f)[x] == (b + f1)[x] && (f1 + t)[x] == f[x];
      assert (r + g)[x] == (rest + g1)[x] && g1[x] == (g + t)[x];
    }
  }

  lemma MoveKeepsConsistent(b: BoardView, title: string, from: string, to: string)
    requires Consistent(b)
    ensures Consistent(Move(b, title, from, to).board)
  {
    var r := Move(b, title, from, to);
    if r.moved {
      var i := FirstMatch(Titles(b[from]), title).value;
      var rest := b[from := RemoveAt(b[from], i)];
      assert Consistent(rest) by {
        forall k, j | k in rest && 0 <= j < |rest[k]|
          ensures rest[k][j].status == k
        {
          if k == from {
            assert rest[k][j] == b[from][if j < i then j else j + 1];
          }
        }
      }
    }
  }

  // ---------------------------------------------------------------------
  // Boards reachable from a fresh one

  function Step(b: BoardView, op: Op): (r: BoardView)
    requires WellFormed(b)
    ensures WellFormed(r)
  {
    match op
    case AddOp(title, description, user) => AddTask(b, NewCard(title, description, user))
    case MoveOp(title, from, to) => Move(b, title, from, to).board
  }

  /** The board after the operations `ops`, applied in order to a fresh board. */
  function Run(ops: seq<Op>): (b: BoardView)
    ensures WellFormed(b)
    decreases |ops|
  {
    if ops == [] then NewBoard() else Step(Run(ops[..|ops| - 1]), ops[|ops| - 1])
  }

  /** Number of tasks the operations create. */
  function AddCount(ops: seq<Op>): nat
    decreases |ops|
  {
    if ops == [] then 0 else AddCount(ops[..|ops| - 1]) + (if ops[|ops| - 1].AddOp? then 1 else 0)
  }

  /** On every reachable board, each task's status names the column that holds it. */
  lemma {:induction false} RunConsistent(ops: seq<Op>)
    ensures Consistent(Run(ops))
    decreases |ops|
  {
    if ops != [] {
      var prefix := ops[..|ops| - 1];
      RunConsistent(prefix);
      match ops[|ops| - 1]
      case AddOp(title, description, user) =>
        AddTaskKeepsConsistent(Run(prefix), NewCard(title, description, user));
      case MoveOp(title, from, to) =>
        MoveKeepsConsistent(Run(prefix), title, from, to);
    }
  }

  /** Tasks are only created by adding and never lost or duplicated by moving. */
  lemma {:induction false} RunCount(ops: seq<Op>)
    ensures TaskCount(Run(ops)) == AddCount(ops)
    decreases |ops|
  {
    if ops != [] {
      var prefix := ops[..|ops| - 1];
      RunCount(prefix);
      match ops[|ops| - 1]
      case AddOp(title, description, user) =>
        AddTaskAppends(Run(prefix), NewCard(title, description, user));
      case MoveOp(title, from, to) =>
        MoveConserves(Run(prefix), title, from, to);
    }
  }

  /**
   * Add "X", move it from "To Do" to "In Progress" (succeeds,
   * status "In Progress"), then the same move again (fails, board unchanged).
   */
  lemma MoveTwiceScenario(d: string)
    ensures var b1 := AddTask(NewBoard(), NewCard("X", d, None));
      var m1 := Move(b1, "X", ToDo, InProgress);
      var m2 := Move(m1.board, "X", ToDo, InProgress);
      && m1.moved && m1.board[ToDo] == [] && m1.board[InProgress] == [Card("X", d, None, InProgress)]
      && !m2.moved && m2.board == m1.board
  {
    var b1 := AddTask(NewBoard(), NewCard("X", d, None));
    assert Titles(b1[ToDo]) == ["X"];
    var m1 := Move(b1, "X", ToDo, InProgress);
    assert Titles(m1.board[ToDo]) == [];
  }
}
