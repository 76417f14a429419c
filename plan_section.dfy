/**
 * The growth-roadmap kanban board: plan items become tasks whose progress,
 * priority and hours are derived from their status, tasks are split into
 * three status columns, summary statistics are computed over all tasks, and
 * dropping a card on a column moves that task to the column's status.
 */
module PlanSection {
  import opened Wrappers
  import opened Sequences

  datatype Status = InProgress | Planned | Completed

  datatype Priority = P0 | P1 | P2

  /** A roadmap entry as it is stored in the site's data. */
  datatype PlanItem = PlanItem(id: string, title: string, description: string,
                               deadline: Option<string>, status: Status)

  /** A card on the board. */
  datatype Task = Task(id: string, title: string, description: string, deadline: Option<string>,
                       status: Status, progress: int, priority: Priority,
                       timeEstimate: int, timeSpent: int)

  /** The card for a plan item: the item's own fields plus status-derived figures. */
  function InitialTask(item: PlanItem): (t: Task)
    ensures t.id == item.id && t.title == item.title && t.description == item.description
    ensures t.deadline == item.deadline && t.status == item.status
    ensures t.progress == (match item.status
                             case Completed => 100
                             case InProgress => 65
                             case Planned => 0)
    ensures t.priority == (match item.status
                             case InProgress => P0
                             case Planned => P1
                             case Completed => P2)
    ensures t.timeEstimate == (if item.status == Completed then 20 else 15)
    ensures t.timeSpent == (match item.status
                              case Completed => 20
                              case InProgress => 10
                              case Planned => 0)
    ensures 0 <= t.timeSpent <= t.timeEstimate
    ensures 0 <= t.progress <= 100 && (t.progress == 100 <==> t.status == Completed)
    ensures t.timeSpent == t.timeEstimate <==> t.status == Completed
  {
    var s := item.status;
    Task(item.id, item.title, item.description, item.deadline, s,
         if s == Completed then 100 else if s == InProgress then 65 else 0,
         if s == InProgress then P0 else if s == Planned then P1 else P2,
         if s == Completed then 20 else 15,
         if s == Completed then 20 else if s == InProgress then 10 else 0)
  }

  /** The board's starting tasks, one card per plan item in the same order. */
  function InitialTasks(items: seq<PlanItem>): (ts: seq<Task>)
    ensures |ts| == |items|
    ensures forall i :: 0 <= i < |ts| ==> ts[i] == InitialTask(items[i])
    decreases |items|
  {
    if items == [] then [] else [InitialTask(items[0])] + InitialTasks(items[1..])
  }

  /** Every card spends no more hours than it is estimated at. */
  predicate WithinEstimate(tasks: seq<Task>) {
    forall i :: 0 <= i < |tasks| ==> 0 <= tasks[i].timeSpent <= tasks[i].timeEstimate
  }

  lemma InitialTasksWithinEstimate(items: seq<PlanItem>)
    ensures WithinEstimate(InitialTasks(items))
  {
  }

  /** The tasks of one column: those with the column's status, in board order. */
  function Column(tasks: seq<Task>, s: Status): (c: seq<Task>)
    ensures |c| <= |tasks|
    ensures forall t :: t in c <==> t in tasks && t.status == s
    decreases |tasks|
  {
    if tasks == [] then []
    else if tasks[0].status == s then [tasks[0]] + Column(tasks[1..], s)
    else Column(tasks[1..], s)
  }

  /** A column keeps the board order of its tasks. */
  lemma {:induction false} ColumnKeepsOrder(tasks: seq<Task>, s: Status)
    ensures Subsequence(Column(tasks, s), tasks)
    decreases |tasks|
  {
    if tasks != [] {
      ColumnKeepsOrder(tasks[1..], s);
      if tasks[0].status == s {
        assert ([tasks[0]] + Column(tasks[1..], s))[1..] == Column(tasks[1..], s);
      }
    }
  }

  /** The three columns split the board: every task lands in exactly the column of its status. */
  lemma {:induction false} ColumnsPartition(tasks: seq<Task>)
    ensures |Column(tasks, InProgress)| + |Column(tasks, Planned)| + |Column(tasks, Completed)| == |tasks|
    ensures multiset(Column(tasks, InProgress)) + multiset(Column(tasks, Planned)) + multiset(Column(tasks, Completed))
         == multiset(tasks)
    decreases |tasks|
  {
    if tasks != [] {
      ColumnsPartition(tasks[1..]);
      assert tasks == [tasks[0]] + tasks[1..];
    }
  }

  /** The board's summary figures. progressPercent is None where the source computes NaN. */
  datatype Stats = Stats(total: int, completed: int, inProgress: int,
                         totalTime: int, estimatedTime: int, progressPercent: Option<int>)

  function TimeSpentSum(tasks: seq<Task>): int
    decreases |tasks|
  {
    if tasks == [] then 0 else tasks[0].timeSpent + TimeSpentSum(tasks[1..])
  }

  function TimeEstimateSum(tasks: seq<Task>): int
    decreases |tasks|
  {
    if tasks == [] then 0 else tasks[0].timeEstimate + TimeEstimateSum(tasks[1..])
  }

  /**
   * Math.round(completed / total * 100) over exact rationals: the integer
   * nearest to 100 * completed / total, halves rounded up. With no tasks the
   * quotient is NaN, modelled as None.
   */
  function ProgressPercent(completed: nat, total: nat): (p: Option<int>)
    ensures p.Some? <==> total > 0
  {
    if total == 0 then None else Some((200 * completed + total) / (2 * total))
  }

  /** The rounded percentage is the nearest integer: within half a task of the exact ratio. */
  lemma ProgressPercentNearest(completed: nat, total: nat)
    requires total > 0
    ensures var p := ProgressPercent(completed, total).value;
            200 * completed - total < 2 * total * p <= 200 * completed + total
  {
    var n := 200 * completed + total;
    var d := 2 * total;
    var p := n / d;
    assert n == d * p + n % d;
  }

  lemma MulMonotone(d: int, a: int, b: int)
    requires d > 0 && a <= b
    ensures d * a <= d * b
  {
    assert d * b - d * a == d * (b - a);
  }

  /** With completed <= total the percentage lies in [0, 100], and hits either end exactly at the extremes. */
  lemma ProgressPercentBounds(completed: nat, total: nat)
    requires 0 < total && completed <= total
    ensures 0 <= ProgressPercent(completed, total).value <= 100
    ensures completed == total ==> ProgressPercent(completed, total).value == 100
    ensures completed == 0 ==> ProgressPercent(completed, total).value == 0
  {
    var p := ProgressPercent(completed, total).value;
    var d := 2 * total;
    ProgressPercentNearest(completed, total);
    if p > 100 {
      MulMonotone(d, 101, p);
    }
    if p < 0 {
      MulMonotone(d, p, -1);
    }
    if completed == total && p < 100 {
      MulMonotone(d, p, 99);
    }
    if completed == 0 && p > 0 {
      MulMonotone(d, 1, p);
    }
  }

  /** The statistics panel. */
  function ComputeStats(tasks: seq<Task>): (st: Stats)
    ensures st.total == |tasks|
    ensures st.completed == |Column(tasks, Completed)| && st.inProgress == |Column(tasks, InProgress)|
    ensures st.completed + st.inProgress <= st.total
    ensures st.totalTime == TimeSpentSum(tasks) && st.estimatedTime == TimeEstimateSum(tasks)
    ensures st.progressPercent.Some? <==> tasks != []
    ensures st.progressPercent.Some? ==> 0 <= st.progressPercent.value <= 100
    ensures st.progressPercent == ProgressPercent(st.completed, st.total)
  {
    var completed := |Column(tasks, Completed)|;
    var inProgress := |Column(tasks, InProgress)|;
    ColumnsPartition(tasks);
    var percent := if tasks == [] then None
                   else (ProgressPercentBounds(completed, |tasks|); ProgressPercent(completed, |tasks|));
    Stats(|tasks|, completed, inProgress, TimeSpentSum(tasks), TimeEstimateSum(tasks), percent)
  }

  /** On a board within its estimates the hours spent never exceed the hours estimated. */
  lemma {:induction false} SpentWithinEstimated(tasks: seq<Task>)
    requires WithinEstimate(tasks)
    ensures 0 <= TimeSpentSum(tasks) <= TimeEstimateSum(tasks)
    decreases |tasks|
  {
    if tasks != [] {
      SpentWithinEstimated(tasks[1..]);
    }
  }

  /** The progress a dropped card gets: note 50 for in-progress, not the initial 65. */
  function DropProgress(s: Status): int {
    match s
    case Completed => 100
    case InProgress => 50
    case Planned => 0
  }

  /** One card under handleDragEnd's map callback. */
  function MoveCard(t: Task, id: string, s: Status): Task {
    if t.id == id then t.(status := s, progress := DropProgress(s)) else t
  }

  /**
   * handleDragEnd's update of the card list: every card with the id takes
   * status s and its drop progress; every other card, and every other field,
   * is left as it was.
   */
  function MoveTask(tasks: seq<Task>, id: string, s: Status): (r: seq<Task>)
    ensures |r| == |tasks|
    ensures forall i :: 0 <= i < |r| && tasks[i].id == id ==>
              r[i] == tasks[i].(status := s, progress := DropProgress(s))
    ensures forall i :: 0 <= i < |r| && tasks[i].id != id ==> r[i] == tasks[i]
    decreases |tasks|
  {
    if tasks == [] then [] else [MoveCard(tasks[0], id, s)] + MoveTask(tasks[1..], id, s)
  }

  /** Moving a card twice to the same column is the same as moving it once. */
  lemma MoveTaskIdempotent(tasks: seq<Task>, id: string, s: Status)
    ensures MoveTask(MoveTask(tasks, id, s), id, s) == MoveTask(tasks, id, s)
  {
  }

  /** Dropping an id that no card has leaves the board as it was. */
  lemma MoveUnknownIdIsIdentity(tasks: seq<Task>, id: string)
    requires forall i :: 0 <= i < |tasks| ==> tasks[i].id != id
    ensures forall s :: MoveTask(tasks, id, s) == tasks
  {
  }

  /** A move keeps every id, title, deadline, priority and the hours of every card. */
  lemma MoveKeepsCards(tasks: seq<Task>, id: string, s: Status)
    ensures var r := MoveTask(tasks, id, s);
            forall i :: 0 <= i < |r| ==>
              && r[i].id == tasks[i].id && r[i].title == tasks[i].title
              && r[i].description == tasks[i].description && r[i].deadline == tasks[i].deadline
              && r[i].priority == tasks[i].priority
              && r[i].timeEstimate == tasks[i].timeEstimate && r[i].timeSpent == tasks[i].timeSpent
  {
  }

  lemma {:induction false} MoveKeepsHours(tasks: seq<Task>, id: string, s: Status)
    ensures TimeSpentSum(MoveTask(tasks, id, s)) == TimeSpentSum(tasks)
    ensures TimeEstimateSum(MoveTask(tasks, id, s)) == TimeEstimateSum(tasks)
    ensures WithinEstimate(tasks) ==> WithinEstimate(MoveTask(tasks, id, s))
    decreases |tasks|
  {
    if tasks != [] {
      MoveKeepsHours(tasks[1..], id, s);
    }
  }

  /** After a move, the moved cards sit in the target column and in no other. */
  lemma MovedCardInTargetColumn(tasks: seq<Task>, id: string, s: Status, i: nat)
    requires i < |tasks| && tasks[i].id == id
    ensures MoveTask(tasks, id, s)[i] in Column(MoveTask(tasks, id, s), s)
    ensures forall s' :: s' != s ==> MoveTask(tasks, id, s)[i] !in Column(MoveTask(tasks, id, s), s')
  {
  }

  /** The board's state: its tasks and the card being dragged, if any. */
  datatype Board = Board(tasks: seq<Task>, draggedTask: Option<string>)

  function InitialBoard(items: seq<PlanItem>): (b: Board)
    ensures b.tasks == InitialTasks(items) && b.draggedTask == None
  {
    Board(InitialTasks(items), None)
  }

  /** A drag starts: the card's id is remembered for highlighting. */
  function DragStart(b: Board, id: string): (r: Board)
    ensures r.tasks == b.tasks && r.draggedTask == Some(id)
  {
    b.(draggedTask := Some(id))
  }

  /**
   * A card is dropped on column s carrying taskId. An empty taskId is falsy and
   * the drop is ignored; otherwise the card moves and the drag ends.
   */
  function Drop(b: Board, taskId: string, s: Status): (r: Board)
    ensures taskId == "" ==> r == b
    ensures taskId != "" ==> r.tasks == MoveTask(b.tasks, taskId, s) && r.draggedTask == None
  {
    if taskId == "" then b else Board(MoveTask(b.tasks, taskId, s), None)
  }

  /**
   * The "Drop to plant" hint under column s: shown while a (truthy) drag is in
   * progress whose card is not already in that column.
   */
  predicate DropHintShown(b: Board, s: Status) {
    && b.draggedTask.Some? && b.draggedTask.value != ""
    && !(exists t :: t in Column(b.tasks, s) && t.id == b.draggedTask.value)
  }

  /** The hint never shows under the dragged card's own column. */
  lemma NoDropHintOnOwnColumn(b: Board, i: nat)
    requires i < |b.tasks| && b.draggedTask == Some(b.tasks[i].id)
    ensures !DropHintShown(b, b.tasks[i].status)
  {
    assert b.tasks[i] in Column(b.tasks, b.tasks[i].status);
  }

  /** A drop keeps the board within its estimates, and each drop ends the drag. */
  lemma DropPreservesEstimates(b: Board, taskId: string, s: Status)
    requires WithinEstimate(b.tasks)
    ensures WithinEstimate(Drop(b, taskId, s).tasks)
    ensures taskId != "" ==> !DropHintShown(Drop(b, taskId, s), s)
  {
    MoveKeepsHours(b.tasks, taskId, s);
  }
}
