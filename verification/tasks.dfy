/**
 * The task driver (`TaskCanvas`): a cyclic cursor over four pointer tasks,
 * three click handlers and a drag sub-machine that validate the user's input
 * against the current task, and advance the cursor when it is satisfied.
 *
 * The canvas items are modelled as a map from an item's tag to its bounding
 * box; the item under the pointer is an input: `Some(tag)` for a tagged item,
 * `None` when there is no tagged item there. The application callback is
 * modelled as a log of (kind, message) pairs.
 */
module Tasks {
  import opened Common

  datatype Task = LeftClickTriangle | RightClickRevTriangle | DoubleClickSquare | DragCircle

  /** The tags carried by the shapes drawn for the tasks. */
  datatype Tag = Triangle | RevTriangle | Square | Circle | Goal

  datatype Rect = Rect(x0: real, y0: real, x1: real, y1: real)

  datatype EventKind = NewTask | TaskComplete

  /** One call of the application callback. */
  datatype AppEvent = AppEvent(kind: EventKind, message: string)

  datatype Pos = Pos(x: int, y: int)

  /** The task list, in the order the tasks are presented. */
  const TaskCycle: seq<Task> := [LeftClickTriangle, RightClickRevTriangle, DoubleClickSquare, DragCircle]

  const CycleMessage: string := "All tasks complete! Restarting cycle."

  function TaskName(t: Task): string {
    match t
    case LeftClickTriangle => "left_click_triangle"
    case RightClickRevTriangle => "right_click_rev_triangle"
    case DoubleClickSquare => "double_click_square"
    case DragCircle => "drag_circle"
  }

  // ---------------------------------------------------------------------
  // Display names: replace '_' by ' ', then title-case (ASCII letters)
  // ---------------------------------------------------------------------

  predicate IsCased(c: char) {
    ('a' <= c <= 'z') || ('A' <= c <= 'Z')
  }

  function Upper(c: char): char {
    if 'a' <= c <= 'z' then (c as int - 'a' as int + 'A' as int) as char else c
  }

  function Lower(c: char): char {
    if 'A' <= c <= 'Z' then (c as int - 'A' as int + 'a' as int) as char else c
  }

  function Replace(s: string, from: char, to: char): string {
    seq(|s|, i requires 0 <= i < |s| => if s[i] == from then to else s[i])
  }

  /** Whether the character before position i is a letter (false at the start). */
  predicate AfterCased(s: string, i: int)
    requires 0 <= i < |s|
  {
    i > 0 && IsCased(s[i - 1])
  }

  /**
   * Title-casing: a letter is upper-cased when the character before it is not
   * a letter (or it comes first), lower-cased otherwise; other characters stay.
   */
  function Title(s: string): string {
    seq(|s|, i requires 0 <= i < |s| =>
      if !IsCased(s[i]) then s[i] else if AfterCased(s, i) then Lower(s[i]) else Upper(s[i]))
  }

  /** The prefix of every task announcement. */
  const TaskPrefix: string := "Current Task: "

  /** A task name with '_' as spaces, in title case. */
  function DisplayName(name: string): string {
    Title(Replace(name, '_', ' '))
  }

  /** The message announcing a task. */
  function TaskMessage(t: Task): string {
    TaskPrefix + DisplayName(TaskName(t))
  }

  /**
   * The display name of a lower-case name has no underscores; each word's
   * first letter is capitalised and the other letters are kept.
   */
  lemma DisplayNameShape(name: string)
    requires forall i :: 0 <= i < |name| ==> name[i] == '_' || 'a' <= name[i] <= 'z'
    ensures |DisplayName(name)| == |name|
    ensures forall i :: 0 <= i < |name| ==> DisplayName(name)[i] != '_'
    ensures forall i :: 0 <= i < |name| && name[i] == '_' ==> DisplayName(name)[i] == ' '
    ensures forall i :: 0 <= i < |name| && name[i] != '_' && (i == 0 || name[i - 1] == '_') ==>
      DisplayName(name)[i] == Upper(name[i]) && 'A' <= DisplayName(name)[i] <= 'Z'
    ensures forall i :: 0 < i < |name| && name[i] != '_' && name[i - 1] != '_' ==>
      DisplayName(name)[i] == name[i]
  {
  }

  // ---------------------------------------------------------------------
  // Geometry
  // ---------------------------------------------------------------------

  /** The tagged shapes drawn for a task on a canvas of size w by h. */
  function ShapesFor(task: Task, w: int, h: int): map<Tag, Rect> {
    var cx := w as real / 2.0;
    var cy := h as real / 2.0;
    match task
    case LeftClickTriangle => map[Triangle := Rect(cx - 20.0, cy - 20.0, cx + 20.0, cy + 20.0)]
    case RightClickRevTriangle => map[RevTriangle := Rect(cx - 20.0, cy - 20.0, cx + 20.0, cy + 20.0)]
    case DoubleClickSquare => map[Square := Rect(cx - 20.0, cy - 20.0, cx + 20.0, cy + 20.0)]
    case DragCircle =>
      map[Circle := Rect(w as real / 4.0 - 20.0, cy - 20.0, w as real / 4.0 + 20.0, cy + 20.0),
          Goal := Rect(3.0 * w as real / 4.0 - 25.0, cy - 25.0, 3.0 * w as real / 4.0 + 25.0, cy + 25.0)]
  }

  function Translate(r: Rect, dx: int, dy: int): Rect {
    Rect(r.x0 + dx as real, r.y0 + dy as real, r.x1 + dx as real, r.y1 + dy as real)
  }

  lemma TranslateCompose(r: Rect, a: int, b: int, c: int, d: int)
    ensures Translate(Translate(r, a, b), c, d) == Translate(r, a + c, b + d)
  {
  }

  /** The drop test: the item's centre lies strictly inside the goal's bounding box. */
  predicate CentreInside(item: Rect, goal: Rect) {
    var cx := (item.x0 + item.x1) / 2.0;
    var cy := (item.y0 + item.y1) / 2.0;
    goal.x0 < cx < goal.x1 && goal.y0 < cy < goal.y1
  }

  /**
   * Dropping the drawn circle after moving it by (dx, dy) completes the task
   * exactly when its centre lands less than 25 units from the goal's centre
   * on each axis; landing on the goal's edge does not count.
   */
  lemma DropOnGoal(w: int, h: int, dx: int, dy: int)
    ensures var shapes := ShapesFor(DragCircle, w, h);
      CentreInside(Translate(shapes[Circle], dx, dy), shapes[Goal]) <==>
        (-25.0 < dx as real - w as real / 2.0 < 25.0 && -25 < dy < 25)
  {
  }

  /** The circle's box after following the pointer from (x, y) along `path`, one drag event per position. */
  function DragAlong(r: Rect, x: int, y: int, path: seq<Pos>): Rect
    decreases |path|
  {
    if path == [] then r
    else DragAlong(Translate(r, path[0].x - x, path[0].y - y), path[0].x, path[0].y, path[1..])
  }

  /** The per-event deltas telescope: the total move is the last position minus the press position. */
  lemma {:induction false} DragTelescopes(r: Rect, x: int, y: int, path: seq<Pos>)
    requires path != []
    ensures DragAlong(r, x, y, path) == Translate(r, path[|path| - 1].x - x, path[|path| - 1].y - y)
    decreases |path|
  {
    var r' := Translate(r, path[0].x - x, path[0].y - y);
    if |path| > 1 {
      DragTelescopes(r', path[0].x, path[0].y, path[1..]);
      TranslateCompose(r, path[0].x - x, path[0].y - y,
                       path[|path| - 1].x - path[0].x, path[|path| - 1].y - path[0].y);
    }
  }

  // ---------------------------------------------------------------------
  // The cursor over the cycle
  // ---------------------------------------------------------------------

  /**
   * The cursor and the number of "task_complete" notifications after n
   * advances from index i, each advance moving one step and wrapping at the end.
   */
  function Cycle(i: int, n: nat): (int, nat) {
    if n == 0 then (i, 0)
    else
      var (j, wraps) := Cycle(i, n - 1);
      if j + 1 >= |TaskCycle| then (0, wraps + 1) else (j + 1, wraps)
  }

  /**
   * Completing tasks from index i (-1 before the first task is shown): the
   * cursor is (i + n) mod 4 and the cycle wrapped (i + n) div 4 times.
   */
  lemma {:induction false} CycleClosedForm(i: int, n: nat)
    requires -1 <= i < |TaskCycle| && i + n >= 0
    ensures Cycle(i, n) == ((i + n) % |TaskCycle|, (i + n) / |TaskCycle|)
  {
    if n > 0 && i + n - 1 >= 0 {
      CycleClosedForm(i, n - 1);
    }
  }

  /**
   * Completing the four tasks in order returns to the first one with exactly
   * one wrap; a session, which starts at -1, gets there after five advances.
   */
  lemma FullCycleWrapsOnce()
    ensures Cycle(0, 4) == (0, 1)
    ensures Cycle(-1, 5) == (0, 1)
  {
    CycleClosedForm(0, 4);
    CycleClosedForm(-1, 5);
  }

  /** The number of "task_complete" notifications in a callback log. */
  function Completions(log: seq<AppEvent>): nat {
    if log == [] then 0
    else Completions(log[..|log| - 1]) + (if log[|log| - 1].kind == TaskComplete then 1 else 0)
  }

  lemma {:induction false} CompletionsAppend(a: seq<AppEvent>, b: seq<AppEvent>)
    ensures Completions(a + b) == Completions(a) + Completions(b)
    decreases |b|
  {
    if b != [] {
      CompletionsAppend(a, b[..|b| - 1]);
      assert (a + b)[..|a + b| - 1] == a + b[..|b| - 1];
    } else {
      assert a + b == a;
    }
  }

  // ---------------------------------------------------------------------
  // next_task with the application's re-entrant callback, as written
  // ---------------------------------------------------------------------

  /**
   * next_task with MouseApp.app_callback plugged in: on "task_complete" that
   * callback calls next_task again before the index has been reset. `None`
   * means the call did not return within `fuel` nested calls. It returns only
   * when it does not wrap, having moved one step.
   */
  function ReentrantNextTask(index: int, log: seq<AppEvent>, fuel: nat): (r: Option<(int, seq<AppEvent>)>)
    requires index >= -1
    ensures r.Some? ==> index + 1 < |TaskCycle| && r.value.0 == index + 1
    decreases fuel
  {
    if fuel == 0 then None
    else
      var i := index + 1;
      if i >= |TaskCycle| then
        match ReentrantNextTask(i, log + [AppEvent(TaskComplete, CycleMessage)], fuel - 1)
        case None => None
        case Some((_, log')) => Some((0, log' + [AppEvent(NewTask, TaskMessage(LeftClickTriangle))]))
      else Some((i, log + [AppEvent(NewTask, TaskMessage(TaskCycle[i]))]))
  }

  /** Away from the wrap, the re-entrant version advances like the corrected one. */
  lemma ReentrantBeforeWrap(index: int, log: seq<AppEvent>, fuel: nat)
    requires -1 <= index < |TaskCycle| - 1 && fuel > 0
    ensures ReentrantNextTask(index, log, fuel)
      == Some((index + 1, log + [AppEvent(NewTask, TaskMessage(TaskCycle[index + 1]))]))
  {
  }

  /** At the wrap, the re-entrant call never returns, however deep the stack may grow. */
  lemma {:induction false} ReentryNeverReturns(index: int, log: seq<AppEvent>, fuel: nat)
    requires index >= |TaskCycle| - 1
    ensures ReentrantNextTask(index, log, fuel) == None
    decreases fuel
  {
    if fuel > 0 {
      ReentryNeverReturns(index + 1, log + [AppEvent(TaskComplete, CycleMessage)], fuel - 1);
    }
  }

  // ---------------------------------------------------------------------
  // The canvas
  // ---------------------------------------------------------------------

  class TaskCanvas {
    /** The canvas size in pixels at the time shapes are drawn. */
    const width: int
    const height: int
    const tasks: seq<Task> := TaskCycle

    var currentTaskIndex: int
    /** The tagged items on the canvas, by tag. */
    var items: map<Tag, Rect>
    /** The drag state: the dragged item, and the pointer position of the last press or drag event. */
    var dragItem: Option<Tag>
    var dragX: int
    var dragY: int
    /** Everything handed to the application callback, in order. */
    var appLog: seq<AppEvent>

    /** Where the current drag started: pointer and item box at the press. */
    ghost var pressX: int
    ghost var pressY: int
    ghost var pressRect: Rect

    /** The cursor is in range and the canvas shows the current task's shapes. */
    ghost predicate Shown()
      reads this
    {
      && -1 <= currentTaskIndex < |tasks|
      && (currentTaskIndex == -1 ==> items == map[])
      && (currentTaskIndex >= 0 ==>
            var drawn := ShapesFor(tasks[currentTaskIndex], width, height);
            items.Keys == drawn.Keys && (Goal in drawn ==> items[Goal] == drawn[Goal]))
    }

    /** A drag only happens on the circle during the drag task, and the circle has followed the pointer. */
    ghost predicate Valid()
      reads this
    {
      && Shown()
      && (dragItem.Some? ==>
            && dragItem == Some(Circle)
            && currentTaskIndex == |tasks| - 1
            && Circle in items
            && items[Circle] == Translate(pressRect, dragX - pressX, dragY - pressY))
    }

    /** The current task, indexed as the source does (index -1 names the last task). */
    function CurrentTask(): Task
      reads this
      requires -|tasks| <= currentTaskIndex < |tasks|
    {
      if currentTaskIndex < 0 then tasks[|tasks| + currentTaskIndex] else tasks[currentTaskIndex]
    }

    constructor (width: int, height: int)
      ensures this.width == width && this.height == height
      ensures currentTaskIndex == -1 && items == map[] && dragItem == None && appLog == []
      ensures Valid()
    {
      this.width := width;
      this.height := height;
      currentTaskIndex := -1;
      items := map[];
      dragItem := None;
      dragX := 0;
      dragY := 0;
      appLog := [];
    }

    /** The effect of next_task: one step round the cycle, fresh shapes, and the notifications. */
    twostate predicate Advanced()
      reads this
    {
      && 0 <= currentTaskIndex < |tasks|
      && currentTaskIndex == (old(currentTaskIndex) + 1) % |tasks|
      && currentTaskIndex == (if old(currentTaskIndex) + 1 >= |tasks| then 0 else old(currentTaskIndex) + 1)
      && items == ShapesFor(tasks[currentTaskIndex], width, height)
      && appLog == old(appLog)
           + (if old(currentTaskIndex) + 1 >= |tasks| then [AppEvent(TaskComplete, CycleMessage)] else [])
           + [AppEvent(NewTask, TaskMessage(tasks[currentTaskIndex]))]
    }

    method NextTask()
      requires Shown()
      modifies this`currentTaskIndex, this`items, this`appLog
      ensures Shown() && Advanced()
    {
      items := map[];
      currentTaskIndex := currentTaskIndex + 1;
      if currentTaskIndex >= |tasks| {
        appLog := appLog + [AppEvent(TaskComplete, CycleMessage)];
        currentTaskIndex := 0;
      }
      assert currentTaskIndex == (old(currentTaskIndex) + 1) % |tasks|;
      var task := tasks[currentTaskIndex];
      appLog := appLog + [AppEvent(NewTask, "Current Task: " + DisplayName(TaskName(task)))];
      DrawShapesForTask(task);
      assert items == ShapesFor(task, width, height);
    }

    method DrawShapesForTask(task: Task)
      modifies this`items
      ensures items == old(items) + ShapesFor(task, width, height)
    {
      var cx := width as real / 2.0;
      var cy := height as real / 2.0;
      match task
      case LeftClickTriangle =>
        items := items[Triangle := Rect(cx - 20.0, cy - 20.0, cx + 20.0, cy + 20.0)];
      case RightClickRevTriangle =>
        items := items[RevTriangle := Rect(cx - 20.0, cy - 20.0, cx + 20.0, cy + 20.0)];
      case DoubleClickSquare =>
        items := items[Square := Rect(cx - 20.0, cy - 20.0, cx + 20.0, cy + 20.0)];
      case DragCircle =>
        items := items[Circle := Rect(width as real / 4.0 - 20.0, cy - 20.0, width as real / 4.0 + 20.0, cy + 20.0)];
        items := items[Goal := Rect(3.0 * width as real / 4.0 - 25.0, cy - 25.0, 3.0 * width as real / 4.0 + 25.0, cy + 25.0)];
    }

    /** Left press: completes the triangle task, or starts dragging the circle in the drag task. */
    method OnPress(ex: int, ey: int, hit: Option<Tag>)
      requires Valid()
      requires hit.Some? ==> hit.value in items
      modifies this
      ensures Valid()
      ensures hit == Some(Triangle) && old(CurrentTask()) == LeftClickTriangle ==>
        Advanced() && dragItem == old(dragItem) && dragX == old(dragX) && dragY == old(dragY)
      ensures hit == Some(Circle) && old(CurrentTask()) == DragCircle ==>
        && dragItem == Some(Circle) && dragX == ex && dragY == ey
        && pressX == ex && pressY == ey && pressRect == old(items[Circle])
        && currentTaskIndex == old(currentTaskIndex) && items == old(items) && appLog == old(appLog)
      ensures (!(hit == Some(Triangle) && old(CurrentTask()) == LeftClickTriangle)
               && !(hit == Some(Circle) && old(CurrentTask()) == DragCircle)) ==> unchanged(this)
    {
      if hit.None? { return; }
      var tag := hit.value;
      assert currentTaskIndex >= 0 && CurrentTask() == tasks[currentTaskIndex];
      if tag == Triangle && CurrentTask() == LeftClickTriangle {
        assert dragItem.None?;
        NextTask();
      } else if tag == Circle && CurrentTask() == DragCircle {
        assert currentTaskIndex == |tasks| - 1;
        dragItem := Some(Circle);
        dragX := ex;
        dragY := ey;
        pressX, pressY, pressRect := ex, ey, items[Circle];
        assert Translate(pressRect, 0, 0) == pressRect;
      }
    }

    /** Right press: completes the reversed-triangle task. */
    method OnRightClick(hit: Option<Tag>)
      requires Valid()
      requires hit.Some? ==> hit.value in items
      modifies this
      ensures Valid()
      ensures hit == Some(RevTriangle) && old(CurrentTask()) == RightClickRevTriangle ==>
        Advanced() && dragItem == old(dragItem) && dragX == old(dragX) && dragY == old(dragY)
      ensures !(hit == Some(RevTriangle) && old(CurrentTask()) == RightClickRevTriangle) ==> unchanged(this)
    {
      if hit.None? { return; }
      var tag := hit.value;
      if tag == RevTriangle && CurrentTask() == RightClickRevTriangle {
        NextTask();
      }
    }

    /** Double click: completes the square task. */
    method OnDoubleClick(hit: Option<Tag>)
      requires Valid()
      requires hit.Some? ==> hit.value in items
      modifies this
      ensures Valid()
      ensures hit == Some(Square) && old(CurrentTask()) == DoubleClickSquare ==>
        Advanced() && dragItem == old(dragItem) && dragX == old(dragX) && dragY == old(dragY)
      ensures !(hit == Some(Square) && old(CurrentTask()) == DoubleClickSquare) ==> unchanged(this)
    {
      if hit.None? { return; }
      var tag := hit.value;
      if tag == Square && CurrentTask() == DoubleClickSquare {
        NextTask();
      }
    }

    /** Motion with the button held: the dragged item follows the pointer by the delta since the last event. */
    method OnDrag(ex: int, ey: int)
      requires Valid()
      modifies this
      ensures Valid()
      ensures old(dragItem).None? ==> unchanged(this)
      ensures old(dragItem).Some? ==>
        && items == old(items)[Circle := Translate(old(items[Circle]), ex - old(dragX), ey - old(dragY))]
        && dragItem == old(dragItem) && dragX == ex && dragY == ey
        && pressX == old(pressX) && pressY == old(pressY) && pressRect == old(pressRect)
        && currentTaskIndex == old(currentTaskIndex) && appLog == old(appLog)
    {
      if dragItem.None? { return; }
      var deltaX := ex - dragX;
      var deltaY := ey - dragY;
      var item := dragItem.value;
      TranslateCompose(pressRect, dragX - pressX, dragY - pressY, deltaX, deltaY);
      items := items[item := Translate(items[item], deltaX, deltaY)];
      dragX := ex;
      dragY := ey;
    }

    /** Button release: advances when the dragged item's centre is strictly inside the goal; always ends the drag. */
    method OnRelease()
      requires Valid()
      modifies this
      ensures Valid()
      ensures old(dragItem).None? ==> unchanged(this)
      ensures old(dragItem).Some? ==> dragItem == None && dragX == old(dragX) && dragY == old(dragY)
      ensures (old(dragItem).Some? && CentreInside(old(items[Circle]), old(items[Goal]))
               && old(CurrentTask()) == DragCircle) ==> Advanced()
      ensures old(dragItem).Some? && !(CentreInside(old(items[Circle]), old(items[Goal]))
              && old(CurrentTask()) == DragCircle) ==>
        currentTaskIndex == old(currentTaskIndex) && items == old(items) && appLog == old(appLog)
    {
      if dragItem.None? { return; }
      var goalCoords := items[Goal];
      var itemCoords := items[dragItem.value];
      var itemCentreX := (itemCoords.x0 + itemCoords.x1) / 2.0;
      var itemCentreY := (itemCoords.y0 + itemCoords.y1) / 2.0;
      if goalCoords.x0 < itemCentreX < goalCoords.x1 && goalCoords.y0 < itemCentreY < goalCoords.y1 {
        if CurrentTask() == DragCircle {
          NextTask();
        }
      }
      dragItem := None;
    }
  }

  /** One next_task adds a "task_complete" exactly when it wraps. */
  lemma CompletionsOfStep(log: seq<AppEvent>, wrap: bool, message: string)
    ensures var after := log + (if wrap then [AppEvent(TaskComplete, CycleMessage)] else []) + [AppEvent(NewTask, message)];
      && log <= after
      && Completions(after) == Completions(log) + (if wrap then 1 else 0)
  {
    var front := if wrap then [AppEvent(TaskComplete, CycleMessage)] else [];
    var added := front + [AppEvent(NewTask, message)];
    assert log + front + [AppEvent(NewTask, message)] == log + added;
    CompletionsAppend(log, added);
    assert added[..|added| - 1] == front;
    assert Completions(added) == Completions(front);
    assert wrap ==> front[..0] == [];
  }

  // ---------------------------------------------------------------------
  // Sessions: a canvas taken through a run of completed tasks
  // ---------------------------------------------------------------------

  /** Calls next_task n times, as n completed tasks do; the cursor follows `Cycle`. */
  method CompleteTasks(canvas: TaskCanvas, n: nat)
    requires canvas.Shown()
    modifies canvas`currentTaskIndex, canvas`items, canvas`appLog
    ensures canvas.Shown()
    ensures canvas.currentTaskIndex == Cycle(old(canvas.currentTaskIndex), n).0
    ensures Completions(canvas.appLog) == Completions(old(canvas.appLog)) + Cycle(old(canvas.currentTaskIndex), n).1
    ensures old(canvas.appLog) <= canvas.appLog
    ensures n > 0 ==> 0 <= canvas.currentTaskIndex && canvas.items == ShapesFor(TaskCycle[canvas.currentTaskIndex], canvas.width, canvas.height)
  {
    var k := 0;
    while k < n
      invariant 0 <= k <= n
      invariant canvas.Shown()
      invariant canvas.currentTaskIndex == Cycle(old(canvas.currentTaskIndex), k).0
      invariant Completions(canvas.appLog) == Completions(old(canvas.appLog)) + Cycle(old(canvas.currentTaskIndex), k).1
      invariant old(canvas.appLog) <= canvas.appLog
      invariant k > 0 ==> 0 <= canvas.currentTaskIndex && canvas.items == ShapesFor(TaskCycle[canvas.currentTaskIndex], canvas.width, canvas.height)
    {
      ghost var log := canvas.appLog;
      ghost var index := canvas.currentTaskIndex;
      ghost var wrap := index + 1 >= |TaskCycle|;
      ghost var before := Cycle(old(canvas.currentTaskIndex), k);
      assert Cycle(old(canvas.currentTaskIndex), k + 1)
        == if wrap then (0, before.1 + 1) else (index + 1, before.1);
      canvas.NextTask();
      CompletionsOfStep(log, wrap, TaskMessage(canvas.tasks[canvas.currentTaskIndex]));
      k := k + 1;
    }
  }

  /**
   * A session on a new canvas: the first next_task and four completed tasks
   * bring the cursor back to the first task, with one "task_complete".
   */
  method CompleteFirstCycle(width: int, height: int) returns (canvas: TaskCanvas)
    ensures canvas.currentTaskIndex == 0 && Completions(canvas.appLog) == 1
    ensures canvas.items == ShapesFor(LeftClickTriangle, width, height)
  {
    canvas := new TaskCanvas(width, height);
    CompleteTasks(canvas, 5);
    FullCycleWrapsOnce();
  }

  /** Delivers the drag events of `path` to a canvas with a drag in progress. */
  method DragThrough(canvas: TaskCanvas, path: seq<Pos>)
    requires canvas.Valid() && canvas.dragItem.Some?
    modifies canvas
    ensures canvas.Valid() && canvas.dragItem == old(canvas.dragItem)
    ensures canvas.items[Circle] == DragAlong(old(canvas.items[Circle]), old(canvas.dragX), old(canvas.dragY), path)
    ensures canvas.pressX == old(canvas.pressX) && canvas.pressY == old(canvas.pressY)
    ensures canvas.pressRect == old(canvas.pressRect)
    ensures canvas.currentTaskIndex == old(canvas.currentTaskIndex) && canvas.appLog == old(canvas.appLog)
  {
    var i := 0;
    while i < |path|
      invariant 0 <= i <= |path|
      invariant canvas.Valid() && canvas.dragItem == old(canvas.dragItem)
      invariant DragAlong(canvas.items[Circle], canvas.dragX, canvas.dragY, path[i..])
        == DragAlong(old(canvas.items[Circle]), old(canvas.dragX), old(canvas.dragY), path)
      invariant canvas.pressX == old(canvas.pressX) && canvas.pressY == old(canvas.pressY)
      invariant canvas.pressRect == old(canvas.pressRect)
      invariant canvas.currentTaskIndex == old(canvas.currentTaskIndex) && canvas.appLog == old(canvas.appLog)
    {
      assert path[i..][1..] == path[i + 1..];
      canvas.OnDrag(path[i].x, path[i].y);
      i := i + 1;
    }
    assert path[|path|..] == [];
  }

  /**
   * A press on the circle during the drag task followed by drag events: the
   * circle ends moved by the last pointer position minus the press position.
   */
  method PressAndDrag(canvas: TaskCanvas, ex: int, ey: int, path: seq<Pos>)
    requires canvas.Valid() && canvas.currentTaskIndex == |TaskCycle| - 1
    requires path != []
    modifies canvas
    ensures canvas.Valid() && canvas.dragItem == Some(Circle)
    ensures Circle in old(canvas.items)
    ensures canvas.items[Circle]
      == Translate(old(canvas.items[Circle]), path[|path| - 1].x - ex, path[|path| - 1].y - ey)
  {
    assert Circle in ShapesFor(DragCircle, canvas.width, canvas.height);
    canvas.OnPress(ex, ey, Some(Circle));
    DragThrough(canvas, path);
    DragTelescopes(old(canvas.items[Circle]), ex, ey, path);
  }
}
