/**
 * utils/ui.go: the registry of running downloads and pending log lines
 * behind the terminal progress display. The package-level variables are
 * the fields of one object; the mutex only makes each operation atomic,
 * so the operations are modelled one at a time.
 */
module ProgressUI {
  import Collections

  predicate NoDuplicates(s: seq<string>) {
    forall i, j :: 0 <= i < j < |s| ==> s[i] != s[j]
  }

  /** The task list after registering id: unchanged if present, else id at the end. */
  function Added(tasks: seq<string>, id: string): seq<string> {
    if id in tasks then tasks else tasks + [id]
  }

  /** The task list after removing the first occurrence of id, if any. */
  function Removed(tasks: seq<string>, id: string): seq<string> {
    if tasks == [] then []
    else if tasks[0] == id then tasks[1..]
    else [tasks[0]] + Removed(tasks[1..], id)
  }

  /** Adding is idempotent, keeps the list duplicate-free and makes id present. */
  lemma AddedProperties(tasks: seq<string>, id: string)
    requires NoDuplicates(tasks)
    ensures NoDuplicates(Added(tasks, id))
    ensures Added(Added(tasks, id), id) == Added(tasks, id)
    ensures id in Added(tasks, id)
    ensures forall x :: x in Added(tasks, id) <==> x in tasks || x == id
  {
  }

  /**
   * Removing keeps every other task and its order, drops id, and keeps the
   * list duplicate-free; an absent id leaves the list as it is.
   */
  lemma {:induction false} RemovedProperties(tasks: seq<string>, id: string)
    requires NoDuplicates(tasks)
    ensures NoDuplicates(Removed(tasks, id))
    ensures forall x :: x in Removed(tasks, id) <==> x in tasks && x != id
    ensures id !in tasks ==> Removed(tasks, id) == tasks
    ensures id in tasks ==> |Removed(tasks, id)| == |tasks| - 1
  {
    if tasks != [] {
      assert NoDuplicates(tasks[1..]) by {
        forall i, j | 0 <= i < j < |tasks[1..]|
          ensures tasks[1..][i] != tasks[1..][j]
        {
          assert tasks[1..][i] == tasks[i + 1] && tasks[1..][j] == tasks[j + 1];
        }
      }
      RemovedProperties(tasks[1..], id);
      assert tasks == [tasks[0]] + tasks[1..];
      if tasks[0] != id {
        assert tasks[0] !in tasks[1..] by {
          forall k | 0 <= k < |tasks[1..]|
            ensures tasks[1..][k] != tasks[0]
          {
            assert tasks[1..][k] == tasks[k + 1];
          }
        }
      }
    }
  }

  /** Removing an id just added gives the list back. */
  lemma {:induction false} AddThenRemove(tasks: seq<string>, id: string)
    requires id !in tasks
    ensures Removed(Added(tasks, id), id) == tasks
  {
    if tasks != [] {
      assert (tasks + [id])[1..] == tasks[1..] + [id];
      AddThenRemove(tasks[1..], id);
    }
  }

  // ---------------------------------------------------------------------
  // The pure parts of renderUI
  // ---------------------------------------------------------------------

  /** `int(percent / 10)` clamped to [0, 10]. */
  function Bars(percent: real): (bars: int)
    ensures 0 <= bars <= 10
    ensures 0.0 <= percent < 100.0 ==> (bars as real) * 10.0 <= percent < (bars as real + 1.0) * 10.0
    ensures percent >= 100.0 ==> bars == 10
    ensures percent < 0.0 ==> bars == 0
  {
    var b := (percent / 10.0).Floor;
    if b < 0 then 0 else if b > 10 then 10 else b
  }

  /** bars '=' signs, then '>' and spaces up to ten characters when not full. */
  function BarString(bars: int): (s: string)
    requires 0 <= bars <= 10
    ensures |s| == 10
    ensures forall k :: 0 <= k < bars ==> s[k] == '='
    ensures bars < 10 ==> s[bars] == '>' && forall k :: bars < k < 10 ==> s[k] == ' '
  {
    Collections.Repeat('=', bars) + (if bars < 10 then ">" + Collections.Repeat(' ', 10 - bars - 1) else "")
  }

  /** Ids longer than 20 characters show as "..." and their last 17. */
  function DisplayId(id: string): (d: string)
    ensures |id| <= 20 ==> d == id
    ensures |id| > 20 ==> |d| == 20 && d[..3] == "..." && d[3..] == id[|id| - 17..]
  {
    if |id| > 20 then "..." + id[|id| - 17..] else id
  }

  /** `%20s`: padded on the left with spaces to 20 characters. */
  function PadLeft(s: string, width: nat): (p: string)
    ensures |s| <= width ==> |p| == width && p[width - |s|..] == s
    ensures |s| > width ==> p == s
  {
    if |s| < width then Collections.Repeat(' ', width - |s|) + s else s
  }

  /** One line under "Downloading:": the id column, the bar, the percentage. */
  datatype Row = Row(idColumn: string, bar: string, percent: real)

  function RowOf(id: string, percent: real): Row {
    Row(PadLeft(DisplayId(id), 20), BarString(Bars(percent)), percent)
  }

  /** Every id column is exactly 20 characters wide and every bar exactly 10. */
  lemma RowWidths(id: string, percent: real)
    ensures |RowOf(id, percent).idColumn| == 20 && |RowOf(id, percent).bar| == 10
  {
  }

  // ---------------------------------------------------------------------
  // The registry
  // ---------------------------------------------------------------------

  class Registry {
    var activeTasks: seq<string>
    var taskProgress: map<string, real>
    var logs: seq<string>
    var linesRendered: int

    /** The list has no duplicates and every listed task has a progress entry. */
    ghost predicate Valid()
      reads this
    {
      NoDuplicates(activeTasks) && forall t :: t in activeTasks ==> t in taskProgress
    }

    /** InitUI. */
    constructor ()
      ensures Valid()
      ensures activeTasks == [] && taskProgress == map[] && logs == [] && linesRendered == 0
    {
      activeTasks := [];
      taskProgress := map[];
      logs := [];
      linesRendered := 0;
    }

    /** UILog. */
    method Log(msg: string)
      modifies this
      ensures logs == old(logs) + [msg]
      ensures activeTasks == old(activeTasks) && taskProgress == old(taskProgress)
      ensures linesRendered == old(linesRendered)
    {
      logs := logs + [msg];
    }

    /** UIAddDownload: a new id goes at the end with progress 0; a known one changes nothing. */
    method AddDownload(id: string)
      requires Valid()
      modifies this
      ensures Valid()
      ensures activeTasks == Added(old(activeTasks), id)
      ensures taskProgress == if id in old(activeTasks) then old(taskProgress) else old(taskProgress)[id := 0.0]
      ensures logs == old(logs) && linesRendered == old(linesRendered)
    {
      var k := 0;
      while k < |activeTasks|
        invariant 0 <= k <= |activeTasks|
        invariant forall j :: 0 <= j < k ==> activeTasks[j] != id
      {
        if activeTasks[k] == id {
          return;
        }
        k := k + 1;
      }
      AddedProperties(activeTasks, id);
      activeTasks := activeTasks + [id];
      taskProgress := taskProgress[id := 0.0];
    }

    /** UIUpdateDownload: sets the progress of any id, listed or not. */
    method UpdateDownload(id: string, percent: real)
      requires Valid()
      modifies this
      ensures Valid()
      ensures taskProgress == old(taskProgress)[id := percent]
      ensures activeTasks == old(activeTasks) && logs == old(logs) && linesRendered == old(linesRendered)
    {
      taskProgress := taskProgress[id := percent];
    }

    /** UIRemoveDownload: drops the first matching task and the progress entry. */
    method RemoveDownload(id: string)
      requires Valid()
      modifies this
      ensures Valid()
      ensures activeTasks == Removed(old(activeTasks), id)
      ensures taskProgress == old(taskProgress) - {id}
      ensures logs == old(logs) && linesRendered == old(linesRendered)
    {
      RemovedProperties(activeTasks, id);
      var tasks := activeTasks;
      var k := 0;
      while k < |tasks|
        invariant 0 <= k <= |tasks|
        invariant forall j :: 0 <= j < k ==> tasks[j] != id
      {
        if tasks[k] == id {
          RemovedAt(tasks, id, k);
          activeTasks := tasks[..k] + tasks[k + 1..];
          break;
        }
        k := k + 1;
      }
      taskProgress := taskProgress - {id};
    }

    /**
     * The state change and the output of renderUI: the pending log lines in
     * order, which are then dropped; the rows of the listed tasks; and the
     * number of fixed lines drawn, 0 with no task and 2 + one per task
     * otherwise.
     */
    method Render() returns (printed: seq<string>, rows: seq<Row>)
      modifies this
      ensures printed == old(logs) && logs == []
      ensures |rows| == |activeTasks|
      ensures forall i :: 0 <= i < |rows| ==> rows[i] == RowOf(activeTasks[i], ProgressOf(taskProgress, activeTasks[i]))
      ensures linesRendered == if |activeTasks| == 0 then 0 else 2 + |activeTasks|
      ensures activeTasks == old(activeTasks) && taskProgress == old(taskProgress)
    {
      printed := logs;
      logs := [];
      rows := RenderRows(activeTasks, taskProgress);
      linesRendered := if |activeTasks| > 0 then 2 + |rows| else 0;
    }
  }

  /** `taskProgress[id]`: 0 for an id without an entry. */
  function ProgressOf(progress: map<string, real>, id: string): real {
    if id in progress then progress[id] else 0.0
  }

  /** Finding id first at index k, the removal splices it out there. */
  lemma {:induction false} RemovedAt(tasks: seq<string>, id: string, k: nat)
    requires k < |tasks| && tasks[k] == id && forall j :: 0 <= j < k ==> tasks[j] != id
    ensures Removed(tasks, id) == tasks[..k] + tasks[k + 1..]
  {
    if k > 0 {
      RemovedAt(tasks[1..], id, k - 1);
      assert tasks[..k] == [tasks[0]] + tasks[1..][..k - 1];
      assert tasks[k + 1..] == tasks[1..][k..];
    }
  }

  /** f applied to each element, in order. */
  function MapSeq<A, B>(f: A -> B, xs: seq<A>): (ys: seq<B>)
    ensures |ys| == |xs| && forall i :: 0 <= i < |xs| ==> ys[i] == f(xs[i])
  {
    seq(|xs|, i requires 0 <= i < |xs| => f(xs[i]))
  }

  lemma MapSeqStep<A, B>(f: A -> B, xs: seq<A>, i: nat)
    requires i < |xs|
    ensures MapSeq(f, xs[..i + 1]) == MapSeq(f, xs[..i]) + [f(xs[i])]
  {
  }

  /** The row loop of renderUI: one row per task, in list order. */
  method RenderRows(tasks: seq<string>, progress: map<string, real>) returns (rows: seq<Row>)
    ensures |rows| == |tasks|
    ensures forall i :: 0 <= i < |tasks| ==> rows[i] == RowOf(tasks[i], ProgressOf(progress, tasks[i]))
  {
    var rowFor := (t: string) => RowOf(t, ProgressOf(progress, t));
    rows := [];
    var i := 0;
    while i < |tasks|
      invariant 0 <= i <= |tasks|
      invariant rows == MapSeq(rowFor, tasks[..i])
    {
      var row := RenderRow(tasks[i], ProgressOf(progress, tasks[i]));
      MapSeqStep(rowFor, tasks, i);
      rows := rows + [row];
      i := i + 1;
    }
    assert tasks[..i] == tasks;
  }

  /** The body of the row loop of renderUI. */
  method RenderRow(id: string, percent: real) returns (row: Row)
    ensures row == RowOf(id, percent)
  {
    var bars := (percent / 10.0).Floor;
    if bars < 0 {
      bars := 0;
    }
    if bars > 10 {
      bars := 10;
    }
    var barStr := Collections.Repeat('=', bars);
    if bars < 10 {
      barStr := barStr + ">";
      barStr := barStr + Collections.Repeat(' ', 10 - bars - 1);
    }
    var displayId := id;
    if |displayId| > 20 {
      displayId := "..." + displayId[|displayId| - 17..];
    }
    row := Row(PadLeft(displayId, 20), barStr, percent);
  }
}
