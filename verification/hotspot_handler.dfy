/**
 * The activation state machine of Helper/HotspotHandler.cs. Pressing a
 * hotspot starts (or resumes) an activation task that announces "activating"
 * and, once the activation time has elapsed, "activated"; releasing it early
 * cancels the activation and keeps it so that a quick re-press resumes its progress.
 * Time is in milliseconds and explicit; the timer that ends a task's wait is
 * the event `TimerFired`.
 */
module HotspotHandler {
  import opened Wrappers

  /** The time a hotspot must be held to activate: 5 seconds. */
  const ActivationTime: int := 5000

  /** What the handler announces to its listeners. */
  datatype HandlerEvent =
    | Activating(id: int)
    | Activated(id: int)
    | Deactivating(id: int)
    | ForcefullyDeactivated(id: int)

  /** When a task was cancelled, and how long it had been running then. */
  datatype CancelRecord = CancelRecord(time: int, progress: int)

  /**
   * An activation task: the hotspot it activates, when it started, the
   * progress it was started with (none for a fresh task), whether it finished
   * activating, and when it was cancelled, if it was.
   */
  datatype ActivationTask = ActivationTask(id: int, startTime: int, progress: Option<int>, done: bool,
                                           cancelledAt: Option<CancelRecord>)

  /** The exception the resuming constructor throws. */
  datatype TaskError = ArgumentException

  /** A fresh task for `id`, started at `now` without progress. */
  function NewTask(id: int, now: int): (t: ActivationTask)
    ensures t.id == id && t.startTime == now && t.progress.None? && !t.done && t.cancelledAt.None?
  {
    ActivationTask(id, now, None, false, None)
  }

  /**
   * How long a task waits between "activating" and "activated": the full
   * activation time without progress or with negative progress, the rest of it
   * with progress below it, and nothing otherwise.
   */
  function Wait(progress: Option<int>): (w: int)
    ensures 0 <= w <= ActivationTime
    ensures progress.None? || progress.value <= 0 ==> w == ActivationTime
    ensures progress.Some? && 0 <= progress.value <= ActivationTime ==> w + progress.value == ActivationTime
    ensures progress.Some? && progress.value >= ActivationTime ==> w == 0
  {
    if progress.None? || progress.value < 0 then ActivationTime
    else if progress.value < ActivationTime then ActivationTime - progress.value
    else 0
  }

  /** More progress never means a longer wait. */
  lemma WaitAntitone(p: int, q: int)
    requires p <= q
    ensures Wait(Some(p)) >= Wait(Some(q))
  {
  }

  /** `Cancel`: record the cancellation time and how long this task had been running. */
  function Cancel(t: ActivationTask, now: int): (c: ActivationTask)
    ensures c.cancelledAt == Some(CancelRecord(now, now - t.startTime))
    ensures c.id == t.id && c.startTime == t.startTime && c.progress == t.progress && c.done == t.done
  {
    t.(cancelledAt := Some(CancelRecord(now, now - t.startTime)))
  }

  /**
   * The resuming constructor: a task that was never cancelled is refused.
   * Otherwise a new task for the same hotspot starts at `now`, with progress 0
   * if the old one had finished, else its progress at cancellation minus the
   * time since.
   */
  function Resume(cancelled: ActivationTask, now: int): (r: Result<ActivationTask, TaskError>)
    ensures r.Err? <==> cancelled.cancelledAt.None?
    ensures r.Ok? ==> && r.value.id == cancelled.id && r.value.startTime == now
                      && !r.value.done && r.value.cancelledAt.None?
    ensures r.Ok? && cancelled.done ==> r.value.progress == Some(0)
    ensures r.Ok? && !cancelled.done ==>
              r.value.progress == Some(cancelled.cancelledAt.value.progress - (now - cancelled.cancelledAt.value.time))
  {
    if cancelled.cancelledAt.None? then Err(ArgumentException)
    else
      var record := cancelled.cancelledAt.value;
      var progress := if cancelled.done then 0 else record.progress - (now - record.time);
      Ok(ActivationTask(cancelled.id, now, Some(progress), false, None))
  }

  /**
   * Releasing a fresh task after `held` ms and pressing again `gap` ms later
   * leaves a wait of the activation time minus `held`, plus `gap`, as long as
   * that lies between 0 and the activation time.
   */
  lemma ResumeCreditsHeldTime(id: int, start: int, held: int, gap: int)
    requires 0 <= held - gap <= ActivationTime
    ensures var resumed := Resume(Cancel(NewTask(id, start), start + held), start + held + gap);
            resumed.Ok? && Wait(resumed.value.progress) == ActivationTime - held + gap
  {
  }

  class Handler {
    var currentlyActivated: Option<int>
    var currentTask: Option<ActivationTask>
    var cancelledTasks: map<int, ActivationTask>

    /**
     * Cancelled tasks are filed under their own id, were cancelled and never
     * finished; the current task was not cancelled and is not also filed; an
     * unfinished current task is for a hotspot other than the activated one,
     * and a finished one activated its hotspot.
     */
    ghost predicate Valid()
      reads this
    {
      && (forall k :: k in cancelledTasks ==>
            cancelledTasks[k].id == k && cancelledTasks[k].cancelledAt.Some? && !cancelledTasks[k].done)
      && (currentTask.Some? ==> currentTask.value.cancelledAt.None? && currentTask.value.id !in cancelledTasks)
      && (currentTask.Some? && !currentTask.value.done ==> currentlyActivated != Some(currentTask.value.id))
      && (currentTask.Some? && currentTask.value.done ==> currentlyActivated == Some(currentTask.value.id))
    }

    constructor ()
      ensures Valid()
      ensures currentlyActivated.None? && currentTask.None? && cancelledTasks == map[]
    {
      currentlyActivated := None;
      currentTask := None;
      cancelledTasks := map[];
    }

    /**
     * `OnHotspotPressed`: ignored while `id` is the activated hotspot or a task
     * is still running. Otherwise a cancelled task for `id` is taken out and
     * resumed, or a fresh task is started; it announces "activating" at once.
     * The previous, finished task is dropped from the cancelled tasks.
     */
    method Pressed(id: int, now: int) returns (events: seq<HandlerEvent>)
      requires Valid()
      modifies this
      ensures Valid()
      ensures old(currentlyActivated) == Some(id) || (old(currentTask).Some? && !old(currentTask).value.done) ==>
                events == [] && unchanged(this)
      ensures !(old(currentlyActivated) == Some(id) || (old(currentTask).Some? && !old(currentTask).value.done)) ==>
                && events == [Activating(id)]
                && currentlyActivated == old(currentlyActivated)
                && currentTask.Some? && currentTask.value.id == id && currentTask.value.startTime == now
                && !currentTask.value.done
                && currentTask.value.progress ==
                     (if id in old(cancelledTasks) then Resume(old(cancelledTasks)[id], now).value.progress else None)
                && cancelledTasks == old(cancelledTasks) - {id} - (if old(currentTask).Some? then {old(currentTask).value.id} else {})
    {
      var runningTask := currentTask;
      if currentlyActivated == Some(id) || (runningTask.Some? && !runningTask.value.done) {
        return [];
      }
      if id in cancelledTasks {
        var cancelled := cancelledTasks[id];
        cancelledTasks := cancelledTasks - {id};
        currentTask := Some(Resume(cancelled, now).value);
      } else {
        currentTask := Some(NewTask(id, now));
      }
      events := [Activating(id)];
      if runningTask.Some? {
        cancelledTasks := cancelledTasks - {runningTask.value.id};
      }
    }

    /**
     * `OnHotspotReleased`: acts only on an unfinished current task for `id`.
     * That task is cancelled and filed under its id, there is no current task
     * any more, and "deactivating" is announced unless `id` is the activated
     * hotspot.
     */
    method Released(id: int, now: int) returns (events: seq<HandlerEvent>)
      requires Valid()
      modifies this
      ensures Valid()
      ensures old(currentTask).None? || old(currentTask).value.done || old(currentTask).value.id != id ==>
                events == [] && unchanged(this)
      ensures old(currentTask).Some? && !old(currentTask).value.done && old(currentTask).value.id == id ==>
                && currentTask.None?
                && cancelledTasks == old(cancelledTasks)[id := Cancel(old(currentTask).value, now)]
                && currentlyActivated == old(currentlyActivated)
                && events == (if currentlyActivated == Some(id) then [] else [Deactivating(id)])
    {
      if currentTask.None? || currentTask.value.done || currentTask.value.id != id {
        return [];
      }
      var task := currentTask.value;
      var cancelled := Cancel(task, now);
      currentTask := None;
      cancelledTasks := cancelledTasks[task.id := cancelled];
      events := if currentlyActivated.None? || currentlyActivated != Some(id) then [Deactivating(id)] else [];
    }

    /**
     * The end of an activation task's wait: an unfinished current task whose
     * wait has elapsed activates its hotspot and is marked done.
     */
    method TimerFired(now: int) returns (events: seq<HandlerEvent>)
      requires Valid()
      modifies this
      ensures Valid()
      ensures !(old(currentTask).Some? && !old(currentTask).value.done &&
                now - old(currentTask).value.startTime >= Wait(old(currentTask).value.progress)) ==>
                events == [] && unchanged(this)
      ensures old(currentTask).Some? && !old(currentTask).value.done &&
              now - old(currentTask).value.startTime >= Wait(old(currentTask).value.progress) ==>
                && currentlyActivated == Some(old(currentTask).value.id)
                && currentTask == Some(old(currentTask).value.(done := true))
                && cancelledTasks == old(cancelledTasks)
                && events == (if old(currentlyActivated).Some? then [ForcefullyDeactivated(old(currentlyActivated).value)] else [])
                             + [Activated(old(currentTask).value.id)]
                && old(currentlyActivated) != Some(old(currentTask).value.id)
    {
      if currentTask.None? || currentTask.value.done ||
         now - currentTask.value.startTime < Wait(currentTask.value.progress) {
        return [];
      }
      var task := currentTask.value;
      events := InvokeActivatedAndUpdateCurrent(task.id);
      currentTask := Some(task.(done := true));
    }

    /**
     * `InvokeActivatedAndUpdateCurrent`: the previously activated hotspot, if
     * any, is forcefully deactivated; then `id` becomes the activated hotspot.
     */
    method InvokeActivatedAndUpdateCurrent(id: int) returns (events: seq<HandlerEvent>)
      modifies this
      ensures currentlyActivated == Some(id)
      ensures currentTask == old(currentTask) && cancelledTasks == old(cancelledTasks)
      ensures events == (if old(currentlyActivated).Some? then [ForcefullyDeactivated(old(currentlyActivated).value)] else [])
                        + [Activated(id)]
    {
      events := [];
      if currentlyActivated.Some? {
        events := [ForcefullyDeactivated(currentlyActivated.value)];
      }
      currentlyActivated := Some(id);
      events := events + [Activated(id)];
    }
  }
}
