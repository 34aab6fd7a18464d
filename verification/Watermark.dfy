/** Windows from watermarks: which days the scheduler asks for, what a successful task does to the watermark, and
    why no day is skipped. Days are numbers. */
module Watermarks {
  import opened Wrappers

  type Day = int

  datatype Window = Window(start: Day, end: Day)

  predicate Contains(w: Window, day: Day) {
    w.start <= day <= w.end
  }

  /** What the provider asks for: from the day after the watermark, or from the configured start while there is no
      watermark, to the last closed trading day. */
  function Due(mark: Option<Day>, configured: Option<Day>, lastClosed: Option<Day>): Option<Window> {
    if lastClosed.None? || (mark.None? && configured.None?) then None
    else
      var start := if mark.Some? then mark.value + 1 else configured.value;
      if start > lastClosed.value then None else Some(Window(start, lastClosed.value))
  }

  /** What one execution of a window met: rows the source returned, rows written, open days in the window as far as
      the calendar shows, and whether the entity has data up to the end of the window. */
  datatype Fetch = Fetch(fetched: nat, written: nat, openDays: nat, hasHistory: bool)

  /** An empty answer for open days of an entity that trades is a soft failure. */
  predicate SoftFails(f: Fetch) {
    f.fetched == 0 && f.openDays > 0 && f.hasHistory
  }

  /** The source returned something, or had nothing to return: no open days, or an entity without history. */
  predicate Answered(f: Fetch) {
    f.fetched > 0 || f.openDays == 0 || !f.hasHistory
  }

  /** Whether advancing keeps the later mark or overwrites. */
  datatype Policy = KeepLatest | Overwrite

  function Advanced(policy: Policy, mark: Option<Day>, target: Day): Option<Day> {
    if policy == KeepLatest && mark.Some? && mark.value >= target then mark else Some(target)
  }

  /** The mark a successful window leads to: its last day, held back by one when that is today and nothing came. */
  function Target(w: Window, written: nat, today: Day): Day {
    if w.end >= today && written == 0 then w.end - 1 else w.end
  }

  class WatermarkStore {
    const policy: Policy
    var mark: Option<Day>

    constructor (policy: Policy)
      ensures this.policy == policy && mark == None
    {
      this.policy, mark := policy, None;
    }

    method Advance(target: Day)
      modifies this
      ensures mark == Advanced(policy, old(mark), target)
    {
      if policy == KeepLatest && mark.Some? && mark.value >= target {
        return;
      }
      mark := Some(target);
    }

    /** What runs after the sync call, and the success handler. A task without a window is an error and leaves
        the mark alone, and so does a soft failure. */
    method Finish(window: Option<Window>, f: Fetch, today: Day) returns (success: bool)
      modifies this
      ensures success == (window.Some? && Answered(f))
      ensures mark == if success then Advanced(policy, old(mark), Target(window.value, f.written, today)) else old(mark)
    {
      if window.None? {
        return false;
      }
      if f.fetched == 0 && f.openDays != 0 && f.hasHistory {
        return false;
      }
      var target := window.value.end;
      if target >= today && f.written == 0 {
        target := target - 1;
      }
      Advance(target);
      success := true;
    }
  }

  // ---------------------------------------------------------------- runs

  datatype Done = Done(window: Window, fetch: Fetch)

  /** Issued windows stay pending while they are tried; a window can be issued again meanwhile. */
  datatype State = State(mark: Option<Day>, pending: seq<Window>, done: seq<Done>)

  datatype Event =
    | Issue(lastClosed: Option<Day>)
    | Execute(index: nat, fetch: Fetch, crashed: bool, today: Day)
    | Drop(index: nat)

  function Without(s: seq<Window>, i: nat): seq<Window>
    requires i < |s|
  {
    s[..i] + s[i + 1..]
  }

  function Step(policy: Policy, configured: Option<Day>, s: State, e: Event): State {
    match e
    case Issue(lastClosed) =>
      var due := Due(s.mark, configured, lastClosed);
      if due.None? then s else s.(pending := s.pending + [due.value])
    case Execute(i, f, crashed, today) =>
      if i >= |s.pending| || crashed || SoftFails(f) then s
      else
        State(Advanced(policy, s.mark, Target(s.pending[i], f.written, today)), Without(s.pending, i),
              s.done + [Done(s.pending[i], f)])
    case Drop(i) => if i >= |s.pending| then s else s.(pending := Without(s.pending, i))
  }

  function Run(policy: Policy, configured: Option<Day>, events: seq<Event>): State {
    if events == [] then State(None, [], [])
    else Step(policy, configured, Run(policy, configured, events[..|events| - 1]), events[|events| - 1])
  }

  /** Some execution that was answered had the day in its window. */
  ghost predicate Covered(done: seq<Done>, day: Day) {
    exists i :: 0 <= i < |done| && Contains(done[i].window, day) && Answered(done[i].fetch)
  }

  ghost predicate CoveredUpTo(done: seq<Done>, from: Day, to: Day) {
    forall day {:trigger Covered(done, day)} :: from <= day <= to ==> Covered(done, day)
  }

  /** Everything below the mark is covered, and so is everything before any window still pending. */
  ghost predicate NoGap(s: State, configured: Option<Day>) {
    if configured.None? then s.mark.None? && s.pending == []
    else
      && (s.mark.Some? ==> CoveredUpTo(s.done, configured.value, s.mark.value))
      && (forall i {:trigger s.pending[i]} :: 0 <= i < |s.pending| ==>
            s.pending[i].start <= s.pending[i].end && CoveredUpTo(s.done, configured.value, s.pending[i].start - 1))
  }

  lemma CoveredStays(done: seq<Done>, d: Done, from: Day, to: Day)
    requires CoveredUpTo(done, from, to)
    ensures CoveredUpTo(done + [d], from, to)
  {
    forall day | from <= day <= to ensures Covered(done + [d], day) {
      assert Covered(done, day);
      var i :| 0 <= i < |done| && Contains(done[i].window, day) && Answered(done[i].fetch);
      assert (done + [d])[i] == done[i];
    }
  }

  /** A successful window fills in what was missing between what lies before it and its end. */
  lemma WindowFills(done: seq<Done>, d: Done, from: Day)
    requires CoveredUpTo(done, from, d.window.start - 1) && !SoftFails(d.fetch)
    ensures CoveredUpTo(done + [d], from, d.window.end)
  {
    CoveredStays(done, d, from, d.window.start - 1);
    forall day | from <= day <= d.window.end ensures Covered(done + [d], day) {
      if day >= d.window.start {
        assert (done + [d])[|done|] == d && Contains(d.window, day);
      }
    }
  }

  lemma ExecuteKeepsNoGap(policy: Policy, configured: Option<Day>, s: State, i: nat, f: Fetch, today: Day)
    requires NoGap(s, configured) && i < |s.pending| && !SoftFails(f)
    ensures NoGap(Step(policy, configured, s, Execute(i, f, false, today)), configured)
  {
    var d, from := Done(s.pending[i], f), configured.value;
    var s' := Step(policy, configured, s, Execute(i, f, false, today));
    WindowFills(s.done, d, from);
    if s.mark.Some? {
      CoveredStays(s.done, d, from, s.mark.value);
    }
    forall k | 0 <= k < |s'.pending|
      ensures s'.pending[k].start <= s'.pending[k].end && CoveredUpTo(s'.done, from, s'.pending[k].start - 1)
    {
      var was := if k < i then k else k + 1;
      assert s'.pending[k] == s.pending[was];
      CoveredStays(s.done, d, from, s.pending[was].start - 1);
    }
  }

  lemma StepKeepsNoGap(policy: Policy, configured: Option<Day>, s: State, e: Event)
    requires NoGap(s, configured)
    ensures NoGap(Step(policy, configured, s, e), configured)
  {
    match e
    case Issue(lastClosed) =>
    case Execute(i, f, crashed, today) =>
      if i < |s.pending| && !crashed && !SoftFails(f) {
        ExecuteKeepsNoGap(policy, configured, s, i, f, today);
      }
    case Drop(i) =>
      if i < |s.pending| {
        var s' := Step(policy, configured, s, e);
        forall k | 0 <= k < |s'.pending|
          ensures configured.Some? && s'.pending[k].start <= s'.pending[k].end &&
                  CoveredUpTo(s'.done, configured.value, s'.pending[k].start - 1)
        {
          assert s'.pending[k] == s.pending[if k < i then k else k + 1];
        }
      }
  }

  lemma {:induction false} NeverAGap(policy: Policy, configured: Option<Day>, events: seq<Event>)
    ensures NoGap(Run(policy, configured, events), configured)
  {
    if events != [] {
      NeverAGap(policy, configured, events[..|events| - 1]);
      StepKeepsNoGap(policy, configured, Run(policy, configured, events[..|events| - 1]), events[|events| - 1]);
    }
  }

  /** When all windows come from the provider, every day from the configured start to the watermark lies in a window
      that was synced without a soft failure: for any order of issue, delay, failure, loss and completion, and
      whether advancing keeps the later mark or overwrites. */
  lemma EveryDayWasSynced(policy: Policy, configured: Day, events: seq<Event>, day: Day)
    requires Run(policy, Some(configured), events).mark.Some? && configured <= day <= Run(policy, Some(configured), events).mark.value
    ensures Covered(Run(policy, Some(configured), events).done, day)
  {
    NeverAGap(policy, Some(configured), events);
  }

  /** An answered window takes the mark at least to its target, the keeping policy never takes it back, and the
      overwriting one takes it exactly there. */
  lemma ExecuteMovesMark(policy: Policy, configured: Option<Day>, s: State, i: nat, f: Fetch, today: Day)
    requires i < |s.pending| && Answered(f)
    ensures var w, mark := s.pending[i], Step(policy, configured, s, Execute(i, f, false, today)).mark;
            var target := if w.end >= today && f.written == 0 then w.end - 1 else w.end;
            && mark.Some?
            && (policy == Overwrite ==> mark.value == target)
            && (policy == KeepLatest ==> mark.value == if s.mark.Some? && s.mark.value > target then s.mark.value else target)
  {
  }

  /** With the keeping policy the mark never goes back, over every run. */
  lemma {:induction false} MarkNeverGoesBack(configured: Option<Day>, events: seq<Event>, n: nat)
    requires n <= |events| && Run(KeepLatest, configured, events[..n]).mark.Some?
    ensures var earlier, later := Run(KeepLatest, configured, events[..n]).mark, Run(KeepLatest, configured, events).mark;
            later.Some? && earlier.value <= later.value
  {
    if n < |events| {
      assert events[..|events| - 1][..n] == events[..n];
      MarkNeverGoesBack(configured, events[..|events| - 1], n);
    } else {
      assert events[..n] == events;
    }
  }

  lemma RoundCatchesUp(policy: Policy, configured: Day, s: State, lastClosed: Day, f: Fetch, today: Day)
    requires Answered(f) && (if s.mark.Some? then s.mark.value < lastClosed else configured <= lastClosed)
    ensures var start := if s.mark.Some? then s.mark.value + 1 else configured;
            var target := if lastClosed >= today && f.written == 0 then lastClosed - 1 else lastClosed;
            var issued := Step(policy, Some(configured), s, Issue(Some(lastClosed)));
            Step(policy, Some(configured), issued, Execute(|s.pending|, f, false, today)) ==
              State(Some(target), s.pending, s.done + [Done(Window(start, lastClosed), f)])
  {
    var start := if s.mark.Some? then s.mark.value + 1 else configured;
    assert Without(s.pending + [Window(start, lastClosed)], |s.pending|) == s.pending;
  }

  lemma RunTwoMore(policy: Policy, configured: Option<Day>, events: seq<Event>, before: State, a: Event, b: Event)
    requires before == Run(policy, configured, events)
    ensures Run(policy, configured, events + [a, b]) == Step(policy, configured, Step(policy, configured, before, a), b)
  {
    var all := events + [a, b];
    assert all[..|all| - 1] == events + [a] && (events + [a])[..|events|] == events;
  }

  /** One round catches up: after any run that left the mark before the last closed day, the provider issues the window
      from the day after the mark (without one, from the configured start) to that day, and once it is answered the mark
      is there, held back by one day only if that is today and nothing was written. */
  lemma OneRoundCatchesUp(policy: Policy, configured: Day, events: seq<Event>, before: State, lastClosed: Day, f: Fetch, today: Day)
    requires before == Run(policy, Some(configured), events) && Answered(f)
    requires if before.mark.Some? then before.mark.value < lastClosed else configured <= lastClosed
    ensures var start := if before.mark.Some? then before.mark.value + 1 else configured;
            var target := if lastClosed >= today && f.written == 0 then lastClosed - 1 else lastClosed;
            Run(policy, Some(configured), events + [Issue(Some(lastClosed)), Execute(|before.pending|, f, false, today)]) ==
              State(Some(target), before.pending, before.done + [Done(Window(start, lastClosed), f)])
  {
    RoundCatchesUp(policy, configured, before, lastClosed, f, today);
    RunTwoMore(policy, Some(configured), events, before, Issue(Some(lastClosed)), Execute(|before.pending|, f, false, today));
  }

  /** Nothing is asked for once the mark has reached the last closed day, or while there is nothing to go by. */
  lemma NothingMoreToAsk(policy: Policy, configured: Option<Day>, s: State, lastClosed: Option<Day>)
    ensures Step(policy, configured, s, Issue(lastClosed)) == s <==>
              || lastClosed.None? || (s.mark.None? && configured.None?)
              || lastClosed.value < (if s.mark.Some? then s.mark.value + 1 else configured.value)
  {
    assert |s.pending + [Window(0, 0)]| != |s.pending|;
  }

  /** A window given by hand leaves no gap exactly when what lies before its start was covered already. */
  lemma ExplicitWindow(s: State, configured: Day, w: Window, f: Fetch, today: Day)
    requires !SoftFails(f) && configured <= w.start <= Target(w, f.written, today)
    ensures CoveredUpTo(s.done + [Done(w, f)], configured, Target(w, f.written, today)) <==>
              CoveredUpTo(s.done, configured, w.start - 1)
  {
    var d := Done(w, f);
    if CoveredUpTo(s.done, configured, w.start - 1) {
      WindowFills(s.done, d, configured);
    }
    if CoveredUpTo(s.done + [d], configured, Target(w, f.written, today)) {
      forall day | configured <= day <= w.start - 1 ensures Covered(s.done, day) {
        assert Covered(s.done + [d], day);
        var i :| 0 <= i < |s.done + [d]| && Contains((s.done + [d])[i].window, day) && Answered((s.done + [d])[i].fetch);
        assert (s.done + [d])[i] == s.done[i];
      }
    }
  }

  /** Whether the last day of a window that reaches today is asked for again does not depend on whether its data had
      come, but on whether anything was written for the window at all. */
  lemma TodayIsAskedForAgain(configured: Option<Day>, s: State, i: nat, f: Fetch, today: Day, lastClosed: Day)
    requires i < |s.pending| && !SoftFails(f) && s.pending[i].end == today <= lastClosed
    requires s.mark.Some? ==> s.mark.value < today
    ensures var s' := Step(KeepLatest, configured, s, Execute(i, f, false, today));
            var due := Due(s'.mark, configured, Some(lastClosed));
            (due.Some? && Contains(due.value, today)) <==> f.written == 0
  {
  }
}
