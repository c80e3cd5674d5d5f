/** The timer that closes the popup half a second after the cursor leaves
    its window (main.go:252-262, tools.go:115-120). `src` is the handle of
    the close timer the program remembers (0: none); `pending` are the
    timeout sources the main loop still holds, which the program may have
    forgotten about. */
module Dismissal {

  /** The main loop hands out source ids one after another, so `lastId` is
      the last id it gave; `quit` records that the main loop was asked to
      stop. */
  datatype Timer = Timer(src: nat, pending: set<nat>, lastId: nat, quit: bool)

  const Idle := Timer(0, {}, 0, false)

  /** The remembered handle is either none or a pending source, and every
      pending id has been handed out. */
  predicate WellFormed(t: Timer) {
    && (t.src == 0 || t.src in t.pending)
    && 0 !in t.pending
    && forall id :: id in t.pending ==> id <= t.lastId
  }

  /** The property the enter and leave handlers are meant to keep
      (tools.go:109-114: the timeout is cleared when the window is
      re-entered): at most one close is pending, the one `src` names. */
  predicate Tidy(t: Timer) {
    t.pending == if t.src == 0 then {} else {t.src}
  }

  /** The cursor leaves the window: a new timeout is added and its handle
      overwrites `src`; an earlier timer is not removed. */
  function OnLeave(t: Timer): (r: Timer)
    requires WellFormed(t)
    ensures WellFormed(r)
    ensures r.src != 0 && r.src !in t.pending && r.pending == t.pending + {r.src}
    ensures r.quit == t.quit
  {
    var id := t.lastId + 1;
    Timer(id, t.pending + {id}, id, t.quit)
  }

  /** `cancelClose`: removes the remembered source, if any, and clears the
      handle. */
  function CancelClose(t: Timer): (r: Timer)
    requires WellFormed(t)
    ensures WellFormed(r)
    ensures r.src == 0
    ensures r.pending == t.pending - {t.src}
    ensures t.src == 0 ==> r == t
    ensures r.quit == t.quit
  {
    if t.src > 0 then t.(src := 0, pending := t.pending - {t.src}) else t
  }

  /** A pending timeout runs its callback: quit is requested, the handle is
      cleared, and returning false makes the main loop drop the source. */
  function OnFire(t: Timer, id: nat): (r: Timer)
    requires WellFormed(t) && id in t.pending
    ensures WellFormed(r)
    ensures r.quit && r.src == 0
    ensures r.pending == t.pending - {id} && r.lastId == t.lastId
  {
    Timer(0, t.pending - {id}, t.lastId, true)
  }

  /** `cancelClose` is idempotent. */
  lemma CancelIdempotent(t: Timer)
    requires WellFormed(t)
    ensures CancelClose(CancelClose(t)) == CancelClose(t)
  {
  }

  /** The cursor events the window and its buttons deliver, and the
      expiry of a timeout source. */
  datatype Event = Leave | Enter | Expire(id: nat)

  /** The main loop only runs pending sources; expiry of any other id is no
      event at all. */
  function Step(t: Timer, e: Event): (r: Timer)
    requires WellFormed(t)
    ensures WellFormed(r)
  {
    match e
    case Leave => OnLeave(t)
    case Enter => CancelClose(t)
    case Expire(id) => if id in t.pending then OnFire(t, id) else t
  }

  function Run(t: Timer, events: seq<Event>): (r: Timer)
    requires WellFormed(t)
    ensures WellFormed(r)
    decreases events
  {
    if events == [] then t else Run(Step(t, events[0]), events[1..])
  }

  /** Event sequences with no two leave events without an enter between
      them; `armed` says a leave has been seen since the last enter. */
  predicate Alternating(armed: bool, events: seq<Event>)
    decreases events
  {
    if events == [] then true
    else match events[0]
      case Leave => !armed && Alternating(true, events[1..])
      case Enter => Alternating(false, events[1..])
      case Expire(_) => Alternating(armed, events[1..])
  }

  /** As written, a leave keeps the timer tidy exactly when no close was
      pending: otherwise the earlier source is forgotten but stays pending. */
  lemma LeaveTidyIff(t: Timer)
    requires WellFormed(t) && Tidy(t)
    ensures Tidy(OnLeave(t)) <==> t.src == 0
  {
    if t.src != 0 {
      assert t.src in OnLeave(t).pending;
    }
  }

  /** As written, alternating cursor events keep the timer tidy. */
  lemma {:induction false} AlternatingStaysTidy(t: Timer, armed: bool, events: seq<Event>)
    requires WellFormed(t) && Tidy(t) && (t.src != 0 ==> armed)
    requires Alternating(armed, events)
    ensures Tidy(Run(t, events))
    decreases events
  {
    if events != [] {
      var u := Step(t, events[0]);
      match events[0]
      case Leave =>
        AlternatingStaysTidy(u, true, events[1..]);
      case Enter =>
        AlternatingStaysTidy(u, false, events[1..]);
      case Expire(_) =>
        AlternatingStaysTidy(u, armed, events[1..]);
    }
  }

  /** Two leaves and an enter, as the source handles them: the enter
      removes only the second timer, and the first one still closes the
      popup although the cursor is back inside. */
  lemma StaleTimerQuits()
    ensures Run(Idle, [Leave, Leave, Enter]).pending == {1}
    ensures Run(Idle, [Leave, Leave, Enter, Expire(1)]).quit
  {
    var t1 := Step(Idle, Leave);
    var t2 := Step(t1, Leave);
    var t3 := Step(t2, Enter);
    assert t3.pending == {1};
    assert [Leave, Leave, Enter][1..] == [Leave, Enter];
    assert [Leave, Enter][1..] == [Enter];
    assert [Leave, Leave, Enter, Expire(1)][1..] == [Leave, Enter, Expire(1)];
    assert [Leave, Enter, Expire(1)][1..] == [Enter, Expire(1)];
    assert [Enter, Expire(1)][1..] == [Expire(1)];
  }

  /** The corrected leave handler: cancel the remembered close before
      arming a new one. */
  function OnLeaveCancelling(t: Timer): (r: Timer)
    requires WellFormed(t)
    ensures WellFormed(r)
    ensures Tidy(t) ==> Tidy(r) && r.src != 0
  {
    OnLeave(CancelClose(t))
  }

  function StepCancelling(t: Timer, e: Event): (r: Timer)
    requires WellFormed(t)
    ensures WellFormed(r)
  {
    if e.Leave? then OnLeaveCancelling(t) else Step(t, e)
  }

  function RunCancelling(t: Timer, events: seq<Event>): (r: Timer)
    requires WellFormed(t)
    ensures WellFormed(r)
    decreases events
  {
    if events == [] then t else RunCancelling(StepCancelling(t, events[0]), events[1..])
  }

  /** With the corrected handler every event sequence keeps at most the
      one remembered close pending, so after a final enter nothing is left
      to fire, and after a final leave exactly one close is due. */
  lemma {:induction false} CancellingStaysTidy(t: Timer, events: seq<Event>)
    requires WellFormed(t) && Tidy(t)
    ensures Tidy(RunCancelling(t, events))
    ensures events != [] && events[|events| - 1] == Enter ==> RunCancelling(t, events).pending == {}
    ensures events != [] && events[|events| - 1] == Leave ==>
      var r := RunCancelling(t, events); r.src != 0 && r.pending == {r.src}
    decreases events
  {
    if events != [] {
      var u := StepCancelling(t, events[0]);
      CancellingStaysTidy(u, events[1..]);
      if |events| > 1 {
        assert events[1..][|events[1..]| - 1] == events[|events| - 1];
      }
    }
  }

  /** The debounce promise for the corrected handler: a final leave is
      followed by one close, after which nothing else is pending. */
  lemma ClosesOnce(t: Timer, events: seq<Event>)
    requires WellFormed(t) && Tidy(t)
    requires events != [] && events[|events| - 1] == Leave
    ensures var r := RunCancelling(t, events);
      r.src in r.pending && OnFire(r, r.src).quit && OnFire(r, r.src).pending == {}
  {
    CancellingStaysTidy(t, events);
  }

  /** The timer state of the running popup: the global `src`, plus the
      main loop's pending timeout sources. */
  class DismissTimer {
    var src: nat
    var pending: set<nat>
    var lastId: nat
    var quit: bool

    function State(): Timer
      reads this
    {
      Timer(src, pending, lastId, quit)
    }

    constructor ()
      ensures State() == Idle
    {
      src, pending, lastId, quit := 0, {}, 0, false;
    }

    /** The window's leave handler (main.go:252-258). */
    method Leave()
      requires WellFormed(State())
      modifies this
      ensures State() == OnLeave(old(State()))
    {
      var id := lastId + 1;
      lastId := id;
      pending := pending + {id};
      src := id;
    }

    /** `cancelClose`, called by the enter handlers of the window and of
        every button. */
    method Cancel()
      requires WellFormed(State())
      modifies this
      ensures State() == CancelClose(old(State()))
    {
      if src > 0 {
        pending := pending - {src};
        src := 0;
      }
    }

    /** The main loop runs the timeout callback of source `id`; its result
        `false` asks the loop to drop the source. */
    method Fire(id: nat) returns (again: bool)
      requires WellFormed(State()) && id in pending
      modifies this
      ensures State() == OnFire(old(State()), id)
      ensures !again
    {
      quit := true;
      src := 0;
      again := false;
      pending := pending - {id};
    }
  }
}
