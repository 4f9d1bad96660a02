/**
 * Following an installation job (src/hooks/use-job-polling.ts with the decision of
 * src/lib/integrations/polling-job.ts): timers, requests in flight, restarts and unmount,
 * with answers arriving in any order.
 */
module JobPolling {
  import opened Sequences

  const MAX_CONSECUTIVE_ERRORS: nat := 5

  datatype Job = Job(phase: string, log: seq<string>)

  /** What `fetchJson` brings back: a body, recognised as a job or not, or a failure. */
  datatype Answer =
    | JobRead(job: Job)
    | BadBody
    | Failed(status: Option<nat>, detail: string)

  datatype Outcome = InProgress | Finished | SessionExpired | UnknownOutcome | TemporaryError | RepeatedError

  datatype Message =
    | SessionOver
    | OutcomeUnknown
    | GaveUp(attempts: nat, detail: string)
    | Retrying(attempt: nat, detail: string)

  datatype Step = Step(outcome: Outcome, continues: bool, errors: nat, job: Option<Job>, message: Option<Message>)

  function ErrorStep(detail: string, errorsBefore: nat): Step {
    var errors := errorsBefore + 1;
    if errors >= MAX_CONSECUTIVE_ERRORS
    then Step(RepeatedError, false, errors, None, Some(GaveUp(errors, detail)))
    else Step(TemporaryError, true, errors, None, Some(Retrying(errors, detail)))
  }

  function Evaluate(a: Answer, errorsBefore: nat): Step {
    match a
    case JobRead(job) =>
      var finished := job.phase == "done" || job.phase == "error";
      Step(if finished then Finished else InProgress, !finished, 0, Some(job), None)
    case BadBody => ErrorStep("Risposta non valida dal server", errorsBefore)
    case Failed(status, detail) =>
      if status == Some(401) then Step(SessionExpired, false, 0, None, Some(SessionOver))
      else if status == Some(404) then Step(UnknownOutcome, false, 0, None, Some(OutcomeUnknown))
      else ErrorStep(detail, errorsBefore)
  }

  /** An answer that only raises the error count. */
  predicate IsError(a: Answer) {
    a.BadBody? || (a.Failed? && a.status != Some(401) && a.status != Some(404))
  }

  /** A request waiting for its answer, with the generation and error count captured when it left. */
  datatype Request = Request(generation: nat, errorsSent: nat)

  /** A call of `onFine`. */
  datatype Ending = Ending(generation: nat, step: Step)

  /**
   * The hook, its runtime (pending timers by identifier, requests in flight) and the calls
   * of `onFine` so far. `errors` is the local variable of each `avvia`, by its generation.
   */
  datatype State = State(
    generation: nat,
    timerRef: Option<nat>,
    job: Option<Job>,
    message: Option<Message>,
    active: bool,
    mounted: bool,
    errors: map<nat, nat>,
    timers: map<nat, nat>,
    requests: map<nat, Request>,
    nextId: nat,
    endings: seq<Ending>)

  const Initial := State(0, None, None, None, false, true, map[], map[], map[], 0, [])

  datatype Event =
    | Start
    | Unmount
    | TimerFires(timer: nat)
    | Arrives(request: nat, answer: Answer)

  function Stopped(s: State): State {
    s.(generation := s.generation + 1,
       timerRef := None,
       timers := if s.timerRef.Some? then s.timers - {s.timerRef.value} else s.timers)
  }

  function Scheduled(s: State, generation: nat): State {
    s.(timerRef := Some(s.nextId), timers := s.timers[s.nextId := generation], nextId := s.nextId + 1)
  }

  /** What the step of an answer does to the generation it was asked for. */
  function Settled(s: State, generation: nat, step: Step): State {
    if generation != s.generation then s
    else
      var shown := s.(errors := s.errors[generation := step.errors],
                      job := if step.job.Some? then step.job else s.job,
                      message := step.message);
      if step.continues then Scheduled(shown, generation)
      else shown.(timerRef := None, active := false, endings := s.endings + [Ending(generation, step)])
  }

  function Answered(s: State, q: Request, a: Answer): State {
    Settled(s, q.generation, Evaluate(a, q.errorsSent))
  }

  /** One event; a timer or a request that does not exist changes nothing. */
  function Next(s: State, e: Event): State {
    match e
    case Start =>
      var stopped := Stopped(s);
      var cleared := stopped.(errors := stopped.errors[stopped.generation := 0],
                              job := None, message := None, active := true);
      Scheduled(cleared, stopped.generation)
    case Unmount => Stopped(s).(mounted := false)
    case TimerFires(t) =>
      if t !in s.timers then s
      else
        var g := s.timers[t];
        s.(timers := s.timers - {t},
           requests := s.requests[s.nextId := Request(g, if g in s.errors then s.errors[g] else 0)],
           nextId := s.nextId + 1)
    case Arrives(q, a) =>
      if q !in s.requests then s
      else Answered(s.(requests := s.requests - {q}), s.requests[q], a)
  }

  /** The hook as the source has it: refs and state reassigned by each callback. */
  class Hook {
    var generation: nat
    var timerRef: Option<nat>
    var job: Option<Job>
    var message: Option<Message>
    var active: bool
    var mounted: bool
    var errors: map<nat, nat>
    var timers: map<nat, nat>
    var requests: map<nat, Request>
    var nextId: nat
    var endings: seq<Ending>

    ghost function View(): State
      reads this
    {
      State(generation, timerRef, job, message, active, mounted, errors, timers, requests, nextId, endings)
    }

    constructor ()
      ensures View() == Initial
    {
      generation, timerRef, job, message, active, mounted := 0, None, None, None, false, true;
      errors, timers, requests, nextId, endings := map[], map[], map[], 0, [];
    }

    method Stop()
      modifies this
      ensures generation == old(generation) + 1 && timerRef.None?
      ensures forall t :: t in timers <==> t in old(timers) && Some(t) != old(timerRef)
      ensures forall t :: t in timers ==> timers[t] == old(timers)[t]
      ensures unchanged(this`job, this`message, this`active, this`mounted, this`errors, this`requests, this`nextId)
      ensures endings == old(endings)
      ensures View() == Stopped(old(View()))
    {
      generation := generation + 1;
      if timerRef.Some? {
        timers := timers - {timerRef.value};
      }
      timerRef := None;
    }

    method SetTimer(g: nat)
      modifies this`timerRef, this`timers, this`nextId
      ensures View() == Scheduled(old(View()), g)
    {
      timerRef := Some(nextId);
      timers := timers[nextId := g];
      nextId := nextId + 1;
    }

    method StartPolling()
      modifies this
      ensures generation == old(generation) + 1 && job.None? && message.None? && active
      ensures errors == old(errors)[generation := 0]
      ensures timerRef == Some(old(nextId)) && old(nextId) in timers && timers[old(nextId)] == generation
      ensures forall t :: t in timers && t != old(nextId) ==> t in old(timers) && Some(t) != old(timerRef)
      ensures requests == old(requests) && endings == old(endings) && mounted == old(mounted)
      ensures View() == Next(old(View()), Start)
    {
      Stop();
      var mine := generation;
      errors := errors[mine := 0];
      job := None;
      message := None;
      active := true;
      SetTimer(mine);
    }

    method LeavePage()
      modifies this
      ensures generation == old(generation) + 1 && timerRef.None? && !mounted
      ensures forall t :: t in timers ==> t in old(timers) && Some(t) != old(timerRef)
      ensures unchanged(this`job, this`message, this`active, this`requests, this`endings)
      ensures View() == Next(old(View()), Unmount)
    {
      Stop();
      mounted := false;
    }

    /** The first half of a round: the timer fires and the question leaves. */
    method Fire(timer: nat)
      requires timer in timers
      modifies this
      ensures timers == old(timers) - {timer}
      ensures old(nextId) in requests && requests == old(requests)[old(nextId) := requests[old(nextId)]]
      ensures requests[old(nextId)].generation == old(timers)[timer]
      ensures old(timers)[timer] in errors ==> requests[old(nextId)].errorsSent == errors[old(timers)[timer]]
      ensures unchanged(this`generation, this`timerRef, this`job, this`message, this`active, this`errors, this`endings)
      ensures View() == Next(old(View()), TimerFires(timer))
    {
      var g := timers[timer];
      timers := timers - {timer};
      requests := requests[nextId := Request(g, if g in errors then errors[g] else 0)];
      nextId := nextId + 1;
    }

    /** The second half: the answer arrives, possibly after the generation has moved on. */
    method Receive(request: nat, answer: Answer)
      requires request in requests
      modifies this
      ensures View() == Next(old(View()), Arrives(request, answer))
    {
      hide Settled, Evaluate;
      var q := requests[request];
      requests := requests - {request};
      Conclude(q.generation, Evaluate(answer, q.errorsSent));
    }

    method Conclude(asked: nat, step: Step)
      modifies this
      ensures View() == Settled(old(View()), asked, step)
    {
      if asked != generation {
        return;
      }
      errors := errors[asked := step.errors];
      if step.job.Some? {
        job := step.job;
      }
      message := step.message;
      if step.continues {
        SetTimer(asked);
      } else {
        timerRef := None;
        active := false;
        endings := endings + [Ending(asked, step)];
      }
    }
  }

  // ---------- all interleavings ----------

  function Run(events: seq<Event>, n: nat): State
    requires n <= |events|
  {
    if n == 0 then Initial else Next(Run(events, n - 1), events[n - 1])
  }

  /** Timers and requests that belong to the current generation. */
  function CurrentTimers(s: State): set<nat> {
    set t | t in s.timers && s.timers[t] == s.generation
  }

  function CurrentRequests(s: State): set<nat> {
    set q | q in s.requests && s.requests[q].generation == s.generation
  }

  function Pending(s: State): nat {
    |CurrentTimers(s)| + |CurrentRequests(s)|
  }

  /** The generations of the calls of `onFine` strictly increase. */
  predicate EndingsIncrease(endings: seq<Ending>) {
    forall i, j :: 0 <= i < j < |endings| ==> endings[i].generation < endings[j].generation
  }

  /** What every event keeps, with a timer or a request named instead of counted. */
  predicate Inv(s: State) {
    && (forall t :: t in s.timers ==> t < s.nextId && s.timers[t] == s.generation && s.timerRef == Some(t))
    && (forall q :: q in s.requests ==> q < s.nextId && s.requests[q].generation <= s.generation)
    && (forall q, p :: q in CurrentRequests(s) && p in CurrentRequests(s) ==> q == p)
    && (s.timers == map[] || CurrentRequests(s) == {})
    && EndingsIncrease(s.endings)
    && (forall i :: 0 <= i < |s.endings| ==> s.endings[i].generation <= s.generation)
    && (Busy(s) ==> forall i :: 0 <= i < |s.endings| ==> s.endings[i].generation < s.generation)
    && (Busy(s) ==> s.generation in s.errors && s.errors[s.generation] < MAX_CONSECUTIVE_ERRORS)
    && (forall q :: q in CurrentRequests(s) ==> s.requests[q].errorsSent == s.errors[s.generation])
    && (s.mounted ==> (s.active <==> Busy(s)))
  }

  predicate Busy(s: State) {
    s.timers != map[] || CurrentRequests(s) != {}
  }

  lemma StoppedInv(s: State)
    requires Inv(s)
    ensures Stopped(s).timers == map[]
    ensures CurrentRequests(Stopped(s)) == {}
  {
    assert forall t :: t in Stopped(s).timers ==> t in s.timers && s.timerRef != Some(t);
  }

  lemma StartKeepsInv(s: State)
    requires Inv(s)
    ensures Inv(Next(s, Start))
    ensures CurrentTimers(Next(s, Start)) == {s.nextId}
  {
    StoppedInv(s);
    var n := Next(s, Start);
    assert n.timers == map[s.nextId := n.generation];
    assert CurrentRequests(n) == {};
    assert Busy(n) by { assert s.nextId in n.timers; }
  }

  lemma FireKeepsInv(s: State, t: nat)
    requires Inv(s) && t in s.timers
    ensures Inv(Next(s, TimerFires(t)))
  {
    var n := Next(s, TimerFires(t));
    assert forall u :: u in n.timers ==> u in s.timers && u != t;
    assert n.timers == map[];
    assert CurrentRequests(s) == {};
    assert CurrentRequests(n) == {s.nextId};
    assert Busy(s) && Busy(n);
  }

  lemma ContinuesBelowLimit(a: Answer, errorsBefore: nat)
    ensures Evaluate(a, errorsBefore).continues ==> Evaluate(a, errorsBefore).errors < MAX_CONSECUTIVE_ERRORS
  {
  }

  /** The current generation's request is the only thing pending. */
  lemma OnlyRequest(s: State, q: nat)
    requires Inv(s) && q in CurrentRequests(s)
    ensures s.timers == map[] && Busy(s)
    ensures CurrentRequests(s.(requests := s.requests - {q})) == {}
  {
    assert CurrentRequests(s) == {q};
    assert CurrentRequests(s.(requests := s.requests - {q})) == CurrentRequests(s) - {q};
  }

  lemma CurrentAnswerKeepsInv(s: State, q: nat, a: Answer)
    requires Inv(s) && q in CurrentRequests(s)
    ensures Inv(Next(s, Arrives(q, a)))
  {
    hide Evaluate;
    OnlyRequest(s, q);
    ContinuesBelowLimit(a, s.requests[q].errorsSent);
    var n := Next(s, Arrives(q, a));
    assert CurrentRequests(n) == {};
    if Evaluate(a, s.requests[q].errorsSent).continues {
      assert s.nextId in n.timers;
    }
  }

  lemma ArriveKeepsInv(s: State, q: nat, a: Answer)
    requires Inv(s) && q in s.requests
    ensures Inv(Next(s, Arrives(q, a)))
  {
    hide Evaluate;
    if s.requests[q].generation == s.generation {
      assert q in CurrentRequests(s);
      CurrentAnswerKeepsInv(s, q, a);
    } else {
      StaleAnswerIgnored(s, q, a);
      assert CurrentRequests(Next(s, Arrives(q, a))) == CurrentRequests(s);
    }
  }

  lemma {:induction false} InvAlways(events: seq<Event>, n: nat)
    requires n <= |events|
    ensures Inv(Run(events, n))
  {
    if n > 0 {
      InvAlways(events, n - 1);
      var s := Run(events, n - 1);
      match events[n - 1]
      case Start => StartKeepsInv(s);
      case Unmount => StoppedInv(s);
      case TimerFires(t) => if t in s.timers { FireKeepsInv(s, t); }
      case Arrives(q, a) => if q in s.requests { ArriveKeepsInv(s, q, a); }
    }
  }

  lemma AtMostOneElement(a: set<nat>)
    requires forall x, y :: x in a && y in a ==> x == y
    ensures |a| <= 1 && (|a| == 1 <==> a != {})
  {
    if a != {} {
      var x :| x in a;
      assert a == {x};
    }
  }

  /**
   * In every interleaving, timers plus requests of the current generation never exceed one,
   * and while the page is open `attivo` is true exactly when that count is one.
   */
  lemma OneRoundAtATime(events: seq<Event>, n: nat)
    requires n <= |events|
    ensures Pending(Run(events, n)) <= 1
    ensures Pending(Run(events, n)) == 1 <==> Busy(Run(events, n))
    ensures Run(events, n).mounted ==> (Run(events, n).active <==> Pending(Run(events, n)) == 1)
  {
    InvAlways(events, n);
    var s := Run(events, n);
    forall t, u | t in CurrentTimers(s) && u in CurrentTimers(s) ensures t == u {
      assert s.timerRef == Some(t) && s.timerRef == Some(u);
    }
    AtMostOneElement(CurrentTimers(s));
    AtMostOneElement(CurrentRequests(s));
    if s.timers != map[] {
      var t :| t in s.timers;
      assert t in CurrentTimers(s);
    } else {
      assert CurrentTimers(s) == {};
    }
  }

  /** The answer of an older generation changes nothing but its own request. */
  lemma StaleAnswerIgnored(s: State, q: nat, a: Answer)
    requires q in s.requests && s.requests[q].generation != s.generation
    ensures Next(s, Arrives(q, a)) == s.(requests := s.requests - {q})
    ensures Pending(Next(s, Arrives(q, a))) == Pending(s)
  {
    assert CurrentRequests(s) == CurrentRequests(Next(s, Arrives(q, a)));
  }

  /** `onFine` is called at most once for each generation. */
  lemma OneEndingPerGeneration(events: seq<Event>, n: nat, i: nat, j: nat)
    requires n <= |events| && i < |Run(events, n).endings| && j < |Run(events, n).endings|
    requires Run(events, n).endings[i].generation == Run(events, n).endings[j].generation
    ensures i == j
  {
    InvAlways(events, n);
  }

  predicate NoStart(events: seq<Event>, i: nat, j: nat)
    requires j <= |events|
  {
    forall k :: i < k < j ==> !events[k].Start?
  }

  /** What an idle hook keeps until the next start. */
  lemma SilentStep(s: State, e: Event)
    requires Inv(s) && !Busy(s) && !e.Start?
    ensures var n := Next(s, e);
            && !Busy(n) && n.endings == s.endings && n.job == s.job && n.message == s.message
            && n.requests.Keys <= s.requests.Keys && s.generation <= n.generation
  {
    match e
    case Unmount => StoppedInv(s);
    case TimerFires(t) =>
    case Arrives(q, a) =>
      if q in s.requests {
        assert q !in CurrentRequests(s);
        StaleAnswerIgnored(s, q, a);
        assert CurrentRequests(s) == CurrentRequests(Next(s, e));
      }
  }

  lemma UnmountSilences(s: State)
    requires Inv(s)
    ensures var n := Next(s, Unmount);
            && !Busy(n) && n.endings == s.endings && n.job == s.job && n.message == s.message
            && n.requests == s.requests && s.generation < n.generation
  {
    StoppedInv(s);
  }

  /** From leaving the page until the next start: nothing pending, no call of `onFine`, nothing shown changes. */
  lemma {:induction false} SilentAfterStop(events: seq<Event>, i: nat, j: nat)
    requires i < j <= |events| && events[i].Unmount? && NoStart(events, i, j)
    ensures !Busy(Run(events, j)) && Pending(Run(events, j)) == 0
    ensures Run(events, j).endings == Run(events, i).endings
    ensures Run(events, j).job == Run(events, i).job && Run(events, j).message == Run(events, i).message
    ensures Run(events, j).requests.Keys <= Run(events, i).requests.Keys
    ensures Run(events, i).generation < Run(events, j).generation
    decreases j
  {
    hide Next, Inv, Busy, Pending;
    InvAlways(events, j - 1);
    OneRoundAtATime(events, j);
    if j == i + 1 {
      UnmountSilences(Run(events, i));
    } else {
      SilentAfterStop(events, i, j - 1);
      SilentStep(Run(events, j - 1), events[j - 1]);
    }
  }

  /** Leaving the page silences polling exactly until the next start: a later `avvia` revives it. */
  lemma {:induction false} SilentIffNoStartSince(events: seq<Event>, i: nat, j: nat)
    requires i < j <= |events| && events[i].Unmount?
    ensures NoStart(events, i, j) <==> forall k :: i < k <= j ==> Pending(Run(events, k)) == 0
  {
    if NoStart(events, i, j) {
      forall k | i < k <= j ensures Pending(Run(events, k)) == 0 {
        SilentAfterStop(events, i, k);
      }
    } else {
      var k :| i < k < j && events[k].Start?;
      InvAlways(events, k);
      OneRoundAtATime(events, k + 1);
      StartKeepsInv(Run(events, k));
      assert |CurrentTimers(Run(events, k + 1))| == 1;
    }
  }

  // ---------- the error counter ----------

  /** The answers that reached generation `g` among the first `n` events, in order. */
  function Heard(events: seq<Event>, n: nat, g: nat): seq<Answer>
    requires n <= |events|
  {
    if n == 0 then []
    else
      var s := Run(events, n - 1);
      var e := events[n - 1];
      Heard(events, n - 1, g) +
      (if e.Arrives? && e.request in s.requests && s.requests[e.request].generation == g == s.generation
       then [e.answer] else [])
  }

  /** The length of the run of errors at the end. */
  function TrailingErrors(answers: seq<Answer>): nat {
    if answers == [] || !IsError(answers[|answers| - 1]) then 0
    else 1 + TrailingErrors(answers[..|answers| - 1])
  }

  lemma GenerationGrows(s: State, e: Event)
    ensures s.generation <= Next(s, e).generation
  {
    hide Evaluate;
  }

  /** Nothing is ever heard for a generation not yet begun. */
  lemma {:induction false} NothingHeardAhead(events: seq<Event>, n: nat, g: nat)
    requires n <= |events| && Run(events, n).generation < g
    ensures Heard(events, n, g) == []
  {
    hide Next;
    if n > 0 {
      GenerationGrows(Run(events, n - 1), events[n - 1]);
      NothingHeardAhead(events, n - 1, g);
    }
  }

  /** The counter of the current generation agrees with what that generation has heard. */
  predicate CounterAgrees(events: seq<Event>, n: nat)
    requires n <= |events|
  {
    var s := Run(events, n);
    && s.generation in s.errors
    && s.errors[s.generation] == TrailingErrors(Heard(events, n, s.generation))
  }

  /** An event that leaves the generation, its counter and its answers alone keeps the agreement. */
  lemma AgreementCarries(events: seq<Event>, n: nat)
    requires 0 < n <= |events| && CounterAgrees(events, n - 1)
    requires Run(events, n).generation == Run(events, n - 1).generation
    requires Run(events, n).errors == Run(events, n - 1).errors
    requires Heard(events, n, Run(events, n).generation) == Heard(events, n - 1, Run(events, n).generation)
    ensures CounterAgrees(events, n)
  {
  }

  /** The error count a step reports is the length of the error run its answer closes. */
  lemma StepCountsErrorRun(before: seq<Answer>, a: Answer)
    ensures Evaluate(a, TrailingErrors(before)).errors == TrailingErrors(before + [a])
    ensures IsError(a) && TrailingErrors(before) + 1 >= MAX_CONSECUTIVE_ERRORS
            ==> !Evaluate(a, TrailingErrors(before)).continues
  {
    assert (before + [a])[..|before|] == before;
  }

  /** A job that reached its end. */
  predicate Over(a: Answer) {
    a.JobRead? && (a.job.phase == "done" || a.job.phase == "error")
  }

  /** What went wrong, as it is told. */
  function Detail(a: Answer): string {
    if a.Failed? then a.detail else "Risposta non valida dal server"
  }

  /** The message for an answer that closes a run of `count` errors; none with a job. */
  function MessageFor(a: Answer, count: nat): Option<Message> {
    if a.JobRead? then None
    else if a.Failed? && a.status == Some(401) then Some(SessionOver)
    else if a.Failed? && a.status == Some(404) then Some(OutcomeUnknown)
    else if count < 5 then Some(Retrying(count, Detail(a)))
    else Some(GaveUp(count, Detail(a)))
  }

  /** What each answer means, in terms of the run of errors it closes. */
  lemma StepIs(before: seq<Answer>, a: Answer)
    ensures var step, count := Evaluate(a, TrailingErrors(before)), TrailingErrors(before + [a]);
            && (step.outcome == InProgress <==> a.JobRead? && !Over(a))
            && (step.outcome == Finished <==> Over(a))
            && (step.outcome == SessionExpired <==> a.Failed? && a.status == Some(401))
            && (step.outcome == UnknownOutcome <==> a.Failed? && a.status == Some(404))
            && (step.outcome == TemporaryError <==> 0 < count < 5)
            && (step.outcome == RepeatedError <==> count >= 5)
            && (step.continues <==> step.outcome == InProgress || step.outcome == TemporaryError)
            && step.job == (if a.JobRead? then Some(a.job) else None)
            && step.message == MessageFor(a, count)
            && step.errors == count
  {
    StepCountsErrorRun(before, a);
    assert (before + [a])[..|before|] == before;
  }

  /** The answer of the current request stores its step's error count and keeps the generation. */
  lemma AnswerStoresCount(s: State, q: nat, a: Answer)
    requires Inv(s) && q in CurrentRequests(s)
    ensures var n := Next(s, Arrives(q, a));
            && n.generation == s.generation
            && n.errors == s.errors[s.generation := Evaluate(a, s.requests[q].errorsSent).errors]
  {
  }

  /** An answer to the current generation moves the counter and the answers together. */
  lemma AnswerMovesCounter(events: seq<Event>, n: nat, s: State, e: Event, g: nat)
    requires 0 < n <= |events| && s == Run(events, n - 1) && e == events[n - 1] && g == s.generation
    requires Inv(s) && e.Arrives? && e.request in CurrentRequests(s) && g in s.errors
    requires s.requests[e.request].errorsSent == TrailingErrors(Heard(events, n - 1, g))
    ensures CounterAgrees(events, n)
  {
    var before := Heard(events, n - 1, g);
    AnswerStoresCount(s, e.request, e.answer);
    StepCountsErrorRun(before, e.answer);
    var next := Next(s, e);
    assert Run(events, n) == next;
    assert Heard(events, n, g) == before + [e.answer];
  }

  /**
   * While a round is pending, the local counter `errori` is the number of consecutive errors
   * just heard in this generation, always below the limit: the fifth in a row ends the polling.
   */
  lemma {:induction false} CounterIsErrorRun(events: seq<Event>, n: nat)
    requires n <= |events| && Busy(Run(events, n))
    ensures CounterAgrees(events, n)
    ensures Run(events, n).errors[Run(events, n).generation] < MAX_CONSECUTIVE_ERRORS
  {
    hide Next, Inv, Busy, CounterAgrees, Heard, CurrentRequests;
    InvAlways(events, n);
    BelowLimit(Run(events, n));
    if n == 0 {
      NothingPendingAtFirst();
    } else {
      InvAlways(events, n - 1);
      var s := Run(events, n - 1);
      var e := events[n - 1];
      if e.Start? {
        AgreementAtStart(events, n);
      } else if e.Unmount? {
        UnmountSilences(s);
      } else {
        QuietEventBusy(s, e);
        CounterIsErrorRun(events, n - 1);
        if e.Arrives? && e.request in CurrentRequests(s) {
          AnswerToAgreement(events, n, s, e);
        } else {
          OtherEventCarries(events, n, s, e);
        }
      }
    }
  }

  /** The event is an answer to the round that is pending. */
  predicate AnswersRound(s: State, e: Event) {
    e.Arrives? && e.request in CurrentRequests(s)
  }

  /** The answer closes the polling: a finished job, a lost session, a lost job, or the fifth error in a row. */
  predicate Closing(a: Answer, count: nat) {
    Over(a) || (a.Failed? && (a.status == Some(401) || a.status == Some(404))) || count >= 5
  }

  /**
   * In every run `onFine` is called by exactly the answers to the pending round that show a finished
   * job, a lost session or a lost job, or that close the fifth error in a row of their generation; any
   * other answer to it schedules the next round.
   */
  lemma PollingEndsIff(events: seq<Event>, n: nat)
    requires n < |events|
    ensures var s, e, next := Run(events, n), events[n], Run(events, n + 1);
            var count := TrailingErrors(Heard(events, n + 1, s.generation));
            var ends := AnswersRound(s, e) && Closing(e.answer, count);
            && (!ends ==> next.endings == s.endings)
            && (AnswersRound(s, e) && !ends ==> s.nextId in CurrentTimers(next))
            && (ends ==>
                  && |next.endings| == |s.endings| + 1 && next.endings[..|s.endings|] == s.endings
                  && var ending := next.endings[|s.endings|];
                     && ending.generation == s.generation
                     && (ending.step.outcome == Finished <==> Over(e.answer))
                     && (ending.step.outcome == SessionExpired <==>
                           e.answer.Failed? && e.answer.status == Some(401))
                     && (ending.step.outcome == UnknownOutcome <==>
                           e.answer.Failed? && e.answer.status == Some(404))
                     && (ending.step.outcome == RepeatedError <==> count >= 5)
                     && ending.step.job == (if Over(e.answer) then Some(e.answer.job) else None)
                     && ending.step.message == MessageFor(e.answer, count))
  {
    hide Inv, Busy, Evaluate, TrailingErrors, Heard, CounterAgrees, CurrentTimers, Run, Next, MessageFor;
    var s, e := Run(events, n), events[n];
    InvAlways(events, n);
    RunNext(events, n);
    if AnswersRound(s, e) {
      AnswerToRound(events, n);
      RoundContinues(s, e.request, e.answer);
    } else {
      OtherEventEndsNothing(s, e);
    }
  }

  lemma RunNext(events: seq<Event>, n: nat)
    requires n < |events|
    ensures Run(events, n + 1) == Next(Run(events, n), events[n])
  {
  }

  /** The step an answer to the pending round gives. */
  lemma AnswerToRound(events: seq<Event>, n: nat)
    requires n < |events| && AnswersRound(Run(events, n), events[n])
    ensures var s, e := Run(events, n), events[n];
            var step := Evaluate(e.answer, s.requests[e.request].errorsSent);
            var count := TrailingErrors(Heard(events, n + 1, s.generation));
            && (step.outcome == InProgress <==> e.answer.JobRead? && !Over(e.answer))
            && (step.outcome == Finished <==> Over(e.answer))
            && (step.outcome == SessionExpired <==> e.answer.Failed? && e.answer.status == Some(401))
            && (step.outcome == UnknownOutcome <==> e.answer.Failed? && e.answer.status == Some(404))
            && (step.outcome == TemporaryError <==> 0 < count < 5)
            && (step.outcome == RepeatedError <==> count >= 5)
            && (step.continues <==> step.outcome == InProgress || step.outcome == TemporaryError)
            && step.job == (if e.answer.JobRead? then Some(e.answer.job) else None)
            && step.message == MessageFor(e.answer, count)
  {
    hide Inv, Busy, Evaluate, Over, TrailingErrors, Heard, CounterAgrees, Run, Next, MessageFor;
    var s, e := Run(events, n), events[n];
    InvAlways(events, n);
    CounterIsErrorRun(events, n) by {
      OnlyRequest(s, e.request);
    }
    RoundCount(events, n, e.request);
    HeardNext(events, n);
    StepIs(Heard(events, n, s.generation), e.answer);
  }

  /**
   * What the page shows after each event of every run: a start clears job and message, an answer to the
   * pending round shows the job it brings and its message, and nothing else changes either. The page
   * shows the polling as active from a start to the answer that closes it.
   */
  lemma ShownAfter(events: seq<Event>, n: nat)
    requires n < |events|
    ensures var s, e, next := Run(events, n), events[n], Run(events, n + 1);
            var count := TrailingErrors(Heard(events, n + 1, s.generation));
            && next.job == (if e.Start? then None
                            else if AnswersRound(s, e) && e.answer.JobRead? then Some(e.answer.job) else s.job)
            && next.message == (if e.Start? then None
                                else if AnswersRound(s, e) then MessageFor(e.answer, count) else s.message)
            && next.active == (e.Start? || (s.active && !(AnswersRound(s, e) && Closing(e.answer, count))))
            && (AnswersRound(s, e) && Closing(e.answer, count) ==> next.timerRef.None?)
  {
    hide Inv, Busy, Evaluate, TrailingErrors, Heard, CounterAgrees, Run, Next, MessageFor;
    var s, e := Run(events, n), events[n];
    InvAlways(events, n);
    RunNext(events, n);
    if AnswersRound(s, e) {
      AnswerToRound(events, n);
      RoundShows(s, e.request, e.answer);
    } else {
      OtherEventShows(s, e);
    }
  }

  lemma RoundShows(s: State, q: nat, a: Answer)
    requires q in CurrentRequests(s)
    ensures var step, next := Evaluate(a, s.requests[q].errorsSent), Next(s, Arrives(q, a));
            && next.job == (if step.job.Some? then step.job else s.job) && next.message == step.message
            && next.active == (s.active && step.continues) && (!step.continues ==> next.timerRef.None?)
  {
    hide Evaluate;
  }

  lemma OtherEventShows(s: State, e: Event)
    requires !AnswersRound(s, e)
    ensures var next := Next(s, e);
            if e.Start? then next.job.None? && next.message.None? && next.active
            else next.job == s.job && next.message == s.message && next.active == s.active
  {
    hide Evaluate;
  }

  lemma RoundCount(events: seq<Event>, n: nat, q: nat)
    requires n <= |events| && Inv(Run(events, n)) && CounterAgrees(events, n) && q in CurrentRequests(Run(events, n))
    ensures Run(events, n).requests[q].errorsSent == TrailingErrors(Heard(events, n, Run(events, n).generation))
  {
    hide Run, Heard, TrailingErrors;
  }

  lemma HeardNext(events: seq<Event>, n: nat)
    requires n < |events| && AnswersRound(Run(events, n), events[n])
    ensures var g := Run(events, n).generation; Heard(events, n + 1, g) == Heard(events, n, g) + [events[n].answer]
  {
  }

  lemma RoundContinues(s: State, q: nat, a: Answer)
    requires q in CurrentRequests(s)
    ensures var step, next := Evaluate(a, s.requests[q].errorsSent), Next(s, Arrives(q, a));
            && (step.continues ==> next.endings == s.endings && s.nextId in CurrentTimers(next))
            && (!step.continues ==> next.endings == s.endings + [Ending(s.generation, step)])
  {
    hide Evaluate;
  }

  lemma OtherEventEndsNothing(s: State, e: Event)
    requires !AnswersRound(s, e)
    ensures Next(s, e).endings == s.endings
  {
    hide Evaluate;
  }

  lemma BelowLimit(s: State)
    requires Inv(s) && Busy(s)
    ensures s.generation in s.errors && s.errors[s.generation] < MAX_CONSECUTIVE_ERRORS
  {
  }

  lemma NothingPendingAtFirst()
    ensures !Busy(Initial)
  {
  }

  lemma AgreementAtStart(events: seq<Event>, n: nat)
    requires 0 < n <= |events| && events[n - 1].Start?
    ensures CounterAgrees(events, n)
  {
    NothingHeardAhead(events, n - 1, Run(events, n).generation);
  }

  lemma AnswerToAgreement(events: seq<Event>, n: nat, s: State, e: Event)
    requires 0 < n <= |events| && s == Run(events, n - 1) && e == events[n - 1]
    requires Inv(s) && CounterAgrees(events, n - 1) && e.Arrives? && e.request in CurrentRequests(s)
    ensures CounterAgrees(events, n)
  {
    hide Next, Heard;
    AnswerMovesCounter(events, n, s, e, s.generation);
  }

  lemma OtherEventCarries(events: seq<Event>, n: nat, s: State, e: Event)
    requires 0 < n <= |events| && s == Run(events, n - 1) && e == events[n - 1] && CounterAgrees(events, n - 1)
    requires e.TimerFires? || (e.Arrives? && e.request !in CurrentRequests(s))
    ensures CounterAgrees(events, n)
  {
    hide Evaluate, CounterAgrees;
    AgreementCarries(events, n);
  }

  /** A timer or an answer never makes an idle hook busy. */
  lemma QuietEventBusy(s: State, e: Event)
    requires Inv(s) && (e.TimerFires? || e.Arrives?) && Busy(Next(s, e))
    ensures Busy(s)
  {
    if e.Arrives? && e.request in s.requests {
      if s.requests[e.request].generation != s.generation {
        StaleAnswerIgnored(s, e.request, e.answer);
        assert CurrentRequests(s) == CurrentRequests(Next(s, e));
      } else {
        assert e.request in CurrentRequests(s);
      }
    }
  }
}
