/** The cooldown protocol of the scheduler's publish: reserve a key under the lock, publish outside
    it, roll the reservation back on failure.

    Every goroutine that was granted a reservation is recorded in a history. Two machines run over
    the same events. The code decides from the small `lastSent` map alone; the reference limiter
    decides from the whole history. The refinement theorem says that they give the same answers. */
module Cooldown {
  import opened CommandKeys

  /** The cooldown New sets: 30 seconds, in nanoseconds. */
  const COOLDOWN: int := 30_000_000_000

  datatype Request = Request(deviceID: string, intent: Intent)

  function KeyOf(req: Request): string
  {
    CommandKey(req.deviceID, req.intent)
  }

  datatype Outcome = InFlight | Succeeded(doneAt: int) | Failed

  /** One granted reservation: the request, the instant it was stamped with and how its publish went. */
  datatype Attempt = Attempt(req: Request, at: int, outcome: Outcome)

  /** What was granted so far, the answers given so far and the clock. */
  datatype History = History(clock: int, attempts: seq<Attempt>, answers: seq<bool>)

  /** One atomic step. `id` names the id-th granted reservation. */
  datatype Event =
    | Advance(elapsed: nat)
    | Reserve(req: Request)
    | Succeed(id: nat)
    | Fail(id: nat)

  ghost predicate InFlightAt(h: History, id: nat)
  {
    id < |h.attempts| && h.attempts[id].outcome.InFlight?
  }

  /** Bookkeeping common to both machines, once it is known whether a reservation is granted. */
  ghost function Record(h: History, e: Event, granted: bool): History
  {
    match e
    case Advance(elapsed) => h.(clock := h.clock + elapsed)
    case Reserve(req) =>
      var h1 := h.(answers := h.answers + [granted]);
      if granted then h1.(attempts := h.attempts + [Attempt(req, h.clock, InFlight)]) else h1
    case Succeed(id) =>
      if InFlightAt(h, id)
      then h.(attempts := h.attempts[id := h.attempts[id].(outcome := Succeeded(h.clock))])
      else h
    case Fail(id) =>
      if InFlightAt(h, id) then h.(attempts := h.attempts[id := h.attempts[id].(outcome := Failed)]) else h
  }

  // ----- The reference limiter: full history, no keys -----

  /** A reservation that is in flight or succeeded, for this device and intent, within the cooldown. */
  ghost predicate BlocksAt(h: History, req: Request, i: nat)
  {
    && i < |h.attempts|
    && h.attempts[i].req == req
    && !h.attempts[i].outcome.Failed?
    && h.clock - h.attempts[i].at < COOLDOWN
  }

  ghost predicate Blocked(h: History, req: Request)
  {
    exists i: nat :: BlocksAt(h, req, i)
  }

  ghost function SpecStep(h: History, e: Event): History
  {
    Record(h, e, e.Reserve? && !Blocked(h, e.req))
  }

  /** The reference limiter in full: a reservation is answered and granted exactly when nothing blocks it,
      with the present instant, and nothing else changes. */
  lemma SpecAnswers(h: History, req: Request)
    ensures SpecStep(h, Reserve(req)).answers == h.answers + [!Blocked(h, req)]
    ensures SpecStep(h, Reserve(req)).attempts
            == h.attempts + if Blocked(h, req) then [] else [Attempt(req, h.clock, InFlight)]
    ensures SpecStep(h, Reserve(req)).clock == h.clock
  {
  }

  /** An outcome is recorded once, for an attempt in flight, and with the present instant. */
  lemma SpecOutcomes(h: History, id: nat)
    ensures var done, failed := SpecStep(h, Succeed(id)), SpecStep(h, Fail(id));
            && done.answers == failed.answers == h.answers && done.clock == failed.clock == h.clock
            && |done.attempts| == |failed.attempts| == |h.attempts|
            && forall k :: 0 <= k < |h.attempts| ==>
                 var a := h.attempts[k];
                 && done.attempts[k].req == failed.attempts[k].req == a.req
                 && done.attempts[k].at == failed.attempts[k].at == a.at
                 && done.attempts[k].outcome == (if k == id && a.outcome == InFlight
                    then Succeeded(h.clock) else a.outcome)
                 && failed.attempts[k].outcome == (if k == id && a.outcome == InFlight then Failed else a.outcome)
  {
  }

  ghost function SpecRun(h: History, events: seq<Event>): History
    decreases |events|
  {
    if events == [] then h else SpecStep(SpecRun(h, events[..|events| - 1]), events[|events| - 1])
  }

  // ----- The code: a map from key to the instant of the last reservation -----

  datatype Machine = Machine(history: History, lastSent: map<string, int>)

  function Refused(lastSent: map<string, int>, key: string, now: int): bool
  {
    key in lastSent && now - lastSent[key] < COOLDOWN
  }

  /** The rollback: the entry goes only when it still carries the failed reservation's instant. */
  function Rollback(lastSent: map<string, int>, key: string, at: int): map<string, int>
  {
    if key in lastSent && lastSent[key] == at then lastSent - {key} else lastSent
  }

  ghost function CodeStep(m: Machine, e: Event): Machine
  {
    match e
    case Advance(_) => m.(history := Record(m.history, e, false))
    case Reserve(req) =>
      if Refused(m.lastSent, KeyOf(req), m.history.clock)
      then m.(history := Record(m.history, e, false))
      else Machine(Record(m.history, e, true), m.lastSent[KeyOf(req) := m.history.clock])
    case Succeed(_) => m.(history := Record(m.history, e, false))
    case Fail(id) =>
      var lastSent := if InFlightAt(m.history, id)
                      then Rollback(m.lastSent, KeyOf(m.history.attempts[id].req), m.history.attempts[id].at)
                      else m.lastSent;
      Machine(Record(m.history, e, false), lastSent)
  }

  ghost function CodeRun(m: Machine, events: seq<Event>): Machine
    decreases |events|
  {
    if events == [] then m else CodeStep(CodeRun(m, events[..|events| - 1]), events[|events| - 1])
  }

  function Fresh(clock: int): Machine
  {
    Machine(History(clock, [], []), map[])
  }

  lemma CodeRunEmpty(m: Machine)
    ensures CodeRun(m, []) == m
  {
  }

  lemma CodeRunSnoc(m: Machine, events: seq<Event>, e: Event)
    ensures CodeRun(m, events + [e]) == CodeStep(CodeRun(m, events), e)
  {
    assert (events + [e])[..|events|] == events;
  }

  /** Runs compose. */
  lemma {:induction false} CodeRunAppend(m: Machine, first: seq<Event>, second: seq<Event>)
    ensures CodeRun(m, first + second) == CodeRun(CodeRun(m, first), second)
    decreases |second|
  {
    if second == [] {
      assert first + second == first;
    } else {
      var n := |second| - 1;
      assert (first + second)[..|first + second| - 1] == first + second[..n];
      CodeRunAppend(m, first, second[..n]);
    }
  }

  // ----- The invariant -----

  ghost predicate Live(a: Attempt)
  {
    !a.outcome.Failed?
  }

  /** Live attempts of the same request are at least a cooldown apart. */
  ghost predicate Spaced(attempts: seq<Attempt>)
  {
    forall i, j :: 0 <= i < j < |attempts| && attempts[i].req == attempts[j].req
                   && Live(attempts[i]) && Live(attempts[j])
                   ==> attempts[j].at - attempts[i].at >= COOLDOWN
  }

  /** Every entry of the map is the instant of some live attempt of that key. */
  ghost predicate MapIsLive(m: Machine)
  {
    forall k :: k in m.lastSent ==>
      exists i :: 0 <= i < |m.history.attempts| && Live(m.history.attempts[i])
                  && KeyOf(m.history.attempts[i].req) == k && m.history.attempts[i].at == m.lastSent[k]
  }

  /** Every live attempt is either covered by its map entry or too old to matter. */
  ghost predicate LiveIsCovered(m: Machine)
  {
    forall i :: 0 <= i < |m.history.attempts| && Live(m.history.attempts[i]) ==>
      var a := m.history.attempts[i];
      && a.at <= m.history.clock
      && (|| m.history.clock - a.at >= COOLDOWN
          || (KeyOf(a.req) in m.lastSent && m.lastSent[KeyOf(a.req)] >= a.at))
  }

  ghost predicate Inv(m: Machine)
  {
    Spaced(m.history.attempts) && MapIsLive(m) && LiveIsCovered(m)
  }

  /** Refusal in the code is exactly blocking in the reference limiter. */
  lemma RefusedIffBlocked(m: Machine, req: Request)
    requires Inv(m)
    ensures Refused(m.lastSent, KeyOf(req), m.history.clock) <==> Blocked(m.history, req)
  {
    var h := m.history;
    if Refused(m.lastSent, KeyOf(req), h.clock) {
      var i :| 0 <= i < |h.attempts| && Live(h.attempts[i])
               && KeyOf(h.attempts[i].req) == KeyOf(req) && h.attempts[i].at == m.lastSent[KeyOf(req)];
      CommandKeyInjective(h.attempts[i].req.deviceID, h.attempts[i].req.intent, req.deviceID, req.intent);
      assert BlocksAt(h, req, i);
    }
    if Blocked(h, req) {
      var i: nat :| BlocksAt(h, req, i);
      assert Live(h.attempts[i]);
    }
  }

  ghost function Granted(m: Machine, req: Request): Machine
  {
    Machine(Record(m.history, Reserve(req), true), m.lastSent[KeyOf(req) := m.history.clock])
  }

  /** A granted reservation stays clear of every earlier live one. */
  lemma GrantKeepsSpacing(m: Machine, req: Request)
    requires Spaced(m.history.attempts) && !Blocked(m.history, req)
    ensures Spaced(Granted(m, req).history.attempts)
  {
    var before := m.history.attempts;
    forall i | 0 <= i < |before| && before[i].req == req && Live(before[i])
      ensures m.history.clock - before[i].at >= COOLDOWN
    {
      assert !BlocksAt(m.history, req, i);
    }
  }

  lemma GrantKeepsMapLive(m: Machine, req: Request)
    requires MapIsLive(m)
    ensures MapIsLive(Granted(m, req))
  {
    var n, key := Granted(m, req), KeyOf(req);
    var before, after := m.history.attempts, n.history.attempts;
    forall k | k in n.lastSent
      ensures exists i :: 0 <= i < |after| && Live(after[i]) && KeyOf(after[i].req) == k && after[i].at == n.lastSent[k]
    {
      if k == key {
        assert Live(after[|before|]);
      } else {
        var i :| 0 <= i < |before| && Live(before[i]) && KeyOf(before[i].req) == k && before[i].at == m.lastSent[k];
        assert after[i] == before[i];
      }
    }
  }

  lemma GrantKeepsCover(m: Machine, req: Request)
    requires LiveIsCovered(m)
    ensures LiveIsCovered(Granted(m, req))
  {
    var n := Granted(m, req);
    var before, after := m.history.attempts, n.history.attempts;
    forall i | 0 <= i < |after|
      ensures i < |before| ==> after[i] == before[i]
    {
    }
  }

  lemma ReserveKeepsInv(m: Machine, req: Request)
    requires Inv(m)
    ensures Inv(CodeStep(m, Reserve(req)))
  {
    RefusedIffBlocked(m, req);
    if !Refused(m.lastSent, KeyOf(req), m.history.clock) {
      GrantKeepsSpacing(m, req);
      GrantKeepsMapLive(m, req);
      GrantKeepsCover(m, req);
    }
  }

  lemma SucceedKeepsInv(m: Machine, id: nat)
    requires Inv(m)
    ensures Inv(CodeStep(m, Succeed(id)))
  {
    var n := CodeStep(m, Succeed(id));
    forall i | 0 <= i < |m.history.attempts|
      ensures n.history.attempts[i].(outcome := Failed) == m.history.attempts[i].(outcome := Failed)
      ensures Live(n.history.attempts[i]) == Live(m.history.attempts[i])
    {
    }
    forall k | k in n.lastSent
      ensures exists i :: 0 <= i < |n.history.attempts| && Live(n.history.attempts[i])
                          && KeyOf(n.history.attempts[i].req) == k && n.history.attempts[i].at == n.lastSent[k]
    {
      var i :| 0 <= i < |m.history.attempts| && Live(m.history.attempts[i])
               && KeyOf(m.history.attempts[i].req) == k && m.history.attempts[i].at == m.lastSent[k];
      assert Live(n.history.attempts[i]);
    }
  }

  /** A rollback never uncovers a live attempt that is still within its cooldown. */
  lemma FailKeepsInv(m: Machine, id: nat)
    requires Inv(m)
    ensures Inv(CodeStep(m, Fail(id)))
  {
    if InFlightAt(m.history, id) {
      var n := CodeStep(m, Fail(id));
      var before, after := m.history.attempts, n.history.attempts;
      assert Live(before[id]);
      forall k | k in n.lastSent
        ensures exists i :: 0 <= i < |after| && Live(after[i])
                            && KeyOf(after[i].req) == k && after[i].at == n.lastSent[k]
      {
        var i :| 0 <= i < |before| && Live(before[i]) && KeyOf(before[i].req) == k && before[i].at == m.lastSent[k];
        assert i != id;
        assert after[i] == before[i];
      }
      forall i | 0 <= i < |after| && Live(after[i])
        ensures after[i] == before[i]
        ensures KeyOf(before[i].req) == KeyOf(before[id].req) ==> before[i].req == before[id].req
      {
        CommandKeyInjective(before[i].req.deviceID, before[i].req.intent,
                            before[id].req.deviceID, before[id].req.intent);
      }
    }
  }

  lemma StepKeepsInv(m: Machine, e: Event)
    requires Inv(m)
    ensures Inv(CodeStep(m, e))
  {
    match e
    case Advance(_) =>
    case Reserve(req) => ReserveKeepsInv(m, req);
    case Succeed(id) => SucceedKeepsInv(m, id);
    case Fail(id) => FailKeepsInv(m, id);
  }

  lemma {:induction false} RunKeepsInv(m: Machine, events: seq<Event>)
    requires Inv(m)
    ensures Inv(CodeRun(m, events))
    decreases |events|
  {
    if events != [] {
      RunKeepsInv(m, events[..|events| - 1]);
      StepKeepsInv(CodeRun(m, events[..|events| - 1]), events[|events| - 1]);
    }
  }

  // ----- Main results -----

  /** Over every interleaving, the map-based code and the full-history limiter agree on every answer,
      every granted reservation and the clock. */
  lemma {:induction false} CodeRefinesSpec(m: Machine, events: seq<Event>)
    requires Inv(m)
    ensures CodeRun(m, events).history == SpecRun(m.history, events)
    decreases |events|
  {
    if events != [] {
      var before, e := events[..|events| - 1], events[|events| - 1];
      CodeRefinesSpec(m, before);
      RunKeepsInv(m, before);
      if e.Reserve? {
        RefusedIffBlocked(CodeRun(m, before), e.req);
      }
    }
  }

  /** From start-up, live reservations of one device and intent are pairwise a cooldown apart. */
  lemma RunIsSpaced(clock: int, events: seq<Event>)
    ensures Spaced(CodeRun(Fresh(clock), events).history.attempts)
  {
    RunKeepsInv(Fresh(clock), events);
  }

  /** A failure's rollback never erases another live reservation's entry, newer or not. */
  lemma RollbackSparesOthers(m: Machine, id: nat, other: nat)
    requires Inv(m) && InFlightAt(m.history, id)
    requires other < |m.history.attempts| && other != id && Live(m.history.attempts[other])
    requires var key := KeyOf(m.history.attempts[other].req);
             key in m.lastSent && m.lastSent[key] == m.history.attempts[other].at
    ensures var key := KeyOf(m.history.attempts[other].req);
            key in CodeStep(m, Fail(id)).lastSent && CodeStep(m, Fail(id)).lastSent[key] == m.lastSent[key]
  {
    var failed, kept := m.history.attempts[id], m.history.attempts[other];
    CommandKeyInjective(failed.req.deviceID, failed.req.intent, kept.req.deviceID, kept.req.intent);
    assert KeyOf(failed.req) == KeyOf(kept.req) ==> failed.at != kept.at;
  }

  /** A live attempt within its cooldown is not followed by another of the same request. */
  lemma NoneAfter(attempts: seq<Attempt>, clock: int, id: nat, i: nat)
    requires Spaced(attempts) && id < |attempts| && i < |attempts|
    requires attempts[i].req == attempts[id].req && Live(attempts[i]) && Live(attempts[id])
    requires clock - attempts[id].at < COOLDOWN && attempts[id].at <= attempts[i].at <= clock
    ensures i == id
  {
  }

  /** A live attempt within its cooldown owns the entry of its key. */
  lemma EntryIsNewest(m: Machine, id: nat)
    requires Inv(m)
    requires id < |m.history.attempts| && Live(m.history.attempts[id])
    requires m.history.clock - m.history.attempts[id].at < COOLDOWN
    ensures var key := KeyOf(m.history.attempts[id].req);
            key in m.lastSent && m.lastSent[key] == m.history.attempts[id].at
  {
    var attempts, key := m.history.attempts, KeyOf(m.history.attempts[id].req);
    assert key in m.lastSent && m.lastSent[key] >= attempts[id].at;
    var i :| 0 <= i < |attempts| && Live(attempts[i])
             && KeyOf(attempts[i].req) == key && attempts[i].at == m.lastSent[key];
    CommandKeyInjective(attempts[i].req.deviceID, attempts[i].req.intent,
                        attempts[id].req.deviceID, attempts[id].req.intent);
    NoneAfter(attempts, m.history.clock, id, i);
  }

  // ----- The rate bound -----

  /** How many live attempts of the request carry an instant in [from, to]. */
  ghost function CountIssued(attempts: seq<Attempt>, req: Request, from: int, to: int): nat
    decreases |attempts|
  {
    if attempts == [] then 0 else
      var last := attempts[|attempts| - 1];
      CountIssued(attempts[..|attempts| - 1], req, from, to)
      + if last.req == req && Live(last) && from <= last.at <= to then 1 else 0
  }

  /** The window may be cut short at any instant after which no attempt was issued. */
  lemma {:induction false} CountShorterWindow(attempts: seq<Attempt>, req: Request, from: int, to: int, cut: int)
    requires cut <= to
    requires forall i :: 0 <= i < |attempts| && attempts[i].req == req && Live(attempts[i]) ==> attempts[i].at <= cut
    ensures CountIssued(attempts, req, from, to) == CountIssued(attempts, req, from, cut)
    decreases |attempts|
  {
    if attempts != [] {
      CountShorterWindow(attempts[..|attempts| - 1], req, from, to, cut);
    }
  }

  lemma {:induction false} CountEmptyWindow(attempts: seq<Attempt>, req: Request, from: int, to: int)
    requires to < from
    ensures CountIssued(attempts, req, from, to) == 0
    decreases |attempts|
  {
    if attempts != [] {
      CountEmptyWindow(attempts[..|attempts| - 1], req, from, to);
    }
  }

  lemma {:induction false} SpacedCount(attempts: seq<Attempt>, req: Request, from: int, to: int)
    requires Spaced(attempts) && from <= to
    ensures CountIssued(attempts, req, from, to) <= (to - from) / COOLDOWN + 1
    decreases |attempts|
  {
    if attempts != [] {
      var n := |attempts| - 1;
      var before, last := attempts[..n], attempts[n];
      assert Spaced(before);
      if last.req == req && Live(last) && from <= last.at <= to {
        var cut := last.at - COOLDOWN;
        CountShorterWindow(before, req, from, to, cut);
        if cut < from {
          CountEmptyWindow(before, req, from, cut);
        } else {
          SpacedCount(before, req, from, cut);
        }
      } else {
        SpacedCount(before, req, from, to);
      }
    }
  }

  /** In any window of length W, at most floor(W / cooldown) + 1 commands that are not failures are
      issued for one device and intent, over every interleaving. */
  lemma RateBound(clock: int, events: seq<Event>, req: Request, from: int, width: nat)
    ensures CountIssued(CodeRun(Fresh(clock), events).history.attempts, req, from, from + width) <= width / COOLDOWN + 1
  {
    RunIsSpaced(clock, events);
    SpacedCount(CodeRun(Fresh(clock), events).history.attempts, req, from, from + width);
  }

  /** In numbers: within less than 30 seconds at most one. */
  lemma OneInThirtySeconds(clock: int, events: seq<Event>, req: Request, from: int, width: nat)
    requires width < 30 * 1_000_000_000
    ensures CountIssued(CodeRun(Fresh(clock), events).history.attempts, req, from, from + width) <= 1
  {
    RateBound(clock, events, req, from, width);
  }

  /** How many publishes of the request were reported successful in [from, to]. */
  ghost function CountDone(attempts: seq<Attempt>, req: Request, from: int, to: int): nat
    decreases |attempts|
  {
    if attempts == [] then 0 else
      var last := attempts[|attempts| - 1];
      CountDone(attempts[..|attempts| - 1], req, from, to)
      + if last.req == req && last.outcome.Succeeded? && from <= last.outcome.doneAt <= to then 1 else 0
  }

  /** Every successful publish took at most `slowest` from reservation to completion. */
  ghost predicate NoSlowerThan(attempts: seq<Attempt>, slowest: nat)
  {
    forall i :: 0 <= i < |attempts| && attempts[i].outcome.Succeeded?
                ==> attempts[i].at <= attempts[i].outcome.doneAt <= attempts[i].at + slowest
  }

  lemma {:induction false} DoneWasIssued(attempts: seq<Attempt>, req: Request, from: int, to: int, slowest: nat)
    requires NoSlowerThan(attempts, slowest)
    ensures CountDone(attempts, req, from, to) <= CountIssued(attempts, req, from - slowest, to)
    decreases |attempts|
  {
    if attempts != [] {
      DoneWasIssued(attempts[..|attempts| - 1], req, from, to, slowest);
    }
  }

  /** Measured where publishes complete, the bound widens by the slowest publish, and by no less
      (`CompletionBoundIsBest`). */
  lemma CompletionRateBound(clock: int, events: seq<Event>, req: Request, from: int, width: nat, slowest: nat)
    requires NoSlowerThan(CodeRun(Fresh(clock), events).history.attempts, slowest)
    ensures CountDone(CodeRun(Fresh(clock), events).history.attempts, req, from, from + width)
            <= (width + slowest) / COOLDOWN + 1
  {
    var attempts := CodeRun(Fresh(clock), events).history.attempts;
    DoneWasIssued(attempts, req, from, from + width, slowest);
    RateBound(clock, events, req, from - slowest, width + slowest);
  }

  /** Every attempt recorded by a run from start-up. */
  ghost function AttemptsOf(clock: int, events: seq<Event>): seq<Attempt>
  {
    CodeRun(Fresh(clock), events).history.attempts
  }

  /** If no publish of the run takes longer than `slowest`, at most `bound` complete in the window. */
  ghost predicate RunWithin(clock: int, events: seq<Event>, req: Request, from: int, width: nat,
                            slowest: nat, bound: int)
  {
    NoSlowerThan(AttemptsOf(clock, events), slowest)
    ==> CountDone(AttemptsOf(clock, events), req, from, from + width) <= bound
  }

  /** `bound` holds for every run, every request and every window of the width. */
  ghost predicate CompletionsWithin(width: nat, slowest: nat, bound: int)
  {
    forall clock: int, events: seq<Event>, req: Request, from: int ::
      RunWithin(clock, events, req, from, width, slowest, bound)
  }

  // ----- The busiest run: reserve whenever the cooldown allows, complete as late as helps -----

  function BusyReserves(req: Request, k: nat): seq<Event>
  {
    if k == 0 then [Reserve(req)] else BusyReserves(req, k - 1) + [Advance(COOLDOWN)] + [Reserve(req)]
  }

  /** Reserve until `slowest` has passed, then complete the first `k` at that instant. */
  function BusySucceeds(req: Request, slowest: nat, k: nat): seq<Event>
  {
    if k == 0 then BusyReserves(req, slowest / COOLDOWN) + [Advance(slowest % COOLDOWN)]
    else BusySucceeds(req, slowest, k - 1) + [Succeed(k - 1)]
  }

  /** Then `k` more, each completed at once. */
  function BusyRun(req: Request, slowest: nat, k: nat): seq<Event>
  {
    var early := slowest / COOLDOWN + 1;
    if k == 0 then BusySucceeds(req, slowest, early)
    else BusyRun(req, slowest, k - 1)
         + [Advance(if k == 1 then COOLDOWN - slowest % COOLDOWN else COOLDOWN)]
         + [Reserve(req)] + [Succeed(early + k - 1)]
  }

  /** The k-th attempt of the busiest run: completed when `slowest` has passed, or at once. */
  function BusyAttempt(req: Request, slowest: nat, k: nat, done: bool): Attempt
  {
    Attempt(req, k * COOLDOWN,
            if !done then InFlight else Succeeded(if k * COOLDOWN < slowest then slowest else k * COOLDOWN))
  }

  /** The attempts of the busiest run, the first `done` of them completed. */
  ghost predicate AreBusy(attempts: seq<Attempt>, req: Request, slowest: nat, done: nat)
  {
    forall k: nat :: k < |attempts| ==> attempts[k] == BusyAttempt(req, slowest, k, k < done)
  }

  /** The machine after `n` reservations of the busiest run. */
  ghost predicate IsBusy(m: Machine, req: Request, slowest: nat, n: nat, done: nat, clock: int)
  {
    && n > 0 && m.history.clock == clock
    && |m.history.attempts| == n && AreBusy(m.history.attempts, req, slowest, done)
    && m.lastSent == map[KeyOf(req) := (n - 1) * COOLDOWN]
  }

  lemma BusyAdvance(m: Machine, req: Request, slowest: nat, n: nat, done: nat, clock: int, pause: nat)
    requires IsBusy(m, req, slowest, n, done, clock)
    ensures IsBusy(CodeStep(m, Advance(pause)), req, slowest, n, done, clock + pause)
  {
  }

  lemma BusyReserve(m: Machine, req: Request, slowest: nat, n: nat, done: nat)
    requires IsBusy(m, req, slowest, n, done, n * COOLDOWN) && done <= n
    ensures IsBusy(CodeStep(m, Reserve(req)), req, slowest, n + 1, done, n * COOLDOWN)
  {
    hide KeyOf;
    assert !Refused(m.lastSent, KeyOf(req), n * COOLDOWN);
    var after := CodeStep(m, Reserve(req));
    assert after.history.attempts == m.history.attempts + [BusyAttempt(req, slowest, n, false)];
    assert after.lastSent == map[KeyOf(req) := n * COOLDOWN];
  }

  lemma BusySucceed(m: Machine, req: Request, slowest: nat, n: nat, done: nat, clock: int)
    requires IsBusy(m, req, slowest, n, done, clock) && done < n
    requires clock == if done * COOLDOWN < slowest then slowest else done * COOLDOWN
    ensures IsBusy(CodeStep(m, Succeed(done)), req, slowest, n, done + 1, clock)
  {
    hide KeyOf;
    assert m.history.attempts[done] == BusyAttempt(req, slowest, done, false);
  }

  lemma {:induction false} BusyReservesState(req: Request, slowest: nat, k: nat)
    ensures IsBusy(CodeRun(Fresh(0), BusyReserves(req, k)), req, slowest, k + 1, 0, k * COOLDOWN)
  {
    if k == 0 {
      FirstReserve(req, slowest);
    } else {
      BusyReservesState(req, slowest, k - 1);
      var before := BusyReserves(req, k - 1);
      CodeRunSnoc(Fresh(0), before, Advance(COOLDOWN));
      CodeRunSnoc(Fresh(0), before + [Advance(COOLDOWN)], Reserve(req));
      hide IsBusy, CodeRun, CodeStep;
      BusyAdvance(CodeRun(Fresh(0), before), req, slowest, k, 0, (k - 1) * COOLDOWN, COOLDOWN);
      BusyReserve(CodeRun(Fresh(0), before + [Advance(COOLDOWN)]), req, slowest, k, 0);
    }
  }

  lemma FirstReserve(req: Request, slowest: nat)
    ensures IsBusy(CodeRun(Fresh(0), [Reserve(req)]), req, slowest, 1, 0, 0)
  {
    CodeRunSnoc(Fresh(0), [], Reserve(req));
    assert [] + [Reserve(req)] == [Reserve(req)];
    var m := CodeRun(Fresh(0), [Reserve(req)]);
    assert m.history.attempts == [Attempt(req, 0, InFlight)];
  }

  lemma {:induction false} BusySucceedsState(req: Request, slowest: nat, k: nat)
    requires k <= slowest / COOLDOWN + 1
    ensures IsBusy(CodeRun(Fresh(0), BusySucceeds(req, slowest, k)), req, slowest, slowest / COOLDOWN + 1, k, slowest)
  {
    hide IsBusy, CodeStep;
    var n := slowest / COOLDOWN + 1;
    if k == 0 {
      var before := BusyReserves(req, n - 1);
      BusyReservesState(req, slowest, n - 1);
      CodeRunSnoc(Fresh(0), before, Advance(slowest % COOLDOWN));
      BusyAdvance(CodeRun(Fresh(0), before), req, slowest, n, 0, (n - 1) * COOLDOWN, slowest % COOLDOWN);
    } else {
      var before := BusySucceeds(req, slowest, k - 1);
      BusySucceedsState(req, slowest, k - 1);
      CodeRunSnoc(Fresh(0), before, Succeed(k - 1));
      BusySucceed(CodeRun(Fresh(0), before), req, slowest, n, k - 1, slowest);
    }
  }

  lemma {:induction false} BusyRunState(req: Request, slowest: nat, k: nat)
    ensures var n := slowest / COOLDOWN + 1 + k;
            IsBusy(CodeRun(Fresh(0), BusyRun(req, slowest, k)), req, slowest, n, n,
                   if k == 0 then slowest else (n - 1) * COOLDOWN)
  {
    hide IsBusy, CodeRun;
    var n := slowest / COOLDOWN + 1 + k;
    if k == 0 {
      BusySucceedsState(req, slowest, n);
    } else {
      BusyRunState(req, slowest, k - 1);
      BusyTriple(BusyRun(req, slowest, k - 1), req, slowest, n, if k == 1 then slowest else (n - 2) * COOLDOWN,
                 if k == 1 then COOLDOWN - slowest % COOLDOWN else COOLDOWN);
    }
  }

  /** Wait for the cooldown to end, reserve and complete at once. */
  lemma BusyTriple(before: seq<Event>, req: Request, slowest: nat, n: nat, clock: int, pause: nat)
    requires n > 0 && IsBusy(CodeRun(Fresh(0), before), req, slowest, n - 1, n - 1, clock)
    requires clock + pause == (n - 1) * COOLDOWN >= slowest
    ensures IsBusy(CodeRun(Fresh(0), before + [Advance(pause)] + [Reserve(req)] + [Succeed(n - 1)]),
                   req, slowest, n, n, (n - 1) * COOLDOWN)
  {
    var paused := before + [Advance(pause)];
    var reserved := paused + [Reserve(req)];
    CodeRunSnoc(Fresh(0), before, Advance(pause));
    CodeRunSnoc(Fresh(0), paused, Reserve(req));
    CodeRunSnoc(Fresh(0), reserved, Succeed(n - 1));
    hide IsBusy, CodeRun, CodeStep;
    BusyAdvance(CodeRun(Fresh(0), before), req, slowest, n - 1, n - 1, clock, pause);
    BusyReserve(CodeRun(Fresh(0), paused), req, slowest, n - 1, n - 1);
    BusySucceed(CodeRun(Fresh(0), reserved), req, slowest, n, n - 1, (n - 1) * COOLDOWN);
  }

  lemma {:induction false} BusyCount(attempts: seq<Attempt>, req: Request, slowest: nat, done: nat, width: nat)
    requires AreBusy(attempts, req, slowest, done) && |attempts| <= done
    requires attempts != [] ==> (|attempts| - 1) * COOLDOWN <= slowest + width
    ensures CountDone(attempts, req, slowest, slowest + width) == |attempts|
    decreases |attempts|
  {
    if attempts != [] {
      var n: nat := |attempts| - 1;
      assert attempts[n] == BusyAttempt(req, slowest, n, n < done);
      BusyCount(attempts[..n], req, slowest, done, width);
    }
  }

  /** The widened bound is attained: for every width and every slowest publish some run has that many
      completions in one window. */
  lemma CompletionBoundIsAttained(req: Request, width: nat, slowest: nat) returns (events: seq<Event>)
    ensures NoSlowerThan(AttemptsOf(0, events), slowest)
    ensures CountDone(AttemptsOf(0, events), req, slowest, slowest + width) == (width + slowest) / COOLDOWN + 1
  {
    var n := (width + slowest) / COOLDOWN + 1;
    var k := n - 1 - slowest / COOLDOWN;
    events := BusyRun(req, slowest, k);
    BusyRunState(req, slowest, k);
    var attempts := AttemptsOf(0, events);
    BusyCount(attempts, req, slowest, n, width);
    forall i: nat | i < |attempts|
      ensures attempts[i] == BusyAttempt(req, slowest, i, true)
    {
    }
  }

  /** And 30 seconds is enough: two immediate publishes exactly that far apart. */
  lemma TwoInThirtySeconds(req: Request) returns (events: seq<Event>)
    ensures NoSlowerThan(AttemptsOf(0, events), 0)
    ensures CountDone(AttemptsOf(0, events), req, 0, 30 * 1_000_000_000) == 2
  {
    events := CompletionBoundIsAttained(req, 30 * 1_000_000_000, 0);
  }

  /** So it is the best one: a bound holds if and only if it is at least that. */
  lemma CompletionBoundIsBest(width: nat, slowest: nat, bound: int)
    ensures CompletionsWithin(width, slowest, bound) <==> bound >= (width + slowest) / COOLDOWN + 1
  {
    var req := Request("", Shed);
    var events := CompletionBoundIsAttained(req, width, slowest);
    if bound >= (width + slowest) / COOLDOWN + 1 {
      forall clock: int, events: seq<Event>, req: Request, from: int
        ensures RunWithin(clock, events, req, from, width, slowest, bound)
      {
        if NoSlowerThan(AttemptsOf(clock, events), slowest) {
          CompletionRateBound(clock, events, req, from, width, slowest);
        }
      }
    } else {
      assert !RunWithin(0, events, req, slowest, width, slowest, bound);
    }
  }

  /** The unwidened bound holds at completion instants for windows of one width if and only if width and
      slowest publish together do not reach the next multiple of the cooldown. */
  lemma UnwidenedBoundIff(width: nat, slowest: nat)
    ensures CompletionsWithin(width, slowest, width / COOLDOWN + 1) <==> width % COOLDOWN + slowest < COOLDOWN
  {
    CompletionBoundIsBest(width, slowest, width / COOLDOWN + 1);
  }

  /** It holds for windows of every width if and only if publishes take no time. */
  lemma UnwidenedBoundForAllWidthsIff(slowest: nat)
    ensures (forall width: nat :: CompletionsWithin(width, slowest, width / COOLDOWN + 1)) <==> slowest == 0
  {
    forall width: nat
      ensures CompletionsWithin(width, slowest, width / COOLDOWN + 1) <==> width % COOLDOWN + slowest < COOLDOWN
    {
      UnwidenedBoundIff(width, slowest);
    }
    if slowest > 0 {
      var width: nat := COOLDOWN - 1;
      assert !CompletionsWithin(width, slowest, width / COOLDOWN + 1);
    }
  }
}
