/** The real-time scheduler: one tick reads a snapshot of the site and sends charge, discharge or
    load-shedding commands through the cooldown protocol. */
module Scheduler {
  import opened CommandKeys
  import opened Cooldown
  import opened Model

  datatype Policy = Policy(batteryMinSOC: real, batteryMaxSOC: real, loadShedThreshold: real)

  /** What one tick sees: the site's net power, every registered device in map order, and the last
      reported metrics of the site's devices. */
  datatype Snapshot = Snapshot(netPowerW: real, devices: seq<Device>, metrics: map<string, map<string, real>>)

  /** One call of publish made by a tick, with its answer. */
  datatype Call = Call(device: Device, intent: Intent, published: bool)

  /** What happens around a publish: the steps of other goroutines and of the clock before it and while
      it is outstanding, and the broker's answer. */
  datatype Reply = Reply(before: seq<Event>, meanwhile: seq<Event>, accepted: bool)

  /** One publish of a tick on the cooldown machine: what came before it, and its own run. */
  datatype Passage = Passage(before: seq<Event>, own: seq<Event>)

  function ValidatePolicy(p: Policy): Option<string>
  {
    if p.batteryMinSOC < 0.0 || p.batteryMinSOC > 1.0 then Some("battery_min_soc must be between 0 and 1")
    else if p.batteryMaxSOC < 0.0 || p.batteryMaxSOC > 1.0 then Some("battery_max_soc must be between 0 and 1")
    else if p.batteryMinSOC > p.batteryMaxSOC then Some("battery_min_soc must be <= battery_max_soc")
    else if p.loadShedThreshold < 0.0 then Some("load_shed_threshold_w must be >= 0")
    else None
  }

  /** The policies that pass, and what is said of the others: the first field at fault is named. */
  lemma PolicyIsValidIff(p: Policy)
    ensures ValidatePolicy(p) == None <==>
              0.0 <= p.batteryMinSOC <= p.batteryMaxSOC <= 1.0 && p.loadShedThreshold >= 0.0
    ensures ValidatePolicy(p) == Some("battery_min_soc must be between 0 and 1") <==> !(0.0 <= p.batteryMinSOC <= 1.0)
    ensures ValidatePolicy(p) == Some("battery_max_soc must be between 0 and 1") <==>
              0.0 <= p.batteryMinSOC <= 1.0 && !(0.0 <= p.batteryMaxSOC <= 1.0)
    ensures ValidatePolicy(p) == Some("battery_min_soc must be <= battery_max_soc") <==>
              0.0 <= p.batteryMaxSOC < p.batteryMinSOC <= 1.0
  {
    var a, b := "battery_min_soc must be between 0 and 1", "battery_max_soc must be between 0 and 1";
    var c, d := "battery_min_soc must be <= battery_max_soc", "load_shed_threshold_w must be >= 0";
    assert a[9] == 'i' && b[9] == 'a' && c[9] == 'i' && a[0] == b[0] == c[0] == 'b' && d[0] == 'l';
    assert a[24] == 'b' && c[24] == '<';
  }

  /** A missing device, or a device without the metric, reads as zero. */
  function SOCOf(metrics: map<string, map<string, real>>, id: string): real
  {
    if id in metrics && "soc" in metrics[id] then metrics[id]["soc"] else 0.0
  }

  // ----- Which devices a tick addresses -----

  predicate Chargeable(site: string, snap: Snapshot, policy: Policy, d: Device)
  {
    d.siteID == site && d.kind == Battery && SOCOf(snap.metrics, d.id) < policy.batteryMaxSOC
  }

  predicate Dischargeable(site: string, snap: Snapshot, policy: Policy, d: Device)
  {
    d.siteID == site && d.kind == Battery && SOCOf(snap.metrics, d.id) > policy.batteryMinSOC
  }

  predicate Sheddable(site: string, d: Device)
  {
    d.siteID == site && d.kind == Load && !d.criticalLoad
  }

  predicate Wanted(site: string, snap: Snapshot, policy: Policy, intent: Intent, d: Device)
  {
    match intent
    case Charge => Chargeable(site, snap, policy, d)
    case Discharge => Dischargeable(site, snap, policy, d)
    case Shed => Sheddable(site, d)
  }

  /** The devices addressed with the intent, in listing order. */
  function Addressed(site: string, snap: Snapshot, policy: Policy, intent: Intent, devices: seq<Device>): seq<Device>
    decreases |devices|
  {
    if devices == [] then [] else
      var n := |devices| - 1;
      Addressed(site, snap, policy, intent, devices[..n])
      + if Wanted(site, snap, policy, intent, devices[n]) then [devices[n]] else []
  }

  /** The site's devices of one kind, in listing order. */
  function Own(site: string, devices: seq<Device>, kind: DeviceType): seq<Device>
    decreases |devices|
  {
    if devices == [] then [] else
      var n := |devices| - 1;
      Own(site, devices[..n], kind) + if devices[n].siteID == site && devices[n].kind == kind then [devices[n]] else []
  }

  lemma {:induction false} OwnAreOwn(site: string, devices: seq<Device>, kind: DeviceType, i: nat)
    requires i < |Own(site, devices, kind)|
    ensures Own(site, devices, kind)[i].siteID == site && Own(site, devices, kind)[i].kind == kind
    decreases |devices|
  {
    var n := |devices| - 1;
    if i < |Own(site, devices[..n], kind)| {
      OwnAreOwn(site, devices[..n], kind, i);
    }
  }

  /** Filtering by kind first loses no addressed device. */
  lemma {:induction false} AddressedOfOwn(site: string, snap: Snapshot, policy: Policy, intent: Intent,
                                         devices: seq<Device>)
    ensures var kind := if intent.Shed? then Load else Battery;
            Addressed(site, snap, policy, intent, Own(site, devices, kind))
            == Addressed(site, snap, policy, intent, devices)
    decreases |devices|
  {
    if devices != [] {
      var n := |devices| - 1;
      var kind := if intent.Shed? then Load else Battery;
      AddressedOfOwn(site, snap, policy, intent, devices[..n]);
      var own := Own(site, devices, kind);
      if devices[n].siteID == site && devices[n].kind == kind {
        assert own[..|own| - 1] == Own(site, devices[..n], kind) && own[|own| - 1] == devices[n];
      } else {
        assert own == Own(site, devices[..n], kind);
        assert !Wanted(site, snap, policy, intent, devices[n]);
      }
    }
  }

  lemma {:induction false} AddressedPrefix(site: string, snap: Snapshot, policy: Policy, intent: Intent,
                                           devices: seq<Device>, n: nat)
    requires n <= |devices|
    ensures Addressed(site, snap, policy, intent, devices[..n]) <= Addressed(site, snap, policy, intent, devices)
    decreases |devices|
  {
    if n == |devices| {
      assert devices[..n] == devices;
    } else {
      var m := |devices| - 1;
      AddressedPrefix(site, snap, policy, intent, devices[..m], n);
      assert devices[..m][..n] == devices[..n];
    }
  }

  lemma AddressedSnoc(site: string, snap: Snapshot, policy: Policy, intent: Intent, devices: seq<Device>, i: nat)
    requires i < |devices|
    ensures Addressed(site, snap, policy, intent, devices[..i + 1])
            == Addressed(site, snap, policy, intent, devices[..i])
               + if Wanted(site, snap, policy, intent, devices[i]) then [devices[i]] else []
  {
    assert devices[..i + 1][..i] == devices[..i];
  }

  lemma FirstAddressed(site: string, snap: Snapshot, policy: Policy, intent: Intent, devices: seq<Device>, i: nat)
    requires i < |devices| && Addressed(site, snap, policy, intent, devices[..i]) == []
    requires Wanted(site, snap, policy, intent, devices[i])
    ensures Addressed(site, snap, policy, intent, devices) != []
    ensures Addressed(site, snap, policy, intent, devices)[0] == devices[i]
  {
    AddressedPrefix(site, snap, policy, intent, devices, i + 1);
    assert devices[..i + 1][..i] == devices[..i];
    assert Addressed(site, snap, policy, intent, devices[..i + 1]) == [devices[i]];
  }

  /** `calls` addresses exactly `devices` with the intent, in order. */
  ghost predicate Covers(calls: seq<Call>, devices: seq<Device>, intent: Intent)
  {
    |calls| == |devices| && forall i :: 0 <= i < |calls| ==> calls[i].device == devices[i] && calls[i].intent == intent
  }

  ghost predicate AnyPublished(calls: seq<Call>)
  {
    exists i :: 0 <= i < |calls| && calls[i].published
  }

  lemma CoversAppend(first: seq<Call>, second: seq<Call>, devices: seq<Device>, more: seq<Device>, intent: Intent)
    requires Covers(first, devices, intent) && Covers(second, more, intent)
    ensures Covers(first + second, devices + more, intent)
  {
  }

  /** `second` holds one call at most. */
  lemma AnyPublishedAppend(first: seq<Call>, second: seq<Call>, devices: seq<Device>, intent: Intent)
    requires Covers(second, devices, intent) && |devices| <= 1
    ensures AnyPublished(first + second) <==> AnyPublished(first) || (second != [] && second[0].published)
  {
    var all := first + second;
    if AnyPublished(first) {
      var i :| 0 <= i < |first| && first[i].published;
      assert all[i].published;
    }
    if second != [] && second[0].published {
      assert all[|first|].published;
    }
    if AnyPublished(all) {
      var i :| 0 <= i < |all| && all[i].published;
      assert if i < |first| then first[i].published else second[0].published;
    }
  }

  /** Everything a tick may do, up to the answers of publish. */
  ghost predicate TickDoes(site: string, snap: Snapshot, policy: Policy, calls: seq<Call>)
  {
    var charge := Addressed(site, snap, policy, Charge, snap.devices);
    var discharge := if snap.netPowerW > 10.0 then Addressed(site, snap, policy, Discharge, snap.devices) else [];
    var shed := Addressed(site, snap, policy, Shed, snap.devices);
    if snap.netPowerW < -10.0 then
      Covers(calls, charge, Charge)
    else
      && |discharge| <= |calls|
      && Covers(calls[..|discharge|], discharge, Discharge)
      && (if !AnyPublished(calls[..|discharge|]) && snap.netPowerW > policy.loadShedThreshold && shed != []
          then Covers(calls[|discharge|..], [shed[0]], Shed)
          else |calls| == |discharge|)
  }

  /** The steps that only this goroutine could take for its own reservation are dropped. */
  function Others(events: seq<Event>, id: nat): (r: seq<Event>)
    ensures Succeed(id) !in r && Fail(id) !in r
    ensures Succeed(id) !in events && Fail(id) !in events ==> r == events
    ensures forall e :: e in events && e != Succeed(id) && e != Fail(id) ==> e in r
  {
    if events == [] then []
    else if events[0] == Succeed(id) || events[0] == Fail(id) then Others(events[1..], id)
    else [events[0]] + Others(events[1..], id)
  }

  lemma OtherLeavesInFlight(m: Machine, e: Event, id: nat)
    requires InFlightAt(m.history, id) && e != Succeed(id) && e != Fail(id)
    ensures InFlightAt(CodeStep(m, e).history, id)
    ensures CodeStep(m, e).history.attempts[id] == m.history.attempts[id]
  {
    hide KeyOf, Refused, Rollback;
  }

  /** A reservation stays in flight while others run. */
  lemma {:induction false} OthersLeaveInFlight(m: Machine, events: seq<Event>, id: nat)
    requires InFlightAt(m.history, id)
    requires Succeed(id) !in events && Fail(id) !in events
    ensures InFlightAt(CodeRun(m, events).history, id)
    ensures CodeRun(m, events).history.attempts[id] == m.history.attempts[id]
    decreases |events|
  {
    if events != [] {
      var before, e := events[..|events| - 1], events[|events| - 1];
      assert e in events;
      OthersLeaveInFlight(m, before, id);
      OtherLeavesInFlight(CodeRun(m, before), e, id);
    }
  }

  /** `t` is the run of publish from `m`: refused exactly when the reference limiter blocks it, otherwise
      reserved, left to others, and ended by success or failure as the broker answered; the call says
      which it was. */
  ghost predicate IsPublish(m: Machine, reply: Reply, call: Call, t: seq<Event>)
  {
    var req, id := Request(call.device.id, call.intent), |m.history.attempts|;
    if Blocked(m.history, req) then
      t == [Reserve(req)] && !call.published
    else
      && t == [Reserve(req)] + Others(reply.meanwhile, id) + [if reply.accepted then Succeed(id) else Fail(id)]
      && call.published == reply.accepted
  }

  /** A call counts as published exactly when it got a reservation of its own, stamped at the call, and
      that reservation succeeded. */
  lemma PublishedIsSucceeded(m: Machine, reply: Reply, call: Call, t: seq<Event>)
    requires Inv(m) && IsPublish(m, reply, call, t)
    ensures var attempts, id := CodeRun(m, t).history.attempts, |m.history.attempts|;
            call.published <==> id < |attempts| && attempts[id].req == Request(call.device.id, call.intent)
                                && attempts[id].at == m.history.clock && attempts[id].outcome.Succeeded?
  {
    var req, id := Request(call.device.id, call.intent), |m.history.attempts|;
    hide Blocked, KeyOf, Spaced, MapIsLive, LiveIsCovered;
    RefusedIffBlocked(m, req);
    CodeRunEmpty(m);
    CodeRunSnoc(m, [], Reserve(req));
    assert [] + [Reserve(req)] == [Reserve(req)];
    hide CodeRun;
    if !Blocked(m.history, req) {
      var middle, last := Others(reply.meanwhile, id), if reply.accepted then Succeed(id) else Fail(id);
      CodeRunSnoc(m, [Reserve(req)] + middle, last);
      CodeRunAppend(m, [Reserve(req)], middle);
      OthersLeaveInFlight(CodeRun(m, [Reserve(req)]), middle, id);
    }
  }

  /** The machine after several publishes in turn, with everything that happened around them. */
  ghost function After(m: Machine, traces: seq<Passage>): Machine
    decreases |traces|
  {
    if traces == [] then m
    else CodeRun(CodeRun(After(m, traces[..|traces| - 1]), traces[|traces| - 1].before), traces[|traces| - 1].own)
  }

  /** Each call is a publish from the machine that its predecessors and what came before it left. */
  ghost predicate Enacts(m: Machine, world: nat -> Reply, calls: seq<Call>, traces: seq<Passage>)
  {
    |calls| == |traces| && forall k :: 0 <= k < |calls| ==>
      && traces[k].before == world(k).before
      && IsPublish(CodeRun(After(m, traces[..k]), traces[k].before), world(k), calls[k], traces[k].own)
  }

  lemma AfterSnoc(m: Machine, traces: seq<Passage>, t: Passage)
    ensures After(m, traces + [t]) == CodeRun(CodeRun(After(m, traces), t.before), t.own)
  {
    assert (traces + [t])[..|traces|] == traces;
  }

  lemma EnactsSnoc(m: Machine, world: nat -> Reply, calls: seq<Call>, traces: seq<Passage>, call: Call, t: Passage)
    requires Enacts(m, world, calls, traces) && t.before == world(|calls|).before
    requires IsPublish(CodeRun(After(m, traces), t.before), world(|calls|), call, t.own)
    ensures Enacts(m, world, calls + [call], traces + [t])
  {
    var n, longer := |calls|, traces + [t];
    hide IsPublish;
    assert longer[..n] == traces;
    forall k | 0 <= k < n
      ensures longer[k].before == world(k).before
      ensures IsPublish(CodeRun(After(m, longer[..k]), longer[k].before), world(k), (calls + [call])[k], longer[k].own)
    {
      assert longer[..k] == traces[..k];
    }
  }

  function Flatten(traces: seq<Passage>): seq<Event>
    decreases |traces|
  {
    if traces == [] then []
    else Flatten(traces[..|traces| - 1]) + traces[|traces| - 1].before + traces[|traces| - 1].own
  }

  /** Publishes in turn are one run of the cooldown machine: its theorems hold across ticks. */
  lemma {:induction false} AfterIsRun(m: Machine, traces: seq<Passage>)
    ensures After(m, traces) == CodeRun(m, Flatten(traces))
    decreases |traces|
  {
    if traces == [] {
      CodeRunEmpty(m);
    } else {
      var n := |traces| - 1;
      AfterIsRun(m, traces[..n]);
      CodeRunAppend(m, Flatten(traces[..n]), traces[n].before);
      CodeRunAppend(m, Flatten(traces[..n]) + traces[n].before, traces[n].own);
    }
  }

  /** The scheduler. `attempts` holds the call record of every publish so far: it stands for the local
      variables of the goroutines, and `clock` for the instant both clock reads of publish return. */
  class Scheduler {
    const siteID: string
    var policy: Policy
    var lastSent: map<string, int>
    var clock: int
    var attempts: seq<Attempt>
    var answers: seq<bool>

    ghost function Machine(): Machine
      reads this
    {
      Cooldown.Machine(History(clock, attempts, answers), lastSent)
    }

    constructor (siteID: string, policy: Policy, clock: int)
      ensures this.siteID == siteID && this.policy == policy
      ensures Machine() == Fresh(clock) && Inv(Machine())
    {
      this.siteID := siteID;
      this.policy := policy;
      this.lastSent := map[];
      this.clock := clock;
      this.attempts := [];
      this.answers := [];
    }

    method SetPolicy(p: Policy)
      modifies this`policy
      ensures policy == p
    {
      policy := p;
    }

    /** The first critical section of publish. */
    method TryReserve(req: Request) returns (granted: bool)
      modifies this`lastSent, this`attempts, this`answers
      ensures Machine() == CodeStep(old(Machine()), Reserve(req))
      ensures granted == !Refused(old(lastSent), KeyOf(req), clock)
    {
      var key := CommandKey(req.deviceID, req.intent);
      if key in lastSent && clock - lastSent[key] < COOLDOWN {
        answers := answers + [false];
        return false;
      }
      lastSent := lastSent[key := clock];
      attempts := attempts + [Attempt(req, clock, InFlight)];
      answers := answers + [true];
      return true;
    }

    /** PublishCommand returned nil. */
    method Succeeds(id: nat)
      modifies this`attempts
      ensures Machine() == CodeStep(old(Machine()), Succeed(id))
    {
      if id < |attempts| && attempts[id].outcome.InFlight? {
        attempts := attempts[id := attempts[id].(outcome := Succeeded(clock))];
      }
    }

    /** PublishCommand returned an error: the second critical section of publish. */
    method Fails(id: nat)
      modifies this`lastSent, this`attempts
      ensures Machine() == CodeStep(old(Machine()), Fail(id))
    {
      if id < |attempts| && attempts[id].outcome.InFlight? {
        var key := KeyOf(attempts[id].req);
        if key in lastSent && lastSent[key] == attempts[id].at {
          lastSent := lastSent - {key};
        }
        attempts := attempts[id := attempts[id].(outcome := Failed)];
      }
    }

    /** Steps of other goroutines and of the clock. */
    method Interleave(events: seq<Event>)
      modifies this`lastSent, this`clock, this`attempts, this`answers
      ensures Machine() == CodeRun(old(Machine()), events)
    {
      for i := 0 to |events|
        invariant Machine() == CodeRun(old(Machine()), events[..i])
      {
        ghost var before := Machine();
        match events[i] {
          case Advance(elapsed) => clock := clock + elapsed;
          case Reserve(req) => var _ := TryReserve(req);
          case Succeed(id) => Succeeds(id);
          case Fail(id) => Fails(id);
        }
        assert Machine() == CodeStep(before, events[i]);
        CodeRunSnoc(old(Machine()), events[..i], events[i]);
        assert events[..i + 1] == events[..i] + [events[i]];
      }
      assert events[..|events|] == events;
    }

    /** publish: true exactly when no live attempt of the same device and intent lies within the
        cooldown and the broker accepts. The ghost trace is what it did on the cooldown machine. */
    method Publish(d: Device, intent: Intent, reply: Reply) returns (published: bool, ghost trace: seq<Event>)
      requires Inv(Machine())
      modifies this`lastSent, this`clock, this`attempts, this`answers
      ensures Inv(Machine()) && Machine() == CodeRun(old(Machine()), trace)
      ensures published <==> !Blocked(old(Machine()).history, Request(d.id, intent)) && reply.accepted
      ensures IsPublish(old(Machine()), reply, Call(d, intent, published), trace)
    {
      var req := Request(d.id, intent);
      ghost var m0 := Machine();
      var id := |attempts|;
      RefusedIffBlocked(m0, req);
      var granted := TryReserve(req);
      CodeRunSnoc(m0, [], Reserve(req));
      trace := [] + [Reserve(req)];
      if granted {
        ghost var m1 := Machine();
        var others := Others(reply.meanwhile, id);
        Interleave(others);
        OthersLeaveInFlight(m1, others, id);
        CodeRunAppend(m0, trace, others);
        trace := trace + others;
        if reply.accepted {
          Succeeds(id);
          CodeRunSnoc(m0, trace, Succeed(id));
          trace := trace + [Succeed(id)];
        } else {
          Fails(id);
          CodeRunSnoc(m0, trace, Fail(id));
          trace := trace + [Fail(id)];
        }
      }
      RunKeepsInv(m0, trace);
      published := granted && reply.accepted;
    }

    /** The next publish of a tick that started from the machine `m0`. */
    method PublishNext(d: Device, intent: Intent, world: nat -> Reply, ghost m0: Machine,
                       calls: seq<Call>, ghost traces: seq<Passage>)
      returns (call: Call, ghost t: seq<Passage>)
      requires Inv(Machine()) && Machine() == After(m0, traces) && Enacts(m0, world, calls, traces)
      modifies this`lastSent, this`clock, this`attempts, this`answers
      ensures Inv(Machine()) && Machine() == After(m0, t) && Enacts(m0, world, calls + [call], t)
      ensures call.device == d && call.intent == intent
    {
      hide Inv, IsPublish, Blocked;
      var reply := world(|calls|);
      Interleave(reply.before);
      RunKeepsInv(old(Machine()), reply.before);
      var published, own := Publish(d, intent, reply);
      call := Call(d, intent, published);
      ghost var passage := Passage(reply.before, own);
      AfterSnoc(m0, traces, passage);
      EnactsSnoc(m0, world, calls, traces, call, passage);
      t := traces + [passage];
    }

    /** One turn of a battery loop: publish the intent if the battery's state of charge allows it. */
    method Consider(b: Device, snap: Snapshot, intent: Intent, world: nat -> Reply, ghost m0: Machine,
                    calls: seq<Call>, ghost traces: seq<Passage>)
      returns (more: seq<Call>, ghost t: seq<Passage>)
      requires Inv(Machine()) && !intent.Shed? && b.siteID == siteID && b.kind == Battery
      requires Machine() == After(m0, traces) && Enacts(m0, world, calls, traces)
      modifies this`lastSent, this`clock, this`attempts, this`answers
      ensures Inv(Machine()) && Machine() == After(m0, t) && Enacts(m0, world, calls + more, t)
      ensures Covers(more, if Wanted(siteID, snap, policy, intent, b) then [b] else [], intent)
    {
      hide Inv, Enacts, After;
      var soc := SOCOf(snap.metrics, b.id);
      if if intent.Charge? then soc < policy.batteryMaxSOC else soc > policy.batteryMinSOC {
        var call;
        call, t := PublishNext(b, intent, world, m0, calls, traces);
        return [call], t;
      }
      assert calls + [] == calls;
      return [], traces;
    }

    /** The battery loop of a tick. */
    method Dispatch(batteries: seq<Device>, snap: Snapshot, intent: Intent, world: nat -> Reply)
      returns (calls: seq<Call>, dispatched: bool, ghost traces: seq<Passage>)
      requires Inv(Machine()) && !intent.Shed?
      requires batteries == Own(siteID, snap.devices, Battery)
      modifies this`lastSent, this`clock, this`attempts, this`answers
      ensures Inv(Machine()) && Machine() == After(old(Machine()), traces)
              && Enacts(old(Machine()), world, calls, traces)
      ensures Covers(calls, Addressed(siteID, snap, policy, intent, snap.devices), intent)
      ensures dispatched == AnyPublished(calls)
    {
      ghost var m0 := Machine();
      assert After(m0, []) == m0 && Enacts(m0, world, [], []);
      assert Covers([], Addressed(siteID, snap, policy, intent, batteries[..0]), intent) && !AnyPublished([]);
      hide CodeRun, Inv, After, Enacts, IsPublish, Covers, AnyPublished, Addressed, Wanted, Own;
      calls, dispatched, traces := [], false, [];
      for i := 0 to |batteries|
        invariant Inv(Machine()) && Machine() == After(m0, traces) && Enacts(m0, world, calls, traces)
        invariant Covers(calls, Addressed(siteID, snap, policy, intent, batteries[..i]), intent)
        invariant dispatched == AnyPublished(calls)
      {
        OwnAreOwn(siteID, snap.devices, Battery, i);
        AddressedSnoc(siteID, snap, policy, intent, batteries, i);
        ghost var sofar := Addressed(siteID, snap, policy, intent, batteries[..i]);
        ghost var here := if Wanted(siteID, snap, policy, intent, batteries[i]) then [batteries[i]] else [];
        var more;
        more, traces := Consider(batteries[i], snap, intent, world, m0, calls, traces);
        AnyPublishedAppend(calls, more, here, intent);
        CoversAppend(calls, more, sofar, here, intent);
        dispatched := dispatched || (more != [] && more[0].published);
        calls := calls + more;
      }
      assert batteries[..|batteries|] == batteries;
      AddressedOfOwn(siteID, snap, policy, intent, snap.devices);
    }

    /** The load loop of a tick: publish a shed for the first non-critical load, and stop there. */
    method ShedOne(loads: seq<Device>, snap: Snapshot, world: nat -> Reply, ghost m0: Machine,
                   calls: seq<Call>, ghost traces: seq<Passage>)
      returns (more: seq<Call>, ghost t: seq<Passage>)
      requires Inv(Machine()) && Machine() == After(m0, traces) && Enacts(m0, world, calls, traces)
      requires loads == Own(siteID, snap.devices, Load)
      modifies this`lastSent, this`clock, this`attempts, this`answers
      ensures Inv(Machine()) && Machine() == After(m0, t) && Enacts(m0, world, calls + more, t)
      ensures var shed := Addressed(siteID, snap, policy, Shed, snap.devices);
              Covers(more, if shed == [] then [] else [shed[0]], Shed)
    {
      hide Inv, Enacts, After;
      AddressedOfOwn(siteID, snap, policy, Shed, snap.devices);
      for i := 0 to |loads|
        invariant Machine() == old(Machine())
        invariant Addressed(siteID, snap, policy, Shed, loads[..i]) == []
      {
        assert loads[..i + 1][..i] == loads[..i];
        OwnAreOwn(siteID, snap.devices, Load, i);
        if !loads[i].criticalLoad {
          FirstAddressed(siteID, snap, policy, Shed, loads, i);
          var call;
          call, t := PublishNext(loads[i], Shed, world, m0, calls, traces);
          return [call], t;
        }
      }
      assert loads[..|loads|] == loads;
      assert calls + [] == calls;
      return [], traces;
    }

    /** One tick over a snapshot. `world(k)` is what happens before and during the k-th publish it makes. */
    method Tick(snap: Snapshot, world: nat -> Reply) returns (calls: seq<Call>, ghost traces: seq<Passage>)
      requires Inv(Machine())
      modifies this`lastSent, this`clock, this`attempts, this`answers
      ensures Inv(Machine()) && Machine() == After(old(Machine()), traces)
              && Enacts(old(Machine()), world, calls, traces)
      ensures TickDoes(siteID, snap, policy, calls)
    {
      hide CodeRun, Inv, IsPublish;
      ghost var m0 := Machine();
      calls, traces := [], [];
      var batteries, loads := SplitDevices(snap.devices);
      var dispatched := false;
      if snap.netPowerW < -10.0 {
        calls, dispatched, traces := Dispatch(batteries, snap, Charge, world);
        return;
      }
      if snap.netPowerW > 10.0 {
        calls, dispatched, traces := Dispatch(batteries, snap, Discharge, world);
      }
      ghost var first := calls;
      assert calls[..|first|] == calls;
      if dispatched {
        return;
      }
      if snap.netPowerW > policy.loadShedThreshold {
        var shed;
        shed, traces := ShedOne(loads, snap, world, m0, calls, traces);
        calls := calls + shed;
        assert calls[..|first|] == first && calls[|first|..] == shed;
      }
    }

    /** The device loop at the head of a tick. */
    method SplitDevices(devices: seq<Device>) returns (batteries: seq<Device>, loads: seq<Device>)
      ensures batteries == Own(siteID, devices, Battery)
      ensures loads == Own(siteID, devices, Load)
    {
      batteries, loads := [], [];
      for i := 0 to |devices|
        invariant batteries == Own(siteID, devices[..i], Battery)
        invariant loads == Own(siteID, devices[..i], Load)
      {
        assert devices[..i + 1][..i] == devices[..i];
        var d := devices[i];
        if d.siteID != siteID {
          continue;
        }
        match d.kind {
          case Battery => batteries := batteries + [d];
          case Load => loads := loads + [d];
          case _ =>
        }
      }
      assert devices[..|devices|] == devices;
    }
  }

  // ----- What every tick is safe from -----

  /** Every device addressed with an intent is one of the listed devices and fits the intent. */
  lemma {:induction false} AddressedFit(site: string, snap: Snapshot, policy: Policy, intent: Intent,
                                      devices: seq<Device>)
    ensures forall d :: d in Addressed(site, snap, policy, intent, devices) ==>
              d in devices && d.siteID == site && Wanted(site, snap, policy, intent, d)
    decreases |devices|
  {
    if devices != [] {
      AddressedFit(site, snap, policy, intent, devices[..|devices| - 1]);
    }
  }

  /** The device has reported a state of charge. */
  predicate Reports(snap: Snapshot, id: string)
  {
    id in snap.metrics && "soc" in snap.metrics[id]
  }

  /** Who may be called with the intent, in terms of the reported metrics: a missing reading counts as 0. */
  predicate Allowed(site: string, snap: Snapshot, policy: Policy, intent: Intent, d: Device)
  {
    && d.siteID == site
    && match intent
       case Charge => && d.kind == Battery
                      && (Reports(snap, d.id) ==> snap.metrics[d.id]["soc"] < policy.batteryMaxSOC)
                      && (!Reports(snap, d.id) ==> 0.0 < policy.batteryMaxSOC)
       case Discharge => && d.kind == Battery
                         && (Reports(snap, d.id) ==> snap.metrics[d.id]["soc"] > policy.batteryMinSOC)
                         && (!Reports(snap, d.id) ==> 0.0 > policy.batteryMinSOC)
       case Shed => d.kind == Load && !d.criticalLoad
  }

  /** What the calls of one tick must never do. */
  ghost predicate Safe(site: string, snap: Snapshot, policy: Policy, calls: seq<Call>)
  {
    && (forall i :: 0 <= i < |calls| ==>
          calls[i].device in snap.devices && Allowed(site, snap, policy, calls[i].intent, calls[i].device))
    && (forall i :: 0 <= i < |calls| ==>
          && (calls[i].intent.Charge? ==> snap.netPowerW < -10.0)
          && (calls[i].intent.Discharge? ==> snap.netPowerW > 10.0)
          && (calls[i].intent.Shed? ==> snap.netPowerW > policy.loadShedThreshold))
    && (forall i, j :: 0 <= i < |calls| && 0 <= j < |calls| && calls[i].intent.Charge? ==> calls[j].intent.Charge?)
    && (forall i, j :: 0 <= i < |calls| && 0 <= j < |calls| && calls[i].intent.Discharge? && calls[i].published
                       ==> !calls[j].intent.Shed?)
    && (forall i, j :: 0 <= i < |calls| && 0 <= j < |calls| && calls[i].intent.Shed? && calls[j].intent.Shed?
                       ==> i == j)
  }

  /** One tick never mixes charging and discharging, never sheds after a published discharge, sheds at
      most one load and never a critical one, and commands only its own site's devices within the
      policy's limits. */
  lemma TickIsSafe(site: string, snap: Snapshot, policy: Policy, calls: seq<Call>)
    requires TickDoes(site, snap, policy, calls)
    ensures Safe(site, snap, policy, calls)
  {
    AddressedFit(site, snap, policy, Charge, snap.devices);
    AddressedFit(site, snap, policy, Discharge, snap.devices);
    AddressedFit(site, snap, policy, Shed, snap.devices);
    if snap.netPowerW >= -10.0 {
      var discharge := if snap.netPowerW > 10.0 then Addressed(site, snap, policy, Discharge, snap.devices) else [];
      var n := |discharge|;
      forall i | 0 <= i < |calls|
        ensures i < n ==> calls[i].intent == Discharge && calls[i].device == discharge[i]
        ensures i >= n ==> calls[i].intent == Shed && i == n && !AnyPublished(calls[..n])
                           && calls[i].device in Addressed(site, snap, policy, Shed, snap.devices)
      {
        if i < n {
          assert calls[..n][i] == calls[i];
        } else {
          assert calls[n..][i - n] == calls[i];
        }
      }
      forall i | 0 <= i < n && calls[i].published
        ensures AnyPublished(calls[..n])
      {
        assert calls[..n][i].published;
      }
    }
  }

  /** `at` says where in the listing the calls' devices stand: exactly where the intent is allowed. */
  ghost predicate CallsExactly(site: string, snap: Snapshot, policy: Policy, intent: Intent,
                               calls: seq<Call>, at: seq<nat>)
  {
    && |at| == |calls|
    && (forall j, k :: 0 <= j < k < |at| ==> at[j] < at[k])
    && (forall k :: 0 <= k < |at| ==>
          at[k] < |snap.devices| && calls[k].device == snap.devices[at[k]] && calls[k].intent == intent)
    && (forall i: nat :: i < |snap.devices| ==>
          (i in at <==> Allowed(site, snap, policy, intent, snap.devices[i])))
  }

  /** `at` says where in the first n devices the picked ones stand: exactly where the intent is allowed. */
  ghost predicate PicksAllowed(site: string, snap: Snapshot, policy: Policy, intent: Intent, n: nat,
                               picked: seq<Device>,
                               at: seq<nat>)
    requires n <= |snap.devices|
  {
    && |at| == |picked|
    && (forall k :: 0 <= k < |at| ==> at[k] < n && picked[k] == snap.devices[at[k]])
    && (forall j, k :: 0 <= j < k < |at| ==> at[j] < at[k])
    && (forall i: nat :: i < n ==> (i in at <==> Allowed(site, snap, policy, intent, snap.devices[i])))
  }

  lemma PicksNext(site: string, snap: Snapshot, policy: Policy, intent: Intent, n: nat,
                  picked: seq<Device>, at: seq<nat>)
    requires n < |snap.devices| && PicksAllowed(site, snap, policy, intent, n, picked, at)
    ensures var d := snap.devices[n];
            if Allowed(site, snap, policy, intent, d)
            then PicksAllowed(site, snap, policy, intent, n + 1, picked + [d], at + [n])
            else PicksAllowed(site, snap, policy, intent, n + 1, picked, at)
  {
    hide Allowed;
    var longer := at + [n];
    assert forall i: nat :: i in longer <==> i in at || i == n;
    assert forall i: nat :: i in at ==> i < n;
  }

  lemma WantedIsAllowed(site: string, snap: Snapshot, policy: Policy, intent: Intent, d: Device)
    ensures Wanted(site, snap, policy, intent, d) <==> Allowed(site, snap, policy, intent, d)
  {
  }

  lemma {:induction false} AddressedAreAllowed(site: string, snap: Snapshot, policy: Policy, intent: Intent, n: nat)
    returns (at: seq<nat>)
    requires n <= |snap.devices|
    ensures PicksAllowed(site, snap, policy, intent, n, Addressed(site, snap, policy, intent, snap.devices[..n]), at)
  {
    hide PicksAllowed, Allowed, Addressed;
    if n == 0 {
      at := [];
      PicksNothing(site, snap, policy, intent);
    } else {
      at := AddressedAreAllowed(site, snap, policy, intent, n - 1);
      AddressedNext(site, snap, policy, intent, n - 1);
      PicksNext(site, snap, policy, intent, n - 1, Addressed(site, snap, policy, intent, snap.devices[..n - 1]), at);
      if Allowed(site, snap, policy, intent, snap.devices[n - 1]) {
        at := at + [n - 1];
      }
    }
  }

  lemma PicksNothing(site: string, snap: Snapshot, policy: Policy, intent: Intent)
    ensures PicksAllowed(site, snap, policy, intent, 0, Addressed(site, snap, policy, intent, snap.devices[..0]), [])
  {
  }

  lemma AddressedNext(site: string, snap: Snapshot, policy: Policy, intent: Intent, n: nat)
    requires n < |snap.devices|
    ensures var before := Addressed(site, snap, policy, intent, snap.devices[..n]);
            Addressed(site, snap, policy, intent, snap.devices[..n + 1])
            == if Allowed(site, snap, policy, intent, snap.devices[n]) then before + [snap.devices[n]] else before
  {
    hide Wanted, Allowed, Addressed;
    AddressedSnoc(site, snap, policy, intent, snap.devices, n);
    WantedIsAllowed(site, snap, policy, intent, snap.devices[n]);
  }

  /** Exporting, a tick calls every battery of the site whose reading allows it, in listing order, to
      charge, and nothing else. */
  lemma ExportChargesAll(site: string, snap: Snapshot, policy: Policy, calls: seq<Call>) returns (at: seq<nat>)
    requires TickDoes(site, snap, policy, calls) && snap.netPowerW < -10.0
    ensures CallsExactly(site, snap, policy, Charge, calls, at)
  {
    at := AddressedAreAllowed(site, snap, policy, Charge, |snap.devices|);
    assert snap.devices[..|snap.devices|] == snap.devices;
    PicksAreCalls(site, snap, policy, Charge, calls, at);
  }

  /** The first load that may be shed. */
  ghost predicate IsFirstSheddable(site: string, snap: Snapshot, policy: Policy, d: Device)
  {
    exists i: nat :: i < |snap.devices| && snap.devices[i] == d && Allowed(site, snap, policy, Shed, d)
                     && forall j: nat :: j < i ==> !Allowed(site, snap, policy, Shed, snap.devices[j])
  }

  /** Importing, it calls every such battery to discharge. If none of these calls was published, the net
      power is above the threshold and the site has a load that is not critical, it sheds the first of
      them; otherwise nothing. Between -10 W and 10 W the first part is empty. */
  lemma ImportDischargesOrSheds(site: string, snap: Snapshot, policy: Policy, calls: seq<Call>)
    returns (n: nat, at: seq<nat>)
    requires TickDoes(site, snap, policy, calls) && snap.netPowerW >= -10.0
    ensures n <= |calls| <= n + 1
    ensures if snap.netPowerW > 10.0 then CallsExactly(site, snap, policy, Discharge, calls[..n], at) else n == 0
    ensures |calls| == n + 1 <==>
              && (forall k :: 0 <= k < n ==> !calls[k].published) && snap.netPowerW > policy.loadShedThreshold
              && exists d :: d in snap.devices && Allowed(site, snap, policy, Shed, d)
    ensures |calls| == n + 1 ==>
              calls[n].intent == Shed && IsFirstSheddable(site, snap, policy, calls[n].device)
  {
    hide Allowed, IsFirstSheddable, PicksAllowed, Addressed;
    FirstShed(site, snap, policy);
    assert snap.devices[..|snap.devices|] == snap.devices;
    at, n := [], 0;
    if snap.netPowerW > 10.0 {
      at := AddressedAreAllowed(site, snap, policy, Discharge, |snap.devices|);
      n := |Addressed(site, snap, policy, Discharge, snap.devices)|;
      PicksAreCalls(site, snap, policy, Discharge, calls[..n], at);
    }
    PublishedAmong(calls, n);
    if |calls| == n + 1 {
      assert calls[n..][0] == calls[n];
    }
  }

  lemma PublishedAmong(calls: seq<Call>, n: nat)
    requires n <= |calls|
    ensures AnyPublished(calls[..n]) <==> exists k :: 0 <= k < n && calls[k].published
  {
    forall k | 0 <= k < n
      ensures calls[..n][k] == calls[k]
    {
    }
  }

  lemma PicksAreCalls(site: string, snap: Snapshot, policy: Policy, intent: Intent, calls: seq<Call>, at: seq<nat>)
    requires var picked := Addressed(site, snap, policy, intent, snap.devices);
             Covers(calls, picked, intent) && PicksAllowed(site, snap, policy, intent, |snap.devices|, picked, at)
    ensures CallsExactly(site, snap, policy, intent, calls, at)
  {
    hide Allowed;
  }

  /** The head of the addressed loads is the first that may be shed; there is none if none may be. */
  lemma FirstShed(site: string, snap: Snapshot, policy: Policy)
    ensures var shed := Addressed(site, snap, policy, Shed, snap.devices);
            && (shed != [] <==> exists d :: d in snap.devices && Allowed(site, snap, policy, Shed, d))
            && (shed != [] ==> IsFirstSheddable(site, snap, policy, shed[0]))
  {
    var at := AddressedAreAllowed(site, snap, policy, Shed, |snap.devices|);
    assert snap.devices[..|snap.devices|] == snap.devices;
    hide Allowed, Addressed;
    if at != [] {
      assert at[0] in at;
      forall j: nat | j < at[0]
        ensures j !in at
      {
      }
    }
    forall d | d in snap.devices && Allowed(site, snap, policy, Shed, d)
      ensures at != []
    {
      var i: nat :| i < |snap.devices| && snap.devices[i] == d;
      assert i in at;
    }
  }

  /** Under a validated policy no tick addresses a discharge to a battery that has reported nothing,
      and no device is shed while the site exports. */
  lemma ValidPolicyGuards(site: string, snap: Snapshot, policy: Policy, calls: seq<Call>)
    requires ValidatePolicy(policy) == None
    requires TickDoes(site, snap, policy, calls)
    ensures forall i :: 0 <= i < |calls| && calls[i].intent.Discharge? ==> calls[i].device.id in snap.metrics
    ensures forall i :: 0 <= i < |calls| && calls[i].intent.Shed? ==> snap.netPowerW > 0.0
  {
    TickIsSafe(site, snap, policy, calls);
  }
}
