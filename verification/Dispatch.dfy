/** The dispatch preview of a plan and the decision to apply it. */
module Dispatch {
  import opened Model
  import opened Planner
  import opened PlanProperties
  import opened StateStore
  import CommandTable
  import CommandLog

  /** The candidate command; its id is a timestamp and is not modelled. */
  datatype Candidate = Candidate(action: string, mode: string, targetPowerW: real, issuedAt: int, because: Reason)

  datatype Outcome = NoActiveSlot | NoActionNeeded | NoBattery | UnsupportedMode | CandidateGenerated

  /** `slot` is absent when no slot is active; `candidateDeviceID` is empty when there is none. */
  datatype Preview = Preview(generatedAt: int, summary: SiteSummary, plan: Plan, slot: Option<Slot>,
                             trackingErrorW: real,
                             candidateDeviceID: string, candidate: Option<Candidate>,
                             safeToApply: bool, outcome: Outcome)

  datatype ApplyRequest = ApplyRequest(confirm: bool, maxAbsTrackingErrorW: real)

  datatype Verdict = NotConfirmed | NoCandidate | TrackingErrorTooLarge | Confirmed

  datatype ApplyDecision = ApplyDecision(canApply: bool, verdict: Verdict, preview: Preview)

  // ----- Names and rounding -----

  /** The mode string a plan slot carries. */
  function ModeName(mode: Mode): string
  {
    match mode
    case Idle => "idle"
    case Charge => "charge"
    case Discharge => "discharge"
  }

  function BatteryCommandMode(planMode: string): string
  {
    if planMode == "charge" then "charging"
    else if planMode == "discharge" then "discharging"
    else if planMode == "idle" then "idle"
    else ""
  }

  /** This package's own rounding: reflect negatives, add a half and cut. */
  function Round2ByHand(v: real): real
    decreases v < 0.0
  {
    if v < 0.0 then -Round2ByHand(-v) else (v * 100.0 + 0.5).Floor as real / 100.0
  }

  /** The two rounding functions agree on every real. */
  lemma {:induction false} Round2sAgree(v: real)
    ensures Round2ByHand(v) == Round2(v)
    decreases v < 0.0
  {
    if v < 0.0 {
      Round2sAgree(-v);
      assert -v * 100.0 == -(v * 100.0);
    }
  }

  // ----- The first battery -----

  predicate IsBatteryOf(d: Device, siteID: string)
  {
    d.siteID == siteID && d.kind == Battery
  }

  function FirstBattery(devices: seq<Device>, siteID: string): (found: Option<Device>)
    ensures found.Some? <==> exists d :: d in devices && IsBatteryOf(d, siteID)
    ensures found.Some? ==> found.value in devices && IsBatteryOf(found.value, siteID)
  {
    if devices == [] then None
    else if IsBatteryOf(devices[0], siteID) then Some(devices[0])
    else
      assert forall d :: d in devices <==> d == devices[0] || d in devices[1..];
      FirstBattery(devices[1..], siteID)
  }

  /** It is the first in the listing. */
  lemma {:induction false} FirstBatteryIsFirst(devices: seq<Device>, siteID: string, k: nat)
    requires k < |devices| && devices[k].siteID == siteID && devices[k].kind == Battery
    requires forall j :: 0 <= j < k ==> devices[j].siteID != siteID || devices[j].kind != Battery
    ensures FirstBattery(devices, siteID) == Some(devices[k])
    decreases k
  {
    if k > 0 {
      assert !IsBatteryOf(devices[0], siteID);
      forall j | 0 <= j < k - 1
        ensures devices[1..][j].siteID != siteID || devices[1..][j].kind != Battery
      {
        assert devices[1..][j] == devices[j + 1];
      }
      FirstBatteryIsFirst(devices[1..], siteID, k - 1);
    }
  }

  method FirstDevice(devices: seq<Device>, siteID: string) returns (found: Option<Device>)
    ensures found == FirstBattery(devices, siteID)
  {
    for k := 0 to |devices|
      invariant FirstBattery(devices, siteID) == FirstBattery(devices[k..], siteID)
    {
      if devices[k].siteID == siteID && devices[k].kind == Battery {
        return Some(devices[k]);
      }
    }
    return None;
  }

  // ----- Preview and decision -----

  function PreviewOf(now: int, s: SiteSummary, devices: seq<Device>, plan: Plan): Preview
  {
    var slot := Found(plan.slots, now);
    var blank := Preview(now, s, plan, slot, 0.0, "", None, false, NoActiveSlot);
    match slot
    case None => blank
    case Some(active) =>
      var tracked := blank.(trackingErrorW := Round2(s.netPowerW - active.netLoadW));
      if active.mode == Idle || active.targetPowerW == 0.0 then tracked.(outcome := NoActionNeeded)
      else match FirstBattery(devices, s.siteID)
        case None => tracked.(outcome := NoBattery)
        case Some(battery) =>
          var mode := BatteryCommandMode(ModeName(active.mode));
          if mode == "" then tracked.(candidateDeviceID := battery.id, outcome := UnsupportedMode)
          else tracked.(candidateDeviceID := battery.id, outcome := CandidateGenerated,
                        candidate := Some(Candidate("set_mode", mode, active.targetPowerW, now, active.reason)))
  }

  method BuildPreview(now: int, zone: int, shape: int -> real, s: SiteSummary, devices: seq<Device>, cfg: Config)
    returns (preview: Preview)
    ensures preview == PreviewOf(now, s, devices, PlanOf(now, zone, shape, s, cfg))
  {
    hide SlotsOf, InputsOf, SlotCount, NormalizeConfig;
    var plan := BuildDayAheadPlan(now, zone, shape, s, cfg);
    var slot := CurrentSlot(plan.slots, now);
    preview := Preview(now, s, plan, slot, 0.0, "", None, false, NoActiveSlot);
    if slot.None? {
      return;
    }
    var active := slot.value;
    Round2sAgree(s.netPowerW - active.netLoadW);
    preview := preview.(trackingErrorW := Round2ByHand(s.netPowerW - active.netLoadW));
    if active.mode == Idle || active.targetPowerW == 0.0 {
      preview := preview.(outcome := NoActionNeeded);
      return;
    }
    var battery := FirstDevice(devices, s.siteID);
    if battery.None? {
      preview := preview.(outcome := NoBattery);
      return;
    }
    preview := preview.(candidateDeviceID := battery.value.id);
    var mode := BatteryCommandMode(ModeName(active.mode));
    if mode == "" {
      preview := preview.(outcome := UnsupportedMode);
      return;
    }
    preview := preview.(candidate := Some(Candidate("set_mode", mode, active.targetPowerW, now, active.reason)));
    preview := preview.(outcome := CandidateGenerated);
  }

  /** The plan the preview is built on. */
  function PlanOf(now: int, zone: int, shape: int -> real, s: SiteSummary, cfg: Config): Plan
  {
    Plan(now, s.siteID, NormalizeConfig(cfg),
         SlotsOf(InputsOf(now, zone, shape, s, cfg), SlotCount(NormalizeConfig(cfg))))
  }

  function AbsReal(v: real): real
  {
    if v < 0.0 then -v else v
  }

  function Limit(req: ApplyRequest): real
  {
    if req.maxAbsTrackingErrorW == 0.0 then 100.0 else req.maxAbsTrackingErrorW
  }

  /** There is a candidate command and a device to send it to. */
  predicate HasCandidate(preview: Preview)
  {
    preview.candidate.Some? && preview.candidateDeviceID != ""
  }

  /** The measured site is close enough to the plan. */
  predicate Tracks(preview: Preview, req: ApplyRequest)
  {
    AbsReal(preview.trackingErrorW) <= Limit(req)
  }

  /** The decision lets the request through exactly when it is confirmed, has a candidate and tracks the
      plan; otherwise its verdict names the first of the three that fails. */
  ghost predicate IsDecision(decision: ApplyDecision, preview: Preview, req: ApplyRequest)
  {
    && decision.preview == preview
    && (decision.canApply <==> req.confirm && HasCandidate(preview) && Tracks(preview, req))
    && (decision.canApply <==> decision.verdict == Confirmed)
    && (decision.verdict == NotConfirmed ==> !req.confirm)
    && (decision.verdict == NoCandidate ==> req.confirm && !HasCandidate(preview))
    && (decision.verdict == TrackingErrorTooLarge ==> req.confirm && HasCandidate(preview) && !Tracks(preview, req))
  }

  /** Close enough means within the limit of the request, 0 standing for 100 W. */
  lemma TracksMeans(preview: Preview, req: ApplyRequest)
    ensures req.maxAbsTrackingErrorW == 0.0 ==> (Tracks(preview, req) <==> -100.0 <= preview.trackingErrorW <= 100.0)
    ensures req.maxAbsTrackingErrorW != 0.0 ==>
              (Tracks(preview, req) <==>
                -req.maxAbsTrackingErrorW <= preview.trackingErrorW <= req.maxAbsTrackingErrorW)
  {
  }

  /** There is only one such decision. */
  lemma DecisionIsUnique(a: ApplyDecision, b: ApplyDecision, preview: Preview, req: ApplyRequest)
    requires IsDecision(a, preview, req) && IsDecision(b, preview, req)
    ensures a == b
  {
  }

  method DecideApply(preview: Preview, req: ApplyRequest) returns (decision: ApplyDecision)
    ensures IsDecision(decision, preview, req)
  {
    if !req.confirm {
      return ApplyDecision(false, NotConfirmed, preview);
    }
    if preview.candidate.None? || preview.candidateDeviceID == "" {
      return ApplyDecision(false, NoCandidate, preview);
    }
    var maxErr := req.maxAbsTrackingErrorW;
    if maxErr == 0.0 {
      maxErr := 100.0;
    }
    if AbsReal(preview.trackingErrorW) > maxErr {
      return ApplyDecision(false, TrackingErrorTooLarge, preview);
    }
    return ApplyDecision(true, Confirmed, preview);
  }

  // ----- Main results -----

  /** Under an accepted configuration there is always an active slot, and its mode is always one the
      battery understands: those two outcomes never occur. */
  lemma DeadOutcomes(now: int, zone: int, shape: int -> real, s: SiteSummary, devices: seq<Device>, cfg: Config)
    requires Accepted(cfg)
    ensures var p := PreviewOf(now, s, devices, PlanOf(now, zone, shape, s, cfg));
            && p.outcome != NoActiveSlot && p.outcome != UnsupportedMode
            && p.slot.Some? && p.slot.value.startAt <= now < p.slot.value.endAt
  {
    NowIsFound(now, zone, shape, s, cfg);
    FirstContainingIsIndex(PlanOf(now, zone, shape, s, cfg).slots, now, 0);
  }

  /** The active slot calls for an action. */
  predicate CallsForAction(slot: Slot)
  {
    slot.mode != Idle && slot.targetPowerW != 0.0
  }

  /** An apply request passes exactly when it is confirmed, the active slot calls for an action, the
      site's first listed battery has an id, and the rounded tracking error is within the limit. */
  lemma CanApplyIff(now: int, zone: int, shape: int -> real, s: SiteSummary, devices: seq<Device>, cfg: Config,
                    req: ApplyRequest, decision: ApplyDecision)
    requires Accepted(cfg) && IsDecision(decision, PreviewOf(now, s, devices, PlanOf(now, zone, shape, s, cfg)), req)
    ensures var p := decision.preview;
            p.slot.Some?
            && (decision.canApply <==>
                  && req.confirm
                  && CallsForAction(p.slot.value)
                  && FirstBattery(devices, s.siteID).Some?
                  && FirstBattery(devices, s.siteID).value.id != ""
                  && AbsReal(Round2(s.netPowerW - p.slot.value.netLoadW)) <= Limit(req))
  {
    hide PlanOf, Found;
    DeadOutcomes(now, zone, shape, s, devices, cfg);
  }

  /** The preview in full: what it is based on, how far the site is off the plan, what it says, and the
      candidate, which orders exactly what the active slot asks for from the site's first battery. */
  lemma PreviewReports(now: int, s: SiteSummary, devices: seq<Device>, plan: Plan)
    ensures var p := PreviewOf(now, s, devices, plan);
            && p.generatedAt == now && p.summary == s && p.plan == plan
            && p.slot == Found(plan.slots, now) && !p.safeToApply
            && (p.slot.None? ==> p.outcome == NoActiveSlot && p.trackingErrorW == 0.0 && p.candidate.None?)
            && (p.slot.Some? ==>
                  var slot := p.slot.value;
                  var found := FirstBattery(devices, s.siteID);
                  && p.trackingErrorW == Round2(s.netPowerW - slot.netLoadW)
                  && (p.outcome == NoActionNeeded <==> !CallsForAction(slot))
                  && (p.outcome == NoBattery <==> CallsForAction(slot) && found.None?)
                  && (p.candidate.Some? <==> CallsForAction(slot) && found.Some?)
                  && p.candidateDeviceID == (if CallsForAction(slot) && found.Some? then found.value.id else "")
                  && (p.candidate.Some? ==>
                        var c := p.candidate.value;
                        && p.outcome == CandidateGenerated
                        && c.action == "set_mode" && c.targetPowerW == slot.targetPowerW && c.issuedAt == now
                        && c.because == slot.reason
                        && c.mode == if slot.mode == Charge then "charging" else "discharging"))
  {
    hide Found;
  }

  /** Under an accepted configuration the ordered power is the slot's, in (0, limit] up to rounding. */
  lemma CandidateFitsPlan(now: int, zone: int, shape: int -> real, s: SiteSummary, devices: seq<Device>, cfg: Config)
    requires Accepted(cfg)
    ensures var p := PreviewOf(now, s, devices, PlanOf(now, zone, shape, s, cfg));
            && !p.safeToApply
            && (p.candidate.Some? <==> p.outcome == CandidateGenerated)
            && (p.candidate.Some? ==>
                  && p.slot.Some?
                  && 0.0 < p.candidate.value.targetPowerW <= Round2(NormalizeConfig(cfg).powerLimitW)
                  && p.candidate.value.targetPowerW == p.slot.value.targetPowerW
                  && p.candidate.value.because == p.slot.value.reason
                  && p.candidate.value.action == "set_mode" && p.candidate.value.issuedAt == now
                  && (p.candidate.value.mode == "charging" <==> p.slot.value.mode == Charge)
                  && (p.candidate.value.mode == "discharging" <==> p.slot.value.mode == Discharge))
  {
    var x, plan := InputsOf(now, zone, shape, s, cfg), PlanOf(now, zone, shape, s, cfg);
    DeadOutcomes(now, zone, shape, s, devices, cfg);
    AcceptedIsGood(now, zone, shape, s, cfg);
    FirstContainingIsIndex(plan.slots, now, 0);
    var k := FirstContaining(plan.slots, now, 0).value;
    ReportedTargetsFit(x, k);
    assert plan.slots[k] == SlotOf(x, k);
    PreviewReports(now, s, devices, plan);
    hide SlotOf, Round2, InputsOf, FirstBattery;
  }

  // ----- The apply request -----

  /** The answers of the apply endpoint. */
  datatype ApplyResult = BadRequest | Refused(decision: ApplyDecision) | DeviceNotFound
                       | BadGateway(decision: ApplyDecision, device: Device)
                       | Applied(decision: ApplyDecision, device: Device)

  /** What the endpoint reads from the clock and the JSON encoder when it publishes: the stamp of the
      command id, the parameter text and the instant. */
  datatype Encoding = Encoding(stamp: string, params: Candidate -> string, at: int)

  function ReasonText(because: Reason): string
  {
    match because
    case Balanced => "balanced or battery held for constraints"
    case PVSurplus => "pv surplus"
    case LowTariff => "low tariff"
    case PeakTariff => "peak tariff and load deficit"
    case ReduceNetLoad => "reduce net load"
  }

  /** The command that goes out for a candidate. */
  function IssueOf(siteID: string, d: Device, id: string, c: Candidate, e: Encoding): CommandTable.Issue
  {
    CommandTable.Issue(id + "-" + e.stamp, siteID, d.id, KindName(d.kind), c.action, e.params(c),
                       "dispatch apply: day-ahead plan tracking preview: " + ReasonText(c.because), e.at)
  }

  /** The columns of that command. */
  lemma IssueReports(siteID: string, d: Device, id: string, c: Candidate, e: Encoding)
    ensures var i := IssueOf(siteID, d, id, c, e);
            && i.commandID == id + "-" + e.stamp && i.siteID == siteID && i.deviceID == d.id
            && i.deviceType == KindName(d.kind) && i.action == c.action && i.params == e.params(c) && i.issuedAt == e.at
            && i.reason == "dispatch apply: day-ahead plan tracking preview: " + ReasonText(c.because)
  {
  }

  /** What a decision rests on: the site's summary when it was read, and a listing of the devices when
      they were, in whatever order the map gave them. */
  ghost predicate IsSummary(c: Contents, siteID: string, s: SiteSummary)
  {
    Summarizes(s, c.devices, siteID, c.telemetry)
  }

  ghost predicate ListsDevices(c: Contents, devices: seq<Device>)
  {
    |devices| == |c.devices| && forall d :: d in devices <==> exists k :: k in c.devices && c.devices[k] == d
  }

  /** The apply request over a store. `first` happens to the store between reading the summary and the
      devices, `second` between that and looking the candidate up. Once the decision is positive the
      candidate is always found: "not found" never comes back. It is still the battery that was decided
      on unless `second` registers another device under its key. What is issued is the candidate, and
      only when the broker takes it. */
  method ApplyDispatch(store: Store, client: CommandLog.Client, siteID: string, now: int, zone: int, shape: int -> real,
                       cfg: Config, req: ApplyRequest, first: seq<StoreStep>, second: seq<StoreStep>,
                       e: Encoding, brokerOk: bool, stored: bool)
    returns (result: ApplyResult, ghost s: SiteSummary, ghost devices: seq<Device>)
    requires store.Valid()
    modifies store, client.log, client.table
    ensures store.Valid()
    ensures result == BadRequest <==> !Accepted(cfg) || req.maxAbsTrackingErrorW < 0.0
    ensures result == BadRequest ==> store.State() == old(store.State())
    ensures result != DeviceNotFound
    ensures result != BadRequest ==>
              && IsSummary(old(store.State()), siteID, s)
              && ListsDevices(StateAfter(old(store.State()), store.siteID, store.hasRedis, first), devices)
              && IsDecision(result.decision, PreviewOf(now, s, devices, PlanOf(now, zone, shape, s, cfg)), req)
              && (result.Refused? <==> !result.decision.canApply)
    ensures result.Applied? || result.BadGateway? ==>
              && result.Applied? == brokerOk
              && var key := StateKey(siteID, result.decision.preview.candidateDeviceID);
                 && key in store.devices && result.device == store.devices[key]
                 && ((forall d :: Register(d) in second ==> StateKey(d.siteID, d.id) != key) ==>
                       IsBatteryOf(result.device, siteID)
                       && result.device.id == result.decision.preview.candidateDeviceID)
    ensures if result.Applied? then
              var p := result.decision.preview;
              && p.candidate.Some?
              && var w := CommandTable.IssueWrite(
                 IssueOf(siteID, result.device, p.candidateDeviceID, p.candidate.value, e));
                 && client.log.commands == CommandLog.Apply(old(client.log.commands), w)
                 && client.table.rows ==
                    if stored then CommandTable.Upsert(old(client.table.rows), w) else old(client.table.rows)
            else client.log.commands == old(client.log.commands) && client.table.rows == old(client.table.rows)
  {
    s, devices := SiteSummary(siteID, 0.0, 0.0, 0.0, 0.0, 0.0, 0), [];
    if ValidateConfig(cfg) != None || req.maxAbsTrackingErrorW < 0.0 {
      result := BadRequest;
      return;
    }
    var summary := store.Summary(siteID);
    store.Interleave(first);
    var listed := store.Devices();
    s, devices := summary, listed;
    ghost var seen := store.State();
    assert store.Valid();
    var preview := BuildPreview(now, zone, shape, summary, listed, cfg);
    var decision := DecideApply(preview, req);
    if !decision.canApply {
      result := Refused(decision);
      return;
    }
    hide PlanOf, Found, StateAfter, IsSummary;
    CandidateIsListed(seen, siteID, now, s, listed, PlanOf(now, zone, shape, s, cfg));
    store.Interleave(second);
    DevicesStay(seen, store.siteID, store.hasRedis, second, StateKey(siteID, preview.candidateDeviceID));
    var found := store.DeviceInSite(siteID, preview.candidateDeviceID);
    if found.None? {
      result := DeviceNotFound;
      return;
    }
    var issue := IssueOf(siteID, found.value, preview.candidateDeviceID, preview.candidate.value, e);
    var ok := client.PublishCommand(issue, brokerOk, stored);
    result := if ok then Applied(decision, found.value) else BadGateway(decision, found.value);
  }

  /** The device a candidate is for is filed in the store under its own key. */
  lemma CandidateIsListed(c: Contents, siteID: string, now: int, s: SiteSummary, devices: seq<Device>, plan: Plan)
    requires KeyedDevices(c.devices) && ListsDevices(c, devices) && s.siteID == siteID
    requires HasCandidate(PreviewOf(now, s, devices, plan))
    ensures var id := PreviewOf(now, s, devices, plan).candidateDeviceID;
            var key := StateKey(siteID, id);
            key in c.devices && c.devices[key].id == id && IsBatteryOf(c.devices[key], siteID)
  {
    var battery := FirstBattery(devices, siteID).value;
    assert battery in devices;
    var k :| k in c.devices && c.devices[k] == battery;
  }
}
