/** The simulated battery and relays: the SOC moves by 0.005 per telemetry step, commands may arrive at
    any moment, and a low-SOC warning has hysteresis. */
module Simulator {
  import opened Model

  const STEP: real := 0.005
  const FULL: real := 0.95
  const EMPTY: real := 0.15
  const WARN_AT: real := 0.20
  const RECOVER_AT: real := 0.30

  datatype Mode = Idle | Charging | Discharging

  datatype Code = LowSOC | SOCRecovered

  /** An event and the number of telemetry steps before it. */
  datatype Notice = Notice(code: Code, at: nat)

  /** The battery, plus what the telemetry loop holds between sampling and checking, the number of
      samples taken and the events published. */
  datatype Sim = Sim(mode: Mode, soc: real, lowOpen: bool, unchecked: Option<real>, samples: nat, notices: seq<Notice>)

  /** One locked section: a mode command, a telemetry sample, or the event check that follows a sample. */
  datatype Event = SetMode(mode: Mode) | Sample | Check

  function Moved(mode: Mode, soc: real): real
  {
    if mode == Charging then soc + STEP else if mode == Discharging then soc - STEP else soc
  }

  function Clip(soc: real): real
  {
    if soc <= EMPTY then EMPTY else if soc >= FULL then FULL else soc
  }

  /** batteryTelemetry: move, and fall idle on either bound. */
  function SampleStep(s: Sim): Sim
  {
    var soc := Moved(s.mode, s.soc);
    s.(soc := Clip(soc), mode := if soc >= FULL || soc <= EMPTY then Idle else s.mode,
       unchecked := Some(Clip(soc)), samples := s.samples + 1)
  }

  /** publishBatterySOCEvent, on the SOC that was sampled. */
  function CheckStep(s: Sim, soc: real): Sim
  {
    var warn, recover := soc <= WARN_AT && !s.lowOpen, soc >= RECOVER_AT && s.lowOpen;
    s.(unchecked := None, lowOpen := (s.lowOpen || warn) && !recover,
       notices := s.notices + if warn then [Notice(LowSOC, s.samples)]
                              else if recover then [Notice(SOCRecovered, s.samples)] else [])
  }

  /** The telemetry loop samples and checks in turn; commands come in between as they like. */
  function Step(s: Sim, e: Event): Sim
  {
    match e
    case SetMode(mode) => s.(mode := mode)
    case Sample => if s.unchecked.None? then SampleStep(s) else s
    case Check => if s.unchecked.Some? then CheckStep(s, s.unchecked.value) else s
  }

  function Run(s: Sim, events: seq<Event>): Sim
    decreases |events|
  {
    if events == [] then s else Step(Run(s, events[..|events| - 1]), events[|events| - 1])
  }

  function Start(): Sim
  {
    Sim(Idle, 0.65, false, None, 0, [])
  }

  /** A sample in numbers: half a percent up or down, held within 15% and 95%; on either end the battery
      falls idle. */
  lemma SampleMoves(s: Sim)
    ensures var n := SampleStep(s);
            var moved := match s.mode case Idle => s.soc case Charging => s.soc + 0.005
                         case Discharging => s.soc - 0.005;
            && (moved <= 0.15 ==> n.soc == 0.15 && n.mode == Idle)
            && (0.15 < moved < 0.95 ==> n.soc == moved && n.mode == s.mode)
            && (moved >= 0.95 ==> n.soc == 0.95 && n.mode == Idle)
            && n.unchecked == Some(n.soc) && n.samples == s.samples + 1
            && n.lowOpen == s.lowOpen && n.notices == s.notices
  {
  }

  /** A check in numbers: at 20% or less the warning is open afterwards, at 30% or more it is closed, in
      between it stays; an event goes out exactly when that changes. */
  lemma CheckSettles(s: Sim, soc: real)
    ensures var n := CheckStep(s, soc);
            && (soc <= 0.20 ==> n.lowOpen) && (soc >= 0.30 ==> !n.lowOpen)
            && (0.20 < soc < 0.30 ==> n.lowOpen == s.lowOpen)
            && n.notices == (if n.lowOpen == s.lowOpen then s.notices
                             else s.notices + [Notice(if n.lowOpen then LowSOC else SOCRecovered, s.samples)])
            && n.soc == s.soc && n.mode == s.mode && n.samples == s.samples && n.unchecked == None
  {
  }

  // ----- Hysteresis -----

  /** Events alternate, starting with the warning. */
  ghost predicate Alternates(notices: seq<Notice>)
  {
    forall k :: 0 <= k < |notices| ==> notices[k].code == if k % 2 == 0 then LowSOC else SOCRecovered
  }

  /** Neighbouring events are at least 20 telemetry steps apart. */
  ghost predicate FarApart(notices: seq<Notice>)
  {
    forall k :: 0 < k < |notices| ==> notices[k].at >= notices[k - 1].at + 20
  }

  /** How far the SOC can have come since the last event. */
  ghost predicate NearLastEvent(s: Sim)
  {
    s.notices != [] ==>
      var last := s.notices[|s.notices| - 1];
      && last.at <= s.samples
      && (last.code.LowSOC? ==> s.soc <= WARN_AT + (s.samples - last.at) as real * STEP)
      && (last.code.SOCRecovered? ==> s.soc >= RECOVER_AT - (s.samples - last.at) as real * STEP)
  }

  ghost predicate Inv(s: Sim)
  {
    && EMPTY <= s.soc <= FULL
    && (s.unchecked.Some? ==> s.unchecked.value == s.soc)
    && Alternates(s.notices) && FarApart(s.notices)
    && (s.lowOpen <==> |s.notices| % 2 == 1)
    && NearLastEvent(s)
  }

  lemma SampleKeepsInv(s: Sim)
    requires Inv(s) && s.unchecked.None?
    ensures Inv(SampleStep(s))
  {
    if s.notices != [] {
      OneStepMore(SampleStep(s).samples - s.notices[|s.notices| - 1].at);
    }
  }

  lemma CheckKeepsInv(s: Sim)
    requires Inv(s) && s.unchecked.Some?
    ensures Inv(CheckStep(s, s.unchecked.value))
  {
    var n := CheckStep(s, s.unchecked.value);
    if n.notices != s.notices && s.notices != [] {
      var last := s.notices[|s.notices| - 1];
      assert (s.samples - last.at) as real * STEP >= RECOVER_AT - WARN_AT;
      assert s.samples - last.at >= 20;
    }
  }

  lemma StepKeepsInv(s: Sim, e: Event)
    requires Inv(s)
    ensures Inv(Step(s, e))
  {
    hide SampleStep, CheckStep;
    match e
    case SetMode(_) =>
    case Sample => if s.unchecked.None? { SampleKeepsInv(s); }
    case Check => if s.unchecked.Some? { CheckKeepsInv(s); }
  }

  lemma {:induction false} RunKeepsInv(s: Sim, events: seq<Event>)
    requires Inv(s)
    ensures Inv(Run(s, events))
    decreases |events|
  {
    if events != [] {
      RunKeepsInv(s, events[..|events| - 1]);
      StepKeepsInv(Run(s, events[..|events| - 1]), events[|events| - 1]);
    }
  }

  /** Under any interleaving of commands the SOC stays in [0.15, 0.95], warnings and recoveries
      alternate starting with a warning, and neighbours are at least 20 telemetry steps apart. */
  lemma Hysteresis(events: seq<Event>)
    ensures var s := Run(Start(), events);
            0.15 <= s.soc <= 0.95 && Alternates(s.notices) && FarApart(s.notices)
            && (s.lowOpen <==> s.notices != [] && s.notices[|s.notices| - 1].code == LowSOC)
  {
    RunKeepsInv(Start(), events);
  }

  /** Nor is one ever missing: whenever a sample has been checked, the warning is open if the SOC is at
      20% or less and closed if it is at 30% or more. */
  lemma WarningsAreTimely(events: seq<Event>)
    requires Run(Start(), events).unchecked.Some?
    ensures var s := Run(Start(), events + [Check]);
            && (s.soc <= 0.20 ==> s.lowOpen && s.notices != [] && s.notices[|s.notices| - 1].code == LowSOC)
            && (s.soc >= 0.30 ==> !s.lowOpen && (s.notices == [] || s.notices[|s.notices| - 1].code == SOCRecovered))
  {
    assert (events + [Check])[..|events|] == events;
    var before := Run(Start(), events);
    RunKeepsInv(Start(), events);
    CheckKeepsInv(before);
    CheckSettles(before, before.soc);
  }

  /** So at most one event fits into any 20 steps: n events need at least 20 (n - 1) steps. */
  lemma {:induction false} EventsTakeTime(notices: seq<Notice>)
    requires FarApart(notices) && notices != []
    ensures notices[|notices| - 1].at >= notices[0].at + 20 * (|notices| - 1)
    decreases |notices|
  {
    if |notices| > 1 {
      var init := notices[..|notices| - 1];
      assert forall k :: 0 <= k < |init| ==> init[k] == notices[k];
      EventsTakeTime(init);
    }
  }

  // ----- Falling idle -----

  /** The battery after n samples without commands. */
  function Coast(s: Sim, n: nat): Sim
  {
    if n == 0 then s else SampleStep(Coast(s, n - 1))
  }

  lemma OneStepMore(n: nat)
    requires n > 0
    ensures n as real * STEP == (n - 1) as real * STEP + STEP
  {
  }

  /** A battery that is not idle yet has moved in its direction at every step. */
  lemma {:induction false} CoastMoves(s: Sim, n: nat)
    requires EMPTY <= s.soc <= FULL
    ensures var c := Coast(s, n);
            && EMPTY <= c.soc <= FULL
            && (c.mode == Idle || c.mode == s.mode)
            && (c.mode == Charging ==> c.soc == s.soc + n as real * STEP && (n > 0 ==> c.soc < FULL))
            && (c.mode == Discharging ==> c.soc == s.soc - n as real * STEP && (n > 0 ==> c.soc > EMPTY))
  {
    if n > 0 {
      CoastMoves(s, n - 1);
      OneStepMore(n);
    }
  }

  /** With no further commands a battery is idle within 160 telemetry steps. */
  lemma IdleWithin160(s: Sim)
    requires EMPTY <= s.soc <= FULL
    ensures Coast(s, 160).mode == Idle
  {
    CoastMoves(s, 160);
  }

  /** The bound is tight: charging from empty takes all 160 steps. */
  lemma ChargingFromEmptyTakes160(s: Sim)
    requires s.mode == Charging && s.soc == EMPTY
    ensures Coast(s, 159).mode == Charging && Coast(s, 160).mode == Idle
  {
    ChargingLasts(s, 159);
    IdleWithin160(s);
  }

  lemma {:induction false} ChargingLasts(s: Sim, n: nat)
    requires s.mode == Charging && s.soc == EMPTY && n <= 159
    ensures Coast(s, n).mode == Charging
  {
    if n > 0 {
      ChargingLasts(s, n - 1);
      CoastMoves(s, n - 1);
      OneStepMore(n);
      assert n as real * STEP <= 159.0 * STEP;
    }
  }

  // ----- The simulator, as the program changes it -----

  datatype Param = BoolParam(on: bool) | StringParam(text: string) | OtherParam

  datatype Command = Command(action: string, params: map<string, Param>)

  datatype AckError = BadRelayCommand | BadModeCommand | UnsupportedMode | UnsupportedAction

  function ParseMode(text: string): Option<Mode>
  {
    if text == "charging" then Some(Charging)
    else if text == "discharging" then Some(Discharging)
    else if text == "idle" then Some(Idle)
    else None
  }

  class Simulator {
    var mode: Mode
    var soc: real
    var lowOpen: bool
    var relays: map<string, bool>
    ghost var unchecked: Option<real>
    ghost var samples: nat
    ghost var notices: seq<Notice>

    ghost function State(): Sim
      reads this
    {
      Sim(mode, soc, lowOpen, unchecked, samples, notices)
    }

    constructor ()
      ensures State() == Start() && relays == map["load_01" := true, "load_02" := true]
      ensures mode == Idle && soc == 0.65 && !lowOpen
    {
      mode, soc, lowOpen := Idle, 0.65, false;
      relays := map["load_01" := true, "load_02" := true];
      unchecked, samples, notices := None, 0, [];
    }

    /** Returns the SOC, the power (discharging counts positive) and the mode after the step. */
    method BatteryTelemetry() returns (sampled: real, power: real, state: Mode)
      requires unchecked.None? && Inv(State())
      modifies this`mode, this`soc, this`unchecked, this`samples
      ensures State() == Step(old(State()), Sample) && Inv(State())
      ensures sampled == soc && state == mode
      ensures power == match old(mode) case Idle => 0.0 case Charging => -15.0 case Discharging => 15.0
    {
      StepKeepsInv(State(), Sample);
      power := 0.0;
      match mode {
        case Charging =>
          power := -15.0;
          soc := soc + 0.005;
        case Discharging =>
          power := 15.0;
          soc := soc - 0.005;
        case Idle =>
      }
      if soc >= 0.95 {
        soc := 0.95;
        mode := Idle;
      }
      if soc <= 0.15 {
        soc := 0.15;
        mode := Idle;
      }
      unchecked, samples := Some(soc), samples + 1;
      return soc, power, mode;
    }

    /** Publishes a warning or a recovery for the sampled SOC. */
    method PublishBatterySOCEvent(sampled: real) returns (code: Option<Code>)
      requires unchecked == Some(sampled) && Inv(State())
      modifies this`lowOpen, this`unchecked, this`notices
      ensures State() == Step(old(State()), Check) && Inv(State())
      ensures notices == old(notices) + match code case None => [] case Some(c) => [Notice(c, samples)]
    {
      StepKeepsInv(State(), Check);
      var shouldWarn := sampled <= 0.20 && !lowOpen;
      var shouldRecover := sampled >= 0.30 && lowOpen;
      if shouldWarn {
        lowOpen := true;
      }
      if shouldRecover {
        lowOpen := false;
      }
      unchecked, code := None, None;
      if shouldWarn {
        code := Some(LowSOC);
      } else if shouldRecover {
        code := Some(SOCRecovered);
      }
      if code.Some? {
        notices := notices + [Notice(code.value, samples)];
      }
    }

    /** A command acts only when its action, device type and parameter fit; otherwise the
        acknowledgement carries the error and nothing changes. */
    method HandleCommand(kind: DeviceType, deviceID: string, cmd: Command) returns (error: Option<AckError>)
      requires Inv(State())
      modifies this`mode, this`relays
      ensures Inv(State())
      ensures error == CommandError(kind, cmd)
      ensures error.Some? ==> State() == old(State()) && relays == old(relays)
      ensures error.None? && cmd.action == "set_relay" ==>
                relays == old(relays)[deviceID := cmd.params["on"].on] && State() == old(State())
      ensures error.None? && cmd.action == "set_mode" ==>
                && (cmd.params["mode"].text == "charging" ==> mode == Charging)
                && (cmd.params["mode"].text == "discharging" ==> mode == Discharging)
                && (cmd.params["mode"].text == "idle" ==> mode == Idle)
      ensures error.None? && cmd.action == "set_mode" ==>
                relays == old(relays)
                && State() == Step(old(State()), SetMode(ParseMode(cmd.params["mode"].text).value))
    {
      if cmd.action == "set_relay" {
        if "on" !in cmd.params || !cmd.params["on"].BoolParam? || kind != Load {
          return Some(BadRelayCommand);
        }
        relays := relays[deviceID := cmd.params["on"].on];
      } else if cmd.action == "set_mode" {
        if "mode" !in cmd.params || !cmd.params["mode"].StringParam? || kind != Battery {
          return Some(BadModeCommand);
        }
        var requested := ParseMode(cmd.params["mode"].text);
        if requested.None? {
          return Some(UnsupportedMode);
        }
        mode := requested.value;
      } else {
        return Some(UnsupportedAction);
      }
      return None;
    }
  }

  /** The error of a command: a relay command needs a load and a boolean "on", a mode command a battery
      and a known string "mode". */
  function CommandError(kind: DeviceType, cmd: Command): (error: Option<AckError>)
    ensures error.None? && cmd.action == "set_relay" ==>
              kind == Load && "on" in cmd.params && cmd.params["on"].BoolParam?
    ensures error.None? && cmd.action == "set_mode" ==>
              && kind == Battery && "mode" in cmd.params && cmd.params["mode"].StringParam?
              && ParseMode(cmd.params["mode"].text).Some?
  {
    if cmd.action == "set_relay" then
      if kind == Load && "on" in cmd.params && cmd.params["on"].BoolParam? then None else Some(BadRelayCommand)
    else if cmd.action == "set_mode" then
      if !(kind == Battery && "mode" in cmd.params && cmd.params["mode"].StringParam?) then Some(BadModeCommand)
      else if ParseMode(cmd.params["mode"].text).None? then Some(UnsupportedMode)
      else None
    else Some(UnsupportedAction)
  }

  /** Which commands are carried out, and what the others are told. */
  lemma CommandErrorIff(kind: DeviceType, cmd: Command)
    ensures var relay := kind == Load && "on" in cmd.params && cmd.params["on"].BoolParam?;
            var moded := kind == Battery && "mode" in cmd.params && cmd.params["mode"].StringParam?;
            var known := moded && cmd.params["mode"].text in ["charging", "discharging", "idle"];
            && (CommandError(kind, cmd) == None <==>
                  (cmd.action == "set_relay" && relay) || (cmd.action == "set_mode" && known))
            && (CommandError(kind, cmd) == Some(BadRelayCommand) <==> cmd.action == "set_relay" && !relay)
            && (CommandError(kind, cmd) == Some(BadModeCommand) <==> cmd.action == "set_mode" && !moded)
            && (CommandError(kind, cmd) == Some(UnsupportedMode) <==> cmd.action == "set_mode" && moded && !known)
            && (CommandError(kind, cmd) == Some(UnsupportedAction) <==> cmd.action !in ["set_relay", "set_mode"])
  {
  }
}
