/** The day-ahead planner: configuration, tariff lookup, forecasts, the charge/discharge loop and the
    slots it produces. Quantities are exact reals; instants are nanoseconds since the zero time. */
module Planner {
  import opened Model

  const MINUTE: int := 60_000_000_000

  /** The fixed granularity the start of a plan is truncated to: 15 minutes. */
  const GRAIN: int := 15 * MINUTE

  datatype TariffBand = TariffBand(name: string, startHour: int, endHour: int, price: real)

  /** The two flags record whether the SOC bounds were given explicitly. */
  datatype Config = Config(horizonHours: int, slotMinutes: int, capacityWh: real, powerLimitW: real,
                           minSOC: real, maxSOC: real, tariffs: seq<TariffBand>, minSOCSet: bool, maxSOCSet: bool)

  datatype Mode = Idle | Charge | Discharge

  datatype Reason = Balanced | PVSurplus | LowTariff | PeakTariff | ReduceNetLoad

  datatype Slot = Slot(startAt: int, endAt: int, mode: Mode, targetPowerW: real, expectedPrice: real, forecastPVW: real,
                       forecastLoadW: real, forecastSOC: real, netLoadW: real, reason: Reason)

  datatype Plan = Plan(generatedAt: int, siteID: string, config: Config, slots: seq<Slot>)

  // ----- Small arithmetic -----

  function Max(a: real, b: real): real
  {
    if a >= b then a else b
  }

  function Min(a: real, b: real): real
  {
    if a <= b then a else b
  }

  function Clamp(v: real, min: real, max: real): real
  {
    if v < min then min else if v > max then max else v
  }

  /** Round half away from zero, as math.Round does. */
  function Round(v: real): int
  {
    if v >= 0.0 then (v + 0.5).Floor else -((-v + 0.5).Floor)
  }

  function Round2(v: real): real
  {
    Round(v * 100.0) as real / 100.0
  }

  function Round4(v: real): real
  {
    Round(v * 10000.0) as real / 10000.0
  }

  /** Integer division that truncates toward zero. */
  function TruncDiv(a: int, b: int): int
    requires b != 0
  {
    if (a >= 0) == (b > 0) then Abs(a) / Abs(b) else -(Abs(a) / Abs(b))
  }

  function Abs(a: int): int
  {
    if a < 0 then -a else a
  }

  // ----- Configuration -----

  function DefaultTariffs(): seq<TariffBand>
  {
    [TariffBand("valley", 0, 7, 0.32), TariffBand("flat", 7, 18, 0.58),
     TariffBand("peak", 18, 23, 0.95), TariffBand("flat", 23, 24, 0.58)]
  }

  function NormalizeConfig(c: Config): Config
  {
    c.(horizonHours := if c.horizonHours == 0 then 24 else c.horizonHours,
       slotMinutes := if c.slotMinutes == 0 then 15 else c.slotMinutes,
       capacityWh := if c.capacityWh == 0.0 then 150.0 else c.capacityWh,
       powerLimitW := if c.powerLimitW == 0.0 then 50.0 else c.powerLimitW,
       minSOC := if c.minSOC == 0.0 && !c.minSOCSet then 0.25 else c.minSOC,
       maxSOC := if c.maxSOC == 0.0 && !c.maxSOCSet then 0.90 else c.maxSOC,
       tariffs := if c.tariffs == [] then DefaultTariffs() else c.tariffs)
  }

  datatype ConfigError = BadHorizon | BadSlotMinutes | SlotMinutesMustDivide60 | BadCapacity | BadPowerLimit
                       | BadMinSOC | BadMaxSOC | SOCBoundsCrossed
                       | BadBandHours(i: nat) | BadBandOrder(i: nat) | BadBandPrice(i: nat)

  /** The first complaint about the tariff bands from index `i` on. */
  function BandError(bands: seq<TariffBand>, i: nat): Option<ConfigError>
    requires i <= |bands|
    decreases |bands| - i
  {
    if i == |bands| then None
    else if bands[i].startHour < 0 || bands[i].startHour > 24 || bands[i].endHour < 0 || bands[i].endHour > 24
    then Some(BadBandHours(i))
    else if bands[i].startHour >= bands[i].endHour then Some(BadBandOrder(i))
    else if bands[i].price < 0.0 then Some(BadBandPrice(i))
    else BandError(bands, i + 1)
  }

  function ValidateConfig(c: Config): Option<ConfigError>
  {
    var n := NormalizeConfig(c);
    if c.horizonHours < 0 then Some(BadHorizon)
    else if c.slotMinutes < 0 then Some(BadSlotMinutes)
    else if c.slotMinutes > 0 && 60 % c.slotMinutes != 0 then Some(SlotMinutesMustDivide60)
    else if c.capacityWh < 0.0 then Some(BadCapacity)
    else if c.powerLimitW < 0.0 then Some(BadPowerLimit)
    else if c.minSOC < 0.0 || c.minSOC > 1.0 then Some(BadMinSOC)
    else if c.maxSOC < 0.0 || c.maxSOC > 1.0 then Some(BadMaxSOC)
    else if c.minSOC > c.maxSOC then Some(SOCBoundsCrossed)
    else if BandError(c.tariffs, 0) != None then BandError(c.tariffs, 0)
    else if n.horizonHours <= 0 then Some(BadHorizon)
    else if n.slotMinutes <= 0 then Some(BadSlotMinutes)
    else if n.capacityWh <= 0.0 then Some(BadCapacity)
    else if n.powerLimitW <= 0.0 then Some(BadPowerLimit)
    else if n.minSOC > n.maxSOC then Some(SOCBoundsCrossed)
    else None
  }

  predicate Accepted(c: Config)
  {
    ValidateConfig(c) == None
  }

  /** What a normalised accepted configuration is good for. */
  predicate Sound(c: Config)
  {
    && c.horizonHours >= 1 && c.slotMinutes >= 1 && 60 % c.slotMinutes == 0
    && c.capacityWh > 0.0 && c.powerLimitW > 0.0
    && 0.0 <= c.minSOC <= c.maxSOC <= 1.0
    && c.tariffs != []
    && forall k :: 0 <= k < |c.tariffs| ==>
        0 <= c.tariffs[k].startHour < c.tariffs[k].endHour <= 24 && c.tariffs[k].price >= 0.0
  }

  lemma {:induction false} NoBandError(bands: seq<TariffBand>, i: nat)
    requires i <= |bands|
    ensures BandError(bands, i) == None <==>
              forall k :: i <= k < |bands| ==> 0 <= bands[k].startHour < bands[k].endHour <= 24 && bands[k].price >= 0.0
    decreases |bands| - i
  {
    if i < |bands| {
      NoBandError(bands, i + 1);
    }
  }

  /** Validation accepts exactly the configurations that normalise to a sound one, except that SOC
      bounds that cross as given are refused before defaults are filled in. */
  lemma AcceptedIffSound(c: Config)
    ensures Accepted(c) <==> Sound(NormalizeConfig(c)) && 0.0 <= c.maxSOC && c.minSOC <= c.maxSOC
  {
    NoBandError(c.tariffs, 0);
    NoBandError(DefaultTariffs(), 0);
  }

  /** So a positive lower bound alone is refused, although the default upper bound would fit it. */
  lemma MinSOCNeedsMaxSOC(c: Config)
    requires c.maxSOC == 0.0 && c.minSOC > 0.0
    ensures !Accepted(c)
  {
  }

  // ----- Prices -----

  /** The band that covers the hour first decides; an uncovered hour costs 0.58. */
  function PriceAtHour(hour: int, bands: seq<TariffBand>): real
  {
    if bands == [] then 0.58
    else if bands[0].startHour <= hour < bands[0].endHour then bands[0].price
    else PriceAtHour(hour, bands[1..])
  }

  ghost predicate IsLowPrice(bands: seq<TariffBand>, p: real)
  {
    (exists k :: 0 <= k < |bands| && bands[k].price == p) && forall k :: 0 <= k < |bands| ==> p <= bands[k].price
  }

  ghost predicate IsHighPrice(bands: seq<TariffBand>, p: real)
  {
    (exists k :: 0 <= k < |bands| && bands[k].price == p) && forall k :: 0 <= k < |bands| ==> bands[k].price <= p
  }

  function LowOf(bands: seq<TariffBand>): (p: real)
    requires bands != []
    ensures IsLowPrice(bands, p)
    decreases |bands|
  {
    if |bands| == 1 then
      assert bands[0].price == bands[0].price;
      bands[0].price
    else
      var init := bands[..|bands| - 1];
      var before, last := LowOf(init), bands[|bands| - 1].price;
      assert forall k :: 0 <= k < |init| ==> init[k] == bands[k];
      if last < before then last else before
  }

  function HighOf(bands: seq<TariffBand>): (p: real)
    requires bands != []
    ensures IsHighPrice(bands, p)
    decreases |bands|
  {
    if |bands| == 1 then
      assert bands[0].price == bands[0].price;
      bands[0].price
    else
      var init := bands[..|bands| - 1];
      var before, last := HighOf(init), bands[|bands| - 1].price;
      assert forall k :: 0 <= k < |init| ==> init[k] == bands[k];
      if last > before then last else before
  }

  method LowPrice(bands: seq<TariffBand>) returns (min: real)
    requires bands != []
    ensures min == LowOf(bands)
  {
    min := bands[0].price;
    for k := 0 to |bands|
      invariant k == 0 ==> min == bands[0].price
      invariant k > 0 ==> min == LowOf(bands[..k])
    {
      assert bands[..k + 1][..k] == bands[..k];
      if bands[k].price < min {
        min := bands[k].price;
      }
    }
    assert bands[..|bands|] == bands;
  }

  method HighPrice(bands: seq<TariffBand>) returns (max: real)
    requires bands != []
    ensures max == HighOf(bands)
  {
    max := bands[0].price;
    for k := 0 to |bands|
      invariant k == 0 ==> max == bands[0].price
      invariant k > 0 ==> max == HighOf(bands[..k])
    {
      assert bands[..k + 1][..k] == bands[..k];
      if bands[k].price > max {
        max := bands[k].price;
      }
    }
    assert bands[..|bands|] == bands;
  }

  method PriceAt(hour: int, bands: seq<TariffBand>) returns (price: real)
    ensures price == PriceAtHour(hour, bands)
  {
    for k := 0 to |bands|
      invariant PriceAtHour(hour, bands) == PriceAtHour(hour, bands[k..])
    {
      if hour >= bands[k].startHour && hour < bands[k].endHour {
        return bands[k].price;
      }
      assert bands[k..][1..] == bands[k + 1..];
    }
    return 0.58;
  }

  // ----- Local time and forecasts -----

  /** The minute of the local day, for a fixed zone offset in minutes. */
  function MinuteOfDay(t: int, zone: int): (m: int)
    ensures 0 <= m < 1440
  {
    (t / MINUTE + zone) % 1440
  }

  function HourOf(t: int, zone: int): int
  {
    MinuteOfDay(t, zone) / 60
  }

  /** What the plan is computed from. `shape` is the solar curve over the minute of the day, kept
      abstract; the loads are today's, floored at 20 W and 30 W. */
  datatype Inputs = Inputs(start: int, zone: int, shape: int -> real, currentPV: real, currentLoad: real,
                           initialSOC: real, config: Config)

  function ForecastPV(x: Inputs, t: int): real
  {
    var shape := x.shape(MinuteOfDay(t, x.zone));
    if shape < 0.0 then 0.0 else x.currentPV * shape
  }

  function ForecastLoad(x: Inputs, t: int): real
  {
    var hour := HourOf(t, x.zone);
    x.currentLoad * (if 7 <= hour < 10 then 1.15
                     else if 18 <= hour < 23 then 1.35 else if 0 <= hour < 6 then 0.75 else 1.0)
  }

  // ----- One slot -----

  datatype Decision = Decision(mode: Mode, targetW: real, reason: Reason)

  /** The branches of the planning loop, in their order. */
  function Decide(pv: real, load: real, price: real, soc: real, c: Config): Decision
    requires c.tariffs != []
  {
    var low, high, net := LowOf(c.tariffs), HighOf(c.tariffs), load - pv;
    if pv > load + 10.0 && soc < c.maxSOC then
      Decision(Charge, Min(c.powerLimitW, pv - load), PVSurplus)
    else if high > low && price <= low && soc < c.maxSOC then
      Decision(Charge, c.powerLimitW, LowTariff)
    else if high > low && price >= high && net > 0.0 && soc > c.minSOC then
      Decision(Discharge, Min(c.powerLimitW, net), PeakTariff)
    else if net > c.powerLimitW && soc > c.minSOC then
      Decision(Discharge, Min(c.powerLimitW, net), ReduceNetLoad)
    else
      Decision(Idle, 0.0, Balanced)
  }

  /** The SOC share that a slot at this power moves. */
  function Share(powerW: real, c: Config): real
    requires c.capacityWh != 0.0
  {
    powerW * (c.slotMinutes as real) / 60.0 / c.capacityWh
  }

  function NextSOC(soc: real, mode: Mode, powerW: real, c: Config): real
    requires c.capacityWh != 0.0
  {
    var delta := Share(powerW, c);
    Clamp(if mode == Charge then soc + delta else if mode == Discharge then soc - delta else soc, c.minSOC, c.maxSOC)
  }

  /** One turn of the planning loop before rounding. */
  datatype Turn = Turn(at: int, pv: real, load: real, price: real, decision: Decision, socBefore: real, socAfter: real)

  /** A configuration the loop can run with: validation is not needed, normalisation is enough. */
  predicate Runnable(c: Config)
  {
    c.capacityWh != 0.0 && c.slotMinutes != 0 && c.tariffs != []
  }

  function StartOf(x: Inputs, i: int): int
  {
    x.start + i * x.config.slotMinutes * MINUTE
  }

  function TurnAt(x: Inputs, i: nat, soc: real): Turn
    requires Runnable(x.config)
  {
    var at := StartOf(x, i);
    var pv, load, price := ForecastPV(x, at), ForecastLoad(x, at), PriceAtHour(HourOf(at, x.zone), x.config.tariffs);
    var d := Decide(pv, load, price, soc, x.config);
    Turn(at, pv, load, price, d, soc, NextSOC(soc, d.mode, d.targetW, x.config))
  }

  /** The SOC the i-th turn starts from. */
  function SOCAt(x: Inputs, i: nat): real
    requires Runnable(x.config)
  {
    if i == 0 then x.initialSOC else TurnAt(x, i - 1, SOCAt(x, i - 1)).socAfter
  }

  function TurnOf(x: Inputs, i: nat): Turn
    requires Runnable(x.config)
  {
    TurnAt(x, i, SOCAt(x, i))
  }

  /** The slot a turn reports. */
  function SlotOf(x: Inputs, i: nat): Slot
    requires Runnable(x.config)
  {
    var t := TurnOf(x, i);
    Slot(t.at, t.at + x.config.slotMinutes * MINUTE, t.decision.mode, Round2(t.decision.targetW), t.price,
         Round2(t.pv), Round2(t.load), Round4(t.socAfter), Round2(t.load - t.pv), t.decision.reason)
  }

  // ----- The plan -----

  function SlotsOf(x: Inputs, n: nat): (slots: seq<Slot>)
    requires Runnable(x.config)
    ensures |slots| == n && forall i :: 0 <= i < n ==> slots[i] == SlotOf(x, i)
  {
    seq(n, (i: nat) => SlotOf(x, i))
  }

  predicate Contains(s: Slot, at: int)
  {
    s.startAt <= at < s.endAt
  }

  /** The index of the first slot that contains the instant, searching from `k`. */
  function FirstContaining(slots: seq<Slot>, at: int, k: nat): Option<nat>
    requires k <= |slots|
    decreases |slots| - k
  {
    if k == |slots| then None else if Contains(slots[k], at) then Some(k) else FirstContaining(slots, at, k + 1)
  }

  function Found(slots: seq<Slot>, at: int): (found: Option<Slot>)
  {
    FirstContainingIsIndex(slots, at, 0);
    match FirstContaining(slots, at, 0)
    case None => None
    case Some(k) => Some(slots[k])
  }

  lemma {:induction false} FirstContainingIsIndex(slots: seq<Slot>, at: int, k: nat)
    requires k <= |slots|
    ensures match FirstContaining(slots, at, k)
            case None => forall j :: k <= j < |slots| ==> !Contains(slots[j], at)
            case Some(i) => k <= i < |slots| && Contains(slots[i], at)
                            && forall j :: k <= j < i ==> !Contains(slots[j], at)
    decreases |slots| - k
  {
    if k < |slots| {
      FirstContainingIsIndex(slots, at, k + 1);
    }
  }

  function TruncateToGrain(now: int): int
  {
    now - now % GRAIN
  }

  function SlotCount(c: Config): nat
    requires c.slotMinutes != 0
  {
    var n := TruncDiv(c.horizonHours * 60, c.slotMinutes);
    if n <= 0 then 96 else n
  }

  function InputsOf(now: int, zone: int, shape: int -> real, s: SiteSummary, c: Config): Inputs
  {
    var n := NormalizeConfig(c);
    Inputs(TruncateToGrain(now), zone, shape, Max(s.pvPowerW, 20.0), Max(s.loadPowerW, 30.0),
           Clamp(if s.avgSOC == 0.0 then 0.5 else s.avgSOC, n.minSOC, n.maxSOC), n)
  }

  /** The switch of the planning loop. */
  method DecideSlot(pv: real, load: real, price: real, soc: real, c: Config)
    returns (mode: Mode, target: real, reason: Reason)
    requires c.tariffs != []
    ensures Decision(mode, target, reason) == Decide(pv, load, price, soc, c)
  {
    var low := LowPrice(c.tariffs);
    var high := HighPrice(c.tariffs);
    var hasArbitrage := high > low;
    var netLoad := load - pv;
    mode, target, reason := Idle, 0.0, Balanced;
    if pv > load + 10.0 && soc < c.maxSOC {
      mode, target, reason := Charge, Min(c.powerLimitW, pv - load), PVSurplus;
    } else if hasArbitrage && price <= low && soc < c.maxSOC {
      mode, target, reason := Charge, c.powerLimitW, LowTariff;
    } else if hasArbitrage && price >= high && netLoad > 0.0 && soc > c.minSOC {
      mode, target, reason := Discharge, Min(c.powerLimitW, netLoad), PeakTariff;
    } else if netLoad > c.powerLimitW && soc > c.minSOC {
      mode, target, reason := Discharge, Min(c.powerLimitW, netLoad), ReduceNetLoad;
    }
  }

  /** The planning loop. It runs for every configuration, accepted or not, and reports turn by turn. */
  method BuildDayAheadPlan(now: int, zone: int, shape: int -> real, s: SiteSummary, cfg: Config) returns (plan: Plan)
    ensures plan.generatedAt == now && plan.siteID == s.siteID && plan.config == NormalizeConfig(cfg)
    ensures plan.slots == SlotsOf(InputsOf(now, zone, shape, s, cfg), SlotCount(NormalizeConfig(cfg)))
  {
    var c := NormalizeConfig(cfg);
    var slotCount := TruncDiv(c.horizonHours * 60, c.slotMinutes);
    if slotCount <= 0 {
      slotCount := 96;
    }
    var soc := s.avgSOC;
    if soc == 0.0 {
      soc := 0.5;
    }
    soc := Clamp(soc, c.minSOC, c.maxSOC);
    var x := Inputs(now - now % GRAIN, zone, shape, Max(s.pvPowerW, 20.0), Max(s.loadPowerW, 30.0), soc, c);
    assert x == InputsOf(now, zone, shape, s, cfg);
    var slots := PlanSlots(x, slotCount);
    plan := Plan(now, s.siteID, c, slots);
  }

  method PlanSlots(x: Inputs, slotCount: nat) returns (slots: seq<Slot>)
    requires Runnable(x.config)
    ensures slots == SlotsOf(x, slotCount)
  {
    hide Decide, NextSOC, ForecastPV, ForecastLoad, PriceAtHour, Round2, Round4, HourOf, StartOf;
    var soc := x.initialSOC;
    slots := [];
    for i := 0 to slotCount
      invariant |slots| == i && soc == SOCAt(x, i)
      invariant forall k :: 0 <= k < i ==> slots[k] == SlotOf(x, k)
    {
      var slotStart := StartOf(x, i);
      var price := PriceAt(HourOf(slotStart, x.zone), x.config.tariffs);
      var pv := ForecastPV(x, slotStart);
      var load := ForecastLoad(x, slotStart);
      var mode, target, reason := DecideSlot(pv, load, price, soc, x.config);
      soc := NextSOC(soc, mode, target, x.config);
      slots := slots + [Slot(slotStart, slotStart + x.config.slotMinutes * MINUTE,
                             mode, Round2(target), price, Round2(pv),
                             Round2(load), Round4(soc), Round2(load - pv), reason)];
    }
  }

  /** The first slot that contains the instant. */
  method CurrentSlot(slots: seq<Slot>, at: int) returns (found: Option<Slot>)
    ensures found == Found(slots, at)
  {
    for k := 0 to |slots|
      invariant FirstContaining(slots, at, 0) == FirstContaining(slots, at, k)
    {
      if slots[k].startAt <= at && at < slots[k].endAt {
        return Some(slots[k]);
      }
    }
    return None;
  }
}
