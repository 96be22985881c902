/** What every day-ahead plan from an accepted configuration satisfies. */
module PlanProperties {
  import opened Model
  import opened Planner

  /** Inputs the planner builds from an accepted configuration. */
  ghost predicate Good(x: Inputs)
  {
    Sound(x.config) && x.config.minSOC <= x.initialSOC <= x.config.maxSOC
  }

  lemma AcceptedIsGood(now: int, zone: int, shape: int -> real, s: SiteSummary, c: Config)
    requires Accepted(c)
    ensures Good(InputsOf(now, zone, shape, s, c))
  {
    AcceptedIffSound(c);
  }

  // ----- Arithmetic -----

  lemma QuotientPositive(a: real, b: real)
    requires a > 0.0 && b > 0.0
    ensures a / b > 0.0
  {
  }

  lemma QuotientMonotone(a: real, b: real, d: real)
    requires a <= b && d > 0.0
    ensures a / d <= b / d
  {
  }

  lemma SharePositive(powerW: real, c: Config)
    requires powerW > 0.0 && c.slotMinutes >= 1 && c.capacityWh > 0.0
    ensures Share(powerW, c) > 0.0
  {
    assert powerW * (c.slotMinutes as real) > 0.0;
    QuotientPositive(powerW * (c.slotMinutes as real) / 60.0, c.capacityWh);
  }

  lemma ShareMonotone(p: real, q: real, c: Config)
    requires p <= q && c.slotMinutes >= 1 && c.capacityWh > 0.0
    ensures Share(p, c) <= Share(q, c)
  {
    assert p * (c.slotMinutes as real) <= q * (c.slotMinutes as real);
    QuotientMonotone(p * (c.slotMinutes as real) / 60.0, q * (c.slotMinutes as real) / 60.0, c.capacityWh);
  }

  /** The share times the capacity is the energy: power times time. */
  lemma ShareIsEnergy(powerW: real, c: Config)
    requires c.capacityWh > 0.0
    ensures Share(powerW, c) * c.capacityWh == powerW * (c.slotMinutes as real) / 60.0
  {
  }

  lemma RoundMonotone(a: real, b: real)
    requires a <= b
    ensures Round(a) <= Round(b)
  {
  }

  lemma Round2Monotone(a: real, b: real)
    requires a <= b
    ensures Round2(a) <= Round2(b)
  {
    RoundMonotone(a * 100.0, b * 100.0);
  }

  lemma Round4Monotone(a: real, b: real)
    requires a <= b
    ensures Round4(a) <= Round4(b)
  {
    RoundMonotone(a * 10000.0, b * 10000.0);
  }

  // ----- Economics of one decision -----

  /** Targets of non-idle slots are positive and within the limit; discharging never exports, surplus
      charging never imports, and every charge draws at least min(limit, 10) W. */
  lemma DecisionFits(pv: real, load: real, price: real, soc: real, c: Config)
    requires Sound(c)
    ensures var d := Decide(pv, load, price, soc, c);
            && (d.mode.Idle? <==> d.reason.Balanced?)
            && (d.mode.Idle? ==> d.targetW == 0.0)
            && (!d.mode.Idle? ==> 0.0 < d.targetW <= c.powerLimitW)
            && (d.mode.Charge? ==> soc < c.maxSOC && d.targetW >= Min(c.powerLimitW, 10.0))
            && (d.mode.Discharge? ==> soc > c.minSOC && d.targetW <= load - pv)
            && (d.reason.PVSurplus? ==> d.targetW <= pv - load)
  {
  }

  /** PV exceeds the load by more than 10 W. */
  predicate Surplus(pv: real, load: real)
  {
    pv - load > 10.0
  }

  /** The price is the lowest, or the highest, of tariffs that differ. */
  predicate Cheap(price: real, c: Config)
    requires c.tariffs != []
  {
    price <= LowOf(c.tariffs) < HighOf(c.tariffs)
  }

  predicate Dear(price: real, c: Config)
    requires c.tariffs != []
  {
    LowOf(c.tariffs) < HighOf(c.tariffs) <= price
  }

  /** When the battery charges and discharges, and at what power: the mode is Charge if and only if there
      is room and the energy is free or cheap; it is Discharge if and only if that is not so, there is
      something to give, and the energy is dear or the load above what the site may draw. */
  lemma DecisionMode(pv: real, load: real, price: real, soc: real, c: Config)
    requires Sound(c)
    ensures var d := Decide(pv, load, price, soc, c);
            && (d.mode.Charge? <==> soc < c.maxSOC && (Surplus(pv, load) || Cheap(price, c)))
            && (d.mode.Discharge? <==>
                  && !d.mode.Charge? && soc > c.minSOC
                  && ((Dear(price, c) && load > pv) || load - pv > c.powerLimitW))
            && (d.mode.Charge? ==>
                  d.targetW == if Surplus(pv, load) then Min(c.powerLimitW, pv - load) else c.powerLimitW)
            && (d.mode.Discharge? ==> d.targetW == Min(c.powerLimitW, load - pv))
  {
  }

  /** Every low-tariff slot is strictly cheaper than every peak-tariff slot of the same plan, also when
      no band covers the hour. */
  lemma LowTariffBelowPeak(x: Inputs, i: nat, j: nat)
    requires Good(x)
    requires SlotOf(x, i).reason.LowTariff? && SlotOf(x, j).reason.PeakTariff?
    ensures SlotOf(x, i).expectedPrice < SlotOf(x, j).expectedPrice
  {
  }

  /** The same bounds on what is reported, after rounding. */
  lemma ReportedTargetsFit(x: Inputs, i: nat)
    requires Good(x)
    ensures var s := SlotOf(x, i);
            && 0.0 <= s.targetPowerW <= Round2(x.config.powerLimitW)
            && (s.mode.Idle? ==> s.targetPowerW == 0.0)
            && (s.mode.Discharge? ==> s.targetPowerW <= s.netLoadW)
            && (s.reason.PVSurplus? ==> s.targetPowerW <= -s.netLoadW)
  {
    var t := TurnOf(x, i);
    DecisionFits(t.pv, t.load, t.price, t.socBefore, x.config);
    Round2Monotone(0.0, t.decision.targetW);
    Round2Monotone(t.decision.targetW, x.config.powerLimitW);
    if t.decision.mode.Discharge? {
      Round2Monotone(t.decision.targetW, t.load - t.pv);
    }
    if t.decision.reason.PVSurplus? {
      Round2Monotone(t.decision.targetW, t.pv - t.load);
      assert (t.load - t.pv) * 100.0 == -((t.pv - t.load) * 100.0);
    }
  }

  // ----- SOC accounting -----

  /** The SOC before every turn stays within the bounds. */
  lemma {:induction false} SOCInBounds(x: Inputs, i: nat)
    requires Good(x)
    ensures x.config.minSOC <= SOCAt(x, i) <= x.config.maxSOC
  {
    if i > 0 {
      SOCInBounds(x, i - 1);
    }
  }

  /** Charging strictly raises the SOC and discharging strictly lowers it, by exactly the share of the
      target if and only if that fits the bound; otherwise it lands on the bound. */
  lemma TurnMoves(x: Inputs, i: nat)
    requires Good(x)
    ensures var t, c := TurnOf(x, i), x.config;
            var share := Share(t.decision.targetW, c);
            match t.decision.mode
            case Idle => t.socAfter == t.socBefore
            case Charge =>
              && t.socAfter > t.socBefore
              && (t.socAfter - t.socBefore == share <==> t.socBefore + share <= c.maxSOC)
              && (t.socBefore + share > c.maxSOC ==> t.socAfter == c.maxSOC)
            case Discharge =>
              && t.socAfter < t.socBefore
              && (t.socBefore - t.socAfter == share <==> t.socBefore - share >= c.minSOC)
              && (t.socBefore - share < c.minSOC ==> t.socAfter == c.minSOC)
  {
    var t := TurnOf(x, i);
    SOCInBounds(x, i);
    DecisionFits(t.pv, t.load, t.price, t.socBefore, x.config);
    if !t.decision.mode.Idle? {
      SharePositive(t.decision.targetW, x.config);
    }
  }

  /** The energy of a share of the capacity. */
  ghost function Energy(share: real, c: Config): real
  {
    share * c.capacityWh
  }

  /** The energy the i-th turn moves into the battery; negative when it moves out. */
  ghost function Moved(x: Inputs, i: nat): real
    requires Runnable(x.config)
  {
    Energy(SOCAt(x, i + 1) - SOCAt(x, i), x.config)
  }

  /** The energy its target stands for: power times time. */
  ghost function Target(x: Inputs, i: nat): real
    requires Runnable(x.config)
  {
    TurnOf(x, i).decision.targetW * (x.config.slotMinutes as real) / 60.0
  }

  /** The turn's whole target fits above the minimum. */
  ghost predicate FitsAboveMin(x: Inputs, i: nat)
    requires Runnable(x.config)
  {
    TurnOf(x, i).socBefore - Share(TurnOf(x, i).decision.targetW, x.config) >= x.config.minSOC
  }

  /** No turn moves more than its target; a discharge moves all of it exactly when it fits. */
  lemma MovedIsWithinTarget(x: Inputs, i: nat)
    requires Good(x)
    ensures match TurnOf(x, i).decision.mode
            case Idle => Moved(x, i) == 0.0
            case Charge => 0.0 < Moved(x, i) <= Target(x, i)
            case Discharge => 0.0 < -Moved(x, i) <= Target(x, i)
                              && (-Moved(x, i) == Target(x, i) <==> FitsAboveMin(x, i))
  {
    hide Decide, NextSOC, ForecastPV, ForecastLoad, PriceAtHour, Share, Target, Energy;
    var t, c := TurnOf(x, i), x.config;
    var share := Share(t.decision.targetW, c);
    TurnMoves(x, i);
    TargetIsEnergy(x, i);
    EnergyOfMove(t.socAfter - t.socBefore, share, c);
    EnergyOfMove(t.socBefore - t.socAfter, share, c);
    assert t.socBefore == SOCAt(x, i) && t.socAfter == SOCAt(x, i + 1);
    hide TurnOf, SOCAt;
  }

  lemma TargetIsEnergy(x: Inputs, i: nat)
    requires Good(x)
    ensures Target(x, i) == Energy(Share(TurnOf(x, i).decision.targetW, x.config), x.config)
  {
    hide TurnOf;
    ShareIsEnergy(TurnOf(x, i).decision.targetW, x.config);
  }

  lemma EnergyOfMove(move: real, share: real, c: Config)
    requires c.capacityWh > 0.0
    ensures move > 0.0 <==> Energy(move, c) > 0.0
    ensures move == 0.0 ==> Energy(move, c) == 0.0
    ensures move <= share <==> Energy(move, c) <= Energy(share, c)
    ensures move == share <==> Energy(move, c) == Energy(share, c)
    ensures Energy(-move, c) == -Energy(move, c)
  {
    ScaleStrict(0.0, move, c.capacityWh);
    ScaleStrict(share, move, c.capacityWh);
    ScaleStrict(move, share, c.capacityWh);
  }

  lemma ScaleStrict(a: real, b: real, factor: real)
    requires factor > 0.0
    ensures a < b <==> a * factor < b * factor
  {
    assert (b - a) * factor == b * factor - a * factor;
  }

  /** Energy taken in by the first n turns. */
  ghost function Charged(x: Inputs, n: nat): real
    requires Runnable(x.config)
  {
    if n == 0 then 0.0
    else Charged(x, n - 1) + if TurnOf(x, n - 1).decision.mode.Charge? then Moved(x, n - 1) else 0.0
  }

  /** Energy given out by the first n turns. */
  ghost function Discharged(x: Inputs, n: nat): real
    requires Runnable(x.config)
  {
    if n == 0 then 0.0
    else Discharged(x, n - 1) + if TurnOf(x, n - 1).decision.mode.Discharge? then -Moved(x, n - 1) else 0.0
  }

  lemma Telescope(a: real, b: real, c: real, capacity: real)
    ensures (a - c) * capacity == (a - b) * capacity + (b - c) * capacity
    ensures (b - c) * capacity == -((c - b) * capacity)
  {
  }

  lemma Scale(a: real, b: real, factor: real)
    requires a <= b && factor >= 0.0
    ensures a * factor <= b * factor
  {
  }

  /** Conservation: what the battery gave is what it took plus what it lost. */
  lemma {:induction false} EnergyBalance(x: Inputs, n: nat)
    requires Good(x)
    ensures Discharged(x, n) == Energy(SOCAt(x, 0) - SOCAt(x, n), x.config) + Charged(x, n)
  {
    hide Decide, TurnAt;
    if n > 0 {
      EnergyBalance(x, n - 1);
      MovedIsWithinTarget(x, n - 1);
      Telescope(SOCAt(x, 0), SOCAt(x, n - 1), SOCAt(x, n), x.config.capacityWh);
    }
  }

  /** Over a whole plan no more is given out than was there above the minimum plus what was taken in. */
  lemma DischargeIsCovered(x: Inputs, n: nat)
    requires Good(x)
    ensures Discharged(x, n) <= Energy(x.initialSOC - x.config.minSOC, x.config) + Charged(x, n)
  {
    hide Discharged, Charged, TurnAt;
    EnergyBalance(x, n);
    SOCInBounds(x, n);
    Scale(x.initialSOC - SOCAt(x, n), x.initialSOC - x.config.minSOC, x.config.capacityWh);
  }

  /** The energy the targets of one mode promise over the first n turns. */
  ghost function Nominal(x: Inputs, n: nat, mode: Mode): real
    requires Runnable(x.config)
  {
    if n == 0 then 0.0
    else Nominal(x, n - 1, mode) + if TurnOf(x, n - 1).decision.mode == mode then Target(x, n - 1) else 0.0
  }

  /** Charging targets promise at least what is taken in. */
  lemma {:induction false} NominalCharge(x: Inputs, n: nat)
    requires Good(x)
    ensures Charged(x, n) <= Nominal(x, n, Charge)
  {
    hide TurnOf, Moved, Target, FitsAboveMin;
    if n > 0 {
      NominalCharge(x, n - 1);
      MovedIsWithinTarget(x, n - 1);
    }
  }

  ghost predicate AllDischargesFit(x: Inputs, n: nat)
    requires Runnable(x.config)
  {
    forall i: nat :: i < n && TurnOf(x, i).decision.mode.Discharge? ==> FitsAboveMin(x, i)
  }

  /** Discharging targets promise exactly what is given out if and only if each of them fits above the
      minimum; otherwise they promise more. */
  lemma {:induction false} NominalDischarge(x: Inputs, n: nat)
    requires Good(x)
    ensures Discharged(x, n) <= Nominal(x, n, Discharge)
    ensures Discharged(x, n) == Nominal(x, n, Discharge) <==> AllDischargesFit(x, n)
  {
    hide TurnOf, Moved, Target, FitsAboveMin;
    if n > 0 {
      NominalDischarge(x, n - 1);
      MovedIsWithinTarget(x, n - 1);
      assert AllDischargesFit(x, n) <==> AllDischargesFit(x, n - 1)
                                         && (TurnOf(x, n - 1).decision.mode.Discharge? ==> FitsAboveMin(x, n - 1));
    }
  }

  /** What the first n discharge targets promise is there: above the minimum at the start, or taken in. */
  ghost predicate PromiseIsCovered(x: Inputs, n: nat)
    requires Runnable(x.config)
  {
    Nominal(x, n, Discharge) <= Energy(x.initialSOC - x.config.minSOC, x.config) + Charged(x, n)
  }

  /** A discharge that does not fit above the minimum empties the battery short of its promise. */
  lemma UnfitDischargeIsUncovered(x: Inputs, i: nat)
    requires Good(x) && TurnOf(x, i).decision.mode.Discharge? && !FitsAboveMin(x, i)
    ensures !PromiseIsCovered(x, i + 1)
  {
    UnfitDischargeDrains(x, i);
    DrainedGivesAll(x, i + 1);
    hide TurnOf, SOCAt, Energy, Nominal, Charged, Discharged, FitsAboveMin;
    NominalDischarge(x, i + 1);
    assert !AllDischargesFit(x, i + 1);
  }

  lemma UnfitDischargeDrains(x: Inputs, i: nat)
    requires Good(x) && TurnOf(x, i).decision.mode.Discharge? && !FitsAboveMin(x, i)
    ensures SOCAt(x, i + 1) == x.config.minSOC
  {
    TurnMoves(x, i);
    hide Decide, NextSOC, ForecastPV, ForecastLoad, PriceAtHour, Share;
  }

  /** At the minimum SOC, everything that was there or was taken in has been given out. */
  lemma DrainedGivesAll(x: Inputs, n: nat)
    requires Good(x) && SOCAt(x, n) == x.config.minSOC
    ensures Discharged(x, n) == Energy(x.initialSOC - x.config.minSOC, x.config) + Charged(x, n)
  {
    assert SOCAt(x, 0) == x.initialSOC;
    hide Discharged, Charged, SOCAt, Energy;
    EnergyBalance(x, n);
  }

  lemma FittingPromiseIsCovered(x: Inputs, k: nat)
    requires Good(x) && AllDischargesFit(x, k)
    ensures PromiseIsCovered(x, k)
  {
    hide TurnOf, Nominal, Discharged, Charged, AllDischargesFit;
    NominalDischarge(x, k);
    DischargeIsCovered(x, k);
  }

  /** The promises of a plan are covered after every slot if and only if every discharge target fits
      above the minimum. */
  lemma PromisesAreCoveredIff(x: Inputs, n: nat)
    requires Good(x)
    ensures (forall k: nat :: k <= n ==> PromiseIsCovered(x, k)) <==> AllDischargesFit(x, n)
  {
    hide TurnOf, FitsAboveMin, PromiseIsCovered;
    if AllDischargesFit(x, n) {
      forall k: nat | k <= n
        ensures PromiseIsCovered(x, k)
      {
        FittingPromiseIsCovered(x, k);
      }
    } else {
      var i: nat :| i < n && TurnOf(x, i).decision.mode.Discharge? && !FitsAboveMin(x, i);
      UnfitDischargeIsUncovered(x, i);
    }
  }

  /** A tiny battery under a heavy night load: one discharge slot whose target it cannot deliver. */
  function TinyBattery(): Inputs
  {
    Inputs(0, 0, (m: int) => 0.0, 20.0, 100.0, 0.5,
           Config(1, 60, 1.0, 50.0, 0.0, 1.0, [TariffBand("flat", 0, 24, 0.58)], true, true))
  }

  /** The planner does build plans that promise more than they can keep. */
  lemma NominalDischargeCanExceed()
    ensures var x := TinyBattery();
            && Accepted(x.config)
            && InputsOf(0, 0, x.shape, SiteSummary("s", 0.0, 100.0, 0.0, 100.0, 0.5, 0), x.config) == x
            && Good(x) && !AllDischargesFit(x, 1) && !PromiseIsCovered(x, 1)
            && Nominal(x, 1, Discharge) > Energy(x.initialSOC - x.config.minSOC, x.config) + Nominal(x, 1, Charge)
  {
    var x := TinyBattery();
    assert TurnOf(x, 0).decision == Decision(Discharge, 50.0, ReduceNetLoad);
    assert !FitsAboveMin(x, 0);
    NominalCharge(x, 1);
  }

  /** The reported SOC of every slot lies between the rounded bounds. */
  lemma ReportedSOCInBounds(x: Inputs, i: nat)
    requires Good(x)
    ensures Round4(x.config.minSOC) <= SlotOf(x, i).forecastSOC <= Round4(x.config.maxSOC)
  {
    SOCInBounds(x, i + 1);
    Round4Monotone(x.config.minSOC, SOCAt(x, i + 1));
    Round4Monotone(SOCAt(x, i + 1), x.config.maxSOC);
  }

  // ----- Charging runs -----

  function Ceil(r: real): int
  {
    -((-r).Floor)
  }

  ghost predicate AllCharge(x: Inputs, from: nat, upto: nat)
    requires Runnable(x.config)
  {
    forall i: nat :: from <= i < upto ==> TurnOf(x, i).decision.mode.Charge?
  }

  /** A charge slot followed by another lifts the SOC by at least the share of min(limit, 10) W. */
  lemma StepClimbs(x: Inputs, i: nat)
    requires Good(x) && TurnOf(x, i).decision.mode.Charge? && TurnOf(x, i + 1).decision.mode.Charge?
    ensures SOCAt(x, i + 1) >= SOCAt(x, i) + Share(Min(x.config.powerLimitW, 10.0), x.config)
  {
    hide Decide, NextSOC, ForecastPV, ForecastLoad, PriceAtHour, Share;
    var t, next := TurnOf(x, i), TurnOf(x, i + 1);
    DecisionFits(t.pv, t.load, t.price, t.socBefore, x.config);
    DecisionFits(next.pv, next.load, next.price, next.socBefore, x.config);
    TurnMoves(x, i);
    ShareMonotone(Min(x.config.powerLimitW, 10.0), t.decision.targetW, x.config);
  }

  lemma NextMultiple(n: nat, d: real)
    requires n > 0
    ensures n as real * d == (n - 1) as real * d + d
  {
  }

  /** Inside a run the SOC climbs slot by slot. */
  lemma {:induction false} RunClimbs(x: Inputs, from: nat, n: nat)
    requires Good(x) && AllCharge(x, from, from + n + 1)
    ensures SOCAt(x, from + n) >= x.config.minSOC + n as real * Share(Min(x.config.powerLimitW, 10.0), x.config)
  {
    hide SOCAt, TurnOf, Share;
    SOCInBounds(x, from);
    if n > 0 {
      RunClimbs(x, from, n - 1);
      StepClimbs(x, from + n - 1);
      NextMultiple(n, Share(Min(x.config.powerLimitW, 10.0), x.config));
    }
  }

  lemma NonPositiveProduct(u: real, d: real)
    requires d > 0.0
    ensures u <= 0.0 ==> u * d <= 0.0
  {
  }

  lemma StrictQuotient(a: real, d: real, b: real)
    requires d > 0.0 && a * d < b
    ensures a < b / d
  {
    assert b / d * d == b;
    assert (b / d - a) * d == b / d * d - a * d;
    NonPositiveProduct(b / d - a, d);
  }

  /** n steps of d / 60 / capacity stay below the range only if n is below its quotient. */
  lemma StepsBelow(n: real, d: real, capacity: real, range: real)
    requires d > 0.0 && capacity > 0.0
    requires n * (d / 60.0 / capacity) < range
    ensures n < range * capacity * 60.0 / d
  {
    var share := d / 60.0 / capacity;
    assert share * capacity == d / 60.0;
    assert n * share * capacity < range * capacity by {
      NonPositiveProduct(n * share - range, capacity);
      assert (range - n * share) * capacity > 0.0;
    }
    assert n * share * capacity == n * (share * capacity);
    assert n * d == n * (d / 60.0) * 60.0;
    StrictQuotient(n, d, range * capacity * 60.0);
  }

  lemma BelowCeil(n: int, r: real)
    ensures n as real < r ==> n + 1 <= Ceil(r)
    ensures 0.0 <= r ==> 0 <= Ceil(r)
  {
  }

  /** How many steps of min(limit, 10) W fit between the SOC bounds. */
  function StepsInRange(c: Config): real
    requires Sound(c)
  {
    assert Min(c.powerLimitW, 10.0) * c.slotMinutes as real > 0.0;
    (c.maxSOC - c.minSOC) * c.capacityWh * 60.0 / (Min(c.powerLimitW, 10.0) * c.slotMinutes as real)
  }

  lemma StepsAreCounted(c: Config, n: nat)
    requires Sound(c)
    ensures StepsInRange(c) >= 0.0
    ensures n as real * Share(Min(c.powerLimitW, 10.0), c) < c.maxSOC - c.minSOC ==> n as real < StepsInRange(c)
  {
    var d := Min(c.powerLimitW, 10.0) * c.slotMinutes as real;
    Scale(0.0, c.maxSOC - c.minSOC, c.capacityWh);
    QuotientMonotone(0.0, (c.maxSOC - c.minSOC) * c.capacityWh * 60.0, d);
    if n as real * (d / 60.0 / c.capacityWh) < c.maxSOC - c.minSOC {
      StepsBelow(n as real, d, c.capacityWh, c.maxSOC - c.minSOC);
    }
  }

  /** Consecutive charge slots are at most ceil((max - min) * capacity * 60 / (min(limit, 10) * minutes)). */
  lemma ChargeRunIsBounded(x: Inputs, from: nat, upto: nat)
    requires Good(x) && from <= upto && AllCharge(x, from, upto)
    ensures upto - from <= Ceil(StepsInRange(x.config))
  {
    hide Decide, NextSOC, ForecastPV, ForecastLoad, PriceAtHour, Ceil, SOCAt, StepsInRange, Share;
    var c := x.config;
    BelowCeil(upto - from - 1, StepsInRange(c));
    StepsAreCounted(c, 0);
    if from < upto {
      var n: nat := upto - from - 1;
      RunClimbs(x, from, n);
      var last := TurnOf(x, upto - 1);
      DecisionFits(last.pv, last.load, last.price, last.socBefore, c);
      assert last.socBefore == SOCAt(x, upto - 1) < c.maxSOC;
      StepsAreCounted(c, n);
    }
  }

  // ----- Tiling and lookup -----

  lemma NextStart(x: Inputs, i: nat)
    ensures StartOf(x, i + 1) == StartOf(x, i) + x.config.slotMinutes * MINUTE
  {
    assert (i + 1) * x.config.slotMinutes == i * x.config.slotMinutes + x.config.slotMinutes;
  }

  /** The slots divide the horizon exactly. */
  lemma SlotCountIsExact(c: Config)
    requires Sound(c)
    ensures SlotCount(c) * c.slotMinutes == c.horizonHours * 60 && SlotCount(c) >= c.horizonHours
  {
    var q := 60 / c.slotMinutes;
    assert 60 == q * c.slotMinutes;
    assert c.horizonHours * 60 == (c.horizonHours * q) * c.slotMinutes;
    DivideExact(c.horizonHours * q, c.slotMinutes);
    assert c.horizonHours * q >= c.horizonHours;
  }

  lemma MultipleOfLarger(i: int, j: int, b: int)
    requires b > 0 && i < j
    ensures i * b + b <= j * b
  {
    assert (j - i - 1) * b >= 0;
    assert (j - i - 1) * b == j * b - i * b - b;
  }

  lemma QuotientIsIndex(a: int, b: int, i: int)
    requires b > 0
    ensures a / b == i <==> i * b <= a < i * b + b
  {
    var q, r := a / b, a % b;
    assert a == q * b + r && 0 <= r < b;
    if i < q {
      MultipleOfLarger(i, q, b);
    } else if i > q {
      MultipleOfLarger(q, i, b);
    }
  }

  lemma DivideExact(a: int, b: int)
    requires b > 0
    ensures (a * b) / b == a
  {
    QuotientIsIndex(a * b, b, a);
  }

  /** The slots tile [start, start + horizon): no gap, no overlap, no empty slot. */
  lemma SlotsTile(x: Inputs)
    requires Good(x)
    ensures var n := SlotCount(x.config);
            var slots := SlotsOf(x, n);
            && n > 0
            && slots[0].startAt == x.start
            && slots[n - 1].endAt == x.start + x.config.horizonHours * 60 * MINUTE
            && (forall i :: 0 <= i < n ==> slots[i].startAt < slots[i].endAt)
            && (forall i :: 0 < i < n ==> slots[i - 1].endAt == slots[i].startAt)
  {
    hide SlotOf, SlotCount, StartOf;
    var n := SlotCount(x.config);
    SlotCountIsExact(x.config);
    HorizonEnd(x);
    SlotSpan(x, 0);
    SlotSpan(x, n - 1);
    forall i | 0 <= i < n
      ensures SlotsOf(x, n)[i].startAt < SlotsOf(x, n)[i].endAt
      ensures i > 0 ==> SlotsOf(x, n)[i - 1].endAt == SlotsOf(x, n)[i].startAt
    {
      SlotSpan(x, i);
      if i > 0 {
        SlotSpan(x, i - 1);
      }
    }
  }

  /** A slot runs from its own start to the next. */
  lemma SlotSpan(x: Inputs, i: nat)
    requires Good(x)
    ensures SlotOf(x, i).startAt == StartOf(x, i) && SlotOf(x, i).endAt == StartOf(x, i + 1)
    ensures StartOf(x, i) < StartOf(x, i + 1) && StartOf(x, 0) == x.start
  {
    NextStart(x, i);
  }

  lemma HorizonEnd(x: Inputs)
    requires Good(x)
    ensures StartOf(x, SlotCount(x.config)) == x.start + x.config.horizonHours * 60 * MINUTE
  {
    hide SlotCount;
    SlotCountIsExact(x.config);
  }

  /** Within a plan the slot that contains an instant is found by division. */
  lemma SlotContainsIff(x: Inputs, i: nat, at: int)
    requires Good(x)
    ensures Contains(SlotOf(x, i), at) <==> IndexOf(x, at) == i
  {
    var length := x.config.slotMinutes * MINUTE;
    assert i * x.config.slotMinutes * MINUTE == i * length;
    QuotientIsIndex(at - x.start, length, i);
  }

  lemma CancelFactor(a: int, b: int, m: int)
    requires m > 0
    ensures a < b <==> a * m < b * m
  {
    if a < b {
      assert (a + 1) * m <= b * m;
    } else {
      assert b * m <= a * m;
    }
  }

  lemma IndexInRange(a: int, b: int, n: nat)
    requires b > 0
    ensures 0 <= a / b < n <==> 0 <= a < n * b
  {
    var q := a / b;
    QuotientIsIndex(a, b, q);
    CancelFactor(q, n, b);
    assert q < n ==> (q + 1) * b <= n * b;
    CancelFactor(q, 0, b);
  }

  /** Where division says the instant belongs. */
  function IndexOf(x: Inputs, at: int): int
    requires x.config.slotMinutes >= 1
  {
    (at - x.start) / (x.config.slotMinutes * MINUTE)
  }

  predicate InHorizon(x: Inputs, at: int)
  {
    x.start <= at < x.start + x.config.horizonHours * 60 * MINUTE
  }

  lemma IndexIsInPlan(x: Inputs, at: int)
    requires Good(x)
    ensures 0 <= IndexOf(x, at) < SlotCount(x.config) <==> InHorizon(x, at)
  {
    hide SlotCount;
    var n, m := SlotCount(x.config), x.config.slotMinutes;
    SlotCountIsExact(x.config);
    assert n * (m * MINUTE) == (n * m) * MINUTE;
    IndexInRange(at - x.start, m * MINUTE, n);
  }

  /** The linear scan agrees with the index floor((at - start) / slot length) over the whole horizon,
      and finds nothing outside it. */
  lemma ScanIsDivision(x: Inputs, at: int)
    requires Good(x)
    ensures var slots := SlotsOf(x, SlotCount(x.config));
            if InHorizon(x, at)
            then 0 <= IndexOf(x, at) < |slots| && Found(slots, at) == Some(slots[IndexOf(x, at)])
            else Found(slots, at) == None
  {
    hide SlotOf, SlotCount, Contains, InHorizon, IndexOf;
    var slots := SlotsOf(x, SlotCount(x.config));
    IndexIsInPlan(x, at);
    forall k | 0 <= k < |slots|
      ensures Contains(slots[k], at) <==> IndexOf(x, at) == k
    {
      SlotContainsIff(x, k, at);
    }
    FirstContainingIsIndex(slots, at, 0);
  }

  /** The planning instant is always inside its own plan, although the start is truncated to 15
      minutes whatever the slot length. */
  lemma NowIsFound(now: int, zone: int, shape: int -> real, s: SiteSummary, c: Config)
    requires Accepted(c)
    ensures var x := InputsOf(now, zone, shape, s, c);
            Found(SlotsOf(x, SlotCount(x.config)), now).Some?
  {
    AcceptedIsGood(now, zone, shape, s, c);
    var x := InputsOf(now, zone, shape, s, c);
    assert x.start <= now < x.start + GRAIN;
    assert x.config.horizonHours * 60 * MINUTE >= 60 * MINUTE;
    ScanIsDivision(x, now);
  }

  // ----- Clock hours -----

  /** The slot stays within one clock hour of the zone. */
  ghost predicate WithinOneHour(s: Slot, zone: int)
  {
    forall t :: s.startAt <= t < s.endAt ==> HourOf(t, zone) == HourOf(s.startAt, zone)
  }

  /** The local minute a plan starts at, counted from the zero time. */
  function FirstMinute(x: Inputs): int
  {
    x.start / MINUTE + x.zone
  }

  lemma HourOfMinute(minute: int)
    ensures (minute % 1440) / 60 == (minute / 60) % 24
  {
    var d := minute / 1440;
    var r := minute % 1440;
    assert minute == d * 1440 + r;
    assert minute / 60 == d * 24 + r / 60;
    assert 0 <= r / 60 < 24;
  }

  /** Minutes of slot i, for a start on a whole minute. */
  lemma SlotMinutesOf(x: Inputs, i: nat, t: int)
    requires Good(x) && x.start % MINUTE == 0
    ensures var s := SlotOf(x, i);
            var first := FirstMinute(x) + i * x.config.slotMinutes;
            && s.startAt / MINUTE + x.zone == first
            && (Contains(s, t) <==> first <= t / MINUTE + x.zone < first + x.config.slotMinutes)
  {
    var m := x.config.slotMinutes;
    var k := x.start / MINUTE;
    assert x.start == k * MINUTE;
    assert StartOf(x, i) == (k + i * m) * MINUTE;
    DivideExact(k + i * m, MINUTE);
    var q := t / MINUTE;
    assert q * MINUTE <= t < q * MINUTE + MINUTE;
  }

  /** Aligned slots never leave their hour. */
  lemma AlignedStaysWithinHour(first: int, m: int, minute: int)
    requires m > 0 && 60 % m == 0 && first % m == 0 && first <= minute < first + m
    ensures minute / 60 == first / 60
  {
    var q, j, h := 60 / m, first / m, first / 60;
    assert 60 == q * m && first == j * m;
    assert (h + 1) * 60 == ((h + 1) * q) * m;
    CancelFactor(j, (h + 1) * q, m);
    assert j + 1 <= (h + 1) * q;
    CancelFactor((h + 1) * q, j + 1, m);
    assert (j + 1) * m == first + m;
  }

  /** No slot of the plan crosses a clock hour if and only if the first minute is a multiple of the slot
      length. */
  lemma NoSlotCrossesHourIff(x: Inputs)
    requires Good(x) && x.start % MINUTE == 0
    ensures (forall i: nat :: i < SlotCount(x.config) ==> WithinOneHour(SlotOf(x, i), x.zone))
            <==> FirstMinute(x) % x.config.slotMinutes == 0
  {
    var m, f := x.config.slotMinutes, FirstMinute(x);
    if f % m == 0 {
      forall i: nat | i < SlotCount(x.config)
        ensures WithinOneHour(SlotOf(x, i), x.zone)
      {
        AlignedSlotWithinHour(x, i);
      }
    } else {
      var i := SomeSlotCrosses(x);
    }
  }

  lemma AlignedSlotWithinHour(x: Inputs, i: nat)
    requires Good(x) && x.start % MINUTE == 0 && FirstMinute(x) % x.config.slotMinutes == 0
    ensures WithinOneHour(SlotOf(x, i), x.zone)
  {
    hide SlotOf, FirstMinute;
    var m, f, s := x.config.slotMinutes, FirstMinute(x), SlotOf(x, i);
    var first := f + i * m;
    AddMultiple(f, i, m);
    forall t | s.startAt <= t < s.endAt
      ensures HourOf(t, x.zone) == HourOf(s.startAt, x.zone)
    {
      SlotMinutesOf(x, i, t);
      AlignedStaysWithinHour(first, m, t / MINUTE + x.zone);
      HourOfMinute(t / MINUTE + x.zone);
      HourOfMinute(first);
    }
  }

  lemma AddMultiple(f: int, i: int, m: int)
    requires m > 0 && f % m == 0
    ensures (f + i * m) % m == 0
  {
    assert f + i * m == (f / m + i) * m;
    MultipleMod(f / m + i, m);
  }

  lemma MultipleMod(a: int, b: int)
    requires b > 0
    ensures (a * b) % b == 0
  {
    DivideExact(a, b);
  }

  /** A start off the grid of the slot length is off the hour, and no slot starts on the hour. */
  lemma MisalignedMissesHour(f: int, m: int, i: int, hour: int)
    requires m > 0 && 60 % m == 0 && f % m != 0 && hour % 60 == 0
    ensures f + i * m != hour && f % 60 != 0
  {
    var q := 60 / m;
    assert 60 == q * m;
    var h, k := hour / 60, f / 60;
    assert hour == (h * q) * m;
    MultipleMod(h * q - i, m);
    assert (h * q - i) * m == hour - i * m;
    MultipleMod(k * q, m);
    assert (k * q) * m == k * 60;
  }

  /** A misaligned plan has a slot with the next full hour strictly inside. */
  lemma SomeSlotCrosses(x: Inputs) returns (i: nat)
    requires Good(x) && x.start % MINUTE == 0 && FirstMinute(x) % x.config.slotMinutes != 0
    ensures i < SlotCount(x.config) && !WithinOneHour(SlotOf(x, i), x.zone)
  {
    hide SlotCount, SlotOf, Contains;
    var m, f := x.config.slotMinutes, FirstMinute(x);
    var hour := (f / 60 + 1) * 60;
    MisalignedMissesHour(f, m, 0, hour);
    i := (hour - f) / m;
    var first := f + i * m;
    QuotientIsIndex(hour - f, m, i);
    MisalignedMissesHour(f, m, i, hour);
    SlotCountIsExact(x.config);
    IndexInRange(hour - f, m, SlotCount(x.config));
    HourInSlotCrosses(x, i, hour);
  }

  lemma HourInSlotCrosses(x: Inputs, i: nat, hour: int)
    requires Good(x) && x.start % MINUTE == 0 && hour % 60 == 0
    requires var first := FirstMinute(x) + i * x.config.slotMinutes;
             first < hour < first + x.config.slotMinutes
    ensures !WithinOneHour(SlotOf(x, i), x.zone)
  {
    hide SlotOf, FirstMinute;
    var first := FirstMinute(x) + i * x.config.slotMinutes;
    var s, t := SlotOf(x, i), (hour - x.zone) * MINUTE;
    DivideExact(hour - x.zone, MINUTE);
    SlotMinutesOf(x, i, t);
    HourOfMinute(hour);
    HourOfMinute(first);
    assert Contains(s, t);
    assert first / 60 + 1 == hour / 60;
    assert HourOf(t, x.zone) != HourOf(s.startAt, x.zone);
  }

  /** When the slot length divides 15 and the zone offset is a multiple of 15 minutes, the price sampled
      at the start of a slot holds throughout it. */
  lemma SampledPriceHolds(x: Inputs, i: nat, t: int)
    requires Good(x) && x.start % GRAIN == 0 && x.zone % 15 == 0 && 15 % x.config.slotMinutes == 0
    ensures Contains(SlotOf(x, i), t) ==> PriceAtHour(HourOf(t, x.zone), x.config.tariffs) == SlotOf(x, i).expectedPrice
  {
    hide SlotOf;
    QuarterStart(x);
    AlignedSlotWithinHour(x, i);
    SlotPrice(x, i);
  }

  lemma SlotPrice(x: Inputs, i: nat)
    requires Good(x)
    ensures SlotOf(x, i).expectedPrice == PriceAtHour(HourOf(SlotOf(x, i).startAt, x.zone), x.config.tariffs)
  {
  }

  /** A start on the quarter hour is on the grid of every slot length that divides 15. */
  lemma QuarterStart(x: Inputs)
    requires Sound(x.config)
    requires x.start % GRAIN == 0 && x.zone % 15 == 0 && 15 % x.config.slotMinutes == 0
    ensures x.start % MINUTE == 0 && FirstMinute(x) % x.config.slotMinutes == 0
  {
    var m, q, k, z := x.config.slotMinutes, 15 / x.config.slotMinutes, x.start / GRAIN, x.zone / 15;
    assert 15 == q * m;
    MultipleMod(k * 15, MINUTE);
    DivideExact(k * 15, MINUTE);
    assert FirstMinute(x) == k * 15 + z * 15;
    assert k * 15 + z * 15 == ((k + z) * q) * m;
    MultipleMod((k + z) * q, m);
  }
}
