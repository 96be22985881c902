/** What the planner reads and reports, in plain terms: rounding, defaults, complaints, prices, forecasts,
    the values a plan starts from and the columns of its slots. */
module PlanReports {
  import opened Model
  import opened Planner
  import opened PlanProperties

  // ----- Rounding -----

  /** The nearest integer; a tie goes away from zero. */
  lemma RoundIsNearest(v: real)
    ensures v >= 0.0 ==> Round(v) as real - 0.5 <= v < Round(v) as real + 0.5
    ensures v < 0.0 ==> Round(v) as real - 0.5 < v <= Round(v) as real + 0.5
  {
  }

  /** Whole hundredths, and no further off than half of one. */
  lemma Round2IsNearest(v: real)
    ensures (Round2(v) * 100.0).Floor as real == Round2(v) * 100.0
    ensures v - 0.005 <= Round2(v) <= v + 0.005
  {
    RoundIsNearest(v * 100.0);
    assert Round2(v) * 100.0 == Round(v * 100.0) as real;
  }

  lemma Round4IsNearest(v: real)
    ensures (Round4(v) * 10000.0).Floor as real == Round4(v) * 10000.0
    ensures v - 0.00005 <= Round4(v) <= v + 0.00005
  {
    RoundIsNearest(v * 10000.0);
    assert Round4(v) * 10000.0 == Round(v * 10000.0) as real;
  }

  lemma QuotientFits(a: nat, b: int)
    requires b > 0
    ensures 0 <= (a / b) * b <= a < (a / b) * b + b
  {
  }

  lemma SignsOfProduct(q: int, b: int)
    ensures (-q) * b == -(q * b)
    ensures q * Abs(b) == if b < 0 then -(q * b) else q * b
  {
  }

  /** Division as the program does it: the quotient is cut toward zero. */
  lemma TruncDivCutsTowardZero(a: int, b: int)
    requires b != 0
    ensures var r := a - TruncDiv(a, b) * b;
            -Abs(b) < r < Abs(b) && (r > 0 ==> a > 0) && (r < 0 ==> a < 0)
  {
    QuotientFits(Abs(a), Abs(b));
    TruncDivSign(a, b);
    CutIsSmall(a, Abs(b), (Abs(a) / Abs(b)) * Abs(b), TruncDiv(a, b) * b);
  }

  lemma CutIsSmall(a: int, width: int, product: int, back: int)
    requires 0 <= product <= Abs(a) < product + width && back == if a >= 0 then product else -product
    ensures -width < a - back < width && (a - back > 0 ==> a > 0) && (a - back < 0 ==> a < 0)
  {
  }

  /** Quotient times divisor has the sign of the dividend. */
  lemma TruncDivSign(a: int, b: int)
    requires b != 0
    ensures var product := (Abs(a) / Abs(b)) * Abs(b);
            TruncDiv(a, b) * b == if a >= 0 then product else -product
  {
    var q := Abs(a) / Abs(b);
    SignsOfProduct(q, b);
    assert TruncDiv(a, b) == if (a >= 0) == (b > 0) then q else -q;
  }

  // ----- Configuration -----

  /** Each field that is zero, and for the SOC bounds not given, takes its default; the others stay. */
  lemma DefaultsFillIn(c: Config)
    ensures var n := NormalizeConfig(c);
            && n.horizonHours == (if c.horizonHours != 0 then c.horizonHours else 24)
            && n.slotMinutes == (if c.slotMinutes != 0 then c.slotMinutes else 15)
            && n.capacityWh == (if c.capacityWh != 0.0 then c.capacityWh else 150.0)
            && n.powerLimitW == (if c.powerLimitW != 0.0 then c.powerLimitW else 50.0)
            && n.minSOC == (if c.minSOC != 0.0 || c.minSOCSet then c.minSOC else 0.25)
            && n.maxSOC == (if c.maxSOC != 0.0 || c.maxSOCSet then c.maxSOC else 0.90)
            && (c.tariffs != [] ==> n.tariffs == c.tariffs)
            && (c.tariffs == [] ==>
                  forall hour :: 0 <= hour < 24 ==> PriceAtHour(hour, n.tariffs) == DefaultPrice(hour))
  {
    if c.tariffs == [] {
      forall hour | 0 <= hour < 24
        ensures PriceAtHour(hour, DefaultTariffs()) == DefaultPrice(hour)
      {
        DefaultPrices(hour);
      }
    }
  }

  /** Valley at night, peak in the evening, flat otherwise. */
  function DefaultPrice(hour: int): real
  {
    if 0 <= hour < 7 then 0.32 else if 18 <= hour < 23 then 0.95 else 0.58
  }

  lemma DefaultPrices(hour: int)
    requires 0 <= hour < 24
    ensures PriceAtHour(hour, DefaultTariffs()) == DefaultPrice(hour)
  {
    var bands := DefaultTariffs();
    FirstBandDecides(hour, bands, if hour < 7 then 0 else if hour < 18 then 1 else if hour < 23 then 2 else 3);
  }

  predicate CoversHour(b: TariffBand, hour: int)
  {
    b.startHour <= hour && hour < b.endHour
  }

  /** The first band that covers the hour sets the price. */
  lemma {:induction false} FirstBandDecides(hour: int, bands: seq<TariffBand>, k: nat)
    requires k < |bands| && CoversHour(bands[k], hour) && forall j :: 0 <= j < k ==> !CoversHour(bands[j], hour)
    ensures PriceAtHour(hour, bands) == bands[k].price
    decreases k
  {
    if k > 0 {
      assert !CoversHour(bands[0], hour);
      forall j | 0 <= j < k - 1
        ensures !CoversHour(bands[1..][j], hour)
      {
        assert bands[1..][j] == bands[j + 1];
      }
      FirstBandDecides(hour, bands[1..], k - 1);
    }
  }

  /** An hour no band covers costs 0.58. */
  lemma {:induction false} UncoveredHourCosts(hour: int, bands: seq<TariffBand>)
    requires forall j :: 0 <= j < |bands| ==> !CoversHour(bands[j], hour)
    ensures PriceAtHour(hour, bands) == 0.58
    decreases |bands|
  {
    if bands != [] {
      assert !CoversHour(bands[0], hour);
      forall j | 0 <= j < |bands| - 1
        ensures !CoversHour(bands[1..][j], hour)
      {
        assert bands[1..][j] == bands[j + 1];
      }
      UncoveredHourCosts(hour, bands[1..]);
    }
  }

  predicate HoursInDay(b: TariffBand)
  {
    0 <= b.startHour <= 24 && 0 <= b.endHour <= 24
  }

  predicate WellFormed(b: TariffBand)
  {
    HoursInDay(b) && b.startHour < b.endHour && b.price >= 0.0
  }

  /** The fault a complaint names. */
  predicate IsAtFault(c: Config, e: ConfigError)
  {
    match e
    case BadHorizon => c.horizonHours < 0
    case BadSlotMinutes => c.slotMinutes < 0
    case SlotMinutesMustDivide60 => c.slotMinutes > 0 && 60 % c.slotMinutes != 0
    case BadCapacity => c.capacityWh < 0.0
    case BadPowerLimit => c.powerLimitW < 0.0
    case BadMinSOC => c.minSOC < 0.0 || c.minSOC > 1.0
    case BadMaxSOC => c.maxSOC < 0.0 || c.maxSOC > 1.0
    case SOCBoundsCrossed => c.minSOC > c.maxSOC || NormalizeConfig(c).minSOC > NormalizeConfig(c).maxSOC
    case BadBandHours(i) => i < |c.tariffs| && !HoursInDay(c.tariffs[i])
    case BadBandOrder(i) => i < |c.tariffs| && HoursInDay(c.tariffs[i])
                            && c.tariffs[i].startHour >= c.tariffs[i].endHour
    case BadBandPrice(i) => i < |c.tariffs| && HoursInDay(c.tariffs[i]) && c.tariffs[i].price < 0.0
  }

  /** A complaint is true, and a complaint about a band is about the first one that is not well formed. */
  lemma ComplaintIsTrue(c: Config)
    requires ValidateConfig(c).Some?
    ensures IsAtFault(c, ValidateConfig(c).value)
    ensures match ValidateConfig(c).value
            case BadBandHours(i) => forall k :: 0 <= k < i ==> WellFormed(c.tariffs[k])
            case BadBandOrder(i) => forall k :: 0 <= k < i ==> WellFormed(c.tariffs[k])
            case BadBandPrice(i) => forall k :: 0 <= k < i ==> WellFormed(c.tariffs[k])
            case _ => true
  {
    BandComplaint(c, 0);
  }

  lemma {:induction false} BandComplaint(c: Config, i: nat)
    requires i <= |c.tariffs|
    ensures match BandError(c.tariffs, i)
            case None => true
            case Some(e) =>
              && IsAtFault(c, e)
              && match e
                 case BadBandHours(j) => forall k :: i <= k < j ==> WellFormed(c.tariffs[k])
                 case BadBandOrder(j) => forall k :: i <= k < j ==> WellFormed(c.tariffs[k])
                 case BadBandPrice(j) => forall k :: i <= k < j ==> WellFormed(c.tariffs[k])
                 case _ => false
    decreases |c.tariffs| - i
  {
    if i < |c.tariffs| {
      BandComplaint(c, i + 1);
    }
  }

  // ----- What a plan starts from -----

  /** The last quarter hour before the instant. */
  lemma PlanStartsOnQuarterHour(now: int, zone: int, shape: int -> real, s: SiteSummary, c: Config)
    ensures var start := InputsOf(now, zone, shape, s, c).start;
            start % (900_000_000_000) == 0 && start <= now < start + 900_000_000_000
  {
    var q := now / GRAIN;
    assert now == q * GRAIN + now % GRAIN;
    MultipleMod(q, GRAIN);
  }

  /** The powers of the summary, but at least 20 W of sun and 30 W of load; the average SOC, a half if
      there is none, held within the bounds; and the configuration with its defaults. */
  lemma PlanStartsFromSummary(now: int, zone: int, shape: int -> real, s: SiteSummary, c: Config)
    ensures var x, n := InputsOf(now, zone, shape, s, c), NormalizeConfig(c);
            var soc := if s.avgSOC != 0.0 then s.avgSOC else 0.5;
            && x.zone == zone && x.shape == shape && x.config == n
            && x.currentPV == (if s.pvPowerW <= 20.0 then 20.0 else s.pvPowerW)
            && x.currentLoad == (if s.loadPowerW <= 30.0 then 30.0 else s.loadPowerW)
            && (soc < n.minSOC ==> x.initialSOC == n.minSOC)
            && (n.minSOC <= soc <= n.maxSOC ==> x.initialSOC == soc)
            && (n.minSOC <= n.maxSOC < soc ==> x.initialSOC == n.maxSOC)
  {
  }

  /** Horizon over slot length, cut; 96 slots if that leaves none. */
  lemma SlotCountIsQuotient(c: Config)
    requires c.slotMinutes != 0
    ensures var q := TruncDiv(c.horizonHours * 60, c.slotMinutes);
            (q > 0 ==> SlotCount(c) == q) && (q <= 0 ==> SlotCount(c) == 96)
  {
  }

  /** The local minute and hour: the local time of the instant lies within them, on some day. */
  lemma HourHoldsInstant(t: int, zone: int) returns (day: int)
    ensures 0 <= HourOf(t, zone) < 24
    ensures var minute := 1440 * day + MinuteOfDay(t, zone);
            minute * 60_000_000_000 <= t + zone * 60_000_000_000 < (minute + 1) * 60_000_000_000
    ensures var hour := 24 * day + HourOf(t, zone);
            hour * 3_600_000_000_000 <= t + zone * 60_000_000_000 < (hour + 1) * 3_600_000_000_000
  {
    var minute := t / MINUTE + zone;
    day := minute / 1440;
    assert minute == day * 1440 + MinuteOfDay(t, zone);
    assert t == (t / MINUTE) * MINUTE + t % MINUTE;
  }

  // ----- Forecasts -----

  /** No sun where the curve is not positive; otherwise today's power scaled by the curve. */
  lemma SunFollowsCurve(x: Inputs, t: int)
    ensures var shape := x.shape(MinuteOfDay(t, x.zone));
            && (shape <= 0.0 ==> ForecastPV(x, t) == 0.0)
            && (shape > 0.0 ==> ForecastPV(x, t) == shape * x.currentPV)
            && (x.currentPV >= 0.0 && shape <= 1.0 ==> 0.0 <= ForecastPV(x, t) <= x.currentPV)
  {
    var shape := x.shape(MinuteOfDay(t, x.zone));
    if shape > 0.0 && x.currentPV >= 0.0 && shape <= 1.0 {
      assert (1.0 - shape) * x.currentPV >= 0.0;
      assert (1.0 - shape) * x.currentPV == x.currentPV - shape * x.currentPV;
    }
  }

  /** A quarter less before 6, 15% more from 7 to 10, 35% more from 18 to 23, else today's load. */
  lemma LoadFollowsHour(x: Inputs, t: int)
    ensures var hour := HourOf(t, x.zone);
            && (0 <= hour < 6 ==> ForecastLoad(x, t) == x.currentLoad * 0.75)
            && (hour == 6 || 10 <= hour < 18 || hour == 23 ==> ForecastLoad(x, t) == x.currentLoad)
            && (7 <= hour < 10 ==> ForecastLoad(x, t) == x.currentLoad * 1.15)
            && (18 <= hour < 23 ==> ForecastLoad(x, t) == x.currentLoad * 1.35)
  {
  }

  // ----- Slots -----

  /** The columns of a slot: its span, the forecasts and the price at its start, the decision taken on
      them and on the SOC so far, and the SOC it leaves; quantities rounded, the price as it is. */
  lemma SlotReports(x: Inputs, i: nat)
    requires Runnable(x.config)
    ensures var s, c := SlotOf(x, i), x.config;
            var at := x.start + i * c.slotMinutes * 60_000_000_000;
            var pv, load := ForecastPV(x, at), ForecastLoad(x, at);
            var price := PriceAtHour(HourOf(at, x.zone), c.tariffs);
            var d := Decide(pv, load, price, SOCAt(x, i), c);
            && s.startAt == at && s.endAt == at + c.slotMinutes * 60_000_000_000
            && s.mode == d.mode && s.reason == d.reason && s.targetPowerW == Round2(d.targetW)
            && s.expectedPrice == price && s.forecastPVW == Round2(pv) && s.forecastLoadW == Round2(load)
            && s.netLoadW == Round2(load - pv) && s.forecastSOC == Round4(SOCAt(x, i + 1))
  {
  }

  /** Why a slot does what it does. */
  lemma ReasonIsTrue(pv: real, load: real, price: real, soc: real, c: Config)
    requires c.tariffs != []
    ensures var d := Decide(pv, load, price, soc, c);
            && (d.reason.PVSurplus? <==> d.mode.Charge? && Surplus(pv, load))
            && (d.reason.LowTariff? <==> d.mode.Charge? && !Surplus(pv, load))
            && (d.reason.PeakTariff? <==> d.mode.Discharge? && Dear(price, c) && load > pv)
            && (d.reason.ReduceNetLoad? <==> d.mode.Discharge? && !(Dear(price, c) && load > pv))
            && (d.reason.Balanced? <==> d.mode.Idle?)
  {
  }

  /** For every plan of an accepted configuration whose slot length divides 15, in a zone of whole quarter
      hours: the price of a slot holds throughout it. */
  lemma PlanPriceHolds(now: int, zone: int, shape: int -> real, s: SiteSummary, c: Config, i: nat, t: int)
    requires Accepted(c) && zone % 15 == 0 && 15 % NormalizeConfig(c).slotMinutes == 0
    requires i < SlotCount(NormalizeConfig(c))
    ensures var n := NormalizeConfig(c);
            var slot := SlotsOf(InputsOf(now, zone, shape, s, c), SlotCount(n))[i];
            slot.startAt <= t < slot.endAt ==> slot.expectedPrice == PriceAtHour(HourOf(t, zone), n.tariffs)
  {
    var x := InputsOf(now, zone, shape, s, c);
    AcceptedIsGood(now, zone, shape, s, c);
    PlanStartsOnQuarterHour(now, zone, shape, s, c);
    hide SlotOf, NormalizeConfig, SlotCount;
    SampledPriceHolds(x, i, t);
  }

  /** For every plan of an accepted configuration: no slot crosses a clock hour if and only if its first
      minute is a multiple of the slot length. */
  lemma NoPlanSlotCrossesHourIff(now: int, zone: int, shape: int -> real, s: SiteSummary, c: Config)
    requires Accepted(c)
    ensures var x := InputsOf(now, zone, shape, s, c);
            (forall i: nat :: i < SlotCount(x.config) ==> WithinOneHour(SlotOf(x, i), zone))
            <==> FirstMinute(x) % x.config.slotMinutes == 0
  {
    var x := InputsOf(now, zone, shape, s, c);
    AcceptedIsGood(now, zone, shape, s, c);
    PlanStartsOnQuarterHour(now, zone, shape, s, c);
    var q := x.start / GRAIN;
    assert x.start == (q * 15) * MINUTE;
    MultipleMod(q * 15, MINUTE);
    hide SlotOf, SlotCount;
    NoSlotCrossesHourIff(x);
  }
}
