/** The state store: registered devices and last telemetry under composite keys, the aggregate of a
    site, the per-site views, and the copy in Redis that a restart reads back. */
module StateStore {
  import opened Model
  import opened Strings

  /** The composite key: site, a NUL character, id. */
  function StateKey(siteID: string, id: string): string
  {
    siteID + "\0" + id
  }

  predicate NulFree(s: string)
  {
    '\0' !in s
  }

  /** For sites without NUL the key determines both parts, whatever characters the id holds. */
  lemma StateKeyInjective(s1: string, i1: string, s2: string, i2: string)
    requires NulFree(s1) && NulFree(s2)
    ensures StateKey(s1, i1) == StateKey(s2, i2) <==> s1 == s2 && i1 == i2
  {
    var k1, k2 := StateKey(s1, i1), StateKey(s2, i2);
    KeyShape(s1, i1);
    KeyShape(s2, i2);
    if k1 == k2 {
      assert |s1| >= |s2| by {
        assert k2[|s1|] == '\0';
      }
      assert |s2| >= |s1| by {
        assert k1[|s2|] == '\0';
      }
    }
  }

  /** The first NUL of a key is where the site ends. */
  lemma KeyShape(siteID: string, id: string)
    requires NulFree(siteID)
    ensures var k := StateKey(siteID, id);
            && |k| > |siteID| && k[|siteID|] == '\0'
            && (forall j :: 0 <= j < |siteID| ==> k[j] != '\0')
            && siteID == k[..|siteID|] && id == k[|siteID| + 1..]
  {
  }

  /** One site id continues the other after a NUL. */
  predicate Continues(s1: string, s2: string)
  {
    s1 + "\0" <= s2 || s2 + "\0" <= s1
  }

  lemma KeyTail(s1: string, i1: string, s2: string, i2: string)
    requires |s1| < |s2| && StateKey(s1, i1) == StateKey(s2, i2)
    ensures s1 + "\0" <= s2
  {
    var k := StateKey(s1, i1);
    assert k[..|s1| + 1] == s1 + "\0" && k[..|s2|] == s2;
    assert s2[..|s1| + 1] == k[..|s1| + 1];
  }

  /** Some keys of two sites collide if and only if the sites are the same or one continues the other
      after a NUL. */
  lemma KeysCollideIff(s1: string, s2: string)
    ensures (exists i1, i2 :: StateKey(s1, i1) == StateKey(s2, i2)) <==> s1 == s2 || Continues(s1, s2)
  {
    if i1, i2 :| StateKey(s1, i1) == StateKey(s2, i2) {
      if |s1| < |s2| {
        KeyTail(s1, i1, s2, i2);
      } else if |s2| < |s1| {
        KeyTail(s2, i2, s1, i1);
      } else {
        assert s1 == StateKey(s1, i1)[..|s1|] && s2 == StateKey(s2, i2)[..|s2|];
      }
    }
    if s1 + "\0" <= s2 {
      assert StateKey(s1, s2[|s1| + 1..] + "\0") == s2 + "\0" == StateKey(s2, "");
    } else if s2 + "\0" <= s1 {
      assert StateKey(s2, s1[|s2| + 1..] + "\0") == s1 + "\0" == StateKey(s1, "");
    } else if s1 == s2 {
      assert StateKey(s1, "") == StateKey(s2, "");
    }
  }

  /** Keys of two sites determine site and id, for all ids, if and only if neither site continues the
      other after a NUL. */
  lemma KeysAreInjectiveIff(s1: string, s2: string)
    ensures (forall i1, i2 :: StateKey(s1, i1) == StateKey(s2, i2) ==> s1 == s2 && i1 == i2) <==> !Continues(s1, s2)
  {
    KeysCollideIff(s1, s2);
    if s1 == s2 {
      assert |s1 + "\0"| > |s2|;
      forall i1, i2 | StateKey(s1, i1) == StateKey(s2, i2)
        ensures i1 == i2
      {
        assert i1 == StateKey(s1, i1)[|s1| + 1..] && i2 == StateKey(s2, i2)[|s2| + 1..];
      }
    }
  }

  type Registry = map<string, Device>
  type Readings = map<string, Telemetry>

  ghost predicate KeyedDevices(devices: Registry)
  {
    forall k :: k in devices ==> k == StateKey(devices[k].siteID, devices[k].id)
  }

  ghost predicate KeyedReadings(telemetry: Readings)
  {
    forall k :: k in telemetry ==> k == StateKey(telemetry[k].siteID, telemetry[k].deviceID)
  }

  // ----- Totals -----

  /** What the summary loop accumulates. */
  datatype Totals = Totals(pv: real, load: real, battery: real, socSum: real, socCount: int)

  const ZERO: Totals := Totals(0.0, 0.0, 0.0, 0.0, 0)

  function Plus(a: Totals, b: Totals): Totals
  {
    Totals(a.pv + b.pv, a.load + b.load, a.battery + b.battery, a.socSum + b.socSum, a.socCount + b.socCount)
  }

  lemma PlusSwap(a: Totals, b: Totals, c: Totals, d: Totals)
    ensures Plus(Plus(a, b), Plus(c, d)) == Plus(Plus(a, c), Plus(b, d))
    ensures Plus(Plus(a, b), c) == Plus(Plus(c, b), a)
    ensures Plus(Plus(a, b), c) == Plus(a, Plus(b, c)) == Plus(b, Plus(a, c))
    ensures Plus(a, b) == Plus(b, a) && Plus(a, ZERO) == a
  {
  }

  function Metric(t: Telemetry, name: string): real
  {
    if name in t.metrics then t.metrics[name] else 0.0
  }

  /** What one reading adds, for a registered device. */
  function Share(d: Device, t: Telemetry): Totals
  {
    var power := Metric(t, "power");
    match d.kind
    case PV => ZERO.(pv := power)
    case Load => ZERO.(load := power)
    case Battery => if "soc" in t.metrics then Totals(0.0, 0.0, power, t.metrics["soc"], 1) else ZERO.(battery := power)
    case Other(_) => ZERO
  }

  /** The reading belongs to a device registered at the site. */
  predicate Counts(devices: Registry, siteID: string, t: Telemetry)
  {
    var key := StateKey(t.siteID, t.deviceID);
    key in devices && devices[key].siteID == siteID
  }

  function Contribution(devices: Registry, siteID: string, t: Telemetry): Totals
  {
    if Counts(devices, siteID, t) then Share(devices[StateKey(t.siteID, t.deviceID)], t) else ZERO
  }

  function Contributions(devices: Registry, siteID: string, telemetry: Readings): map<string, Totals>
  {
    map k | k in telemetry :: Contribution(devices, siteID, telemetry[k])
  }

  /** The sum over a map, its entries taken in any order. */
  ghost function Sum(c: map<string, Totals>): Totals
    decreases |c|
  {
    if c == map[] then ZERO else
      var k :| k in c;
      CountWithout(c, k);
      Plus(c[k], Sum(c - {k}))
  }

  lemma CountWithout(c: map<string, Totals>, k: string)
    requires k in c
    ensures |c - {k}| < |c|
  {
    assert (c - {k}).Keys == c.Keys - {k};
    assert |c.Keys| == |c| && |(c - {k}).Keys| == |c - {k}|;
  }

  /** Any entry may be taken first: the sum does not depend on the order. */
  lemma {:induction false} SumFrom(c: map<string, Totals>, k: string)
    requires k in c
    ensures Sum(c) == Plus(c[k], Sum(c - {k}))
    decreases |c|
  {
    var p :| p in c && Sum(c) == Plus(c[p], Sum(c - {p}));
    if p != k {
      CountWithout(c, p);
      CountWithout(c, k);
      SumFrom(c - {p}, k);
      SumFrom(c - {k}, p);
      var rest := c - {p} - {k};
      assert rest == c - {k} - {p};
      PlusSwap(c[p], c[k], Sum(rest), ZERO);
    }
  }

  lemma SumOfNothing()
    ensures Sum(map[]) == ZERO
  {
  }

  /** Replacing one entry changes the sum by exactly new minus old. */
  lemma SumUpdate(c: map<string, Totals>, k: string, v: Totals)
    ensures Plus(Sum(c[k := v]), if k in c then c[k] else ZERO) == Plus(Sum(c), v)
  {
    hide Sum, Plus;
    var rest := c - {k};
    SumFrom(c[k := v], k);
    assert c[k := v] - {k} == rest;
    PlusSwap(v, Sum(rest), if k in c then c[k] else ZERO, ZERO);
    if k in c {
      SumFrom(c, k);
      assert Sum(c) == Plus(c[k], Sum(rest));
    } else {
      assert rest == c;
      PlusSwap(ZERO, Sum(c), ZERO, ZERO);
      PlusSwap(Sum(c), v, ZERO, ZERO);
      PlusSwap(Plus(v, Sum(rest)), ZERO, ZERO, ZERO);
    }
  }

  ghost predicate Pointwise(c: map<string, Totals>, a: map<string, Totals>, b: map<string, Totals>)
  {
    c.Keys == a.Keys == b.Keys && forall k :: k in c ==> c[k] == Plus(a[k], b[k])
  }

  lemma {:induction false} SumPointwise(c: map<string, Totals>, a: map<string, Totals>, b: map<string, Totals>)
    requires Pointwise(c, a, b)
    ensures Sum(c) == Plus(Sum(a), Sum(b))
    decreases |c|
  {
    hide Sum, Plus;
    if c == map[] {
      assert a == map[] && b == map[];
      SumOfNothing();
      PlusSwap(ZERO, ZERO, ZERO, ZERO);
    } else {
      var k :| k in c;
      assert k in a.Keys && k in b.Keys;
      CountWithout(c, k);
      SumFrom(c, k);
      SumFrom(a, k);
      SumFrom(b, k);
      assert Pointwise(c - {k}, a - {k}, b - {k});
      SumPointwise(c - {k}, a - {k}, b - {k});
      PlusSwap(a[k], b[k], Sum(a - {k}), Sum(b - {k}));
    }
  }

  lemma {:induction false} SumOfZeros(c: map<string, Totals>)
    requires forall k :: k in c ==> c[k] == ZERO
    ensures Sum(c) == ZERO
    decreases |c|
  {
    if c != map[] {
      var k :| k in c;
      CountWithout(c, k);
      SumFrom(c, k);
      SumOfZeros(c - {k});
    }
  }

  // ----- The summary -----

  /** The earliest instant a time value starts from, in seconds since 1970. */
  const ZERO_TIME: int := -62135596800

  function Summarize(siteID: string, t: Totals, lastUpdated: int): SiteSummary
  {
    SiteSummary(siteID, t.pv, t.load, t.battery, t.load - t.pv - t.battery,
                if t.socCount > 0 then t.socSum / t.socCount as real else 0.0, lastUpdated)
  }

  /** The latest timestamp counted, or the zero time. */
  ghost predicate IsLatest(devices: Registry, siteID: string, telemetry: Readings, last: int)
  {
    && last >= ZERO_TIME
    && (forall k :: k in telemetry && Counts(devices, siteID, telemetry[k]) ==> telemetry[k].timestamp <= last)
    && (last == ZERO_TIME
        || exists k :: k in telemetry && Counts(devices, siteID, telemetry[k]) && telemetry[k].timestamp == last)
  }

  /** There is only one latest timestamp, so the whole summary is determined by the store's contents. */
  lemma LatestIsUnique(devices: Registry, siteID: string, telemetry: Readings, a: int, b: int)
    requires IsLatest(devices, siteID, telemetry, a) && IsLatest(devices, siteID, telemetry, b)
    ensures a == b
  {
  }

  lemma LatestGrows(devices: Registry, siteID: string, seen: Readings, key: string, t: Telemetry, last: int, next: int)
    requires IsLatest(devices, siteID, seen, last) && key !in seen
    requires next == if Counts(devices, siteID, t) && t.timestamp > last then t.timestamp else last
    ensures IsLatest(devices, siteID, seen[key := t], next)
  {
    var grown := seen[key := t];
    if next != last {
      assert grown[key].timestamp == next;
    } else if last != ZERO_TIME {
      var k :| k in seen && Counts(devices, siteID, seen[k]) && seen[k].timestamp == last;
      assert grown[k].timestamp == last;
    }
  }

  function Only(c: map<string, Totals>, keys: set<string>): map<string, Totals>
  {
    map k | k in c && k in keys :: c[k]
  }

  /** PutTelemetry changes a site's totals by exactly the new contribution minus the old one. */
  lemma PutChangesTotals(devices: Registry, siteID: string, telemetry: Readings, key: string, t: Telemetry)
    ensures var before := if key in telemetry then Contribution(devices, siteID, telemetry[key]) else ZERO;
            Plus(Sum(Contributions(devices, siteID, telemetry[key := t])), before)
            == Plus(Sum(Contributions(devices, siteID, telemetry)), Contribution(devices, siteID, t))
  {
    hide Sum, Contribution;
    var c := Contributions(devices, siteID, telemetry);
    SumUpdate(c, key, Contribution(devices, siteID, t));
    assert Contributions(devices, siteID, telemetry[key := t]) == c[key := Contribution(devices, siteID, t)];
  }

  /** Contributions of every site in the set at once. */
  function ContributionsOf(devices: Registry, sites: set<string>, telemetry: Readings): map<string, Totals>
  {
    map k | k in telemetry ::
      var key := StateKey(telemetry[k].siteID, telemetry[k].deviceID);
      if key in devices && devices[key].siteID in sites then Share(devices[key], telemetry[k]) else ZERO
  }

  ghost function SumOverSites(devices: Registry, sites: set<string>, telemetry: Readings): Totals
  {
    if sites == {} then ZERO else
      var s :| s in sites;
      Plus(Sum(Contributions(devices, s, telemetry)), SumOverSites(devices, sites - {s}, telemetry))
  }

  /** The totals of several sites add up to the total over the readings registered at any of them. */
  lemma {:induction false} SitesAddUp(devices: Registry, sites: set<string>, telemetry: Readings)
    ensures SumOverSites(devices, sites, telemetry) == Sum(ContributionsOf(devices, sites, telemetry))
  {
    hide Sum, Plus, Share, StateKey;
    if sites == {} {
      SumOfZeros(ContributionsOf(devices, sites, telemetry));
    } else {
      var s :| s in sites && SumOverSites(devices, sites, telemetry)
               == Plus(Sum(Contributions(devices, s, telemetry)), SumOverSites(devices, sites - {s}, telemetry));
      SitesAddUp(devices, sites - {s}, telemetry);
      OneSiteMore(devices, sites, s, telemetry);
      SumPointwise(ContributionsOf(devices, sites, telemetry), Contributions(devices, s, telemetry),
                   ContributionsOf(devices, sites - {s}, telemetry));
    }
  }

  /** A reading counts for one site only. */
  lemma OneSiteMore(devices: Registry, sites: set<string>, s: string, telemetry: Readings)
    requires s in sites
    ensures Pointwise(ContributionsOf(devices, sites, telemetry), Contributions(devices, s, telemetry),
                      ContributionsOf(devices, sites - {s}, telemetry))
  {
    var one, rest := Contributions(devices, s, telemetry), ContributionsOf(devices, sites - {s}, telemetry);
    hide Plus, Share;
    forall k | k in telemetry
      ensures ContributionsOf(devices, sites, telemetry)[k] == Plus(one[k], rest[k])
    {
      PlusSwap(one[k], rest[k], ZERO, ZERO);
      PlusSwap(rest[k], one[k], ZERO, ZERO);
    }
  }

  /** Every registered reading, whatever its site. */
  function RegisteredContributions(devices: Registry, telemetry: Readings): map<string, Totals>
  {
    map k | k in telemetry ::
      var key := StateKey(telemetry[k].siteID, telemetry[k].deviceID);
      if key in devices then Share(devices[key], telemetry[k]) else ZERO
  }

  /** Totals over all sites equal the total over registered telemetry: nothing is counted twice or lost. */
  lemma AllSitesAddUp(devices: Registry, sites: set<string>, telemetry: Readings)
    requires forall k :: k in devices ==> devices[k].siteID in sites
    ensures SumOverSites(devices, sites, telemetry) == Sum(RegisteredContributions(devices, telemetry))
  {
    hide Share, Sum, SumOverSites, Plus;
    SitesAddUp(devices, sites, telemetry);
    assert ContributionsOf(devices, sites, telemetry) == RegisteredContributions(devices, telemetry);
  }

  /** Every SOC in the map lies between the bounds, and counts once. */
  ghost predicate SOCsWithin(c: map<string, Totals>, lo: real, hi: real)
  {
    forall k :: k in c ==> (c[k].socCount == 0 && c[k].socSum == 0.0) || (c[k].socCount == 1 && lo <= c[k].socSum <= hi)
  }

  /** The SOCs counted in the totals average between the bounds. */
  ghost predicate AverageIsWithin(t: Totals, lo: real, hi: real)
  {
    t.socCount >= 0 && lo * t.socCount as real <= t.socSum <= hi * t.socCount as real
  }

  lemma OneMoreWithin(a: Totals, b: Totals, lo: real, hi: real)
    requires (a.socCount == 0 && a.socSum == 0.0) || (a.socCount == 1 && lo <= a.socSum <= hi)
    requires AverageIsWithin(b, lo, hi)
    ensures AverageIsWithin(Plus(a, b), lo, hi)
  {
    var n := b.socCount as real;
    assert lo * (1.0 + n) == lo + lo * n && hi * (1.0 + n) == hi + hi * n;
  }

  lemma {:induction false} SOCSumWithin(c: map<string, Totals>, lo: real, hi: real)
    requires SOCsWithin(c, lo, hi)
    ensures AverageIsWithin(Sum(c), lo, hi)
    decreases |c|
  {
    if c != map[] {
      hide Sum, Plus, AverageIsWithin;
      var k :| k in c;
      CountWithout(c, k);
      SumFrom(c, k);
      SOCSumWithin(c - {k}, lo, hi);
      OneMoreWithin(c[k], Sum(c - {k}), lo, hi);
    }
  }

  lemma AverageWithin(sum: real, n: int, lo: real, hi: real)
    requires n > 0 && lo * n as real <= sum <= hi * n as real
    ensures lo <= sum / n as real <= hi
  {
    var avg := sum / n as real;
    assert avg * n as real == sum;
    assert (avg - lo) * n as real >= 0.0 && (hi - avg) * n as real >= 0.0;
  }

  /** The average SOC lies between the smallest and the largest SOC reported by the site's batteries. */
  lemma AvgSOCWithinReported(devices: Registry, siteID: string, telemetry: Readings,
                             lastUpdated: int, lo: real, hi: real)
    requires forall k :: k in telemetry && Counts(devices, siteID, telemetry[k]) && "soc" in telemetry[k].metrics
                         && devices[StateKey(telemetry[k].siteID, telemetry[k].deviceID)].kind == Battery
                         ==> lo <= telemetry[k].metrics["soc"] <= hi
    ensures var t := Sum(Contributions(devices, siteID, telemetry));
            t.socCount > 0 ==> lo <= Summarize(siteID, t, lastUpdated).avgSOC <= hi
  {
    hide Sum;
    var c := Contributions(devices, siteID, telemetry);
    assert SOCsWithin(c, lo, hi);
    SOCSumWithin(c, lo, hi);
    if Sum(c).socCount > 0 {
      AverageWithin(Sum(c).socSum, Sum(c).socCount, lo, hi);
    }
  }

  // ----- The summary in the terms of the readings -----

  /** The sum of some numbers. */
  ghost function Total(m: map<string, real>): real
    decreases |m|
  {
    if m == map[] then 0.0 else
      var k :| k in m;
      assert (m - {k}).Keys == m.Keys - {k} && |m.Keys| == |m| && |(m - {k}).Keys| == |m - {k}|;
      m[k] + Total(m - {k})
  }

  lemma {:induction false} TotalFrom(m: map<string, real>, k: string)
    requires k in m
    ensures Total(m) == m[k] + Total(m - {k})
    decreases |m|
  {
    var p :| p in m && Total(m) == m[p] + Total(m - {p});
    if p != k {
      assert (m - {p}).Keys == m.Keys - {p} && |m.Keys| == |m| && |(m - {p}).Keys| == |m - {p}|;
      assert (m - {k}).Keys == m.Keys - {k} && |(m - {k}).Keys| == |m - {k}|;
      TotalFrom(m - {p}, k);
      TotalFrom(m - {k}, p);
      assert m - {p} - {k} == m - {k} - {p};
    }
  }

  /** The reading of a device of that type registered at the site. */
  predicate IsReadingOf(devices: Registry, siteID: string, t: Telemetry, kind: DeviceType)
  {
    var key := StateKey(t.siteID, t.deviceID);
    key in devices && devices[key].siteID == siteID && devices[key].kind == kind
  }

  /** The reported powers of the site's devices of one type; a reading without power counts as 0. */
  ghost function Powers(devices: Registry, siteID: string, telemetry: Readings, kind: DeviceType): map<string, real>
  {
    map k | k in telemetry && IsReadingOf(devices, siteID, telemetry[k], kind) ::
      if "power" in telemetry[k].metrics then telemetry[k].metrics["power"] else 0.0
  }

  /** The states of charge that the site's batteries report. */
  ghost function SOCs(devices: Registry, siteID: string, telemetry: Readings): map<string, real>
  {
    map k | k in telemetry && IsReadingOf(devices, siteID, telemetry[k], Battery) && "soc" in telemetry[k].metrics ::
      telemetry[k].metrics["soc"]
  }

  /** A summary of the site, in terms of what its devices report. */
  ghost predicate Summarizes(s: SiteSummary, devices: Registry, siteID: string, telemetry: Readings)
  {
    var socs := SOCs(devices, siteID, telemetry);
    && s.siteID == siteID
    && s.pvPowerW == Total(Powers(devices, siteID, telemetry, PV))
    && s.loadPowerW == Total(Powers(devices, siteID, telemetry, Load))
    && s.batteryPower == Total(Powers(devices, siteID, telemetry, Battery))
    && s.netPowerW == s.loadPowerW - s.pvPowerW - s.batteryPower
    && s.avgSOC == (if socs == map[] then 0.0 else Total(socs) / |socs| as real)
    && IsLatest(devices, siteID, telemetry, s.lastUpdated)
  }

  /** The totals are those sums. */
  ghost predicate TotalsAre(t: Totals, devices: Registry, siteID: string, telemetry: Readings)
  {
    && t.pv == Total(Powers(devices, siteID, telemetry, PV))
    && t.load == Total(Powers(devices, siteID, telemetry, Load))
    && t.battery == Total(Powers(devices, siteID, telemetry, Battery))
    && t.socSum == Total(SOCs(devices, siteID, telemetry))
    && t.socCount == |SOCs(devices, siteID, telemetry)|
  }

  lemma EntryTaken(all: map<string, real>, rest: map<string, real>, k: string)
    requires rest == all - {k}
    ensures Total(all) == Total(rest) + (if k in all then all[k] else 0.0)
    ensures |all| == |rest| + if k in all then 1 else 0
  {
    hide Total;
    if k in all {
      TotalFrom(all, k);
      assert (all - {k}).Keys == all.Keys - {k} && |all.Keys| == |all| && |(all - {k}).Keys| == |all - {k}|;
    } else {
      assert all - {k} == all;
    }
  }

  function PowerPart(devices: Registry, siteID: string, t: Telemetry, kind: DeviceType): real
  {
    if IsReadingOf(devices, siteID, t, kind) && "power" in t.metrics then t.metrics["power"] else 0.0
  }

  predicate ReportsSOC(devices: Registry, siteID: string, t: Telemetry)
  {
    IsReadingOf(devices, siteID, t, Battery) && "soc" in t.metrics
  }

  /** What one reading adds to which sum. */
  lemma ContributionParts(devices: Registry, siteID: string, t: Telemetry)
    ensures var c := Contribution(devices, siteID, t);
            && c.pv == PowerPart(devices, siteID, t, PV) && c.load == PowerPart(devices, siteID, t, Load)
            && c.battery == PowerPart(devices, siteID, t, Battery)
            && c.socSum == (if ReportsSOC(devices, siteID, t) then t.metrics["soc"] else 0.0)
            && c.socCount == if ReportsSOC(devices, siteID, t) then 1 else 0
  {
    hide StateKey;
  }

  lemma PowersOfRest(devices: Registry, siteID: string, telemetry: Readings, kind: DeviceType, k: string)
    ensures Powers(devices, siteID, telemetry - {k}, kind) == Powers(devices, siteID, telemetry, kind) - {k}
  {
    hide IsReadingOf;
  }

  lemma PowersEntry(devices: Registry, siteID: string, telemetry: Readings, kind: DeviceType, k: string)
    requires k in telemetry
    ensures var all := Powers(devices, siteID, telemetry, kind);
            PowerPart(devices, siteID, telemetry[k], kind) == if k in all then all[k] else 0.0
  {
    hide StateKey;
  }

  lemma PowersNext(devices: Registry, siteID: string, telemetry: Readings, kind: DeviceType, k: string)
    requires k in telemetry
    ensures Total(Powers(devices, siteID, telemetry, kind))
            == PowerPart(devices, siteID, telemetry[k], kind) + Total(Powers(devices, siteID, telemetry - {k}, kind))
  {
    hide Powers, Total, PowerPart;
    PowersOfRest(devices, siteID, telemetry, kind, k);
    PowersEntry(devices, siteID, telemetry, kind, k);
    EntryTaken(Powers(devices, siteID, telemetry, kind), Powers(devices, siteID, telemetry - {k}, kind), k);
  }

  lemma SOCsOfRest(devices: Registry, siteID: string, telemetry: Readings, k: string)
    ensures SOCs(devices, siteID, telemetry - {k}) == SOCs(devices, siteID, telemetry) - {k}
  {
    hide IsReadingOf;
  }

  lemma SOCsEntry(devices: Registry, siteID: string, telemetry: Readings, k: string)
    requires k in telemetry
    ensures var all := SOCs(devices, siteID, telemetry);
            && (k in all <==> ReportsSOC(devices, siteID, telemetry[k]))
            && (k in all ==> all[k] == telemetry[k].metrics["soc"])
  {
    hide StateKey;
  }

  lemma SOCsNext(devices: Registry, siteID: string, telemetry: Readings, k: string)
    requires k in telemetry
    ensures var all, rest := SOCs(devices, siteID, telemetry), SOCs(devices, siteID, telemetry - {k});
            var own := ReportsSOC(devices, siteID, telemetry[k]);
            && Total(all) == (if own then telemetry[k].metrics["soc"] else 0.0) + Total(rest)
            && |all| == |rest| + if own then 1 else 0
  {
    hide SOCs, Total, IsReadingOf;
    SOCsOfRest(devices, siteID, telemetry, k);
    SOCsEntry(devices, siteID, telemetry, k);
    EntryTaken(SOCs(devices, siteID, telemetry), SOCs(devices, siteID, telemetry - {k}), k);
  }

  /** One reading more. */
  lemma TotalsNext(t: Totals, devices: Registry, siteID: string, telemetry: Readings, k: string)
    requires k in telemetry && TotalsAre(t, devices, siteID, telemetry - {k})
    ensures TotalsAre(Plus(Contribution(devices, siteID, telemetry[k]), t), devices, siteID, telemetry)
  {
    hide Total, Contribution, Powers, SOCs, PowerPart, ReportsSOC;
    ContributionParts(devices, siteID, telemetry[k]);
    PowersNext(devices, siteID, telemetry, PV, k);
    PowersNext(devices, siteID, telemetry, Load, k);
    PowersNext(devices, siteID, telemetry, Battery, k);
    SOCsNext(devices, siteID, telemetry, k);
  }

  lemma ContributionsOfRest(devices: Registry, siteID: string, telemetry: Readings, k: string)
    ensures Contributions(devices, siteID, telemetry - {k}) == Contributions(devices, siteID, telemetry) - {k}
  {
    hide Contribution;
  }

  lemma {:induction false} SumIsTotals(devices: Registry, siteID: string, telemetry: Readings)
    ensures TotalsAre(Sum(Contributions(devices, siteID, telemetry)), devices, siteID, telemetry)
    decreases |telemetry|
  {
    if telemetry == map[] {
      assert Contributions(devices, siteID, telemetry) == map[];
      SumOfNothing();
    } else {
      var k :| k in telemetry;
      var rest := telemetry - {k};
      assert rest.Keys == telemetry.Keys - {k} && |telemetry.Keys| == |telemetry| && |rest.Keys| == |rest|;
      SumFrom(Contributions(devices, siteID, telemetry), k);
      ContributionsOfRest(devices, siteID, telemetry, k);
      hide Sum, Contribution, Plus, TotalsAre;
      SumIsTotals(devices, siteID, rest);
      TotalsNext(Sum(Contributions(devices, siteID, rest)), devices, siteID, telemetry, k);
    }
  }

  /** What Summarize makes of the totals is the summary of the site. */
  lemma SummaryIsOfReadings(devices: Registry, siteID: string, telemetry: Readings, lastUpdated: int)
    requires IsLatest(devices, siteID, telemetry, lastUpdated)
    ensures Summarizes(Summarize(siteID, Sum(Contributions(devices, siteID, telemetry)), lastUpdated),
                       devices, siteID, telemetry)
  {
    SumIsTotals(devices, siteID, telemetry);
    hide Sum, Total, Contributions, Powers, IsLatest;
    assert |SOCs(devices, siteID, telemetry)| == 0 <==> SOCs(devices, siteID, telemetry) == map[];
  }

  // ----- Looking devices up -----

  /** The key is the only one whose device carries the id. */
  ghost predicate IsOnly(devices: Registry, id: string, key: string)
  {
    key in devices && devices[key].id == id && forall k :: k in devices && devices[k].id == id ==> k == key
  }

  /** The device with that id, when exactly one site has it. */
  ghost function UniqueByID(devices: Registry, id: string): Option<Device>
  {
    if exists key :: IsOnly(devices, id, key) then
      var key :| IsOnly(devices, id, key);
      Some(devices[key])
    else None
  }

  /** The site a reading is filed under. */
  ghost function ResolveSite(devices: Registry, ownSite: string, t: Telemetry): string
  {
    if t.siteID != "" then t.siteID
    else match UniqueByID(devices, t.deviceID)
      case Some(d) => d.siteID
      case None => ownSite
  }

  /** A reading that names its site stays there; otherwise the one device with its id decides, and
      without one the store's own site. */
  lemma ResolveSiteIs(devices: Registry, ownSite: string, t: Telemetry, key: string)
    ensures t.siteID != "" ==> ResolveSite(devices, ownSite, t) == t.siteID
    ensures t.siteID == "" && IsOnly(devices, t.deviceID, key) ==>
              ResolveSite(devices, ownSite, t) == devices[key].siteID
    ensures t.siteID == "" && (forall k :: !IsOnly(devices, t.deviceID, k)) ==>
              ResolveSite(devices, ownSite, t) == ownSite
  {
  }

  /** A device is found by id exactly when it is the only one that carries it. */
  lemma UniqueByIDIs(devices: Registry, id: string)
    ensures UniqueByID(devices, id).None? <==> forall k :: !IsOnly(devices, id, k)
    ensures forall k :: IsOnly(devices, id, k) ==> UniqueByID(devices, id) == Some(devices[k])
  {
  }

  // ----- Per-site views -----

  /** One (site, id) map behind all the views. */
  ghost function ByPair(telemetry: Readings, siteID: string, id: string): Option<Telemetry>
  {
    if exists k :: k in telemetry && telemetry[k].siteID == siteID && telemetry[k].deviceID == id then
      var k :| k in telemetry && telemetry[k].siteID == siteID && telemetry[k].deviceID == id;
      Some(telemetry[k])
    else None
  }

  ghost function DeviceByPair(devices: Registry, siteID: string, id: string): Option<Device>
  {
    if exists k :: k in devices && devices[k].siteID == siteID && devices[k].id == id then
      var k :| k in devices && devices[k].siteID == siteID && devices[k].id == id;
      Some(devices[k])
    else None
  }

  function Lookup<V>(m: map<string, V>, key: string): Option<V>
  {
    if key in m then Some(m[key]) else None
  }

  /** No key of the store's other sites can be a key of this site. */
  ghost predicate SitesApart(devices: Registry, telemetry: Readings, siteID: string)
  {
    && (forall k :: k in devices ==> !Continues(devices[k].siteID, siteID))
    && (forall k :: k in telemetry ==> !Continues(telemetry[k].siteID, siteID))
  }

  /** Sites without NUL are always apart. */
  lemma NulFreeSitesAreApart(devices: Registry, telemetry: Readings, siteID: string)
    requires forall k :: k in devices ==> NulFree(devices[k].siteID)
    requires forall k :: k in telemetry ==> NulFree(telemetry[k].siteID)
    requires NulFree(siteID)
    ensures SitesApart(devices, telemetry, siteID)
  {
    forall s: string | NulFree(s)
      ensures !Continues(s, siteID)
    {
      NulFreeIsApart(s, siteID);
    }
  }

  lemma NulFreeIsApart(s1: string, s2: string)
    requires NulFree(s1) && NulFree(s2)
    ensures !Continues(s1, s2)
  {
    if s1 + "\0" <= s2 {
      ContinuationHasNul(s1, s2);
    } else if s2 + "\0" <= s1 {
      ContinuationHasNul(s2, s1);
    }
  }

  lemma ContinuationHasNul(s1: string, s2: string)
    requires s1 + "\0" <= s2
    ensures !NulFree(s2)
  {
    assert s2[|s1|] == (s1 + "\0")[|s1|];
  }

  /** A lookup by key and a search by (site, id) find the same reading and the same device. */
  lemma LookupIsByPair(devices: Registry, telemetry: Readings, siteID: string, id: string)
    requires KeyedDevices(devices) && KeyedReadings(telemetry) && SitesApart(devices, telemetry, siteID)
    ensures Lookup(telemetry, StateKey(siteID, id)) == ByPair(telemetry, siteID, id)
    ensures Lookup(devices, StateKey(siteID, id)) == DeviceByPair(devices, siteID, id)
  {
    var key := StateKey(siteID, id);
    if key in telemetry {
      KeysAreInjectiveIff(telemetry[key].siteID, siteID);
    }
    if key in devices {
      KeysAreInjectiveIff(devices[key].siteID, siteID);
    }
  }

  /** The state of one device as DeviceStates reports it; times in nanoseconds since 1970. */
  datatype RuntimeState = RuntimeState(device: Device, telemetry: Option<Telemetry>, online: bool, staleForSec: int)

  const SECOND: int := 1_000_000_000

  function StateOf(d: Device, t: Option<Telemetry>, now: int, onlineTTL: int): RuntimeState
  {
    match t
    case None => RuntimeState(d, None, false, 0)
    case Some(tele) =>
      if tele.timestamp == ZERO_TIME then RuntimeState(d, t, false, 0)
      else
        var age := now - tele.timestamp * SECOND;
        var stale := if age < 0 then 0 else age;
        RuntimeState(d, t, stale <= onlineTTL, stale / SECOND)
  }

  /** What the listing says of a device: it is online when its last reading has a time and is no older
      than the TTL, a reading from the future counting as fresh; its age is given in whole seconds. */
  ghost predicate IsStateOf(s: RuntimeState, d: Device, t: Option<Telemetry>, now: int, onlineTTL: int)
  {
    && s.device == d && s.telemetry == t
    && if t.None? || t.value.timestamp == ZERO_TIME then !s.online && s.staleForSec == 0
       else
         var seen := t.value.timestamp * 1_000_000_000;
         && (s.online <==> now - seen <= onlineTTL && 0 <= onlineTTL)
         && (now < seen ==> s.staleForSec == 0)
         && (seen <= now ==> s.staleForSec * 1_000_000_000 <= now - seen < (s.staleForSec + 1) * 1_000_000_000)
  }

  lemma StateOfIs(s: RuntimeState, d: Device, t: Option<Telemetry>, now: int, onlineTTL: int)
    ensures IsStateOf(s, d, t, now, onlineTTL) <==> s == StateOf(d, t, now, onlineTTL)
  {
  }

  /** The names the types are sorted by. */
  lemma KindNames(name: string)
    ensures KindName(PV) == "pv" && KindName(Battery) == "battery" && KindName(Load) == "load"
            && KindName(Other(name)) == name
  {
  }

  /** In a sorted listing types never go back, and within a type ids grow. */
  lemma SortedMeans(listed: seq<Device>, i: nat, j: nat)
    requires Sorted(listed) && i < j < |listed|
    ensures KindName(listed[i].kind) == KindName(listed[j].kind)
            || Less(KindName(listed[i].kind), KindName(listed[j].kind))
    ensures KindName(listed[i].kind) == KindName(listed[j].kind) ==> Less(listed[i].id, listed[j].id)
  {
    assert Before(listed[i], listed[j]);
  }

  function KindName(kind: DeviceType): string
  {
    match kind
    case PV => "pv"
    case Battery => "battery"
    case Load => "load"
    case Other(name) => name
  }

  /** The order of the listing: by type, then by id. */
  predicate Before(a: Device, b: Device)
  {
    if KindName(a.kind) == KindName(b.kind) then Less(a.id, b.id) else Less(KindName(a.kind), KindName(b.kind))
  }

  lemma BeforeIsTotal(a: Device, b: Device)
    ensures a.id != b.id ==> Before(a, b) || Before(b, a)
    ensures !(Before(a, b) && Before(b, a)) && !Before(a, a)
  {
    LessIsTotal(a.id, b.id);
    LessIsTotal(KindName(a.kind), KindName(b.kind));
  }

  lemma BeforeIsTransitive(a: Device, b: Device, c: Device)
    requires Before(a, b) && Before(b, c)
    ensures Before(a, c)
  {
    var ka, kb, kc := KindName(a.kind), KindName(b.kind), KindName(c.kind);
    LessIsTotal(ka, kb);
    if ka == kb && kb == kc {
      LessIsTransitive(a.id, b.id, c.id);
    } else if ka != kb && kb != kc {
      LessIsTransitive(ka, kb, kc);
    }
  }

  ghost predicate Sorted(listed: seq<Device>)
  {
    forall i, j :: 0 <= i < j < |listed| ==> Before(listed[i], listed[j])
  }

  /** Where the device goes in a sorted list. */
  function Position(listed: seq<Device>, d: Device): (p: nat)
    ensures p <= |listed|
    ensures forall i :: 0 <= i < p ==> !Before(d, listed[i])
    ensures p < |listed| ==> Before(d, listed[p])
  {
    if listed == [] || Before(d, listed[0]) then 0 else 1 + Position(listed[1..], d)
  }

  function InsertAt<T>(s: seq<T>, p: nat, x: T): seq<T>
    requires p <= |s|
  {
    s[..p] + [x] + s[p..]
  }

  lemma InsertSorts(listed: seq<Device>, d: Device)
    requires Sorted(listed) && forall e :: e in listed ==> e.id != d.id
    ensures Sorted(InsertAt(listed, Position(listed, d), d))
  {
    var p := Position(listed, d);
    hide Before;
    forall i | 0 <= i < |listed|
      ensures if i < p then Before(listed[i], d) else Before(d, listed[i])
    {
      assert listed[i] in listed;
      if i < p {
        BeforeIsTotal(listed[i], d);
      } else if i > p {
        BeforeIsTransitive(d, listed[p], listed[i]);
      }
    }
  }

  /** There is only one sorted list of some devices. */
  lemma {:induction false} SortedIsUnique(a: seq<Device>, b: seq<Device>)
    requires Sorted(a) && Sorted(b) && forall d :: d in a <==> d in b
    ensures a == b
    decreases |a|
  {
    if a != [] || b != [] {
      assert a != [] ==> a[0] in b;
      assert b != [] ==> b[0] in a;
      BeforeIsTotal(a[0], b[0]);
      assert a[0] == b[0];
      TailIsRest(a);
      TailIsRest(b);
      SortedIsUnique(a[1..], b[1..]);
    }
  }

  lemma TailIsRest(a: seq<Device>)
    requires Sorted(a) && a != []
    ensures forall d :: d in a[1..] <==> d in a && d != a[0]
  {
    BeforeIsTotal(a[0], a[0]);
    assert a == [a[0]] + a[1..];
  }

  /** The site's devices among the seen keys, each once. */
  ghost predicate Enumerates(listed: seq<Device>, devices: Registry, seen: set<string>, siteID: string)
  {
    forall d :: d in listed <==> exists k :: k in seen && k in devices && devices[k] == d && d.siteID == siteID
  }

  lemma EnumeratesSnoc(listed: seq<Device>, p: nat, devices: Registry, seen: set<string>, siteID: string, key: string)
    requires key in devices && p <= |listed| && Enumerates(listed, devices, seen, siteID)
    ensures var d := devices[key];
            Enumerates(if d.siteID == siteID then InsertAt(listed, p, d) else listed, devices, seen + {key}, siteID)
  {
    var d := devices[key];
    assert listed == listed[..p] + listed[p..];
    assert forall e :: e in InsertAt(listed, p, d) <==> e in listed || e == d;
    var after := if d.siteID == siteID then InsertAt(listed, p, d) else listed;
    forall e
      ensures e in after <==> exists k :: k in seen + {key} && k in devices && devices[k] == e && e.siteID == siteID
    {
      if e in listed {
        var k :| k in seen && k in devices && devices[k] == e;
        assert k in seen + {key};
      }
    }
  }

  /** A device that has not been seen has an id of its own. */
  lemma NewID(listed: seq<Device>, devices: Registry, seen: set<string>, siteID: string, key: string)
    requires KeyedDevices(devices) && key in devices && key !in seen && devices[key].siteID == siteID
    requires Enumerates(listed, devices, seen, siteID)
    ensures forall e :: e in listed ==> e.id != devices[key].id
  {
  }

  /** The state of each listed device, in the same order. */
  ghost predicate Reports(out: seq<RuntimeState>, listed: seq<Device>, telemetry: Readings,
                          siteID: string, now: int, onlineTTL: int)
  {
    |out| == |listed| && forall i :: 0 <= i < |listed| ==>
      IsStateOf(out[i], listed[i], Lookup(telemetry, StateKey(siteID, listed[i].id)), now, onlineTTL)
  }

  lemma ReportsSnoc(out: seq<RuntimeState>, listed: seq<Device>, telemetry: Readings, siteID: string, now: int,
                    onlineTTL: int, p: nat, d: Device)
    requires Reports(out, listed, telemetry, siteID, now, onlineTTL) && p <= |out|
    ensures var state := StateOf(d, Lookup(telemetry, StateKey(siteID, d.id)), now, onlineTTL);
            Reports(InsertAt(out, p, state), InsertAt(listed, p, d), telemetry, siteID, now, onlineTTL)
  {
    hide StateKey, StateOf, Lookup, IsStateOf;
    var t := Lookup(telemetry, StateKey(siteID, d.id));
    StateOfIs(StateOf(d, t, now, onlineTTL), d, t, now, onlineTTL);
  }

  lemma NothingListed(devices: Registry, telemetry: Readings, siteID: string, now: int, onlineTTL: int)
    ensures Enumerates([], devices, devices.Keys - devices.Keys, siteID) && Sorted([])
    ensures Reports([], [], telemetry, siteID, now, onlineTTL)
  {
  }

  /** What DeviceStates returns: a state for every device of the site, each once, by type and id. */
  ghost predicate IsListing(out: seq<RuntimeState>, listed: seq<Device>, devices: Registry, telemetry: Readings,
                            siteID: string, now: int, onlineTTL: int)
  {
    && Enumerates(listed, devices, devices.Keys, siteID) && Sorted(listed)
    && Reports(out, listed, telemetry, siteID, now, onlineTTL)
  }

  /** There is only one such result: the order in which the map was visited does not show. */
  lemma ListingIsUnique(a: seq<RuntimeState>, la: seq<Device>, b: seq<RuntimeState>, lb: seq<Device>, devices: Registry,
                        telemetry: Readings, siteID: string, now: int, onlineTTL: int)
    requires IsListing(a, la, devices, telemetry, siteID, now, onlineTTL)
    requires IsListing(b, lb, devices, telemetry, siteID, now, onlineTTL)
    ensures a == b
  {
    hide Sorted, StateOf, StateKey, Lookup, IsStateOf;
    SortedIsUnique(la, lb);
    forall i | 0 <= i < |a|
      ensures a[i] == b[i]
    {
      StateOfIs(a[i], la[i], Lookup(telemetry, StateKey(siteID, la[i].id)), now, onlineTTL);
      StateOfIs(b[i], la[i], Lookup(telemetry, StateKey(siteID, la[i].id)), now, onlineTTL);
    }
  }

  /** Each reported state carries the reading of its own (site, id) pair. */
  lemma ReportsByPair(out: seq<RuntimeState>, listed: seq<Device>, devices: Registry, telemetry: Readings,
                      siteID: string, now: int, onlineTTL: int)
    requires KeyedDevices(devices) && KeyedReadings(telemetry) && SitesApart(devices, telemetry, siteID)
    requires Reports(out, listed, telemetry, siteID, now, onlineTTL)
    ensures forall s :: s in out ==> s.telemetry == ByPair(telemetry, siteID, s.device.id)
  {
    hide StateKey, Lookup, ByPair, SitesApart, KeyedDevices, KeyedReadings;
    forall i | 0 <= i < |out|
      ensures out[i].telemetry == ByPair(telemetry, siteID, out[i].device.id)
    {
      LookupIsByPair(devices, telemetry, siteID, listed[i].id);
    }
  }

  // ----- Restart -----

  /** A saved reading comes back unchanged: its empty fields are not filled in from elsewhere. */
  predicate Restorable(t: Telemetry, ownSite: string)
  {
    t.deviceID != "" && (t.siteID != "" || ownSite == "")
  }

  /** What loading makes of one saved field. */
  function Refill(t: Telemetry, field: string, ownSite: string): Telemetry
  {
    t.(deviceID := if t.deviceID == "" then field else t.deviceID,
       siteID := if t.siteID == "" then ownSite else t.siteID)
  }

  // ----- The store over time -----

  /** What a store holds. */
  datatype Contents = Contents(devices: Registry, telemetry: Readings, saved: Readings)

  /** One locked change: a registration, or a reading and whether Redis takes it. */
  datatype StoreStep = Register(device: Device) | Report(reading: Telemetry, redisOk: bool)

  ghost function StepStore(c: Contents, ownSite: string, hasRedis: bool, step: StoreStep): Contents
  {
    match step
    case Register(d) => c.(devices := c.devices[StateKey(d.siteID, d.id) := d])
    case Report(reading, redisOk) =>
      var t := reading.(siteID := ResolveSite(c.devices, ownSite, reading));
      var key := StateKey(t.siteID, t.deviceID);
      c.(telemetry := c.telemetry[key := t], saved := if hasRedis && redisOk then c.saved[key := t] else c.saved)
  }

  ghost function StateAfter(c: Contents, ownSite: string, hasRedis: bool, steps: seq<StoreStep>): Contents
    decreases |steps|
  {
    if steps == [] then c
    else StepStore(StateAfter(c, ownSite, hasRedis, steps[..|steps| - 1]), ownSite, hasRedis, steps[|steps| - 1])
  }

  /** Devices are never removed, and only a registration under the same key replaces one. */
  lemma {:induction false} DevicesStay(c: Contents, ownSite: string, hasRedis: bool, steps: seq<StoreStep>, key: string)
    requires key in c.devices
    ensures key in StateAfter(c, ownSite, hasRedis, steps).devices
    ensures (forall d :: Register(d) in steps ==> StateKey(d.siteID, d.id) != key)
            ==> StateAfter(c, ownSite, hasRedis, steps).devices[key] == c.devices[key]
    decreases |steps|
  {
    hide StateKey;
    if steps != [] {
      var init, last := steps[..|steps| - 1], steps[|steps| - 1];
      assert last in steps && forall e :: e in init ==> e in steps;
      DevicesStay(c, ownSite, hasRedis, init, key);
    }
  }

  class Store {
    const siteID: string
    const hasRedis: bool
    var devices: Registry
    var telemetry: Readings
    var saved: Readings

    ghost predicate Valid()
      reads this
    {
      KeyedDevices(devices) && KeyedReadings(telemetry)
    }

    ghost function State(): Contents
      reads this
    {
      Contents(devices, telemetry, saved)
    }

    /** A store over what Redis holds (nothing, without Redis); the JSON round trip is taken as exact. */
    constructor (siteID: string, hasRedis: bool, saved: Readings)
      ensures this.siteID == siteID && this.hasRedis == hasRedis && this.saved == saved
      ensures devices == map[] && telemetry == map[] && Valid()
    {
      this.siteID := siteID;
      this.hasRedis := hasRedis;
      this.devices := map[];
      this.telemetry := map[];
      this.saved := saved;
    }

    method UpsertDevice(d: Device)
      requires Valid()
      modifies this`devices
      ensures Valid() && devices == old(devices)[StateKey(d.siteID, d.id) := d]
    {
      devices := devices[StateKey(d.siteID, d.id) := d];
    }

    /** Every registered device once, in no particular order. */
    method Devices() returns (out: seq<Device>)
      ensures forall d :: d in out <==> exists k :: k in devices && devices[k] == d
      ensures |out| == |devices|
    {
      out := [];
      var todo := devices.Keys;
      while todo != {}
        invariant todo <= devices.Keys
        invariant |out| + |todo| == |devices.Keys|
        invariant forall d :: d in out <==> exists k :: k in devices && k !in todo && devices[k] == d
        decreases |todo|
      {
        var k :| k in todo;
        ghost var before, earlier := out, todo;
        out := out + [devices[k]];
        todo := todo - {k};
        forall d
          ensures d in out <==> exists j :: j in devices && j !in todo && devices[j] == d
        {
          assert d in out <==> d in before || d == devices[k];
          if exists j :: j in devices && j !in todo && devices[j] == d {
            var j :| j in devices && j !in todo && devices[j] == d;
            assert j !in earlier || j == k;
          }
        }
      }
    }

    method DeviceInSite(siteID: string, id: string) returns (found: Option<Device>)
      ensures found == Lookup(devices, StateKey(siteID, id))
    {
      var key := StateKey(siteID, id);
      if key in devices {
        return Some(devices[key]);
      }
      return None;
    }

    /** The device with that id, provided there is exactly one. */
    method DeviceByID(id: string) returns (found: Option<Device>)
      ensures found == UniqueByID(devices, id)
    {
      var last: Option<string> := None;
      var matches := 0;
      var todo := devices.Keys;
      while todo != {}
        invariant todo <= devices.Keys
        invariant matches == 0 ==> forall k :: k in devices && k !in todo ==> devices[k].id != id
        invariant matches > 0 ==>
                    last.Some? && last.value in devices && last.value !in todo && devices[last.value].id == id
        invariant matches == 1 ==> forall k :: k in devices && k !in todo && devices[k].id == id ==> k == last.value
        invariant matches > 1 ==> exists k :: k in devices && k !in todo && devices[k].id == id && k != last.value
        invariant matches >= 0
        decreases |todo|
      {
        var k :| k in todo;
        todo := todo - {k};
        if devices[k].id == id {
          if matches > 0 {
            assert last.value != k;
          }
          last := Some(k);
          matches := matches + 1;
        }
      }
      if matches != 1 {
        return None;
      }
      assert IsOnly(devices, id, last.value);
      return Some(devices[last.value]);
    }

    /** Files the reading under its resolved site and, when Redis is there and answers, saves it too. */
    method PutTelemetry(reading: Telemetry, redisOk: bool)
      requires Valid()
      modifies this`telemetry, this`saved
      ensures Valid()
      ensures var t := reading.(siteID := ResolveSite(devices, siteID, reading));
              var key := StateKey(t.siteID, t.deviceID);
              && telemetry == old(telemetry)[key := t]
              && saved == if hasRedis && redisOk then old(saved)[key := t] else old(saved)
    {
      var t := reading;
      if t.siteID == "" {
        var d := DeviceByID(t.deviceID);
        if d.Some? {
          t := t.(siteID := d.value.siteID);
        } else if siteID != "" {
          t := t.(siteID := siteID);
        }
      }
      telemetry := telemetry[StateKey(t.siteID, t.deviceID) := t];
      if hasRedis && redisOk {
        saved := saved[StateKey(t.siteID, t.deviceID) := t];
      }
    }

    /** Registrations and readings of other goroutines. */
    method Interleave(steps: seq<StoreStep>)
      requires Valid()
      modifies this`devices, this`telemetry, this`saved
      ensures Valid() && State() == StateAfter(old(State()), siteID, hasRedis, steps)
    {
      for k := 0 to |steps|
        invariant Valid() && State() == StateAfter(old(State()), siteID, hasRedis, steps[..k])
      {
        assert steps[..k + 1][..k] == steps[..k];
        match steps[k] {
          case Register(d) => UpsertDevice(d);
          case Report(reading, redisOk) => PutTelemetry(reading, redisOk);
        }
      }
      assert steps[..|steps|] == steps;
    }

    /** The aggregate of a site, whatever order the readings are visited in. */
    method Summary(siteID: string) returns (summary: SiteSummary)
      ensures summary == Summarize(siteID, Sum(Contributions(devices, siteID, telemetry)), summary.lastUpdated)
      ensures Summarizes(summary, devices, siteID, telemetry)
    {
      hide IsLatest, Share, Sum, Plus, StateKey, Only, Contributions, Summarizes;
      ghost var all := Contributions(devices, siteID, telemetry);
      var acc, last := ZERO, ZERO_TIME;
      var todo := telemetry.Keys;
      SummaryStart(devices, siteID, telemetry, all);
      while todo != {}
        invariant todo <= telemetry.Keys
        invariant Plus(acc, Sum(Only(all, todo))) == Sum(all)
        invariant IsLatest(devices, siteID, telemetry - todo, last)
        decreases |todo|
      {
        var k :| k in todo;
        var t := telemetry[k];
        SummaryStep(devices, siteID, telemetry, todo, k, acc);
        ghost var seen, previous := telemetry - todo, last;
        var key := StateKey(t.siteID, t.deviceID);
        if key in devices && devices[key].siteID == siteID {
          acc := Plus(acc, Share(devices[key], t));
          if t.timestamp > last {
            last := t.timestamp;
          }
        }
        LatestGrows(devices, siteID, seen, k, t, previous, last);
        todo := todo - {k};
        assert telemetry - todo == seen[k := t];
      }
      SummaryEnd(all, acc);
      assert telemetry - {} == telemetry;
      summary := Summarize(siteID, acc, last);
      SummaryIsOfReadings(devices, siteID, telemetry, last);
    }

    /** The readings filed under the site, by device id. */
    method TelemetryForSite(siteID: string) returns (out: map<string, Telemetry>)
      requires Valid()
      ensures forall id :: Lookup(out, id) == ByPair(telemetry, siteID, id)
    {
      out := map[];
      var todo := telemetry.Keys;
      while todo != {}
        invariant todo <= telemetry.Keys
        invariant forall id :: id in out ==> out[id].siteID == siteID && out[id].deviceID == id
                                             && exists k :: k in telemetry && telemetry[k] == out[id]
        invariant forall k :: k in telemetry && k !in todo && telemetry[k].siteID == siteID
                              ==> telemetry[k].deviceID in out && out[telemetry[k].deviceID] == telemetry[k]
        decreases |todo|
      {
        var k :| k in todo;
        todo := todo - {k};
        var t := telemetry[k];
        if t.siteID == siteID {
          out := out[t.deviceID := t];
        }
      }
      forall id
        ensures Lookup(out, id) == ByPair(telemetry, siteID, id)
      {
        if id in out {
          assert exists k :: k in telemetry && telemetry[k].siteID == siteID && telemetry[k].deviceID == id;
        }
      }
    }

    /** One state per device of the site, in the order of `listed`. Where keys of sites cannot collide
        each carries the reading of its own (site, id) pair. */
    method DeviceStates(siteID: string, now: int, onlineTTL: int)
      returns (out: seq<RuntimeState>, ghost listed: seq<Device>)
      requires Valid()
      ensures IsListing(out, listed, devices, telemetry, siteID, now, onlineTTL)
      ensures SitesApart(devices, telemetry, siteID) ==>
                forall s :: s in out ==> s.telemetry == ByPair(telemetry, siteID, s.device.id)
    {
      hide StateKey, StateOf, Lookup, SitesApart, ByPair, Enumerates, Reports, Sorted,
           KeyedDevices, KeyedReadings, Before;
      NothingListed(devices, telemetry, siteID, now, onlineTTL);
      out, listed := [], [];
      var sites := [];
      var todo := devices.Keys;
      while todo != {}
        invariant todo <= devices.Keys && sites == listed
        invariant Enumerates(listed, devices, devices.Keys - todo, siteID) && Sorted(listed)
        invariant Reports(out, listed, telemetry, siteID, now, onlineTTL) && |out| == |listed|
        decreases |todo|
      {
        var k :| k in todo;
        var d := devices[k];
        ghost var seen := devices.Keys - todo;
        var p := Position(sites, d);
        EnumeratesSnoc(listed, p, devices, seen, siteID, k);
        todo := todo - {k};
        assert devices.Keys - todo == seen + {k};
        if d.siteID == siteID {
          var tele := Lookup(telemetry, StateKey(siteID, d.id));
          NewID(listed, devices, seen, siteID, k);
          InsertSorts(listed, d);
          ReportsSnoc(out, listed, telemetry, siteID, now, onlineTTL, p, d);
          out := InsertAt(out, p, StateOf(d, tele, now, onlineTTL));
          sites := InsertAt(sites, p, d);
          listed := sites;
        }
      }
      assert devices.Keys - {} == devices.Keys;
      if SitesApart(devices, telemetry, siteID) {
        ReportsByPair(out, listed, devices, telemetry, siteID, now, onlineTTL);
      }
    }

    /** Reads the saved copy into a fresh store. Readings come back exactly as saved if and only if each
        carries its device id and, in a store with a site of its own, its site id. */
    method LoadTelemetry()
      requires Valid() && KeyedReadings(saved) && telemetry == map[]
      modifies this`telemetry
      ensures Valid()
      ensures telemetry == saved <==> AllRestorable(saved, siteID)
      ensures LoadedFrom(telemetry, saved, {}, siteID)
    {
      hide StateKey, Refill, Loaded, LoadedFrom;
      var todo := saved.Keys;
      NothingLoaded(telemetry, saved, siteID);
      while todo != {}
        invariant todo <= saved.Keys && KeyedReadings(telemetry)
        invariant Loaded(telemetry, saved, todo, siteID) && LoadedFrom(telemetry, saved, todo, siteID)
        decreases |todo|
      {
        var field :| field in todo;
        var t := Refill(saved[field], field, siteID);
        LoadedStep(telemetry, saved, todo, field, siteID);
        LoadedFromNext(telemetry, saved, todo, field, siteID);
        telemetry := telemetry[StateKey(t.siteID, t.deviceID) := t];
        todo := todo - {field};
      }
      AllLoaded(telemetry, saved, siteID);
    }
  }

  ghost predicate AllRestorable(saved: Readings, ownSite: string)
  {
    forall k :: k in saved ==> Restorable(saved[k], ownSite)
  }

  /** A saved reading, with an empty device id read from its field and an empty site taken as the store's own. */
  ghost predicate IsRefill(t: Telemetry, saved: Telemetry, field: string, ownSite: string)
  {
    && t.deviceID == (if saved.deviceID == "" then field else saved.deviceID)
    && t.siteID == (if saved.siteID == "" then ownSite else saved.siteID)
    && t.kind == saved.kind && t.timestamp == saved.timestamp && t.metrics == saved.metrics
    && t.state == saved.state && t.seqNo == saved.seqNo
  }

  lemma RefillIs(t: Telemetry, saved: Telemetry, field: string, ownSite: string)
    ensures IsRefill(t, saved, field, ownSite) <==> t == Refill(saved, field, ownSite)
  {
  }

  /** Every loaded reading is a refilled saved one under its own key, and every saved one that was visited
      has left a reading under its key. */
  ghost predicate LoadedFrom(telemetry: Readings, saved: Readings, todo: set<string>, ownSite: string)
  {
    && (forall k :: k in telemetry ==>
          k == StateKey(telemetry[k].siteID, telemetry[k].deviceID)
          && exists f :: f in saved && IsRefill(telemetry[k], saved[f], f, ownSite))
    && (forall f :: f in saved && f !in todo ==>
          var t := Refill(saved[f], f, ownSite); StateKey(t.siteID, t.deviceID) in telemetry)
  }

  lemma LoadedFromNext(telemetry: Readings, saved: Readings, todo: set<string>, field: string, ownSite: string)
    requires field in saved && LoadedFrom(telemetry, saved, todo, ownSite)
    ensures var t := Refill(saved[field], field, ownSite);
            LoadedFrom(telemetry[StateKey(t.siteID, t.deviceID) := t], saved, todo - {field}, ownSite)
  {
    hide StateKey, IsRefill, Refill;
    var t := Refill(saved[field], field, ownSite);
    RefillIs(t, saved[field], field, ownSite);
  }

  /** What holds while loading: complete readings only, and exact copies if all saved ones are complete. */
  ghost predicate Loaded(telemetry: Readings, saved: Readings, todo: set<string>, ownSite: string)
  {
    && AllRestorable(telemetry, ownSite)
    && (AllRestorable(saved, ownSite) ==> telemetry == saved - todo)
  }

  lemma NothingLoaded(telemetry: Readings, saved: Readings, ownSite: string)
    requires telemetry == map[]
    ensures Loaded(telemetry, saved, saved.Keys, ownSite) && LoadedFrom(telemetry, saved, saved.Keys, ownSite)
  {
  }

  lemma LoadedStep(telemetry: Readings, saved: Readings, todo: set<string>, field: string, ownSite: string)
    requires KeyedReadings(saved) && field in saved && field in todo && Loaded(telemetry, saved, todo, ownSite)
    ensures var t := Refill(saved[field], field, ownSite);
            Loaded(telemetry[StateKey(t.siteID, t.deviceID) := t], saved, todo - {field}, ownSite)
  {
    FieldIsKey(saved, field, ownSite);
    hide StateKey, Refill, Restorable;
    var t := Refill(saved[field], field, ownSite);
    if AllRestorable(saved, ownSite) {
      assert saved - (todo - {field}) == (saved - todo)[field := t];
    }
  }

  lemma AllLoaded(telemetry: Readings, saved: Readings, ownSite: string)
    requires Loaded(telemetry, saved, {}, ownSite)
    ensures telemetry == saved <==> AllRestorable(saved, ownSite)
  {
    assert saved - {} == saved;
  }

  /** A refilled reading is complete; one that was complete is filed under its own field again. */
  lemma FieldIsKey(saved: Readings, field: string, ownSite: string)
    requires KeyedReadings(saved) && field in saved
    ensures var t := Refill(saved[field], field, ownSite);
            && Restorable(t, ownSite)
            && (Restorable(saved[field], ownSite) ==> t == saved[field] && StateKey(t.siteID, t.deviceID) == field)
  {
  }

  lemma SummaryStart(devices: Registry, siteID: string, telemetry: Readings, all: map<string, Totals>)
    requires all == Contributions(devices, siteID, telemetry)
    ensures Plus(ZERO, Sum(Only(all, telemetry.Keys))) == Sum(all)
    ensures IsLatest(devices, siteID, telemetry - telemetry.Keys, ZERO_TIME)
  {
    hide Sum, Plus, Counts, Contribution;
    assert Only(all, telemetry.Keys) == all;
    PlusSwap(ZERO, Sum(all), ZERO, ZERO);
    PlusSwap(Sum(all), ZERO, ZERO, ZERO);
  }

  /** One reading moves from what is left to what is accumulated. */
  lemma SummaryStep(devices: Registry, siteID: string, telemetry: Readings, todo: set<string>, k: string, acc: Totals)
    requires k in todo && k in telemetry
    ensures var all := Contributions(devices, siteID, telemetry);
            var next := if Counts(devices, siteID, telemetry[k])
                        then Plus(acc, Share(devices[StateKey(telemetry[k].siteID, telemetry[k].deviceID)],
                                             telemetry[k]))
                        else acc;
            Plus(acc, Sum(Only(all, todo))) == Plus(next, Sum(Only(all, todo - {k})))
  {
    hide Sum, Plus, Share, StateKey;
    var all := Contributions(devices, siteID, telemetry);
    var rest := Only(all, todo - {k});
    SumFrom(Only(all, todo), k);
    assert Only(all, todo) - {k} == rest;
    PlusSwap(acc, all[k], Sum(rest), ZERO);
  }

  lemma SummaryEnd(all: map<string, Totals>, acc: Totals)
    requires Plus(acc, Sum(Only(all, {}))) == Sum(all)
    ensures acc == Sum(all)
  {
    assert Only(all, {}) == map[];
    SumOfNothing();
    PlusSwap(acc, ZERO, ZERO, ZERO);
  }

  /** Every reading comes with its device id, and every site involved has a name. */
  ghost predicate Complete(ownSite: string, steps: seq<StoreStep>)
  {
    && ownSite != ""
    && (forall d :: Register(d) in steps ==> d.siteID != "")
    && (forall t, ok :: Report(t, ok) in steps ==> t.deviceID != "")
  }

  /** A restart after any sequence of registrations and readings, each reading saved in turn, from any
      saved copy that a store loads unchanged. The new store holds the same telemetry if and only if what
      was saved is complete; then the next restart starts from such a copy again. */
  method RestartAfter(siteID: string, saved: Readings, steps: seq<StoreStep>) returns (before: Store, after: Store)
    requires KeyedReadings(saved) && AllRestorable(saved, siteID) && AllSaved(steps)
    ensures before.Valid() && after.Valid() && after.devices == before.devices
    ensures before.State() == StateAfter(Contents(map[], saved, saved), siteID, true, steps)
    ensures after.saved == before.saved == before.telemetry
    ensures after.telemetry == before.telemetry <==> AllRestorable(before.telemetry, siteID)
    ensures Complete(siteID, steps) ==> after.telemetry == before.telemetry && AllRestorable(after.saved, siteID)
  {
    hide LoadedFrom;
    before := new Store(siteID, true, saved);
    before.LoadTelemetry();
    assert before.State() == Contents(map[], saved, saved);
    before.Interleave(steps);
    SavedIsTelemetry(Contents(map[], saved, saved), siteID, steps);
    if Complete(siteID, steps) {
      StaysRestorable(Contents(map[], saved, saved), siteID, steps);
    }
    after := new Store(siteID, true, before.saved);
    after.LoadTelemetry();
    after.devices := before.devices;
  }

  ghost predicate AllSaved(steps: seq<StoreStep>)
  {
    forall t, ok :: Report(t, ok) in steps ==> ok
  }

  /** When every reading is saved the copy keeps up with memory. */
  lemma {:induction false} SavedIsTelemetry(c: Contents, ownSite: string, steps: seq<StoreStep>)
    requires c.saved == c.telemetry && AllSaved(steps)
    ensures StateAfter(c, ownSite, true, steps).saved == StateAfter(c, ownSite, true, steps).telemetry
    decreases |steps|
  {
    if steps != [] {
      var init, last := steps[..|steps| - 1], steps[|steps| - 1];
      assert last in steps && forall e :: e in init ==> e in steps;
      SavedIsTelemetry(c, ownSite, init);
    }
  }

  lemma {:induction false} StaysRestorable(c: Contents, ownSite: string, steps: seq<StoreStep>)
    requires AllRestorable(c.telemetry, ownSite) && Complete(ownSite, steps)
    requires forall k :: k in c.devices ==> c.devices[k].siteID != ""
    ensures var n := StateAfter(c, ownSite, true, steps);
            AllRestorable(n.telemetry, ownSite) && forall k :: k in n.devices ==> n.devices[k].siteID != ""
    decreases |steps|
  {
    if steps != [] {
      var init, last := steps[..|steps| - 1], steps[|steps| - 1];
      assert last in steps && forall e :: e in init ==> e in steps;
      StaysRestorable(c, ownSite, init);
      if last.Report? {
        SiteHasName(StateAfter(c, ownSite, true, init).devices, ownSite, last.reading);
      }
    }
  }

  lemma SiteHasName(devices: Registry, ownSite: string, t: Telemetry)
    requires ownSite != "" && forall k :: k in devices ==> devices[k].siteID != ""
    ensures ResolveSite(devices, ownSite, t) != ""
  {
  }
}
