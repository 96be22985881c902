/** The ids of the scheduler's commands, and when they are unique: the premise of the command log. */
module CommandIDs {
  import opened CommandKeys
  import opened Cooldown
  import opened Model
  import CommandTable
  import CommandLog

  function Digit(d: nat): char
    requires d < 10
  {
    ['0', '1', '2', '3', '4', '5', '6', '7', '8', '9'][d]
  }

  function Decimal(n: nat): string
  {
    if n < 10 then [Digit(n)] else Decimal(n / 10) + [Digit(n % 10)]
  }

  lemma {:induction false} DecimalHasNoDash(n: nat)
    ensures Decimal(n) != "" && '-' !in Decimal(n)
  {
    if n >= 10 {
      DecimalHasNoDash(n / 10);
    }
  }

  lemma DigitInjective(c: nat, d: nat)
    requires c < 10 && d < 10 && Digit(c) == Digit(d)
    ensures c == d
  {
  }

  /** The last digit and the digits before it. */
  lemma LastDigit(n: nat)
    ensures var s := Decimal(n);
            && s != "" && s[|s| - 1] == Digit(n % 10)
            && s[..|s| - 1] == if n < 10 then "" else Decimal(n / 10)
  {
    hide Digit;
  }

  lemma {:induction false} DecimalInjective(m: nat, n: nat)
    requires Decimal(m) == Decimal(n)
    ensures m == n
  {
    hide Digit;
    LastDigit(m);
    LastDigit(n);
    DigitInjective(m % 10, n % 10);
    DecimalHasNoDash(m / 10);
    DecimalHasNoDash(n / 10);
    hide Decimal;
    if m >= 10 && n >= 10 {
      DecimalInjective(m / 10, n / 10);
    }
  }

  /** The number a decimal text stands for, digit by digit from the left. */
  function ReadDecimal(s: string): int
    decreases |s|
  {
    if s == "" then 0 else 10 * ReadDecimal(s[..|s| - 1]) + (s[|s| - 1] as int - '0' as int)
  }

  /** The text stands for the number and has no leading zero. */
  lemma {:induction false} ReadOfDecimal(n: nat)
    ensures ReadDecimal(Decimal(n)) == n
    ensures forall k :: 0 <= k < |Decimal(n)| ==> '0' <= Decimal(n)[k] <= '9'
    ensures Decimal(n) != "" && (Decimal(n)[0] == '0' <==> n == 0)
  {
    LastDigit(n);
    DigitValue(n % 10);
    if n >= 10 {
      ReadOfDecimal(n / 10);
    } else {
      assert ReadDecimal("") == 0;
    }
  }

  lemma DigitValue(d: nat)
    requires d < 10
    ensures Digit(d) as int - '0' as int == d
  {
  }

  /** The device id, a dash and the reservation's instant in nanoseconds since 1970. */
  function CommandID(deviceID: string, at: nat): string
  {
    deviceID + "-" + Decimal(at)
  }

  /** The last dash of an id comes before the instant. */
  lemma IDShape(deviceID: string, at: nat)
    ensures var s := CommandID(deviceID, at);
            && s[|deviceID|] == '-' && s[..|deviceID|] == deviceID && s[|deviceID| + 1..] == Decimal(at)
            && forall k :: |deviceID| < k < |s| ==> s[k] != '-'
  {
    DecimalHasNoDash(at);
    var s := CommandID(deviceID, at);
    forall k | |deviceID| < k < |s|
      ensures s[k] != '-'
    {
      assert s[k] == Decimal(at)[k - |deviceID| - 1];
    }
  }

  /** An id determines device and instant, whatever characters the device ids hold. */
  lemma CommandIDInjective(d1: string, t1: nat, d2: string, t2: nat)
    ensures CommandID(d1, t1) == CommandID(d2, t2) <==> d1 == d2 && t1 == t2
  {
    if CommandID(d1, t1) == CommandID(d2, t2) {
      IDShape(d1, t1);
      IDShape(d2, t2);
      assert |d1| == |d2|;
      DecimalInjective(t1, t2);
    }
  }

  /** A run that starts after 1970 has only instants after 1970. */
  lemma {:induction false} InstantsFollowStart(clock: nat, events: seq<Event>)
    ensures var h := CodeRun(Fresh(clock), events).history;
            h.clock >= clock && forall i :: 0 <= i < |h.attempts| ==> h.attempts[i].at >= clock
    decreases |events|
  {
    if events != [] {
      InstantsFollowStart(clock, events[..|events| - 1]);
    }
  }

  ghost predicate AfterEpoch(attempts: seq<Attempt>)
  {
    forall i :: 0 <= i < |attempts| ==> attempts[i].at >= 0
  }

  ghost predicate SameID(a: Attempt, b: Attempt)
    requires a.at >= 0 && b.at >= 0
  {
    CommandID(a.req.deviceID, a.at) == CommandID(b.req.deviceID, b.at)
  }

  /** No two commands that are in flight or were sent carry the same id. */
  ghost predicate IDsAreUnique(attempts: seq<Attempt>)
    requires AfterEpoch(attempts)
  {
    forall i, j :: 0 <= i < j < |attempts| && Live(attempts[i]) && Live(attempts[j])
                   ==> !SameID(attempts[i], attempts[j])
  }

  /** No device has live reservations with different intents at one instant. */
  ghost predicate InstantsSeparateIntents(attempts: seq<Attempt>)
  {
    forall i, j :: 0 <= i < j < |attempts| && Live(attempts[i]) && Live(attempts[j])
                   && attempts[i].req.deviceID == attempts[j].req.deviceID
                   && attempts[i].req.intent != attempts[j].req.intent
                   ==> attempts[i].at != attempts[j].at
  }

  lemma SpacedIDsAreUniqueIff(attempts: seq<Attempt>)
    requires AfterEpoch(attempts) && Spaced(attempts)
    ensures IDsAreUnique(attempts) <==> InstantsSeparateIntents(attempts)
  {
    hide CommandID;
    forall i, j | 0 <= i < j < |attempts| && Live(attempts[i]) && Live(attempts[j])
      ensures SameID(attempts[i], attempts[j]) <==>
                && attempts[i].req.deviceID == attempts[j].req.deviceID && attempts[i].at == attempts[j].at
                && attempts[i].req.intent != attempts[j].req.intent
    {
      CommandIDInjective(attempts[i].req.deviceID, attempts[i].at, attempts[j].req.deviceID, attempts[j].at);
      assert attempts[i].at == attempts[j].at ==> attempts[i].req != attempts[j].req;
    }
  }

  /** Over every interleaving, the scheduler's command ids are unique if and only if no device gets
      reservations with different intents at the very same nanosecond: the cooldown takes care of the rest. */
  lemma CommandIDsAreUniqueIff(clock: nat, events: seq<Event>)
    ensures var attempts := CodeRun(Fresh(clock), events).history.attempts;
            AfterEpoch(attempts) && (IDsAreUnique(attempts) <==> InstantsSeparateIntents(attempts))
  {
    InstantsFollowStart(clock, events);
    RunIsSpaced(clock, events);
    SpacedIDsAreUniqueIff(CodeRun(Fresh(clock), events).history.attempts);
  }

  /** The condition can fail: charging and discharging one battery at one instant gives one id to both. */
  lemma OneInstantTwoIntents(clock: nat, deviceID: string)
    ensures var charge, discharge := Request(deviceID, Charge), Request(deviceID, Discharge);
            !InstantsSeparateIntents(CodeRun(Fresh(clock), [Reserve(charge), Reserve(discharge)]).history.attempts)
  {
    var charge, discharge := Request(deviceID, Charge), Request(deviceID, Discharge);
    assert [] + [Reserve(charge)] == [Reserve(charge)];
    assert [Reserve(charge)] + [Reserve(discharge)] == [Reserve(charge), Reserve(discharge)];
    CodeRunSnoc(Fresh(clock), [], Reserve(charge));
    CodeRunSnoc(Fresh(clock), [Reserve(charge)], Reserve(discharge));
    CommandKeyInjective(deviceID, Charge, deviceID, Discharge);
    hide KeyOf;
    var attempts := CodeRun(Fresh(clock), [Reserve(charge), Reserve(discharge)]).history.attempts;
    assert attempts == [Attempt(charge, clock, InFlight), Attempt(discharge, clock, InFlight)];
    assert Live(attempts[0]) && Live(attempts[1]);
  }

  /** Each issue in the trace was sent for a live reservation of its own: `of` says which. */
  ghost predicate IssuedFor(ws: seq<CommandTable.Write>, attempts: seq<Attempt>, of: nat -> nat)
    requires AfterEpoch(attempts)
  {
    && (forall k: nat :: k < |ws| && ws[k].IssueWrite? ==>
          && of(k) < |attempts| && Live(attempts[of(k)])
          && CommandTable.IdOf(ws[k]) == CommandID(attempts[of(k)].req.deviceID, attempts[of(k)].at))
    && (forall j: nat, k: nat :: j < k < |ws| && ws[j].IssueWrite? && ws[k].IssueWrite? ==> of(j) != of(k))
  }

  /** So the premise of the command log holds for the scheduler's commands. */
  lemma SchedulerIssuesOnce(clock: nat, events: seq<Event>, ws: seq<CommandTable.Write>, of: nat -> nat)
    requires var attempts := CodeRun(Fresh(clock), events).history.attempts;
             InstantsSeparateIntents(attempts) && AfterEpoch(attempts) && IssuedFor(ws, attempts, of)
    ensures CommandLog.IssuedOnce(ws)
  {
    CommandIDsAreUniqueIff(clock, events);
    var attempts := CodeRun(Fresh(clock), events).history.attempts;
    hide CodeRun, CommandID, InstantsSeparateIntents;
    forall j: nat, k: nat | j < k < |ws| && ws[j].IssueWrite? && ws[k].IssueWrite?
      ensures CommandTable.IdOf(ws[j]) != CommandTable.IdOf(ws[k])
    {
      assert !SameID(attempts[of(j)], attempts[of(k)]) && !SameID(attempts[of(k)], attempts[of(j)]);
    }
  }
}
