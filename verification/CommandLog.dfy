/** The in-memory command log beside the command table: at most 200 records, newest first, fed by the
    same issues and acknowledgements. */
module CommandLog {
  import opened Model
  import opened CommandTable

  /** The log's capacity. */
  const LIMIT: nat := 200

  datatype Record = Record(issue: Issue, status: Status, ack: Option<AckColumns>)

  type Log = seq<Record>

  function NewRecord(i: Issue): Record
  {
    Record(i, Issued, None)
  }

  function Keep(log: Log): Log
  {
    if |log| > LIMIT then log[..LIMIT] else log
  }

  predicate IsFor(r: Record, a: Ack)
  {
    r.issue.deviceID == a.deviceID && r.issue.commandID == a.commandID
  }

  function Acknowledged(r: Record, a: Ack): Record
  {
    r.(status := StatusOf(a), ack := Some(Columns(a)))
  }

  /** The first record of that device and command takes the acknowledgement; others are untouched. */
  function AckFirst(log: Log, a: Ack): Log
  {
    if log == [] then []
    else if IsFor(log[0], a) then [Acknowledged(log[0], a)] + log[1..]
    else [log[0]] + AckFirst(log[1..], a)
  }

  function Apply(log: Log, w: Write): Log
  {
    match w
    case IssueWrite(i) => Keep([NewRecord(i)] + log)
    case AckWrite(a) => AckFirst(log, a)
  }

  function RunLog(log: Log, ws: seq<Write>): Log
    decreases |ws|
  {
    if ws == [] then log else Apply(RunLog(log, ws[..|ws| - 1]), ws[|ws| - 1])
  }

  lemma {:induction false} AckFirstSkips(log: Log, a: Ack, k: nat)
    requires k <= |log| && forall j :: 0 <= j < k ==> !IsFor(log[j], a)
    ensures AckFirst(log, a) == log[..k] + AckFirst(log[k..], a)
    decreases k
  {
    if k > 0 {
      AckFirstSkips(log[1..], a, k - 1);
      assert log[1..][k - 1..] == log[k..];
      assert log[..k] == [log[0]] + log[1..][..k - 1];
    }
  }

  /** The first record for that device and command. */
  ghost predicate IsTarget(log: Log, a: Ack, k: nat)
  {
    && k < |log| && log[k].issue.deviceID == a.deviceID && log[k].issue.commandID == a.commandID
    && forall j: nat :: j < k ==> log[j].issue.deviceID != a.deviceID || log[j].issue.commandID != a.commandID
  }

  /** That record takes the ack, with the status that goes with it; all other records, and every issue,
      stay as they are. */
  lemma {:induction false} AckFirstIs(log: Log, a: Ack)
    ensures |AckFirst(log, a)| == |log|
    ensures forall k: nat :: k < |log| ==>
              var r, n := log[k], AckFirst(log, a)[k];
              if IsTarget(log, a, k)
              then && n.issue == r.issue && n.status == (if a.ok then Acked else FailedAck)
                   && n.ack == Some(AckColumns(a.ok, a.error, a.timestamp))
              else n == r
    decreases |log|
  {
    if log != [] && !IsFor(log[0], a) {
      var rest := log[1..];
      AckFirstIs(rest, a);
      forall k: nat | 0 < k < |log|
        ensures IsTarget(log, a, k) <==> IsTarget(rest, a, k - 1)
        ensures AckFirst(log, a)[k] == AckFirst(rest, a)[k - 1] && log[k] == rest[k - 1]
      {
        assert forall j: nat :: 0 < j < k ==> log[j] == rest[j - 1];
        assert forall j: nat :: j < k - 1 ==> rest[j] == log[j + 1];
      }
    }
  }

  /** The log, as the state store keeps it. */
  class CommandLog {
    var commands: Log

    constructor ()
      ensures commands == []
    {
      commands := [];
    }

    method PutCommandIssued(i: Issue)
      modifies this
      ensures commands == Apply(old(commands), IssueWrite(i))
    {
      commands := [NewRecord(i)] + commands;
      if |commands| > LIMIT {
        commands := commands[..LIMIT];
      }
    }

    method PutCommandAck(a: Ack)
      modifies this
      ensures commands == Apply(old(commands), AckWrite(a))
    {
      for k := 0 to |commands|
        invariant commands == old(commands)
        invariant forall j :: 0 <= j < k ==> !IsFor(commands[j], a)
      {
        if commands[k].issue.deviceID == a.deviceID && commands[k].issue.commandID == a.commandID {
          AckFirstSkips(commands, a, k);
          commands := commands[k := commands[k].(ack := Some(Columns(a)))];
          commands := commands[k := commands[k].(status := if a.ok then Acked else FailedAck)];
          assert commands == old(commands)[..k] + ([Acknowledged(old(commands)[k], a)] + old(commands)[k + 1..]);
          assert old(commands)[k..][1..] == old(commands)[k + 1..];
          return;
        }
      }
      AckFirstSkips(commands, a, |commands|);
    }
  }

  /** The client that feeds both sides: the log first, then the table. A broker error stops before
      either; a table error is only logged. */
  class Client {
    const log: CommandLog
    const table: CommandTable

    constructor (log: CommandLog, table: CommandTable)
      ensures this.log == log && this.table == table
    {
      this.log := log;
      this.table := table;
    }

    method PublishCommand(i: Issue, brokerOk: bool, stored: bool) returns (ok: bool)
      modifies log, table
      ensures ok == brokerOk
      ensures log.commands == if brokerOk then Apply(old(log.commands), IssueWrite(i)) else old(log.commands)
      ensures table.rows == if brokerOk && stored then Upsert(old(table.rows), IssueWrite(i)) else old(table.rows)
    {
      if !brokerOk {
        return false;
      }
      log.PutCommandIssued(i);
      table.PutCommandIssued(i, stored);
      return true;
    }

    method HandleAck(a: Ack, stored: bool)
      modifies log, table
      ensures log.commands == Apply(old(log.commands), AckWrite(a))
      ensures table.rows == if stored then Upsert(old(table.rows), AckWrite(a)) else old(table.rows)
    {
      log.PutCommandAck(a);
      table.PutCommandAck(a, stored);
    }
  }

  // ----- The log is a bounded view -----

  /** The issues of a trace, oldest first. */
  function IssuesOf(ws: seq<Write>): seq<Issue>
    decreases |ws|
  {
    if ws == [] then [] else
      IssuesOf(ws[..|ws| - 1]) + if ws[|ws| - 1].IssueWrite? then [ws[|ws| - 1].issue] else []
  }

  /** Command ids are issued once. */
  ghost predicate IssuedOnce(ws: seq<Write>)
  {
    forall j, k :: 0 <= j < k < |ws| && ws[j].IssueWrite? && ws[k].IssueWrite? ==> IdOf(ws[j]) != IdOf(ws[k])
  }

  /** The last acknowledgement of a command since its issue; one that came before has met no record. */
  function AckedSince(ws: seq<Write>, id: string): Option<Ack>
    decreases |ws|
  {
    if ws == [] then None
    else match ws[|ws| - 1]
      case IssueWrite(i) => if i.commandID == id then None else AckedSince(ws[..|ws| - 1], id)
      case AckWrite(a) => if a.commandID == id then Some(a) else AckedSince(ws[..|ws| - 1], id)
  }

  /** The record a command should have. */
  function View(i: Issue, ws: seq<Write>): Record
  {
    match AckedSince(ws, i.commandID)
    case None => NewRecord(i)
    case Some(a) => Acknowledged(NewRecord(i), a)
  }

  function Min(a: nat, b: nat): nat
  {
    if a < b then a else b
  }

  /** The last min(n, 200) issues, newest first, each with its view. */
  ghost predicate IsBoundedView(log: Log, ws: seq<Write>)
  {
    var issues := IssuesOf(ws);
    && |log| == Min(|issues|, LIMIT)
    && forall k :: 0 <= k < |log| ==> log[k] == View(issues[|issues| - 1 - k], ws)
  }

  lemma {:induction false} IssuesAreIn(ws: seq<Write>, k: nat)
    requires k < |IssuesOf(ws)|
    ensures IssueWrite(IssuesOf(ws)[k]) in ws
    decreases |ws|
  {
    var before, last := ws[..|ws| - 1], ws[|ws| - 1];
    if k < |IssuesOf(before)| {
      IssuesAreIn(before, k);
      assert forall w :: w in before ==> w in ws;
    } else {
      assert last in ws;
    }
  }

  lemma {:induction false} IssuesAreDistinct(ws: seq<Write>)
    requires IssuedOnce(ws)
    ensures forall j, k :: 0 <= j < k < |IssuesOf(ws)| ==> IssuesOf(ws)[j].commandID != IssuesOf(ws)[k].commandID
    decreases |ws|
  {
    if ws != [] {
      var n := |ws| - 1;
      var before := ws[..n];
      assert IssuedOnce(before);
      IssuesAreDistinct(before);
      if ws[n].IssueWrite? {
        forall j | 0 <= j < |IssuesOf(before)|
          ensures IssuesOf(before)[j].commandID != ws[n].issue.commandID
        {
          IssuesAreIn(before, j);
          var p :| 0 <= p < n && before[p] == IssueWrite(IssuesOf(before)[j]);
          assert ws[p].IssueWrite? && IdOf(ws[p]) != IdOf(ws[n]);
        }
      }
    }
  }

  lemma CoherentPrefix(ws: seq<Write>, n: nat)
    requires Coherent(ws) && n <= |ws|
    ensures Coherent(ws[..n])
  {
    assert forall w :: w in ws[..n] ==> w in ws;
  }

  /** A log of distinct commands: an acknowledgement changes exactly the record of its command. */
  lemma {:induction false} AckFirstPointwise(log: Log, a: Ack)
    requires forall j, k :: 0 <= j < k < |log| ==> log[j].issue.commandID != log[k].issue.commandID
    ensures |AckFirst(log, a)| == |log|
    ensures forall k :: 0 <= k < |log| ==>
              AckFirst(log, a)[k] == if IsFor(log[k], a) then Acknowledged(log[k], a) else log[k]
    decreases |log|
  {
    if log != [] && !IsFor(log[0], a) {
      AckFirstPointwise(log[1..], a);
    }
  }

  /** A view changes only with the command's own writes. */
  lemma ViewSnoc(ws: seq<Write>, n: nat, i: Issue)
    requires |ws| == n + 1
    ensures ws[n].AckWrite? && IdOf(ws[n]) == i.commandID ==> View(i, ws) == Acknowledged(NewRecord(i), ws[n].ack)
    ensures ws[n].IssueWrite? && IdOf(ws[n]) == i.commandID ==> View(i, ws) == NewRecord(i)
    ensures IdOf(ws[n]) != i.commandID ==> View(i, ws) == View(i, ws[..n])
  {
  }

  /** A new record goes to the front; the oldest falls off a full log. */
  lemma IssueAt(log: Log, i: Issue)
    ensures var after := Apply(log, IssueWrite(i));
            && |after| == Min(|log| + 1, LIMIT)
            && after[0] == NewRecord(i)
            && forall k :: 0 < k < |after| ==> after[k] == log[k - 1]
  {
  }

  lemma IssueKeepsView(ws: seq<Write>, n: nat, log: Log)
    requires IssuedOnce(ws) && |ws| == n + 1 && ws[n].IssueWrite?
    requires IsBoundedView(log, ws[..n])
    ensures IsBoundedView(Apply(log, ws[n]), ws)
  {
    var after, older, i := Apply(log, ws[n]), IssuesOf(ws[..n]), ws[n].issue;
    assert IssuesOf(ws) == older + [i];
    IssuesAreDistinct(ws);
    hide View, IssuedOnce, Keep, IssuesOf;
    IssueAt(log, i);
    ViewSnoc(ws, n, i);
    forall k | 0 < k < |after|
      ensures after[k] == View(older[|older| - k], ws)
    {
      assert (older + [i])[|older| - k] == older[|older| - k] && (older + [i])[|older|] == i;
      OlderView(ws, n, log, k - 1);
    }
    NewestFirst(after, ws, older, i);
  }

  lemma NewestFirst(log: Log, ws: seq<Write>, older: seq<Issue>, newest: Issue)
    requires IssuesOf(ws) == older + [newest] && |log| == Min(|older| + 1, LIMIT)
    requires log[0] == View(newest, ws)
    requires forall k :: 0 < k < |log| ==> log[k] == View(older[|older| - k], ws)
    ensures IsBoundedView(log, ws)
  {
    hide View, IssuesOf;
    forall k | 0 <= k < |log|
      ensures log[k] == View((older + [newest])[|older| - k], ws)
    {
    }
  }

  lemma OlderView(ws: seq<Write>, n: nat, log: Log, k: nat)
    requires |ws| == n + 1 && ws[n].IssueWrite? && IsBoundedView(log, ws[..n]) && k < |log|
    requires IssuesOf(ws[..n])[|IssuesOf(ws[..n])| - 1 - k].commandID != IdOf(ws[n])
    ensures View(IssuesOf(ws[..n])[|IssuesOf(ws[..n])| - 1 - k], ws) == log[k]
  {
    ViewSnoc(ws, n, IssuesOf(ws[..n])[|IssuesOf(ws[..n])| - 1 - k]);
  }

  /** Acknowledging a view gives the next view, on the command's own record only. */
  lemma AckedView(ws: seq<Write>, n: nat, i: Issue)
    requires Coherent(ws) && |ws| == n + 1 && ws[n].AckWrite? && IssueWrite(i) in ws
    ensures var r := View(i, ws[..n]);
            View(i, ws) == if IsFor(r, ws[n].ack) then Acknowledged(r, ws[n].ack) else r
  {
    assert ws[n] in ws;
    ViewSnoc(ws, n, i);
  }

  lemma AckKeepsView(ws: seq<Write>, n: nat, log: Log)
    requires IssuedOnce(ws) && Coherent(ws) && |ws| == n + 1 && ws[n].AckWrite?
    requires IsBoundedView(log, ws[..n])
    ensures IsBoundedView(Apply(log, ws[n]), ws)
  {
    hide View, IssuedOnce, Coherent, AckFirst, IsFor, Acknowledged;
    var issues := IssuesOf(ws[..n]);
    assert IssuesOf(ws) == issues;
    RecordsAreDistinct(log, ws, n);
    var after := AckFirst(log, ws[n].ack);
    AckKeepsOrder(log, ws[n].ack);
    forall k | 0 <= k < |log|
      ensures after[k] == View(issues[|issues| - 1 - k], ws)
    {
      AckedAt(log, ws[n].ack, k);
      AckedRecord(ws, n, log, k);
    }
  }

  lemma AckedAt(log: Log, a: Ack, k: nat)
    requires forall i, j :: 0 <= i < j < |log| ==> log[i].issue.commandID != log[j].issue.commandID
    requires k < |log|
    ensures |AckFirst(log, a)| == |log|
    ensures AckFirst(log, a)[k] == if IsFor(log[k], a) then Acknowledged(log[k], a) else log[k]
  {
    AckFirstPointwise(log, a);
  }

  lemma AckedRecord(ws: seq<Write>, n: nat, log: Log, k: nat)
    requires Coherent(ws) && |ws| == n + 1 && ws[n].AckWrite?
    requires IsBoundedView(log, ws[..n]) && k < |log|
    ensures View(IssuesOf(ws[..n])[|IssuesOf(ws[..n])| - 1 - k], ws)
            == if IsFor(log[k], ws[n].ack) then Acknowledged(log[k], ws[n].ack) else log[k]
  {
    var last := |IssuesOf(ws[..n])| - 1 - k;
    IssuesAreIn(ws[..n], last);
    AckedView(ws, n, IssuesOf(ws[..n])[last]);
  }

  lemma RecordsAreDistinct(log: Log, ws: seq<Write>, n: nat)
    requires IssuedOnce(ws) && n <= |ws| && IsBoundedView(log, ws[..n])
    ensures forall j, k :: 0 <= j < k < |log| ==> log[j].issue.commandID != log[k].issue.commandID
  {
    assert IssuedOnce(ws[..n]);
    IssuesAreDistinct(ws[..n]);
    ViewsKeepIssues(log, ws[..n]);
  }

  lemma ViewsKeepIssues(log: Log, ws: seq<Write>)
    requires IsBoundedView(log, ws)
    ensures forall k :: 0 <= k < |log| ==> log[k].issue == IssuesOf(ws)[|IssuesOf(ws)| - 1 - k]
  {
  }

  /** Over every trace from an empty log, in whatever order the acknowledgements come: exactly the last
      min(n, 200) issues, newest first, each with the acknowledgement delivered since. */
  lemma {:induction false} LogIsBoundedView(ws: seq<Write>)
    requires IssuedOnce(ws) && Coherent(ws)
    ensures IsBoundedView(RunLog([], ws), ws)
    decreases |ws|
  {
    if ws != [] {
      var n := |ws| - 1;
      assert IssuedOnce(ws[..n]);
      CoherentPrefix(ws, n);
      LogIsBoundedView(ws[..n]);
      match ws[n]
      case IssueWrite(_) => IssueKeepsView(ws, n, RunLog([], ws[..n]));
      case AckWrite(_) => AckKeepsView(ws, n, RunLog([], ws[..n]));
    }
  }

  /** A log never holds more than 200 records: the latest issues, newest first, whatever was acknowledged
      and whether or not ids are unique. */
  lemma {:induction false} LogHoldsLatestIssues(ws: seq<Write>)
    ensures var log, issues := RunLog([], ws), IssuesOf(ws);
            && |log| == (if |issues| <= 200 then |issues| else 200)
            && forall k :: 0 <= k < |log| ==> log[k].issue == issues[|issues| - 1 - k]
    decreases |ws|
  {
    if ws != [] {
      var init, last := ws[..|ws| - 1], ws[|ws| - 1];
      LogHoldsLatestIssues(init);
      match last
      case IssueWrite(i) => IssueAt(RunLog([], init), i);
      case AckWrite(a) => AckKeepsOrder(RunLog([], init), a);
    }
  }

  // ----- Log and table -----

  /** A record and a row say the same. */
  ghost predicate SameCommand(r: Record, row: Row)
  {
    HoldsIssue(row, r.issue) && row.status == r.status && row.ack == r.ack
  }

  ghost predicate IsRowOf(t: Table, r: Record)
  {
    r.issue.commandID in t && SameCommand(r, t[r.issue.commandID])
  }

  /** The log holds the last min(n, 200) issues, newest first, each agreeing with its table row. */
  ghost predicate Agrees(log: Log, table: Table, issues: seq<Issue>)
  {
    && |log| == Min(|issues|, LIMIT)
    && forall k :: 0 <= k < |log| ==> log[k].issue == issues[|issues| - 1 - k] && IsRowOf(table, log[k])
  }

  ghost predicate AckAt(ws: seq<Write>, k: int, id: string)
  {
    0 <= k < |ws| && ws[k].AckWrite? && IdOf(ws[k]) == id
  }

  /** The command has an acknowledgement in the trace. */
  ghost predicate HasAck(ws: seq<Write>, id: string)
  {
    exists k :: AckAt(ws, k, id)
  }

  /** The command has an acknowledgement delivered after its issue. */
  ghost predicate AckedInTime(ws: seq<Write>, i: Issue)
  {
    exists j, k :: 0 <= j < k && AckAt(ws, k, i.commandID) && ws[j] == IssueWrite(i)
  }

  /** No delivery after the issue was needed, or there was one. */
  ghost predicate NoAckMissed(ws: seq<Write>, i: Issue)
  {
    HasAck(ws, i.commandID) ==> AckedInTime(ws, i)
  }

  /** What the log has heard is whether some delivery came after the issue. */
  lemma {:induction false} AckedSinceIff(ws: seq<Write>, i: Issue)
    requires IssuedOnce(ws) && IssueWrite(i) in ws
    ensures AckedSince(ws, i.commandID).Some? <==> AckedInTime(ws, i)
    decreases |ws|
  {
    var n := |ws| - 1;
    var before := ws[..n];
    assert ws == before + [ws[n]];
    if ws[n].IssueWrite? && IdOf(ws[n]) == i.commandID {
      assert forall j :: 0 <= j < n && ws[j].IssueWrite? ==> IdOf(ws[j]) != i.commandID;
    } else {
      assert IssueWrite(i) in before;
      var j :| 0 <= j < n && ws[j] == IssueWrite(i);
      if AckAt(ws, n, i.commandID) {
        assert AckedInTime(ws, i);
      } else {
        assert IssuedOnce(before);
        AckedSinceIff(before, i);
        InTimeSnoc(ws, n, i);
      }
    }
  }

  lemma InTimeSnoc(ws: seq<Write>, n: nat, i: Issue)
    requires |ws| == n + 1 && !AckAt(ws, n, i.commandID)
    ensures AckedInTime(ws, i) <==> AckedInTime(ws[..n], i)
  {
    var before := ws[..n];
    if AckedInTime(ws, i) {
      var j, k :| 0 <= j < k && AckAt(ws, k, i.commandID) && ws[j] == IssueWrite(i);
      assert AckAt(before, k, i.commandID) && before[j] == IssueWrite(i);
    }
    if AckedInTime(before, i) {
      var j, k :| 0 <= j < k && AckAt(before, k, i.commandID) && before[j] == IssueWrite(i);
      assert AckAt(ws, k, i.commandID) && ws[j] == IssueWrite(i);
    }
  }

  /** What the log has heard, the table has heard too. */
  lemma {:induction false} AckedSinceIsHeard(ws: seq<Write>, id: string)
    ensures AckedSince(ws, id).Some? ==> AckedSince(ws, id) == Heard(ws, id).ack
    decreases |ws|
  {
    if ws != [] {
      AckedSinceIsHeard(ws[..|ws| - 1], id);
    }
  }

  /** The view of an issued command and its table row say the same if and only if no acknowledgement
      was missed. */
  lemma ViewIsRowIff(ws: seq<Write>, i: Issue)
    requires IssuedOnce(ws) && Coherent(ws) && IssueWrite(i) in ws
    ensures IsRowOf(RunTable(map[], ws), View(i, ws)) <==> NoAckMissed(ws, i)
  {
    HeardIsMembership(ws, i.commandID);
    TableIsHeard(ws, i.commandID);
    assert Heard(ws, i.commandID).issue == Some(i);
    assert Lookup(RunTable(map[], ws), i.commandID).Some?;
    AckedSinceIff(ws, i);
    AckedSinceIsHeard(ws, i.commandID);
    HasAckIsHeard(ws, i.commandID);
  }

  lemma HasAckIsHeard(ws: seq<Write>, id: string)
    requires Coherent(ws)
    ensures HasAck(ws, id) <==> Heard(ws, id).ack.Some?
  {
    HeardIsMembership(ws, id);
    if HasAck(ws, id) {
      var k :| AckAt(ws, k, id);
      assert ws[k] == AckWrite(ws[k].ack);
    }
    if Heard(ws, id).ack.Some? {
      var a := Heard(ws, id).ack.value;
      var k :| 0 <= k < |ws| && ws[k] == AckWrite(a);
      assert AckAt(ws, k, id);
    }
  }

  /** The last min(n, 200) issues. */
  ghost predicate IsRecent(issues: seq<Issue>, k: int)
  {
    0 <= k && |issues| - LIMIT <= k < |issues|
  }

  /** However the writes to memory and to the table interleave, once both have received the same writes
      they agree if and only if memory missed no acknowledgement of the issues it still holds: each that
      is acknowledged at all had a delivery after its issue. */
  lemma LogAgreesWithTableIff(toLog: seq<Write>, toTable: seq<Write>)
    requires IssuedOnce(toLog) && Coherent(toLog)
    requires SameWrites(toLog, toTable)
    ensures Agrees(RunLog([], toLog), RunTable(map[], toTable), IssuesOf(toLog))
            <==> forall k :: IsRecent(IssuesOf(toLog), k) ==> NoAckMissed(toLog, IssuesOf(toLog)[k])
  {
    var log, table, issues := RunLog([], toLog), RunTable(map[], toTable), IssuesOf(toLog);
    LogIsBoundedView(toLog);
    TableConverges(toLog, toTable);
    hide IssuedOnce, Coherent, SameWrites, View, NoAckMissed, IsRowOf, RunLog, RunTable, IssuesOf, Agrees;
    forall k | 0 <= k < |log|
      ensures log[k].issue == issues[|issues| - 1 - k]
      ensures IsRowOf(table, log[k]) <==> NoAckMissed(toLog, issues[|issues| - 1 - k])
    {
      IssuesAreIn(toLog, |issues| - 1 - k);
      ViewIsRowIff(toLog, issues[|issues| - 1 - k]);
      ViewOfIssue(toLog, issues[|issues| - 1 - k]);
    }
    AgreesIff(toLog, log, table, issues);
  }

  lemma AgreesIff(ws: seq<Write>, log: Log, table: Table, issues: seq<Issue>)
    requires |log| == Min(|issues|, LIMIT)
    requires forall k :: 0 <= k < |log| ==>
               && log[k].issue == issues[|issues| - 1 - k]
               && (IsRowOf(table, log[k]) <==> NoAckMissed(ws, issues[|issues| - 1 - k]))
    ensures Agrees(log, table, issues) <==> forall k :: IsRecent(issues, k) ==> NoAckMissed(ws, issues[k])
  {
    hide NoAckMissed, IsRowOf;
    if Agrees(log, table, issues) {
      forall k | IsRecent(issues, k)
        ensures NoAckMissed(ws, issues[k])
      {
        assert IsRowOf(table, log[|issues| - 1 - k]);
      }
    }
    if forall k :: IsRecent(issues, k) ==> NoAckMissed(ws, issues[k]) {
      forall k | 0 <= k < |log|
        ensures IsRowOf(table, log[k])
      {
        assert IsRecent(issues, |issues| - 1 - k);
      }
    }
  }

  lemma ViewOfIssue(ws: seq<Write>, i: Issue)
    ensures View(i, ws).issue == i
  {
  }

  /** Every acknowledgement reaches the log after the issue did. */
  ghost predicate InOrder(ws: seq<Write>)
  {
    forall k :: 0 <= k < |ws| && ws[k].AckWrite? ==>
      exists j :: 0 <= j < k && ws[j].IssueWrite? && IdOf(ws[j]) == IdOf(ws[k])
  }

  /** In particular log and table agree when no acknowledgement overtakes its issue. */
  lemma LogAgreesWithTable(toLog: seq<Write>, toTable: seq<Write>)
    requires IssuedOnce(toLog) && Coherent(toLog) && InOrder(toLog)
    requires SameWrites(toLog, toTable)
    ensures Agrees(RunLog([], toLog), RunTable(map[], toTable), IssuesOf(toLog))
  {
    LogAgreesWithTableIff(toLog, toTable);
    forall k | IsRecent(IssuesOf(toLog), k)
      ensures NoAckMissed(toLog, IssuesOf(toLog)[k])
    {
      IssuesAreIn(toLog, k);
      InOrderMissesNone(toLog, IssuesOf(toLog)[k]);
    }
  }

  lemma InOrderMissesNone(ws: seq<Write>, i: Issue)
    requires Coherent(ws) && InOrder(ws) && IssueWrite(i) in ws
    ensures NoAckMissed(ws, i)
  {
    if HasAck(ws, i.commandID) {
      var k :| AckAt(ws, k, i.commandID);
      var j :| 0 <= j < k && ws[j].IssueWrite? && IdOf(ws[j]) == IdOf(ws[k]);
      assert ws[j] in ws && ws[j] == IssueWrite(i);
    }
  }

  /** Acknowledgements never reorder, add or drop records: the issues stay as they are. */
  lemma {:induction false} AckKeepsOrder(log: Log, a: Ack)
    ensures |AckFirst(log, a)| == |log|
    ensures forall k :: 0 <= k < |log| ==> AckFirst(log, a)[k].issue == log[k].issue
    decreases |log|
  {
    if log != [] {
      AckKeepsOrder(log[1..], a);
    }
  }

  ghost predicate RecordStatusAgrees(r: Record)
  {
    r.status == match r.ack
                case None => Issued
                case Some(c) => if c.ok then Acked else FailedAck
  }

  /** A record's status is issued, acked or failed exactly as its ack is absent, OK or not OK, over
      every run and without any premise on the writes. */
  lemma {:induction false} LogStatusFollowsAck(ws: seq<Write>)
    ensures forall k :: 0 <= k < |RunLog([], ws)| ==> RecordStatusAgrees(RunLog([], ws)[k])
    decreases |ws|
  {
    if ws != [] {
      var log := RunLog([], ws[..|ws| - 1]);
      LogStatusFollowsAck(ws[..|ws| - 1]);
      if ws[|ws| - 1].AckWrite? {
        AckFirstStatus(log, ws[|ws| - 1].ack);
      }
    }
  }

  lemma {:induction false} AckFirstStatus(log: Log, a: Ack)
    requires forall k :: 0 <= k < |log| ==> RecordStatusAgrees(log[k])
    ensures forall k :: 0 <= k < |AckFirst(log, a)| ==> RecordStatusAgrees(AckFirst(log, a)[k])
    decreases |log|
  {
    if log != [] {
      AckFirstStatus(log[1..], a);
    }
  }

  /** An acknowledgement that overtakes its issue is dropped by the log and kept by the table. */
  lemma OvertakingAckSplits(i: Issue, a: Ack)
    requires i.commandID == a.commandID && i.deviceID == a.deviceID
    ensures var ws := [AckWrite(a), IssueWrite(i)];
            !Agrees(RunLog([], ws), RunTable(map[], ws), IssuesOf(ws))
  {
    var ws := [AckWrite(a), IssueWrite(i)];
    assert IssuedOnce(ws) && Coherent(ws);
    IssuesOfSnoc([], AckWrite(a));
    IssuesOfSnoc([AckWrite(a)], IssueWrite(i));
    assert [] + [AckWrite(a)] == [AckWrite(a)] && [AckWrite(a)] + [IssueWrite(i)] == ws;
    hide IssuedOnce, Coherent, IssuesOf, Agrees, RunLog, RunTable;
    LogAgreesWithTableIff(ws, ws);
    assert IsRecent(IssuesOf(ws), 0);
    assert AckAt(ws, 0, i.commandID) && !AckedInTime(ws, i);
  }

  lemma IssuesOfSnoc(ws: seq<Write>, w: Write)
    ensures IssuesOf(ws + [w]) == IssuesOf(ws) + if w.IssueWrite? then [w.issue] else []
  {
    assert (ws + [w])[..|ws|] == ws;
  }
}
