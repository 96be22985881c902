/** The command_records table: two upserts, one for the issue of a command and one for its
    acknowledgement, that may arrive in either order and be redelivered. */
module CommandTable {
  import opened Model

  /** The data of one issued command, as PublishCommand records it. */
  datatype Issue = Issue(commandID: string, siteID: string, deviceID: string, deviceType: string,
                         action: string, params: string, reason: string, issuedAt: int)

  /** One acknowledgement, with the site, type and device its topic names. */
  datatype Ack = Ack(commandID: string, siteID: string, deviceID: string, deviceType: string,
                     ok: bool, error: string, timestamp: int)

  /** The three ack columns; they are NULL together. */
  datatype AckColumns = AckColumns(ok: bool, error: string, timestamp: int)

  datatype Status = Issued | Acked | FailedAck

  /** One row; the key is the command id and `updated_at` is not modelled. */
  datatype Row = Row(siteID: string, deviceID: string, deviceType: string, action: string, params: string,
                     reason: string, issuedAt: int, status: Status, ack: Option<AckColumns>)

  type Table = map<string, Row>

  function StatusOf(a: Ack): Status
  {
    if a.ok then Acked else FailedAck
  }

  function Columns(a: Ack): AckColumns
  {
    AckColumns(a.ok, a.error, a.timestamp)
  }

  function IssuedRow(i: Issue): Row
  {
    Row(i.siteID, i.deviceID, i.deviceType, i.action, i.params, i.reason, i.issuedAt, Issued, None)
  }

  /** What an acknowledgement inserts when the command is not there yet. */
  function PlaceholderRow(a: Ack): Row
  {
    Row(a.siteID, a.deviceID, a.deviceType, "", "{}", "", a.timestamp, StatusOf(a), Some(Columns(a)))
  }

  datatype Write = IssueWrite(issue: Issue) | AckWrite(ack: Ack)

  function IdOf(w: Write): string
  {
    match w
    case IssueWrite(i) => i.commandID
    case AckWrite(a) => a.commandID
  }

  /** The upserts on one row: the conflict clause of each INSERT. */
  function UpsertRow(row: Option<Row>, w: Write): Row
  {
    match (row, w)
    case (None, IssueWrite(i)) => IssuedRow(i)
    case (None, AckWrite(a)) => PlaceholderRow(a)
    case (Some(r), IssueWrite(i)) =>
      IssuedRow(i).(status := if r.ack == None then Issued else r.status, ack := r.ack)
    case (Some(r), AckWrite(a)) =>
      if r.deviceID == a.deviceID then r.(status := StatusOf(a), ack := Some(Columns(a))) else r
  }

  function Lookup(t: Table, id: string): Option<Row>
  {
    if id in t then Some(t[id]) else None
  }

  function Upsert(t: Table, w: Write): Table
  {
    t[IdOf(w) := UpsertRow(Lookup(t, IdOf(w)), w)]
  }

  function RunTable(t: Table, ws: seq<Write>): Table
    decreases |ws|
  {
    if ws == [] then t else Upsert(RunTable(t, ws[..|ws| - 1]), ws[|ws| - 1])
  }

  // ----- What a statement writes, column by column -----

  /** The issue columns of a row. */
  ghost predicate HoldsIssue(r: Row, i: Issue)
  {
    && r.siteID == i.siteID && r.deviceID == i.deviceID && r.deviceType == i.deviceType && r.action == i.action
    && r.params == i.params && r.reason == i.reason && r.issuedAt == i.issuedAt
  }

  /** The issue columns an acknowledgement fills in when it comes first. */
  ghost predicate HoldsPlaceholder(r: Row, a: Ack)
  {
    && r.siteID == a.siteID && r.deviceID == a.deviceID && r.deviceType == a.deviceType && r.action == ""
    && r.params == "{}" && r.reason == "" && r.issuedAt == a.timestamp
  }

  /** The status and the ack columns of a row. */
  ghost predicate HoldsAck(r: Row, a: Ack)
  {
    && r.status == (if a.ok then Acked else FailedAck) && r.ack.Some?
    && r.ack.value.ok == a.ok && r.ack.value.error == a.error && r.ack.value.timestamp == a.timestamp
  }

  ghost predicate SameIssueColumns(r: Row, q: Row)
  {
    && r.siteID == q.siteID && r.deviceID == q.deviceID && r.deviceType == q.deviceType && r.action == q.action
    && r.params == q.params && r.reason == q.reason && r.issuedAt == q.issuedAt
  }

  /** An issue always replaces the issue columns and keeps the ack columns; the status falls back to
      issued only while there is no ack. */
  lemma IssueWritesColumns(t: Table, i: Issue)
    ensures var n := Upsert(t, IssueWrite(i));
            && n.Keys == t.Keys + {i.commandID} && HoldsIssue(n[i.commandID], i)
            && n[i.commandID].ack == (if i.commandID in t then t[i.commandID].ack else None)
            && n[i.commandID].status == (if i.commandID in t && t[i.commandID].ack.Some?
                then t[i.commandID].status else Issued)
            && forall id :: id in t && id != i.commandID ==> n[id] == t[id]
  {
  }

  /** An ack of the row's device replaces status and ack columns and nothing else; one of another device
      changes nothing; one without a row makes a placeholder. */
  lemma AckWritesColumns(t: Table, a: Ack)
    ensures var n := Upsert(t, AckWrite(a));
            && n.Keys == t.Keys + {a.commandID}
            && (a.commandID !in t ==> HoldsPlaceholder(n[a.commandID], a) && HoldsAck(n[a.commandID], a))
            && (a.commandID in t && t[a.commandID].deviceID == a.deviceID ==>
                  SameIssueColumns(n[a.commandID], t[a.commandID]) && HoldsAck(n[a.commandID], a))
            && (a.commandID in t && t[a.commandID].deviceID != a.deviceID ==> n[a.commandID] == t[a.commandID])
            && forall id :: id in t && id != a.commandID ==> n[id] == t[id]
  {
  }

  /** The table as the database keeps it, changed in place by the two statements. */
  class CommandTable {
    var rows: Table

    constructor ()
      ensures rows == map[]
    {
      rows := map[];
    }

    /** A failed statement (`stored` false) leaves the table alone. */
    method PutCommandIssued(i: Issue, stored: bool)
      modifies this
      ensures rows == if stored then Upsert(old(rows), IssueWrite(i)) else old(rows)
    {
      if !stored {
        return;
      }
      var row := IssuedRow(i);
      if i.commandID in rows {
        var existing := rows[i.commandID];
        row := row.(ack := existing.ack);
        if existing.ack != None {
          row := row.(status := existing.status);
        }
      }
      rows := rows[i.commandID := row];
    }

    method PutCommandAck(a: Ack, stored: bool)
      modifies this
      ensures rows == if stored then Upsert(old(rows), AckWrite(a)) else old(rows)
    {
      if !stored {
        return;
      }
      if a.commandID !in rows {
        rows := rows[a.commandID := PlaceholderRow(a)];
      } else if rows[a.commandID].deviceID == a.deviceID {
        rows := rows[a.commandID := rows[a.commandID].(status := StatusOf(a), ack := Some(Columns(a)))];
      } else {
        assert rows == rows[a.commandID := rows[a.commandID]];
      }
    }
  }

  // ----- Convergence -----

  /** Each command has at most one issue and one acknowledgement, both naming the same device. */
  ghost predicate Coherent(ws: seq<Write>)
  {
    && (forall x, y :: IssueWrite(x) in ws && IssueWrite(y) in ws && x.commandID == y.commandID ==> x == y)
    && (forall x, y :: AckWrite(x) in ws && AckWrite(y) in ws && x.commandID == y.commandID ==> x == y)
    && (forall x, y :: IssueWrite(x) in ws && AckWrite(y) in ws && x.commandID == y.commandID
                    ==> x.deviceID == y.deviceID)
  }

  /** What has been heard about one command. */
  datatype Known = Known(issue: Option<Issue>, ack: Option<Ack>)

  function Heard(ws: seq<Write>, id: string): Known
    decreases |ws|
  {
    if ws == [] then Known(None, None) else
      var k := Heard(ws[..|ws| - 1], id);
      match ws[|ws| - 1]
      case IssueWrite(i) => if i.commandID == id then k.(issue := Some(i)) else k
      case AckWrite(a) => if a.commandID == id then k.(ack := Some(a)) else k
  }

  /** The row a command ends with, whatever the order of arrival. */
  function FinalRow(k: Known): Option<Row>
  {
    match k
    case Known(None, None) => None
    case Known(Some(i), None) => Some(IssuedRow(i))
    case Known(None, Some(a)) => Some(PlaceholderRow(a))
    case Known(Some(i), Some(a)) => Some(IssuedRow(i).(status := StatusOf(a), ack := Some(Columns(a))))
  }

  /** In a coherent trace, hearing a write is the same as the write being in the trace. */
  lemma {:induction false} HeardIsMembership(ws: seq<Write>, id: string)
    requires Coherent(ws)
    ensures forall i: Issue :: Heard(ws, id).issue == Some(i) <==> IssueWrite(i) in ws && i.commandID == id
    ensures forall a: Ack :: Heard(ws, id).ack == Some(a) <==> AckWrite(a) in ws && a.commandID == id
    decreases |ws|
  {
    if ws != [] {
      var before, last := ws[..|ws| - 1], ws[|ws| - 1];
      assert ws == before + [last];
      assert Coherent(before);
      HeardIsMembership(before, id);
      assert last in ws;
    }
  }

  /** One more write moves the final row as the upsert does. */
  lemma UpsertIsFinal(k: Known, w: Write)
    requires w.IssueWrite? ==> k.issue == None || k.issue == Some(w.issue)
    requires w.IssueWrite? && k.ack.Some? ==> k.ack.value.deviceID == w.issue.deviceID
    requires w.AckWrite? ==> k.ack == None || k.ack == Some(w.ack)
    requires w.AckWrite? && k.issue.Some? ==> k.issue.value.deviceID == w.ack.deviceID
    ensures Some(UpsertRow(FinalRow(k), w))
            == FinalRow(if w.IssueWrite? then k.(issue := Some(w.issue)) else k.(ack := Some(w.ack)))
  {
  }

  /** The table holds, for every command, exactly the final row of what was heard about it. */
  lemma {:induction false} TableIsHeard(ws: seq<Write>, id: string)
    requires Coherent(ws)
    ensures Lookup(RunTable(map[], ws), id) == FinalRow(Heard(ws, id))
    decreases |ws|
  {
    if ws != [] {
      var before, last := ws[..|ws| - 1], ws[|ws| - 1];
      assert ws == before + [last];
      assert Coherent(before);
      TableIsHeard(before, id);
      if IdOf(last) == id {
        HeardIsMembership(before, id);
        var k := Heard(before, id);
        assert last in ws;
        assert k.issue.Some? ==> IssueWrite(k.issue.value) in ws;
        assert k.ack.Some? ==> AckWrite(k.ack.value) in ws;
        UpsertIsFinal(k, last);
      }
    }
  }

  /** So after any coherent trace: the row of an issued command holds its issue, and its ack if it has one. */
  lemma IssuedRowHoldsIssue(ws: seq<Write>, i: Issue)
    requires Coherent(ws) && IssueWrite(i) in ws
    ensures var t := RunTable(map[], ws);
            && i.commandID in t && HoldsIssue(t[i.commandID], i)
            && (forall a :: AckWrite(a) in ws && a.commandID == i.commandID ==> HoldsAck(t[i.commandID], a))
            && ((forall a :: AckWrite(a) in ws ==> a.commandID != i.commandID)
                ==> t[i.commandID].ack == None && t[i.commandID].status == Issued)
  {
    HeardIsMembership(ws, i.commandID);
    TableIsHeard(ws, i.commandID);
    assert Heard(ws, i.commandID).issue == Some(i);
    var known := Heard(ws, i.commandID).ack;
    assert known.Some? ==> AckWrite(known.value) in ws && known.value.commandID == i.commandID;
  }

  /** The row of a command known by its ack alone is a placeholder that holds the ack; a command nothing
      was written about has no row. */
  lemma UnissuedRowHoldsAck(ws: seq<Write>, id: string)
    requires Coherent(ws) && forall i :: IssueWrite(i) in ws ==> i.commandID != id
    ensures var t := RunTable(map[], ws);
            && (id in t <==> exists a :: AckWrite(a) in ws && a.commandID == id)
            && forall a :: AckWrite(a) in ws && a.commandID == id ==> HoldsPlaceholder(t[id], a) && HoldsAck(t[id], a)
  {
    HeardIsMembership(ws, id);
    TableIsHeard(ws, id);
    var known := Heard(ws, id);
    assert known.ack.Some? ==> AckWrite(known.ack.value) in ws && known.ack.value.commandID == id;
  }

  /** The same writes occur, in any order and any number of times. */
  ghost predicate SameWrites(ws: seq<Write>, ws': seq<Write>)
  {
    forall w :: w in ws <==> w in ws'
  }

  /** Permuting or duplicating deliveries changes nothing: the table depends only on which writes occurred. */
  lemma TableConverges(ws: seq<Write>, ws': seq<Write>)
    requires Coherent(ws)
    requires SameWrites(ws, ws')
    ensures RunTable(map[], ws) == RunTable(map[], ws')
  {
    assert Coherent(ws');
    var t, t' := RunTable(map[], ws), RunTable(map[], ws');
    forall id: string
      ensures Lookup(t, id) == Lookup(t', id)
    {
      SameHeard(ws, ws', id);
      TableIsHeard(ws, id);
      TableIsHeard(ws', id);
    }
    forall id: string
      ensures id in t <==> id in t'
      ensures id in t ==> t[id] == t'[id]
    {
      assert Lookup(t, id) == Lookup(t', id);
    }
  }

  lemma SameHeard(ws: seq<Write>, ws': seq<Write>, id: string)
    requires Coherent(ws) && Coherent(ws')
    requires SameWrites(ws, ws')
    ensures Heard(ws, id) == Heard(ws', id)
  {
    HeardIsMembership(ws, id);
    HeardIsMembership(ws', id);
    var k, k' := Heard(ws, id), Heard(ws', id);
    if k.issue.Some? {
      assert k'.issue == Some(k.issue.value);
    }
    if k'.issue.Some? {
      assert k.issue == Some(k'.issue.value);
    }
    if k.ack.Some? {
      assert k'.ack == Some(k.ack.value);
    }
    if k'.ack.Some? {
      assert k.ack == Some(k'.ack.value);
    }
  }

  /** The premise on devices is exactly what convergence needs: an issue and an ack of one command
      commute if and only if they name the same device. */
  lemma IssueAndAckCommute(i: Issue, a: Ack)
    requires i.commandID == a.commandID
    ensures Upsert(Upsert(map[], IssueWrite(i)), AckWrite(a)) == Upsert(Upsert(map[], AckWrite(a)), IssueWrite(i))
            <==> i.deviceID == a.deviceID
  {
    var id := i.commandID;
    var issueFirst := Upsert(Upsert(map[], IssueWrite(i)), AckWrite(a));
    var ackFirst := Upsert(Upsert(map[], AckWrite(a)), IssueWrite(i));
    assert ackFirst[id].ack == Some(Columns(a));
    assert i.deviceID != a.deviceID ==> issueFirst[id].ack == None;
    assert i.deviceID == a.deviceID ==> issueFirst[id] == ackFirst[id];
  }

  /** The status column never disagrees with the ack columns, whatever was written, in any order and
      from any device. */
  ghost predicate StatusAgrees(r: Row)
  {
    r.status == match r.ack
                case None => Issued
                case Some(c) => if c.ok then Acked else FailedAck
  }

  lemma {:induction false} StatusFollowsAck(ws: seq<Write>)
    ensures forall id :: id in RunTable(map[], ws) ==> StatusAgrees(RunTable(map[], ws)[id])
    decreases |ws|
  {
    if ws != [] {
      StatusFollowsAck(ws[..|ws| - 1]);
    }
  }
}
