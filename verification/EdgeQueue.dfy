/** The edge gateway's store-and-forward queue: a table of messages with growing row ids, one flusher
    that publishes the oldest pending rows upstream and marks them sent, and a cleanup of sent rows. */
module EdgeQueue {
  import Topics
  import opened Model

  /** A message as it was put: its local topic and its payload. */
  datatype Message = Message(topic: string, payload: string)

  datatype Row = Row(msg: Message, createdAt: int, sentAt: Option<int>)

  type Table = map<int, Row>

  datatype Entry = Entry(id: int, msg: Message)

  /** Where the single flusher stands: not flushing, about to publish the head of its batch, or about
      to mark the head it has just published. */
  datatype Flusher = Idle | Sending(batch: seq<Entry>) | Marking(batch: seq<Entry>)

  /** The cache, the flusher and two logs: every message ever put, and every publish upstream. Row ids
      come from AUTOINCREMENT: `nextId` never goes back, even when rows are deleted. */
  datatype Queue = Queue(rows: Table, nextId: int, flusher: Flusher, inserted: seq<Message>, upstream: seq<Entry>)

  /** One atomic step. A failed Put or cleanup changes nothing and is no step. */
  datatype Event =
    | Put(msg: Message, now: int)
    | Cleanup(cutoff: int)
    | Begin
    | PublishOk
    | PublishError
    | MarkOk(now: int)
    | MarkError
    | Done
    | Crash

  /** The batch flushPending asks for. */
  const BATCH: nat := 100

  predicate PendingAt(rows: Table, id: int)
  {
    id in rows && rows[id].sentAt == None
  }

  /** The first `limit` pending rows with ids in [from, upto), in id order. */
  function PendingRows(rows: Table, from: int, upto: int, limit: nat): seq<Entry>
    decreases upto - from
  {
    if from >= upto || limit == 0 then []
    else if PendingAt(rows, from) then [Entry(from, rows[from].msg)] + PendingRows(rows, from + 1, upto, limit - 1)
    else PendingRows(rows, from + 1, upto, limit)
  }

  function Mark(rows: Table, id: int, now: int): Table
  {
    if id in rows then rows[id := rows[id].(sentAt := Some(now))] else rows
  }

  function DropSent(rows: Table, cutoff: int): Table
  {
    map id | id in rows && !(rows[id].sentAt.Some? && rows[id].sentAt.value < cutoff) :: rows[id]
  }

  function Step(q: Queue, e: Event): Queue
  {
    match (e, q.flusher)
    case (Put(msg, now), _) =>
      q.(rows := q.rows[q.nextId := Row(msg, now, None)], nextId := q.nextId + 1, inserted := q.inserted + [msg])
    case (Cleanup(cutoff), _) => q.(rows := DropSent(q.rows, cutoff))
    case (Begin, Idle) => q.(flusher := Sending(PendingRows(q.rows, 1, q.nextId, BATCH)))
    case (PublishOk, Sending(b)) =>
      if b == [] then q else q.(flusher := Marking(b), upstream := q.upstream + [b[0]])
    case (PublishError, Sending(_)) => q.(flusher := Idle)
    case (MarkOk(now), Marking(b)) =>
      if b == [] then q else q.(rows := Mark(q.rows, b[0].id, now), flusher := Sending(b[1..]))
    case (MarkError, Marking(_)) => q.(flusher := Idle)
    case (Done, Sending(b)) => if b == [] then q.(flusher := Idle) else q
    case (Crash, _) => q.(flusher := Idle)
    case (_, _) => q
  }

  function Run(q: Queue, events: seq<Event>): Queue
    decreases |events|
  {
    if events == [] then q else Step(Run(q, events[..|events| - 1]), events[|events| - 1])
  }

  function Empty(): Queue
  {
    Queue(map[], 1, Idle, [], [])
  }

  lemma RunSnoc(q: Queue, events: seq<Event>, e: Event)
    ensures Run(q, events + [e]) == Step(Run(q, events), e)
  {
    assert (events + [e])[..|events|] == events;
  }

  lemma {:induction false} RunAppend(q: Queue, first: seq<Event>, second: seq<Event>)
    ensures Run(q, first + second) == Run(Run(q, first), second)
    decreases |second|
  {
    if second == [] {
      assert first + second == first;
    } else {
      var n := |second| - 1;
      assert (first + second)[..|first + second| - 1] == first + second[..n];
      RunAppend(q, first, second[..n]);
    }
  }

  // ----- The pending query -----

  ghost predicate Increasing(b: seq<Entry>)
  {
    forall j, k :: 0 <= j < k < |b| ==> b[j].id < b[k].id
  }

  ghost predicate InBatch(b: seq<Entry>, id: int)
  {
    exists j :: 0 <= j < |b| && b[j].id == id
  }

  ghost predicate AllBelow(b: seq<Entry>, id: int)
  {
    forall j :: 0 <= j < |b| ==> b[j].id < id
  }

  /** `b` lists rows that are pending, in increasing order. */
  ghost predicate ListsPending(rows: Table, b: seq<Entry>)
  {
    Increasing(b) && forall k :: 0 <= k < |b| ==> PendingAt(rows, b[k].id) && rows[b[k].id].msg == b[k].msg
  }

  /** `b` lists the oldest pending rows: every other pending row comes after all of it. */
  ghost predicate IsOldestPending(rows: Table, b: seq<Entry>)
  {
    ListsPending(rows, b) && forall p :: PendingAt(rows, p) ==> InBatch(b, p) || AllBelow(b, p)
  }

  lemma InBatchCons(e: Entry, b: seq<Entry>, id: int)
    ensures InBatch([e] + b, id) <==> e.id == id || InBatch(b, id)
  {
    var all := [e] + b;
    if InBatch(b, id) {
      var j :| 0 <= j < |b| && b[j].id == id;
      assert all[j + 1].id == id;
    }
    if e.id == id {
      assert all[0].id == id;
    }
  }

  lemma {:induction false} PendingRowsArePending(rows: Table, from: int, upto: int, limit: nat)
    ensures ListsPending(rows, PendingRows(rows, from, upto, limit))
    ensures forall e :: e in PendingRows(rows, from, upto, limit) ==> from <= e.id < upto
    ensures |PendingRows(rows, from, upto, limit)| <= limit
    decreases upto - from
  {
    if from < upto && limit > 0 {
      if PendingAt(rows, from) {
        PendingRowsArePending(rows, from + 1, upto, limit - 1);
        var rest := PendingRows(rows, from + 1, upto, limit - 1);
        forall k | 0 <= k < |rest|
          ensures from < rest[k].id
        {
          assert rest[k] in rest;
        }
      } else {
        PendingRowsArePending(rows, from + 1, upto, limit);
      }
    }
  }

  /** A pending row is in the list, unless the limit was reached before it. */
  lemma {:induction false} PendingRowsMissNone(rows: Table, from: int, upto: int, limit: nat, p: int)
    requires PendingAt(rows, p) && from <= p < upto
    ensures || InBatch(PendingRows(rows, from, upto, limit), p)
            || (|PendingRows(rows, from, upto, limit)| == limit && AllBelow(PendingRows(rows, from, upto, limit), p))
    decreases upto - from
  {
    if limit > 0 {
      if PendingAt(rows, from) {
        var e, rest := Entry(from, rows[from].msg), PendingRows(rows, from + 1, upto, limit - 1);
        InBatchCons(e, rest, p);
        if from < p {
          PendingRowsMissNone(rows, from + 1, upto, limit - 1, p);
        }
      } else {
        PendingRowsMissNone(rows, from + 1, upto, limit, p);
      }
    }
  }

  /** PendingRows is the query: pending rows in order, all of them unless the limit cuts the list short. */
  lemma PendingRowsAreOldest(rows: Table, from: int, upto: int, limit: nat)
    requires forall id :: id in rows ==> from <= id < upto
    ensures IsOldestPending(rows, PendingRows(rows, from, upto, limit))
    ensures |PendingRows(rows, from, upto, limit)| <= limit
    ensures |PendingRows(rows, from, upto, limit)| < limit
            ==> forall p :: PendingAt(rows, p) ==> InBatch(PendingRows(rows, from, upto, limit), p)
  {
    PendingRowsArePending(rows, from, upto, limit);
    forall p | PendingAt(rows, p)
      ensures || InBatch(PendingRows(rows, from, upto, limit), p)
              || (|PendingRows(rows, from, upto, limit)| == limit && AllBelow(PendingRows(rows, from, upto, limit), p))
    {
      PendingRowsMissNone(rows, from, upto, limit, p);
    }
  }

  // ----- The invariant -----

  /** What stays true of the table and the logs, whatever the flusher does. */
  ghost predicate TableInv(q: Queue)
  {
    && q.nextId == |q.inserted| + 1
    && (forall id :: id in q.rows ==> 1 <= id < q.nextId && q.rows[id].msg == q.inserted[id - 1])
    && (forall k :: 0 <= k < |q.upstream| ==>
          1 <= q.upstream[k].id < q.nextId && q.upstream[k].msg == q.inserted[q.upstream[k].id - 1])
  }

  ghost predicate Published(q: Queue, id: int)
  {
    exists k :: 0 <= k < |q.upstream| && q.upstream[k].id == id
  }

  /** Every message ever put is still pending or has been published. */
  ghost predicate NothingLost(q: Queue)
  {
    forall id :: 1 <= id < q.nextId ==> PendingAt(q.rows, id) || Published(q, id)
  }

  /** The publish log never goes back to an earlier row. */
  ghost predicate NeverGoesBack(q: Queue)
  {
    forall j, k :: 0 <= j <= k < |q.upstream| ==> q.upstream[j].id <= q.upstream[k].id
  }

  /** No publish has overtaken a row that is still pending. */
  ghost predicate NoOvertaking(q: Queue)
  {
    forall k, p :: 0 <= k < |q.upstream| && PendingAt(q.rows, p) ==> q.upstream[k].id <= p
  }

  ghost predicate FlusherInv(q: Queue)
  {
    match q.flusher
    case Idle => true
    case Sending(b) => IsOldestPending(q.rows, b)
    case Marking(b) => b != [] && IsOldestPending(q.rows, b) && Published(q, b[0].id)
  }

  ghost predicate Inv(q: Queue)
  {
    TableInv(q) && NothingLost(q) && NeverGoesBack(q) && NoOvertaking(q) && FlusherInv(q)
  }

  /** A new row comes after every batch. */
  lemma PutKeepsOldest(rows: Table, b: seq<Entry>, id: int, row: Row)
    requires IsOldestPending(rows, b) && forall k :: k in rows ==> k < id
    ensures IsOldestPending(rows[id := row], b)
  {
    hide InBatch;
    var after := rows[id := row];
    assert AllBelow(b, id);
    assert forall p :: PendingAt(after, p) ==> PendingAt(rows, p) || p == id;
  }

  lemma PutKeepsInv(q: Queue, msg: Message, now: int)
    requires Inv(q)
    ensures Inv(Step(q, Put(msg, now)))
  {
    var n := Step(q, Put(msg, now));
    if !q.flusher.Idle? {
      PutKeepsOldest(q.rows, q.flusher.batch, q.nextId, Row(msg, now, None));
    }
    hide IsOldestPending;
    assert forall id :: PendingAt(n.rows, id) <==> PendingAt(q.rows, id) || id == q.nextId;
    assert forall id :: Published(q, id) ==> Published(n, id);
  }

  lemma CleanupKeepsInv(q: Queue, cutoff: int)
    requires Inv(q)
    ensures Inv(Step(q, Cleanup(cutoff)))
    ensures forall id :: PendingAt(Step(q, Cleanup(cutoff)).rows, id) <==> PendingAt(q.rows, id)
  {
    var n := Step(q, Cleanup(cutoff));
    assert forall id :: PendingAt(n.rows, id) <==> PendingAt(q.rows, id);
    assert forall id :: Published(q, id) ==> Published(n, id);
  }

  lemma BeginKeepsInv(q: Queue)
    requires Inv(q)
    ensures Inv(Step(q, Begin))
  {
    PendingRowsAreOldest(q.rows, 1, q.nextId, BATCH);
  }

  /** A publish takes the oldest pending row: none is skipped. */
  lemma PublishTakesOldest(q: Queue)
    requires Inv(q) && q.flusher.Sending? && q.flusher.batch != []
    ensures PendingAt(q.rows, q.flusher.batch[0].id)
    ensures forall p :: PendingAt(q.rows, p) ==> q.flusher.batch[0].id <= p
  {
  }

  lemma PublishKeepsInv(q: Queue)
    requires Inv(q)
    ensures Inv(Step(q, PublishOk))
  {
    if q.flusher.Sending? && q.flusher.batch != [] {
      PublishTakesOldest(q);
      var n := Step(q, PublishOk);
      assert n.upstream[|q.upstream|].id == q.flusher.batch[0].id;
      forall id | Published(q, id)
        ensures Published(n, id)
      {
        var k :| 0 <= k < |q.upstream| && q.upstream[k].id == id;
        assert n.upstream[k].id == id;
      }
    }
  }

  /** Once its head is marked, the rest of a batch lists the oldest pending rows. */
  lemma MarkedTail(rows: Table, b: seq<Entry>, now: int)
    requires b != [] && IsOldestPending(rows, b)
    ensures IsOldestPending(Mark(rows, b[0].id, now), b[1..])
  {
    var after := Mark(rows, b[0].id, now);
    assert b == [b[0]] + b[1..];
    forall p | PendingAt(after, p)
      ensures InBatch(b[1..], p) || AllBelow(b[1..], p)
    {
      assert PendingAt(rows, p) && p != b[0].id;
      InBatchCons(b[0], b[1..], p);
    }
  }

  lemma MarkKeepsInv(q: Queue, now: int)
    requires Inv(q)
    ensures Inv(Step(q, MarkOk(now)))
  {
    if q.flusher.Marking? {
      var b := q.flusher.batch;
      var n := Step(q, MarkOk(now));
      MarkedTail(q.rows, b, now);
      assert forall id :: PendingAt(n.rows, id) <==> PendingAt(q.rows, id) && id != b[0].id;
      assert forall id :: Published(q, id) ==> Published(n, id);
    }
  }

  lemma StepKeepsInv(q: Queue, e: Event)
    requires Inv(q)
    ensures Inv(Step(q, e))
  {
    match e
    case Put(msg, now) => PutKeepsInv(q, msg, now);
    case Cleanup(cutoff) => CleanupKeepsInv(q, cutoff);
    case Begin => BeginKeepsInv(q);
    case PublishOk => PublishKeepsInv(q);
    case MarkOk(now) => MarkKeepsInv(q, now);
    case PublishError => IdleKeepsInv(q);
    case MarkError => IdleKeepsInv(q);
    case Done => IdleKeepsInv(q);
    case Crash => IdleKeepsInv(q);
  }

  /** Dropping the batch at any point, as an error or a crash does, is harmless. */
  lemma IdleKeepsInv(q: Queue)
    requires Inv(q)
    ensures Inv(q.(flusher := Idle))
  {
    var n := q.(flusher := Idle);
    assert forall id :: Published(q, id) ==> Published(n, id);
  }

  lemma {:induction false} RunKeepsInv(q: Queue, events: seq<Event>)
    requires Inv(q)
    ensures Inv(Run(q, events))
    decreases |events|
  {
    if events != [] {
      RunKeepsInv(q, events[..|events| - 1]);
      StepKeepsInv(Run(q, events[..|events| - 1]), events[|events| - 1]);
    }
  }

  // ----- Main results -----

  /** Over every run: the publish log never goes back, nothing put is lost, and whatever was published
      is what was put under that row id. */
  lemma RunIsOrderedAndLossless(events: seq<Event>)
    ensures var q := Run(Empty(), events);
            && NeverGoesBack(q) && NothingLost(q)
            && forall k :: 0 <= k < |q.upstream| ==>
                 1 <= q.upstream[k].id <= |q.inserted| && q.upstream[k].msg == q.inserted[q.upstream[k].id - 1]
  {
    RunKeepsInv(Empty(), events);
  }

  /** The log without immediate repetitions. */
  function Dedup(log: seq<Entry>): seq<Entry>
    decreases |log|
  {
    if |log| <= 1 then log
    else if log[|log| - 1].id == log[|log| - 2].id then Dedup(log[..|log| - 1])
    else Dedup(log[..|log| - 1]) + [log[|log| - 1]]
  }

  /** A log that climbs by at most one row at a time, from row 1. */
  ghost predicate Gapless(log: seq<Entry>)
  {
    && (log != [] ==> log[0].id == 1)
    && forall k :: 0 < k < |log| ==> log[k - 1].id <= log[k].id <= log[k - 1].id + 1
  }

  lemma {:induction false} DedupOfGapless(log: seq<Entry>, inserted: seq<Message>)
    requires Gapless(log)
    requires forall k :: 0 <= k < |log| ==> 1 <= log[k].id <= |inserted| && log[k].msg == inserted[log[k].id - 1]
    ensures var d := Dedup(log);
            && |d| == (if log == [] then 0 else log[|log| - 1].id) <= |inserted|
            && forall k :: 0 <= k < |d| ==> d[k] == Entry(k + 1, inserted[k])
    decreases |log|
  {
    if |log| > 1 {
      var init, last := log[..|log| - 1], log[|log| - 1];
      assert Gapless(init);
      DedupOfGapless(init, inserted);
      var d := Dedup(init);
      hide Gapless;
      assert Dedup(log) == if last.id == log[|log| - 2].id then d else d + [last];
    }
  }

  /** Between two neighbouring publishes no row id is left out. */
  lemma InvIsGapless(q: Queue)
    requires Inv(q)
    ensures Gapless(q.upstream)
  {
    var log := q.upstream;
    if log != [] {
      assert 1 <= log[0].id < q.nextId;
      assert PendingAt(q.rows, 1) || Published(q, 1);
      assert Published(q, 1) ==> log[0].id <= 1;
    }
    forall k | 0 < k < |log|
      ensures log[k - 1].id <= log[k].id <= log[k - 1].id + 1
    {
      var next := log[k - 1].id + 1;
      assert next >= q.nextId || PendingAt(q.rows, next) || Published(q, next);
      forall j | 0 <= j < |log| && log[j].id == next
        ensures log[k].id <= next
      {
        assert j <= k - 1 || k <= j;
      }
    }
  }

  lemma InvGivesPrefix(q: Queue)
    requires Inv(q)
    ensures |Dedup(q.upstream)| <= |q.inserted|
    ensures forall k :: 0 <= k < |Dedup(q.upstream)| ==> Dedup(q.upstream)[k] == Entry(k + 1, q.inserted[k])
  {
    InvIsGapless(q);
    DedupOfGapless(q.upstream, q.inserted);
  }

  /** Exactly once up to repetition: without repeated publishes, upstream has received precisely the
      first messages put, in the order they were put, none skipped. */
  lemma UpstreamIsPrefixOfInserted(events: seq<Event>)
    ensures var q := Run(Empty(), events);
            && |Dedup(q.upstream)| <= |q.inserted|
            && forall k :: 0 <= k < |Dedup(q.upstream)| ==> Dedup(q.upstream)[k] == Entry(k + 1, q.inserted[k])
  {
    RunKeepsInv(Empty(), events);
    InvGivesPrefix(Run(Empty(), events));
  }

  // ----- How often a message repeats -----

  /** A crash or a failed mark after a publish, before the row is marked. */
  ghost predicate Interrupts(q: Queue, e: Event)
  {
    q.flusher.Marking? && (e.MarkError? || e.Crash?)
  }

  ghost function Interruptions(q: Queue, events: seq<Event>): nat
    decreases |events|
  {
    if events == [] then 0
    else
      var init, last := events[..|events| - 1], events[|events| - 1];
      Interruptions(q, init) + if Interrupts(Run(q, init), last) then 1 else 0
  }

  function Repetitions(log: seq<Entry>): nat
    decreases |log|
  {
    if |log| <= 1 then 0
    else Repetitions(log[..|log| - 1]) + if log[|log| - 1].id == log[|log| - 2].id then 1 else 0
  }

  lemma {:induction false} RepetitionsOfDedup(log: seq<Entry>)
    ensures |log| == |Dedup(log)| + Repetitions(log)
    ensures Repetitions(log) == 0 ==> Dedup(log) == log
    decreases |log|
  {
    if |log| > 1 {
      RepetitionsOfDedup(log[..|log| - 1]);
      assert log == log[..|log| - 1] + [log[|log| - 1]];
    }
  }

  /** The last published row is still pending although nobody is about to mark it: it will repeat. */
  ghost predicate WillRepeat(q: Queue)
  {
    q.upstream != [] && !q.flusher.Marking? && PendingAt(q.rows, q.upstream[|q.upstream| - 1].id)
  }

  /** Repetitions so far, and the one that is due. */
  ghost function RepetitionsDue(q: Queue): nat
  {
    Repetitions(q.upstream) + if WillRepeat(q) then 1 else 0
  }

  /** While a row is about to be marked, it is the last that was published. */
  lemma MarkingTheLast(q: Queue)
    requires Inv(q) && q.flusher.Marking?
    ensures q.upstream != [] && q.upstream[|q.upstream| - 1].id == q.flusher.batch[0].id
  {
    var id := q.flusher.batch[0].id;
    var k :| 0 <= k < |q.upstream| && q.upstream[k].id == id;
    assert PendingAt(q.rows, id);
  }

  lemma StepRepeats(q: Queue, e: Event)
    requires Inv(q)
    ensures RepetitionsDue(Step(q, e)) == RepetitionsDue(q) + if Interrupts(q, e) then 1 else 0
  {
    hide NothingLost, NeverGoesBack, NoOvertaking;
    var n := Step(q, e);
    match e
    case Put(_, _) =>
    case Cleanup(cutoff) => CleanupKeepsInv(q, cutoff);
    case PublishOk =>
      if q.flusher.Sending? && q.flusher.batch != [] {
        PublishRepeats(q);
      }
    case _ =>
      if q.flusher.Marking? {
        MarkingTheLast(q);
      }
  }

  /** A publish repeats the last one exactly if that was due. */
  lemma PublishRepeats(q: Queue)
    requires Inv(q) && q.flusher.Sending? && q.flusher.batch != []
    ensures RepetitionsDue(Step(q, PublishOk)) == RepetitionsDue(q)
  {
    PublishTakesOldest(q);
    var log := q.upstream;
    var longer := log + [q.flusher.batch[0]];
    assert Step(q, PublishOk).upstream == longer && longer[..|longer| - 1] == log;
  }

  lemma {:induction false} RunRepeats(events: seq<Event>)
    ensures RepetitionsDue(Run(Empty(), events)) == Interruptions(Empty(), events)
    decreases |events|
  {
    if events != [] {
      var init, last := events[..|events| - 1], events[|events| - 1];
      RunRepeats(init);
      RunKeepsInv(Empty(), init);
      StepRepeats(Run(Empty(), init), last);
    }
  }

  /** Over every run there are exactly as many repetitions as crashes and failed marks between a publish
      and its mark, except that the last such interruption may not have shown yet. */
  lemma RepetitionsAreInterruptions(events: seq<Event>)
    ensures var q := Run(Empty(), events);
            |q.upstream| - |Dedup(q.upstream)| == Interruptions(Empty(), events) - if WillRepeat(q) then 1 else 0
  {
    RunRepeats(events);
    RepetitionsOfDedup(Run(Empty(), events).upstream);
  }

  /** Upstream holds the first messages put, each once and in order, if and only if no interruption has
      shown: there was none, or one whose repetition is still due. */
  lemma ExactlyOnceIff(events: seq<Event>)
    ensures var q := Run(Empty(), events);
            (&& |q.upstream| <= |q.inserted|
             && forall k :: 0 <= k < |q.upstream| ==> q.upstream[k] == Entry(k + 1, q.inserted[k]))
            <==> Interruptions(Empty(), events) == if WillRepeat(q) then 1 else 0
  {
    var q := Run(Empty(), events);
    RunRepeats(events);
    RepetitionsOfDedup(q.upstream);
    UpstreamIsPrefixOfInserted(events);
    if forall k :: 0 <= k < |q.upstream| ==> q.upstream[k].id == k + 1 {
      DistinctNeverRepeat(q.upstream);
    }
  }

  lemma {:induction false} DistinctNeverRepeat(log: seq<Entry>)
    requires forall k :: 0 <= k < |log| ==> log[k].id == k + 1
    ensures Repetitions(log) == 0
    decreases |log|
  {
    if |log| > 1 {
      DistinctNeverRepeat(log[..|log| - 1]);
    }
  }

  // ----- The gateway, as the program changes its state -----

  /** What reaches the upstream broker. */
  datatype Delivery = Delivery(topic: string, payload: string)

  /** What happens around one message of a flush: steps of other goroutines before the publish and
      before the mark, the broker's answer and the database's answer. */
  datatype Turn = Turn(beforePublish: seq<Event>, publishOk: bool, beforeMark: seq<Event>, markOk: bool, now: int)

  /** Other goroutines put messages and clean up; only the flusher flushes. */
  function FromOthers(events: seq<Event>): seq<Event>
  {
    if events == [] then []
    else (if events[0].Put? || events[0].Cleanup? then [events[0]] else []) + FromOthers(events[1..])
  }

  ghost predicate AllFromOthers(events: seq<Event>)
  {
    forall e :: e in events ==> e.Put? || e.Cleanup?
  }

  /** Nothing else is dropped: steps of others all stay, in order. */
  lemma {:induction false} FromOthersKeeps(events: seq<Event>)
    ensures AllFromOthers(FromOthers(events))
    ensures forall e :: e in events && (e.Put? || e.Cleanup?) ==> e in FromOthers(events)
    ensures AllFromOthers(events) ==> FromOthers(events) == events
  {
    if events != [] {
      FromOthersKeeps(events[1..]);
      assert events == [events[0]] + events[1..];
      assert AllFromOthers(events) ==> AllFromOthers(events[1..]);
    }
  }

  /** Others never move the flusher or touch the publish log. */
  lemma {:induction false} OthersKeepFlusher(q: Queue, events: seq<Event>)
    requires AllFromOthers(events)
    ensures Run(q, events).flusher == q.flusher && Run(q, events).upstream == q.upstream
    decreases |events|
  {
    if events != [] {
      assert events[|events| - 1] in events;
      OthersKeepFlusher(q, events[..|events| - 1]);
    }
  }

  /** The same rows are pending below `limit`, except the one that `marked` names. */
  ghost predicate SamePending(before: Table, after: Table, limit: int, marked: Option<int>)
  {
    forall id :: id < limit ==> (PendingAt(after, id) <==> PendingAt(before, id) && marked != Some(id))
  }

  /** Others never change which of the rows there were are pending. */
  lemma {:induction false} OthersKeepPending(q: Queue, events: seq<Event>)
    requires AllFromOthers(events)
    ensures q.nextId <= Run(q, events).nextId && SamePending(q.rows, Run(q, events).rows, q.nextId, None)
    decreases |events|
  {
    if events != [] {
      var before, e := events[..|events| - 1], events[|events| - 1];
      assert e in events;
      OthersKeepPending(q, before);
      var m := Run(q, before);
      assert SamePending(m.rows, Step(m, e).rows, m.nextId, None);
    }
  }

  lemma MarkedPending(before: Table, rows: Table, limit: int, id: int, now: int)
    requires SamePending(before, rows, limit, None)
    ensures SamePending(before, Mark(rows, id, now), limit, Some(id))
  {
  }

  /** How many messages of a batch of n go out when others answer as `world` says: up to the first
      publish that fails, and through the first whose mark fails. */
  ghost predicate Reaches(world: nat -> Turn, n: nat, sent: nat)
  {
    && sent <= n
    && (forall k: nat :: k < sent ==> world(k).publishOk && (k + 1 < sent ==> world(k).markOk))
    && (sent < n ==> !world(sent).publishOk || (sent > 0 && !world(sent - 1).markOk))
  }

  /** Only one number of messages fits the answers. */
  lemma ReachIsUnique(world: nat -> Turn, n: nat, a: nat, b: nat)
    requires Reaches(world, n, a) && Reaches(world, n, b)
    ensures a == b
  {
  }

  /** Outside the batch the rows below `limit` that were pending still are, and no others. */
  ghost predicate SameOutside(before: Table, after: Table, limit: int, batch: seq<Entry>)
  {
    forall id :: id < limit && !InBatch(batch, id) ==> (PendingAt(after, id) <==> PendingAt(before, id))
  }

  lemma SameOutsideNext(before: Table, mid: Table, after: Table, limit: int, later: int, batch: seq<Entry>,
                        k: nat, marked: bool)
    requires SameOutside(before, mid, limit, batch) && limit <= later && k < |batch|
    requires SamePending(mid, after, later, if marked then Some(batch[k].id) else None)
    ensures SameOutside(before, after, limit, batch)
  {
    hide PendingAt;
    assert InBatch(batch, batch[k].id);
  }

  /** Of a batch, exactly the messages that went out and were marked are no longer pending. */
  ghost predicate PendingAfter(rows: Table, batch: seq<Entry>, world: nat -> Turn, sent: nat)
  {
    forall k: nat :: k < |batch| ==> (PendingAt(rows, batch[k].id) <==> !(k < sent && world(k).markOk))
  }

  lemma OneMoreForwarded(before: Table, after: Table, limit: int, batch: seq<Entry>, world: nat -> Turn, k: nat)
    requires Increasing(batch) && k < |batch| && forall j :: 0 <= j < |batch| ==> batch[j].id < limit
    requires PendingAfter(before, batch, world, k) && Reaches(world, k, k) && (k > 0 ==> world(k - 1).markOk)
    requires var go := world(k).publishOk && world(k).markOk;
             SamePending(before, after, limit, if go then Some(batch[k].id) else None)
    ensures var sent := if world(k).publishOk then k + 1 else k;
            && PendingAfter(after, batch, world, sent)
            && (world(k).publishOk ==> Reaches(world, k + 1, k + 1))
            && (!(world(k).publishOk && world(k).markOk) ==> Reaches(world, |batch|, sent))
  {
    forall j: nat | j < |batch|
      ensures PendingAt(after, batch[j].id)
              <==> PendingAt(before, batch[j].id) && !(world(k).publishOk && world(k).markOk && j == k)
    {
      assert j < k ==> batch[j].id < batch[k].id;
      assert k < j ==> batch[k].id < batch[j].id;
    }
  }

  // ----- Draining -----

  /** The pending rows older than `limit`. */
  ghost function PendingBelow(rows: Table, limit: int): set<int>
  {
    set id | id in rows && id < limit && PendingAt(rows, id)
  }

  /** What is left of a number of rows once `k` batches were taken. */
  function Left(start: nat, k: nat): nat
  {
    if start <= BATCH * k then 0 else start - BATCH * k
  }

  lemma LeftByBatch(start: nat, left: nat, k: nat)
    ensures left <= Left(start, k) ==> Left(left, 1) <= Left(start, k + 1)
    ensures left == Left(start, k) ==> Left(left, 1) == Left(start, k + 1)
    ensures Left(start, 0) == start
    ensures start <= BATCH * k ==> Left(start, k) == 0
  {
  }

  ghost function IdsOf(b: seq<Entry>): set<int>
    decreases |b|
  {
    if b == [] then {} else IdsOf(b[..|b| - 1]) + {b[|b| - 1].id}
  }

  lemma InBatchSnoc(b: seq<Entry>, id: int)
    requires b != []
    ensures InBatch(b, id) <==> InBatch(b[..|b| - 1], id) || id == b[|b| - 1].id
  {
    var init := b[..|b| - 1];
    if InBatch(init, id) {
      var j :| 0 <= j < |init| && init[j].id == id;
      assert b[j].id == id;
    }
  }

  lemma {:induction false} IdsAreCounted(b: seq<Entry>)
    requires Increasing(b)
    ensures |IdsOf(b)| == |b|
    ensures forall id :: id in IdsOf(b) <==> InBatch(b, id)
    decreases |b|
  {
    if b != [] {
      var init, last := b[..|b| - 1], b[|b| - 1];
      assert Increasing(init) && !InBatch(init, last.id);
      hide InBatch, Increasing;
      IdsAreCounted(init);
      forall id
        ensures id in IdsOf(b) <==> InBatch(b, id)
      {
        InBatchSnoc(b, id);
      }
    }
  }

  /** A batch of oldest rows takes as many of the rows below the limit as it can. */
  lemma OldestFirst(rows: Table, b: seq<Entry>, limit: int)
    requires IsOldestPending(rows, b) && |b| <= BATCH
    requires |b| < BATCH ==> forall p :: PendingAt(rows, p) ==> InBatch(b, p)
    ensures |PendingBelow(rows, limit) - IdsOf(b)| == Left(|PendingBelow(rows, limit)|, 1)
  {
    assert Increasing(b);
    hide PendingBelow, IdsOf, IsOldestPending, InBatch, Increasing;
    var waiting, ids := PendingBelow(rows, limit), IdsOf(b);
    IdsAreCounted(b);
    if ids <= waiting {
      DifferenceCount(waiting, ids);
      if |b| < BATCH {
        AllTaken(rows, b, limit);
        assert waiting - ids == {};
      }
    } else {
      var id := Outsider(ids, waiting);
      TakenWhole(rows, b, limit, id);
      assert waiting - ids == {};
      SubsetCount(waiting, ids);
    }
  }

  lemma Outsider<T>(a: set<T>, b: set<T>) returns (x: T)
    requires !(a <= b)
    ensures x in a && x !in b
  {
    x :| x in a && x !in b;
  }

  lemma AllTaken(rows: Table, b: seq<Entry>, limit: int)
    requires Increasing(b) && forall p :: PendingAt(rows, p) ==> InBatch(b, p)
    ensures PendingBelow(rows, limit) <= IdsOf(b)
  {
    IdsAreCounted(b);
    hide IdsOf, InBatch;
  }

  /** A batch that reaches beyond the limit takes everything below it. */
  lemma TakenWhole(rows: Table, b: seq<Entry>, limit: int, id: int)
    requires IsOldestPending(rows, b) && id in IdsOf(b) && id !in PendingBelow(rows, limit)
    ensures PendingBelow(rows, limit) <= IdsOf(b)
  {
    IdsAreCounted(b);
    hide IdsOf;
    var j :| 0 <= j < |b| && b[j].id == id;
    assert PendingAt(rows, b[j].id) && id >= limit;
    forall p | p in PendingBelow(rows, limit)
      ensures InBatch(b, p)
    {
      assert !AllBelow(b, p);
    }
  }

  /** A flush leaves no new row pending below the limit; one without failures takes a whole batch. */
  lemma FlushDrains(before: Table, after: Table, nextId: int, limit: int, world: nat -> Turn, sent: nat)
    requires (forall id :: id in before ==> 1 <= id < nextId) && limit <= nextId
    requires var batch := PendingRows(before, 1, nextId, BATCH);
             && Reaches(world, |batch|, sent) && PendingAfter(after, batch, world, sent)
             && SameOutside(before, after, nextId, batch)
    ensures PendingBelow(after, limit) <= PendingBelow(before, limit)
    ensures NeverFails(world) ==> |PendingBelow(after, limit)| == Left(|PendingBelow(before, limit)|, 1)
  {
    var batch := PendingRows(before, 1, nextId, BATCH);
    PendingRowsAreOldest(before, 1, nextId, BATCH);
    forall id | id in PendingBelow(after, limit)
      ensures PendingAt(before, id)
    {
      if InBatch(batch, id) {
        var k: nat :| k < |batch| && batch[k].id == id;
      }
    }
    if NeverFails(world) {
      OldestFirst(before, batch, limit);
      IdsAreCounted(batch);
      assert sent == |batch|;
      forall id
        ensures id in PendingBelow(after, limit) <==> id in PendingBelow(before, limit) - IdsOf(batch)
      {
        if InBatch(batch, id) {
          var k: nat :| k < |batch| && batch[k].id == id;
          assert world(k).markOk;
        }
      }
      assert PendingBelow(after, limit) == PendingBelow(before, limit) - IdsOf(batch);
    }
  }

  /** Neither broker nor database fails during a batch. */
  ghost predicate NeverFails(world: nat -> Turn)
  {
    forall k: nat :: k < BATCH ==> world(k).publishOk && world(k).markOk
  }

  /** One tick of the flush loop. */
  datatype Round = Round(connected: bool, loaded: bool, turns: nat -> Turn)

  ghost predicate Succeeds(r: Round)
  {
    r.connected && r.loaded && NeverFails(r.turns)
  }

  /** How many of the first n rounds go without a failure. */
  ghost function Successes(world: nat -> Round, n: nat): nat
  {
    if n == 0 then 0 else Successes(world, n - 1) + if Succeeds(world(n - 1)) then 1 else 0
  }

  /** One round, for the rows below the limit: none becomes pending again, and without a failure a whole
      batch of them goes. */
  ghost predicate Drains(before: Queue, after: Queue, r: Round, limit: int)
  {
    && limit <= after.nextId
    && |PendingBelow(after.rows, limit)| <= |PendingBelow(before.rows, limit)|
    && (Succeeds(r) ==> |PendingBelow(after.rows, limit)| == Left(|PendingBelow(before.rows, limit)|, 1))
  }

  /** After n rounds: of what was pending at the start at most what is left after the successful rounds,
      and exactly that if all were. */
  ghost predicate Drained(start: Queue, now: Queue, world: nat -> Round, n: nat)
  {
    var was, left := |PendingBelow(start.rows, start.nextId)|, |PendingBelow(now.rows, start.nextId)|;
    && start.nextId <= now.nextId && Successes(world, n) <= n
    && left <= Left(was, Successes(world, n))
    && (Successes(world, n) == n ==> left == Left(was, n))
  }

  lemma DrainedNext(start: Queue, mid: Queue, now: Queue, world: nat -> Round, n: nat)
    requires Drained(start, mid, world, n) && Drains(mid, now, world(n), start.nextId)
    ensures Drained(start, now, world, n + 1)
  {
    hide PendingBelow, Succeeds;
    var was, left := |PendingBelow(start.rows, start.nextId)|, |PendingBelow(mid.rows, start.nextId)|;
    LeftByBatch(was, left, Successes(world, n));
  }

  /** Once there were enough rounds without a failure, every message put before the first is published. */
  lemma EnoughRoundsPublishAll(start: Queue, now: Queue, world: nat -> Round, n: nat)
    requires Inv(now) && Drained(start, now, world, n)
    requires |PendingBelow(start.rows, start.nextId)| <= 100 * Successes(world, n)
    ensures forall id :: 1 <= id < start.nextId ==> Published(now, id)
  {
    assert PendingBelow(now.rows, start.nextId) == {};
    forall id | 1 <= id < start.nextId
      ensures Published(now, id)
    {
      assert id !in PendingBelow(now.rows, start.nextId);
    }
  }

  // ----- The gateway -----

  /** `sent` forwards the first rows of the batch, in order and under the prefixed topic. */
  ghost predicate Forwards(sent: seq<Delivery>, batch: seq<Entry>, prefix: string)
  {
    |sent| <= |batch| && forall k :: 0 <= k < |sent| ==>
      sent[k].payload == batch[k].msg.payload && Topics.GoesOutAs(batch[k].msg.topic, prefix, sent[k].topic)
  }

  lemma NextOf(batch: seq<Entry>, k: nat, log: seq<Entry>)
    requires k < |batch|
    ensures batch[k..] != [] && batch[k..][0] == batch[k] && batch[k..][1..] == batch[k + 1..]
    ensures log + batch[..k] + [batch[k]] == log + batch[..k + 1]
  {
  }

  lemma ForwardsSnoc(sent: seq<Delivery>, batch: seq<Entry>, prefix: string)
    requires Forwards(sent, batch, prefix) && |sent| < |batch|
    ensures var msg := batch[|sent|].msg;
            Forwards(sent + [Delivery(Topics.UpstreamTopic(msg.topic, prefix), msg.payload)], batch, prefix)
  {
    hide Topics.GoesOutAs;
    var msg := batch[|sent|].msg;
    Topics.UpstreamTopicIff(msg.topic, prefix, Topics.UpstreamTopic(msg.topic, prefix));
  }

  /** What one message of a flush does: publish, and mark if that succeeded. */
  function TurnEvents(t: Turn): seq<Event>
  {
    FromOthers(t.beforePublish)
    + if !t.publishOk then [PublishError]
      else [PublishOk] + FromOthers(t.beforeMark) + [if t.markOk then MarkOk(t.now) else MarkError]
  }

  lemma TurnInTwo(t: Turn)
    requires t.publishOk
    ensures TurnEvents(t) == (FromOthers(t.beforePublish) + [PublishOk])
                             + (FromOthers(t.beforeMark) + [if t.markOk then MarkOk(t.now) else MarkError])
  {
  }

  /** The turns from the k-th on, up to the first that fails. */
  function UntilFailure(world: nat -> Turn, n: nat, k: nat): seq<Event>
    requires k <= n
    decreases n - k
  {
    if k == n then []
    else TurnEvents(world(k)) + if world(k).publishOk && world(k).markOk then UntilFailure(world, n, k + 1) else []
  }

  lemma UntilFailureNext(world: nat -> Turn, n: nat, k: nat, trace: seq<Event>)
    requires k < n
    ensures var go := world(k).publishOk && world(k).markOk;
            trace + UntilFailure(world, n, k)
            == if go then (trace + TurnEvents(world(k))) + UntilFailure(world, n, k + 1)
               else trace + TurnEvents(world(k))
  {
    hide TurnEvents;
  }

  /** A flush of n messages. */
  function FlushEvents(world: nat -> Turn, n: nat, complete: bool): seq<Event>
  {
    [Begin] + UntilFailure(world, n, 0) + if complete then [Done] else []
  }

  /** What the loop has done to the queue when it stops: it has delivered a prefix of the batch up to the
      first failure, exactly the messages delivered and marked are no longer pending, and the other rows
      are pending or not as they were. */
  ghost predicate Sends(before: Queue, after: Queue, batch: seq<Entry>, world: nat -> Turn, prefix: string,
                        sent: seq<Delivery>)
  {
    && Forwards(sent, batch, prefix) && after.upstream == before.upstream + batch[..|sent|]
    && Reaches(world, |batch|, |sent|) && PendingAfter(after.rows, batch, world, |sent|)
    && before.nextId <= after.nextId && SameOutside(before.rows, after.rows, before.nextId, batch)
  }

  /** Every message of the batch was delivered and marked. */
  ghost predicate IsComplete(world: nat -> Turn, n: nat, sent: nat)
  {
    sent == n && (sent > 0 ==> world(sent - 1).markOk)
  }

  /** The loop before its next message: everything so far was delivered and marked. */
  ghost predicate SentSoFar(before: Queue, now: Queue, batch: seq<Entry>, world: nat -> Turn, prefix: string,
                            sent: seq<Delivery>)
  {
    && Forwards(sent, batch, prefix) && now.upstream == before.upstream + batch[..|sent|]
    && Reaches(world, |sent|, |sent|) && (sent != [] ==> world(|sent| - 1).markOk)
    && PendingAfter(now.rows, batch, world, |sent|)
    && before.nextId <= now.nextId && SameOutside(before.rows, now.rows, before.nextId, batch)
    && Increasing(batch) && (forall j :: 0 <= j < |batch| ==> batch[j].id < before.nextId)
  }

  /** The events before the k-th message. */
  ghost predicate RunSoFar(before: Queue, now: Queue, world: nat -> Turn, n: nat, k: nat, trace: seq<Event>)
    requires k <= n
  {
    now == Run(before, trace) && trace + UntilFailure(world, n, k) == UntilFailure(world, n, 0)
  }

  lemma RunNext(before: Queue, mid: Queue, now: Queue, world: nat -> Turn, n: nat, k: nat,
                trace: seq<Event>, t: seq<Event>)
    requires k < n && RunSoFar(before, mid, world, n, k, trace) && now == Run(mid, t) && t == TurnEvents(world(k))
    ensures var go := world(k).publishOk && world(k).markOk;
            && (go ==> RunSoFar(before, now, world, n, k + 1, trace + t))
            && (!go ==> now == Run(before, trace + t) && trace + t == UntilFailure(world, n, 0))
  {
    hide Run, TurnEvents, UntilFailure;
    RunAppend(before, trace, t);
    UntilFailureNext(world, n, k, trace);
  }

  lemma NothingSent(q: Queue, batch: seq<Entry>, world: nat -> Turn, prefix: string)
    requires ListsPending(q.rows, batch) && forall k :: 0 <= k < |batch| ==> batch[k].id < q.nextId
    ensures SentSoFar(q, q, batch, world, prefix, [])
    ensures RunSoFar(q, q, world, |batch|, 0, []) && batch[0..] == batch
  {
    assert [] + UntilFailure(world, |batch|, 0) == UntilFailure(world, |batch|, 0);
  }

  /** The next message, with what ForwardOne says of it. */
  lemma SentNext(before: Queue, mid: Queue, now: Queue, batch: seq<Entry>, world: nat -> Turn, prefix: string,
                 sent: seq<Delivery>)
    requires SentSoFar(before, mid, batch, world, prefix, sent) && |sent| < |batch|
    requires var k := |sent|;
             var delivered, go := world(k).publishOk, world(k).publishOk && world(k).markOk;
             && mid.nextId <= now.nextId
             && SamePending(mid.rows, now.rows, mid.nextId, if go then Some(batch[k].id) else None)
             && now.upstream == mid.upstream + if delivered then [batch[k]] else []
    ensures var k, msg := |sent|, batch[|sent|].msg;
            var delivered, go := world(k).publishOk, world(k).publishOk && world(k).markOk;
            var longer := if delivered
                         then sent + [Delivery(Topics.UpstreamTopic(msg.topic, prefix), msg.payload)] else sent;
            && (go ==> SentSoFar(before, now, batch, world, prefix, longer))
            && (!go ==> Sends(before, now, batch, world, prefix, longer) && !IsComplete(world, |batch|, |longer|))
  {
    var k := |sent|;
    NextOf(batch, k, before.upstream);
    ForwardsSnoc(sent, batch, prefix);
    hide PendingAt, Increasing, Forwards, InBatch, Topics.UpstreamTopic,
         PendingAfter, SamePending, SameOutside, Reaches;
    OneMoreForwarded(mid.rows, now.rows, mid.nextId, batch, world, k);
    SameOutsideNext(before.rows, mid.rows, now.rows, before.nextId, mid.nextId, batch, k,
                    world(k).publishOk && world(k).markOk);
  }

  lemma AllSent(before: Queue, now: Queue, batch: seq<Entry>, world: nat -> Turn, prefix: string,
                sent: seq<Delivery>, trace: seq<Event>)
    requires SentSoFar(before, now, batch, world, prefix, sent) && |sent| == |batch|
    requires RunSoFar(before, now, world, |batch|, |sent|, trace)
    ensures Sends(before, now, batch, world, prefix, sent) && IsComplete(world, |batch|, |sent|)
    ensures now == Run(before, trace) && trace == UntilFailure(world, |batch|, 0)
    ensures batch[|batch|..] == []
  {
    assert trace + [] == trace;
  }

  /** Where the flusher stands does not matter. */
  lemma SendsIgnoresFlusher(before: Queue, mid: Queue, after: Queue, batch: seq<Entry>, world: nat -> Turn,
                            prefix: string, sent: seq<Delivery>)
    requires Sends(mid, after, batch, world, prefix, sent) && mid == before.(flusher := mid.flusher)
    ensures Sends(before, after.(flusher := Idle), batch, world, prefix, sent)
  {
  }

  /** After its last message a flush is over; after a failure it is over already. */
  lemma EndOfFlush(q0: Queue, q1: Queue, t: seq<Event>, q: Queue, complete: bool) returns (trace: seq<Event>)
    requires q1 == Run(q0, [Begin]) && q == Run(q1, t) && q.flusher == if complete then Sending([]) else Idle
    ensures trace == [Begin] + t + (if complete then [Done] else []) && Run(q0, trace) == q.(flusher := Idle)
  {
    hide Run;
    RunAppend(q0, [Begin], t);
    if complete {
      RunSnoc(q0, [Begin] + t, Done);
      trace := [Begin] + t + [Done];
    } else {
      trace := [Begin] + t;
      assert trace == trace + [];
    }
  }

  class Gateway {
    const prefix: string
    var rows: Table
    var nextId: int
    ghost var flusher: Flusher
    ghost var inserted: seq<Message>
    ghost var upstream: seq<Entry>

    ghost function State(): Queue
      reads this
    {
      Queue(rows, nextId, flusher, inserted, upstream)
    }

    constructor (prefix: string)
      ensures this.prefix == prefix && State() == Empty() && rows == map[] && nextId == 1
    {
      this.prefix := prefix;
      rows, nextId := map[], 1;
      flusher, inserted, upstream := Idle, [], [];
    }

    method PutMessage(msg: Message, now: int, stored: bool)
      modifies this`rows, this`nextId, this`inserted
      ensures State() == if stored then Step(old(State()), Put(msg, now)) else old(State())
      ensures stored ==> rows == old(rows)[old(nextId) := Row(msg, now, None)] && nextId == old(nextId) + 1
    {
      if stored {
        rows := rows[nextId := Row(msg, now, None)];
        nextId := nextId + 1;
        inserted := inserted + [msg];
      }
    }

    /** The first pending rows in id order, at most as many as the clamped limit. */
    method Pending(limit: int) returns (out: seq<Entry>)
      ensures out == PendingRows(rows, 1, nextId, if 1 <= limit <= 1000 then limit else 100)
    {
      var most := if limit <= 0 || limit > 1000 then 100 else limit;
      out := [];
      var id := 1;
      while id < nextId && |out| < most
        invariant |out| <= most
        invariant out + PendingRows(rows, id, nextId, most - |out|) == PendingRows(rows, 1, nextId, most)
      {
        if id in rows && rows[id].sentAt == None {
          assert out + PendingRows(rows, id, nextId, most - |out|)
              == (out + [Entry(id, rows[id].msg)]) + PendingRows(rows, id + 1, nextId, most - |out| - 1);
          out := out + [Entry(id, rows[id].msg)];
        }
        id := id + 1;
      }
    }

    method MarkSent(id: int, now: int, stored: bool)
      modifies this`rows
      ensures rows == if stored then Mark(old(rows), id, now) else old(rows)
      ensures rows.Keys == old(rows).Keys && forall k :: k in rows && (k != id || !stored) ==> rows[k] == old(rows)[k]
      ensures stored && id in rows ==>
                rows[id].sentAt == Some(now) && rows[id].msg == old(rows)[id].msg
                && rows[id].createdAt == old(rows)[id].createdAt
    {
      if stored && id in rows {
        rows := rows[id := rows[id].(sentAt := Some(now))];
      }
    }

    /** Removes the rows sent before the cutoff and says how many there were. */
    method DeleteSentBefore(cutoff: int, stored: bool) returns (deleted: nat)
      modifies this`rows
      ensures State() == if stored then Step(old(State()), Cleanup(cutoff)) else old(State())
      ensures stored ==> forall id :: id in rows <==>
                id in old(rows) && (old(rows)[id].sentAt.None? || old(rows)[id].sentAt.value >= cutoff)
      ensures forall id :: id in rows ==> id in old(rows) && rows[id] == old(rows)[id]
      ensures deleted == |old(rows)| - |rows|
    {
      if !stored {
        return 0;
      }
      var victims := set id | id in rows && rows[id].sentAt.Some? && rows[id].sentAt.value < cutoff;
      deleted := |victims|;
      ghost var before := rows;
      rows := map id | id in rows && id !in victims :: rows[id];
      assert before.Keys == rows.Keys + victims && rows.Keys !! victims;
      assert rows == DropSent(before, cutoff);
    }

    /** The counts the metrics page shows, and the creation time of the oldest pending row. */
    method Stats() returns (pending: nat, total: nat, oldest: Option<int>)
      requires forall id :: id in rows ==> 1 <= id < nextId
      ensures pending == |set id | id in rows && PendingAt(rows, id)|
      ensures total == |rows| && pending <= total
      ensures oldest == None <==> pending == 0
      ensures oldest.Some? ==> exists id :: PendingAt(rows, id) && rows[id].createdAt == oldest.value
                                            && forall p :: PendingAt(rows, p) ==> id <= p
    {
      var ids := set id | id in rows && PendingAt(rows, id);
      pending := |ids|;
      total := |rows|;
      SubsetCount(ids, rows.Keys);
      PendingRowsAreOldest(rows, 1, nextId, 1);
      var first := Pending(1);
      if first == [] {
        oldest := None;
        assert forall id :: id in ids ==> InBatch(first, id);
        assert ids == {};
      } else {
        assert first[0].id in ids;
        oldest := Some(rows[first[0].id].createdAt);
        forall p | PendingAt(rows, p)
          ensures first[0].id <= p
        {
          assert InBatch(first, p) || AllBelow(first, p);
        }
      }
    }

    /** Puts and cleanups of other goroutines. */
    method Interleave(events: seq<Event>)
      requires AllFromOthers(events)
      modifies this`rows, this`nextId, this`inserted
      ensures State() == Run(old(State()), events)
    {
      for i := 0 to |events|
        invariant State() == Run(old(State()), events[..i])
      {
        ghost var before := State();
        assert events[i] in events;
        match events[i] {
          case Put(msg, now) => PutMessage(msg, now, true);
          case Cleanup(cutoff) => var _ := DeleteSentBefore(cutoff, true);
        }
        assert State() == Step(before, events[i]);
        RunSnoc(old(State()), events[..i], events[i]);
        assert events[..i + 1] == events[..i] + [events[i]];
      }
      assert events[..|events|] == events;
    }

    /** Publish the head of the batch while others run. */
    method PublishHead(ghost batch: seq<Entry>, ghost e: Entry, events: seq<Event>, accepted: bool)
      returns (ghost trace: seq<Event>)
      requires flusher == Sending(batch) && batch != [] && batch[0] == e
      modifies this
      ensures State() == Run(old(State()), trace)
      ensures trace == FromOthers(events) + [if accepted then PublishOk else PublishError]
      ensures nextId >= old(nextId) && SamePending(old(rows), rows, old(nextId), None)
      ensures upstream == old(upstream) + if accepted then [e] else []
      ensures flusher == if accepted then Marking(batch) else Idle
    {
      ghost var q0 := State();
      var others := FromOthers(events);
      FromOthersKeeps(events);
      hide FromOthers, AllFromOthers;
      Interleave(others);
      OthersKeepFlusher(q0, others);
      OthersKeepPending(q0, others);
      ghost var last := if accepted then PublishOk else PublishError;
      if accepted {
        upstream := upstream + [e];
        flusher := Marking(batch);
      } else {
        flusher := Idle;
      }
      RunSnoc(q0, others, last);
      trace := others + [last];
    }

    /** Mark the head of the batch sent while others run. */
    method MarkHead(ghost batch: seq<Entry>, e: Entry, events: seq<Event>, stored: bool, now: int)
      returns (ghost trace: seq<Event>)
      requires flusher == Marking(batch) && batch != [] && batch[0] == e
      modifies this
      ensures State() == Run(old(State()), trace)
      ensures trace == FromOthers(events) + [if stored then MarkOk(now) else MarkError]
      ensures nextId >= old(nextId) && SamePending(old(rows), rows, old(nextId), if stored then Some(e.id) else None)
      ensures upstream == old(upstream)
      ensures flusher == if stored then Sending(batch[1..]) else Idle
    {
      ghost var q0 := State();
      var others := FromOthers(events);
      FromOthersKeeps(events);
      hide FromOthers, AllFromOthers;
      Interleave(others);
      OthersKeepFlusher(q0, others);
      OthersKeepPending(q0, others);
      hide Run, SamePending;
      ghost var last := if stored then MarkOk(now) else MarkError;
      MarkedPending(q0.rows, rows, q0.nextId, e.id, now);
      MarkSent(e.id, now, stored);
      flusher := if stored then Sending(batch[1..]) else Idle;
      RunSnoc(q0, others, last);
      trace := others + [last];
    }

    /** One message of a flush: publish, then mark. `go` says whether the flush continues. */
    method ForwardOne(ghost batch: seq<Entry>, e: Entry, turn: Turn)
      returns (delivered: bool, go: bool, ghost trace: seq<Event>)
      requires flusher == Sending(batch) && batch != [] && batch[0] == e
      modifies this
      ensures State() == Run(old(State()), trace) && trace == TurnEvents(turn)
      ensures delivered == turn.publishOk && go == (turn.publishOk && turn.markOk)
      ensures nextId >= old(nextId) && SamePending(old(rows), rows, old(nextId), if go then Some(e.id) else None)
      ensures upstream == old(upstream) + if delivered then [e] else []
      ensures flusher == if go then Sending(batch[1..]) else Idle
    {
      ghost var q0 := State();
      trace := PublishHead(batch, e, turn.beforePublish, turn.publishOk);
      if !turn.publishOk {
        return false, false, trace;
      }
      ghost var t := MarkHead(batch, e, turn.beforeMark, turn.markOk, turn.now);
      RunAppend(q0, trace, t);
      TurnInTwo(turn);
      return true, turn.markOk, trace + t;
    }

    /** The message loop of a flush; it stops at the first failure. */
    method SendBatch(pending: seq<Entry>, world: nat -> Turn) returns (sent: seq<Delivery>, ghost trace: seq<Event>)
      requires flusher == Sending(pending) && ListsPending(rows, pending)
      requires forall k :: 0 <= k < |pending| ==> pending[k].id < nextId
      modifies this
      ensures Sends(old(State()), State(), pending, world, prefix, sent)
      ensures State() == Run(old(State()), trace) && trace == UntilFailure(world, |pending|, 0)
      ensures flusher == if IsComplete(world, |pending|, |sent|) then Sending([]) else Idle
    {
      ghost var q0 := State();
      NothingSent(q0, pending, world, prefix);
      sent, trace := [], [];
      hide RunSoFar, SentSoFar, Sends, IsComplete, ListsPending, SamePending, Run, UntilFailure, TurnEvents,
        Topics.UpstreamTopic;
      for k := 0 to |pending|
        invariant flusher == Sending(pending[k..]) && |sent| == k
        invariant SentSoFar(q0, State(), pending, world, prefix, sent)
        invariant RunSoFar(q0, State(), world, |pending|, k, trace)
      {
        var e := pending[k];
        NextOf(pending, k, q0.upstream);
        ghost var before := State();
        var delivered, go, t := ForwardOne(pending[k..], e, world(k));
        SentNext(q0, before, State(), pending, world, prefix, sent);
        RunNext(q0, before, State(), world, |pending|, k, trace, t);
        trace := trace + t;
        if delivered {
          sent := sent + [Delivery(Topics.UpstreamTopic(e.msg.topic, prefix), e.msg.payload)];
        }
        if !go {
          return;
        }
      }
      AllSent(q0, State(), pending, world, prefix, sent, trace);
    }

    /** flushPending: a run of the queue machine that delivers a prefix of the oldest pending rows, in
        order and under the prefixed topic. It stops at the first failure and nowhere else, and of the
        batch exactly the messages delivered and marked are no longer pending. */
    method FlushPending(connected: bool, loaded: bool, world: nat -> Turn)
      returns (sent: seq<Delivery>, ghost trace: seq<Event>)
      requires flusher.Idle?
      modifies this
      ensures flusher.Idle? && State() == Run(old(State()), trace)
      ensures var batch := PendingRows(old(rows), 1, old(nextId), 100);
              if connected && loaded
              then && Sends(old(State()), State(), batch, world, prefix, sent)
                   && trace == FlushEvents(world, |batch|, IsComplete(world, |batch|, |sent|))
              else sent == [] && trace == [] && State() == old(State())
    {
      if !connected || !loaded {
        return [], [];
      }
      ghost var q0 := State();
      var pending := Pending(BATCH);
      PendingRowsArePending(rows, 1, nextId, BATCH);
      flusher := Sending(pending);
      RunSnoc(q0, [], Begin);
      ghost var q1 := State();
      assert q1 == Run(q0, [] + [Begin]) && [] + [Begin] == [Begin];
      assert ListsPending(rows, pending) && forall k :: 0 <= k < |pending| ==> pending[k].id < nextId;
      hide Run, PendingRows, UntilFailure, ListsPending, IsComplete, Sends;
      ghost var t;
      sent, t := SendBatch(pending, world);
      SendsIgnoresFlusher(q0, q1, State(), pending, world, prefix, sent);
      trace := EndOfFlush(q0, q1, t, State(), flusher.Sending?);
      flusher := Idle;
    }

    /** The flush loop over n ticks, with puts, cleanups and failures as they come. However many messages
        are put meanwhile, every round without a failure takes a whole batch off those that were there at
        the start. */
    method FlushLoop(n: nat, world: nat -> Round) returns (ghost trace: seq<Event>)
      requires Inv(State()) && flusher.Idle?
      modifies this
      ensures Inv(State()) && flusher.Idle? && State() == Run(old(State()), trace)
      ensures Drained(old(State()), State(), world, n)
    {
      ghost var q0 := State();
      trace := [];
      assert Run(q0, []) == q0 && Drained(q0, q0, world, 0);
      hide Run, Inv, Drains, Drained;
      for i := 0 to n
        invariant Inv(State()) && flusher.Idle? && State() == Run(q0, trace)
        invariant Drained(q0, State(), world, i) && q0.nextId <= nextId
      {
        ghost var mid := State();
        ghost var t := OneRound(world(i), q0.nextId);
        DrainedNext(q0, mid, State(), world, i);
        RunAppend(q0, trace, t);
        trace := trace + t;
      }
    }

    /** One tick. */
    method OneRound(round: Round, ghost limit: int) returns (ghost trace: seq<Event>)
      requires Inv(State()) && flusher.Idle? && limit <= nextId
      modifies this
      ensures Inv(State()) && flusher.Idle? && State() == Run(old(State()), trace) && limit <= nextId
      ensures Drains(old(State()), State(), round, limit)
    {
      ghost var q0 := State();
      var sent;
      sent, trace := FlushPending(round.connected, round.loaded, round.turns);
      RunKeepsInv(q0, trace);
      if round.connected && round.loaded {
        FlushDrains(q0.rows, rows, q0.nextId, limit, round.turns, |sent|);
        SubsetCount(PendingBelow(rows, limit), PendingBelow(q0.rows, limit));
      }
    }
  }

  lemma DifferenceCount<T>(a: set<T>, b: set<T>)
    requires b <= a
    ensures |a - b| == |a| - |b|
  {
    assert a == (a - b) + b;
  }

  lemma SubsetCount<T>(a: set<T>, b: set<T>)
    requires a <= b
    ensures |a| <= |b|
  {
    assert b == a + (b - a);
  }
}
