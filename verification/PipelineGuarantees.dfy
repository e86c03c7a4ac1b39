/** What the operation-log pipeline promises over every run. */
module PipelineGuarantees {
  import opened Common
  import Runs
  import opened OperationLog
  import opened Text
  import opened Pipeline

  /** What the message protocol asks of an event. */
  ghost predicate WellFormed(e: Event) {
    && TrimSpace(e.eventID) != "" && TrimSpace(e.moduleName) != "" && TrimSpace(e.action) != ""
    && e.eventType == "admin.operation_log.created" && e.schemaVersion == 1
    && e.occurredAt != 0 && e.adminID != 0
  }

  /** A copy of the same message that the broker still has. */
  ghost predicate StandsFor(s: State, j: nat, i: nat)
    requires i < |s.copies|
  {
    && i <= j < |s.copies| && !s.copies[j].place.Gone?
    && s.copies[j].origin == s.copies[i].origin && s.copies[j].body == s.copies[i].body
  }

  lemma {:induction false} Traceable(p: Params, s: State, i: nat)
    requires Inv(p, s) && i < |s.copies|
    ensures Recorded(s, i) || exists j: nat :: StandsFor(s, j, i)
    decreases |s.copies| - i
  {
    assert CopyOk(p, s, i);
    if !s.copies[i].place.Gone? {
      assert StandsFor(s, i, i);
    } else if !Recorded(s, i) {
      var c: nat :| IsChild(s, c, i);
      assert CopyOk(p, s, c);
      Traceable(p, s, c);
      if !Recorded(s, c) {
        var j: nat :| StandsFor(s, j, c);
        assert StandsFor(s, j, i);
      }
    }
  }

  /** Main result. Nothing is lost: after any interleaving of publications, deliveries, database
      failures, refused and late-confirmed republications, lost acknowledgements, TTL expiry,
      channel loss and consumer crashes, every message the broker ever took is in the main
      queue, held by a consumer, in the retry queue or in the DLQ, or recorded in the database. */
  lemma NothingIsLost(p: Params, actions: seq<Action>, i: nat)
    requires Wired(p)
    ensures var s := Exec(p, START, actions);
            i < |s.copies| ==> Recorded(s, i) || exists j: nat :: StandsFor(s, j, i)
  {
    Reachable(p, actions);
    var s := Exec(p, START, actions);
    if i < |s.copies| {
      Traceable(p, s, i);
    }
  }

  /** Main result. Retries are bounded: a message published without a retry header is
      republished at most maxRetries + 1 times in any line of descent, its count never passes
      maxRetries, and each republication to the retry queue raises the count by exactly one. */
  lemma RetriesAreBounded(p: Params, actions: seq<Action>, i: nat)
    requires Wired(p)
    ensures var s := Exec(p, START, actions);
            i < |s.copies| ==>
              var c := s.copies[i];
              && c.origin < |s.copies|
              && (RETRY_HEADER !in s.copies[c.origin].headers ==>
                    && 0 <= RetryCount(c.headers) <= p.maxRetries && c.generation <= p.maxRetries + 1
                    && (c.parent.Some? ==>
                          && c.parent.value < i
                          && RetryCount(c.headers) ==
                             RetryCount(s.copies[c.parent.value].headers) + (if c.place.Dead? then 0 else 1)))
  {
    Reachable(p, actions);
    var s := Exec(p, START, actions);
    if i < |s.copies| {
      assert CopyOk(p, s, i);
      if s.copies[i].parent.Some? {
        assert CopyOk(p, s, s.copies[i].parent.value);
      }
    }
  }

  /** Main result. Every entry of the DLQ is there for a reason: its event is invalid, its
      administrator ID does not fit, or its retries are used up. */
  lemma DeadLettersHaveReasons(p: Params, actions: seq<Action>, i: nat)
    requires Wired(p)
    ensures var s := Exec(p, START, actions);
            i < |s.copies| && s.copies[i].place == Dead ==>
              var b := s.copies[i].body;
              || !WellFormed(b.event)
              || (b.json && b.event.adminID > p.platform.maxUint)
              || RetryCount(s.copies[i].headers) >= p.maxRetries
  {
    Reachable(p, actions);
    var s := Exec(p, START, actions);
    assert i < |s.copies| ==> CopyOk(p, s, i);
  }

  /** Main result. Only what may pass is ever retried: a republished copy that is not in the DLQ has a
      valid event, and an administrator ID that fits if its body decodes. */
  lemma OnlyRetryableIsRetried(p: Params, actions: seq<Action>, i: nat)
    requires Wired(p)
    ensures var s := Exec(p, START, actions);
            i < |s.copies| && s.copies[i].parent.Some? && s.copies[i].place != Dead ==>
              var b := s.copies[i].body;
              WellFormed(b.event) && (b.json ==> b.event.adminID <= p.platform.maxUint)
  {
    Reachable(p, actions);
    var s := Exec(p, START, actions);
    assert i < |s.copies| ==> CopyOk(p, s, i);
  }

  /** The stored row and the event it was stored for, column by column. */
  ghost predicate Agrees(row: Row, e: Event) {
    && row.eventID == e.eventID
    && row.adminID == e.adminID && row.adminName == e.adminName
    && row.moduleName == e.moduleName && row.operType == e.action && row.operDesc == e.description
    && row.requestURL == e.path && row.httpMethod == e.httpMethod
    && row.ip == e.clientIP && row.userAgent == e.userAgent
    && (e.success ==> row.status == 1)
  }

  /** Main result. Over every run each row agrees column by column with the valid event of a delivery
      that was handled; a failure's status is 0 unless the ORM leaves zeros out. */
  lemma RowsAgreeWithEvents(p: Params, actions: seq<Action>, k: nat) returns (d: nat)
    requires Wired(p) && k < |Exec(p, START, actions).rows|
    ensures var s := Exec(p, START, actions);
            && d < |s.works| && s.works[d].phase != Received && s.works[d].copy < |s.copies|
            && var b := s.copies[s.works[d].copy].body;
               && b.json && WellFormed(b.event) && Agrees(s.rows[k], b.event)
               && (!b.event.success && !p.platform.omitsZero ==> s.rows[k].status == 0)
  {
    Reachable(p, actions);
    var s := Exec(p, START, actions);
    assert RowOk(p, s, k);
    d :| Wrote(p, s, d, s.rows[k]);
  }

  /** Main result. Redelivery has an exactly-once effect: however often messages are delivered,
      the table never has two rows for one event, every row is what is stored for the valid event
      of a delivery that was handled, and whatever happens later leaves the rows as they were written. */
  lemma ExactlyOnceEffect(p: Params, before: seq<Action>, after: seq<Action>)
    requires Wired(p)
    ensures var s := Exec(p, START, before);
            var t := Exec(p, s, after);
            && s.rows <= t.rows && UniqueEvents(t.rows)
            && (forall k :: 0 <= k < |t.rows| ==> RowOk(p, t, k))
  {
    Reachable(p, before);
    ExecKeepsInv(p, Exec(p, START, before), after);
  }

  /** Event IDs identify events among the messages of a run. */
  ghost predicate IdsIdentify(s: State) {
    forall i, j :: 0 <= i < |s.copies| && 0 <= j < |s.copies|
      && s.copies[i].body.event.eventID == s.copies[j].body.event.eventID
      ==> s.copies[i].body.event == s.copies[j].body.event
  }

  /** With distinct event IDs the row of a recorded message is its own mapping. */
  lemma RecordedRowIsOwn(p: Params, actions: seq<Action>, i: nat)
    requires Wired(p)
    ensures var s := Exec(p, START, actions);
            i < |s.copies| && Recorded(s, i) && IdsIdentify(s) ==>
              RowOf(s.copies[i].body.event, p.platform.omitsZero) in s.rows
  {
    Reachable(p, actions);
    var s := Exec(p, START, actions);
    if i < |s.copies| && Recorded(s, i) && IdsIdentify(s) {
      var k :| 0 <= k < |s.rows| && s.rows[k].eventID == s.copies[i].body.event.eventID;
      assert RowOk(p, s, k);
      var d: nat :| Wrote(p, s, d, s.rows[k]);
      var j := s.works[d].copy;
      assert s.copies[j].body.event.eventID == s.copies[i].body.event.eventID;
    }
  }

  /** The stored status tells success from failure if and only if the ORM writes the zero. */
  lemma StatusTellsSuccess(omitsZero: bool)
    ensures (forall e: Event :: RowOf(e, omitsZero).status == 1 <==> e.success) <==> !omitsZero
  {
    var failed := Event("", "", 0, 0, 0, "", "", "", "", false, "", "", "", "");
    assert RowOf(failed, omitsZero).status == 1 <==> omitsZero;
  }

  /** If it does not, no failed operation is ever on record, over any run. */
  lemma FailuresLookLikeSuccesses(p: Params, actions: seq<Action>, k: nat)
    requires Wired(p) && p.platform.omitsZero && k < |Exec(p, START, actions).rows|
    ensures Exec(p, START, actions).rows[k].status == 1
  {
    Reachable(p, actions);
    assert RowOk(p, Exec(p, START, actions), k);
  }

  // ----- progress

  /** One handling in which republication, confirmation and acknowledgement work, followed by
      the TTL of the retry copy if there is one. Steps that do not apply do nothing. */
  ghost function RoundScript(s: State, i: nat, commit: Commit): seq<Action> {
    var d := |s.works|;
    [Deliver(i), Handle(d, commit), Accept(d), Confirm(d), Ack(d, true), Expire(|s.copies|)]
  }

  ghost function Round(p: Params, s: State, i: nat, commit: Commit): State {
    Exec(p, s, RoundScript(s, i, commit))
  }

  ghost predicate Queued(s: State, i: nat) {
    i < |s.copies| && s.copies[i].place == Main && RetryCount(s.copies[i].headers) >= 0
  }

  /** The first two steps: the copy is held and processed. */
  lemma HandledState(p: Params, s: State, i: nat, commit: Commit)
    requires Queued(s, i)
    ensures var d := |s.works|;
            var c := s.copies[i];
            var (rows, r) := Process(c.body, s.rows, commit, p.platform);
            var t := Step(p, Step(p, s, Deliver(i)), Handle(d, commit));
            && t.rows == rows && t.copies == s.copies[i := c.(place := Held(d))]
            && t.works == s.works + [if r.Stored? then Work(i, Saved, None, false, None)
                                     else Work(i, Sending, Some(Verdict(p, c, r)), false, None)]
  {
    var d := |s.works|;
    var s1 := Step(p, s, Deliver(i));
    assert s1.works[d] == Work(i, Received, None, false, None);
    var t := Step(p, s1, Handle(d, commit));
    assert t.works[..d] == s.works;
  }

  /** A round settles the message, or moves it to the DLQ, or queues a copy with a count one
      higher. */
  lemma RoundOutcome(p: Params, s: State, i: nat, commit: Commit)
    requires Wired(p) && Queued(s, i)
    ensures var t := Round(p, s, i, commit);
            var j := |s.copies|;
            var (rows, r) := Process(s.copies[i].body, s.rows, commit, p.platform);
            && t.rows == rows
            && (if r.Stored? then t.copies == s.copies[i := s.copies[i].(place := Gone)]
                else |t.copies| == j + 1 && t.copies[j].body == s.copies[i].body
                     && t.copies[j].origin == s.copies[i].origin
                     && (if Verdict(p, s.copies[i], r).ToDead? then t.copies[j].place == Dead
                         else Queued(t, j) && RetryCount(t.copies[j].headers) == RetryCount(s.copies[i].headers) + 1))
  {
    var d, j := |s.works|, |s.copies|;
    var c := s.copies[i];
    var (rows, r) := Process(c.body, s.rows, commit, p.platform);
    Runs.Six(StepOf(p), s, Deliver(i), Handle(d, commit), Accept(d), Confirm(d), Ack(d, true), Expire(j));
    HandledState(p, s, i, commit);
    var s2 := Step(p, Step(p, s, Deliver(i)), Handle(d, commit));
    if r.Stored? {
      assert Step(p, Step(p, s2, Accept(d)), Confirm(d)) == s2;
      var s5 := Step(p, s2, Ack(d, true));
      assert s5.copies == s.copies[i := c.(place := Gone)];
    } else {
      SentRound(p, s2, i, d, j, c, Verdict(p, c, r));
    }
  }

  lemma SentRound(p: Params, s: State, i: nat, d: nat, j: nat, c: Copy, dest: Dest)
    requires Wired(p) && j == |s.copies| && i < j && d + 1 == |s.works|
    requires s.copies[i] == c.(place := Held(d)) && s.works[d] == Work(i, Sending, Some(dest), false, None)
    requires dest == ToRetry || dest == ToDead
    requires dest == ToRetry ==> 0 <= RetryCount(c.headers) < p.maxRetries
    ensures var t := Step(p, Step(p, Step(p, Step(p, s, Accept(d)), Confirm(d)), Ack(d, true)), Expire(j));
            && t.rows == s.rows && |t.copies| == j + 1
            && t.copies[j].body == c.body && t.copies[j].origin == c.origin
            && (if dest.ToDead? then t.copies[j].place == Dead
                else Queued(t, j) && RetryCount(t.copies[j].headers) == RetryCount(c.headers) + 1)
  {
    TakenRound(p, s, i, d, j, c, dest);
    ExpiredRound(p, Step(p, Step(p, Step(p, s, Accept(d)), Confirm(d)), Ack(d, true)), j);
    if dest.ToRetry? {
      NextRetryAddsOne(c.headers, p.maxRetries);
    }
  }

  /** The TTL of a retry copy ends and the broker routes it back to the main queue. */
  lemma ExpiredRound(p: Params, s: State, j: nat)
    requires Wired(p) && j < |s.copies| && !s.copies[j].place.Main?
    ensures var t := Step(p, s, Expire(j));
            && t.rows == s.rows && |t.copies| == |s.copies|
            && t.copies[j].body == s.copies[j].body && t.copies[j].origin == s.copies[j].origin
            && RetryCount(t.copies[j].headers) == RetryCount(s.copies[j].headers)
            && t.copies[j].place == if s.copies[j].place == Retry then Main else s.copies[j].place
  {
    Wiring(p);
    assert |RETRY_HEADER| != |DEATH_HEADER|;
  }

  /** The republication is taken, confirmed, and the delivery acknowledged. */
  lemma TakenRound(p: Params, s: State, i: nat, d: nat, j: nat, c: Copy, dest: Dest)
    requires Wired(p) && j == |s.copies| && i < j && d + 1 == |s.works|
    requires s.copies[i] == c.(place := Held(d)) && s.works[d] == Work(i, Sending, Some(dest), false, None)
    requires dest == ToRetry || dest == ToDead
    ensures var t := Step(p, Step(p, Step(p, s, Accept(d)), Confirm(d)), Ack(d, true));
            && t.rows == s.rows && |t.copies| == j + 1
            && t.copies[j] == Copy(c.body, Outgoing(c.headers, dest), if dest.ToDead? then Dead else Retry,
                                   c.origin, Some(i), c.generation + 1)
  {
    Wiring(p);
    var s3 := Step(p, s, Accept(d));
    assert s3.works[d] == Work(i, Sending, Some(dest), true, Some(j));
    var s4 := Step(p, s3, Confirm(d));
    assert s4.works[d].phase == Transferred && s4.copies == s3.copies;
    assert Step(p, s4, Ack(d, true)).copies[j] == s3.copies[j];
  }

  /** Rounds on the message, following it from copy to copy, while it comes back to the main
      queue and outcomes are left; each round uses one outcome. */
  ghost function Rounds(p: Params, s: State, i: nat, commits: seq<Commit>): State
    decreases |commits|
  {
    if commits == [] then s
    else
      var t := Round(p, s, i, commits[0]);
      if Queued(t, |s.copies|) then Rounds(p, t, |s.copies|, commits[1..]) else t
  }

  ghost predicate Settled(s: State, body: Body, origin: nat) {
    || (Decodes(body) && HasEvent(s.rows, body.event.eventID))
    || exists j :: 0 <= j < |s.copies| && s.copies[j].place == Dead
                   && s.copies[j].body == body && s.copies[j].origin == origin
  }

  /** From every state with a queued message there is a schedule that settles it: with its rounds run
      back to back, whatever the database answers, it is in the database or in the DLQ after at most
      maxRetries + 1 handlings, fewer if it has been retried before. */
  lemma {:induction false} MessagesDrain(p: Params, s: State, i: nat, commits: seq<Commit>)
    requires Wired(p) && Queued(s, i)
    requires |commits| >= 1 && |commits| >= p.maxRetries - RetryCount(s.copies[i].headers) + 1
    ensures Settled(Rounds(p, s, i, commits), s.copies[i].body, s.copies[i].origin)
    decreases |commits|
  {
    var c := s.copies[i];
    var t := Round(p, s, i, commits[0]);
    var j := |s.copies|;
    var (rows, r) := Process(c.body, s.rows, commits[0], p.platform);
    RoundOutcome(p, s, i, commits[0]);
    if r.Stored? {
      assert !Queued(t, j);
      assert HasEvent(rows, c.body.event.eventID) by {
        if !HasEvent(s.rows, c.body.event.eventID) {
          assert rows[|s.rows|].eventID == c.body.event.eventID;
        }
      }
    } else if Verdict(p, c, r).ToRetry? {
      MessagesDrain(p, t, j, commits[1..]);
    } else {
      assert t.copies[j].place == Dead;
    }
  }
}
