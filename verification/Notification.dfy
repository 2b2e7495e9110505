/** Delivery of regulatory notifications: `approve` and `send`
    (backend/app/services/notification_service.py), `dispatch_notification`
    (backend/app/routers/notifications.py), the queue worker
    (backend/app/workers/notification_worker.py) and its polling loop
    (backend/app/workers/main.py).

    Each operation is one atomic step; a crash or a failed commit between sending
    an email and committing is not modelled. Whether an email is accepted, whether
    a handler raises, whether a message could be queued and whether a deletion
    sticks are inputs. */
module Notification {
  import opened Wrappers

  const MAX_RETRIES := 3

  datatype Status = Pending | Approved | Sent | Failed | Cancelled

  datatype Note = Note(status: Status, approvedBy: Option<nat>, approvedAt: Option<real>,
                       sentAt: Option<real>, retryCount: nat, lastError: Option<string>)

  /** The body of a queue message; a malformed one always makes the handler raise. */
  datatype Message = ForNote(id: nat) | WithoutId | Malformed

  datatype Mail = Accepted | Refused(error: string)

  /** How the handler of a message ends: it returns, having met `mail` if it came to
      sending, or it raises before that, rolls back and raises again. */
  datatype Handling = Returned(mail: Mail) | Raised

  datatype Sender = ByUser | ByWorker

  /** One try at sending an email, as an observer records it. */
  datatype Attempt = Attempt(id: nat, sender: Sender, mail: Mail, at: real, retriesBefore: nat)

  datatype Error = NotFound | Conflict

  datatype State = State(notes: map<nat, Note>, queue: multiset<Message>, log: seq<Attempt>)

  const EMPTY := State(map[], multiset{}, [])
  const NEW_NOTE := Note(Pending, None, None, None, 0, None)

  /** `visible` says whether the caller's project scope contains the notification;
      `Post` is a message from anyone else. */
  datatype Op =
    | Create(id: nat)
    | Approve(id: nat, user: nat, visible: bool, queued: bool, now: real)
    | Send(id: nat, visible: bool, mail: Mail, now: real)
    | Dispatch(id: nat, user: nat, visible: bool, queued: bool, mail: Mail, now: real)
    | Deliver(message: Message, handling: Handling, deleted: bool, now: real)
    | Post(message: Message)

  // ----------------------------------------------------------------- operations

  function ApproveStep(s: State, id: nat, user: nat, visible: bool, queued: bool, now: real)
    : (State, Result<Note, Error>)
  {
    if id !in s.notes || !visible then (s, Err(NotFound))
    else if s.notes[id].status != Pending then (s, Err(Conflict))
    else
      var n := s.notes[id].(status := Approved, approvedBy := Some(user), approvedAt := Some(now));
      (s.(notes := s.notes[id := n],
          queue := if queued then s.queue + multiset{ForNote(id)} else s.queue),
       Ok(n))
  }

  function AfterMail(n: Note, mail: Mail, now: real): Note {
    match mail
    case Accepted => n.(status := Sent, sentAt := Some(now), lastError := None)
    case Refused(error) => n.(status := Failed, retryCount := n.retryCount + 1, lastError := Some(error))
  }

  function SendStep(s: State, id: nat, sender: Sender, visible: bool, mail: Mail, now: real)
    : (State, Result<Note, Error>)
  {
    if id !in s.notes || !visible then (s, Err(NotFound))
    else if s.notes[id].status != Approved && s.notes[id].status != Failed then (s, Err(Conflict))
    else
      var n := AfterMail(s.notes[id], mail, now);
      (s.(notes := s.notes[id := n],
          log := s.log + [Attempt(id, sender, mail, now, s.notes[id].retryCount)]),
       Ok(n))
  }

  function DispatchStep(s: State, id: nat, user: nat, visible: bool, queued: bool, mail: Mail, now: real)
    : (State, Result<Note, Error>)
  {
    if id !in s.notes || !visible then (s, Err(NotFound))
    else
      var t := if s.notes[id].status == Pending then ApproveStep(s, id, user, visible, queued, now).0 else s;
      SendStep(t, id, ByUser, visible, mail, now)
  }

  /** send_notification: skips a notification that is missing, in another status
      or out of retries; when it raises, the session is rolled back. */
  function WorkerStep(s: State, id: nat, handling: Handling, now: real): State {
    if handling.Raised? then s
    else if id !in s.notes then s
    else if s.notes[id].status != Approved && s.notes[id].status != Failed then s
    else if s.notes[id].retryCount >= MAX_RETRIES then s
    else SendStep(s, id, ByWorker, true, handling.mail, now).0
  }

  predicate HandlerReturns(m: Message, handling: Handling) {
    match m
    case Malformed => false
    case WithoutId => true
    case ForNote(_) => handling.Returned?
  }

  /** One message of poll_queue: deleted only after its handler returned. */
  function DeliverStep(s: State, m: Message, handling: Handling, deleted: bool, now: real): State {
    var t := if m.ForNote? then WorkerStep(s, m.id, handling, now) else s;
    if HandlerReturns(m, handling) && deleted then t.(queue := t.queue - multiset{m}) else t
  }

  function Step(s: State, op: Op): State {
    match op
    case Create(id) => if id in s.notes then s else s.(notes := s.notes[id := NEW_NOTE])
    case Approve(id, user, visible, queued, now) => ApproveStep(s, id, user, visible, queued, now).0
    case Send(id, visible, mail, now) => SendStep(s, id, ByUser, visible, mail, now).0
    case Dispatch(id, user, visible, queued, mail, now) => DispatchStep(s, id, user, visible, queued, mail, now).0
    case Deliver(m, handling, deleted, now) => DeliverStep(s, m, handling, deleted, now)
    case Post(m) => s.(queue := s.queue + multiset{m})
  }

  function Run(ops: seq<Op>): State {
    if ops == [] then EMPTY else Step(Run(ops[..|ops| - 1]), ops[|ops| - 1])
  }

  /** A message received in one poll, with what its handling will meet. */
  datatype Receipt = Receipt(message: Message, handling: Handling, deleted: bool, now: real)

  function PollStep(s: State, batch: seq<Receipt>): State {
    if batch == [] then s
    else
      var r := batch[|batch| - 1];
      DeliverStep(PollStep(s, batch[..|batch| - 1]), r.message, r.handling, r.deleted, r.now)
  }

  class Notifications {
    var notes: map<nat, Note>
    var queue: multiset<Message>
    var log: seq<Attempt>

    ghost function View(): State
      reads this
    {
      State(notes, queue, log)
    }

    constructor ()
      ensures View() == EMPTY
    {
      notes, queue, log := map[], multiset{}, [];
    }

    method ApproveNote(id: nat, user: nat, visible: bool, queued: bool, now: real) returns (r: Result<Note, Error>)
      modifies this`notes, this`queue
      ensures (View(), r) == ApproveStep(old(View()), id, user, visible, queued, now)
    {
      if id !in notes || !visible {
        return Err(NotFound);
      }
      var n := notes[id];
      if n.status != Pending {
        return Err(Conflict);
      }
      n := n.(status := Approved);
      n := n.(approvedBy := Some(user));
      n := n.(approvedAt := Some(now));
      notes := notes[id := n];
      if queued {
        queue := queue + multiset{ForNote(id)};
      }
      return Ok(n);
    }

    method SendNote(id: nat, sender: Sender, visible: bool, mail: Mail, now: real) returns (r: Result<Note, Error>)
      modifies this`notes, this`log
      ensures (View(), r) == SendStep(old(View()), id, sender, visible, mail, now)
    {
      if id !in notes || !visible {
        return Err(NotFound);
      }
      var n := notes[id];
      if n.status != Approved && n.status != Failed {
        return Err(Conflict);
      }
      log := log + [Attempt(id, sender, mail, now, n.retryCount)];
      match mail {
        case Accepted =>
          n := n.(status := Sent, sentAt := Some(now), lastError := None);
        case Refused(error) =>
          n := n.(status := Failed, retryCount := n.retryCount + 1, lastError := Some(error));
      }
      notes := notes[id := n];
      return Ok(n);
    }

    method DispatchNote(id: nat, user: nat, visible: bool, queued: bool, mail: Mail, now: real)
      returns (r: Result<Note, Error>)
      modifies this
      ensures (View(), r) == DispatchStep(old(View()), id, user, visible, queued, mail, now)
    {
      if id !in notes || !visible {
        return Err(NotFound);
      }
      if notes[id].status == Pending {
        var _ := ApproveNote(id, user, visible, queued, now);
      }
      r := SendNote(id, ByUser, visible, mail, now);
    }

    /** Says whether the handler returned instead of raising. */
    method WorkerSend(id: nat, handling: Handling, now: real) returns (returned: bool)
      modifies this`notes, this`log
      ensures View() == WorkerStep(old(View()), id, handling, now)
      ensures returned <==> HandlerReturns(ForNote(id), handling)
    {
      if handling.Raised? {
        return false;
      }
      if id !in notes {
        return true;
      }
      if notes[id].status != Approved && notes[id].status != Failed {
        return true;
      }
      if notes[id].retryCount >= MAX_RETRIES {
        return true;
      }
      var _ := SendNote(id, ByWorker, true, handling.mail, now);
      return true;
    }

    /** The inner loop of poll_queue. */
    method Poll(batch: seq<Receipt>)
      modifies this
      ensures View() == PollStep(old(View()), batch)
    {
      assert batch[..0] == [];
      for i := 0 to |batch|
        invariant View() == PollStep(old(View()), batch[..i])
      {
        assert batch[..i + 1][..i] == batch[..i];
        var r := batch[i];
        var returned := r.message.WithoutId?;
        if r.message.ForNote? {
          returned := WorkerSend(r.message.id, r.handling, r.now);
        }
        if returned && r.deleted {
          queue := queue - multiset{r.message};
        }
      }
      assert batch[..|batch|] == batch;
    }
  }

  // -------------------------------------------------------------- what must hold

  /** The attempts on notification `id` that satisfy `p`. */
  function Count(log: seq<Attempt>, id: nat, p: Attempt -> bool): nat {
    if log == [] then 0
    else
      var a := log[|log| - 1];
      Count(log[..|log| - 1], id, p) + (if a.id == id && p(a) then 1 else 0)
  }

  function Succeeded(): Attempt -> bool {
    (a: Attempt) => a.mail.Accepted?
  }

  function FailedTry(): Attempt -> bool {
    (a: Attempt) => a.mail.Refused?
  }

  function OfWorker(): Attempt -> bool {
    (a: Attempt) => a.sender == ByWorker
  }

  /** At most one email succeeds and then the status is sent; retry_count is the
      number of failed attempts; nothing is tried before approval; the worker makes
      at most three attempts. */
  ghost predicate NoteOk(n: Note, log: seq<Attempt>, id: nat) {
    && n.status != Cancelled
    && (n.status != Pending <==> n.approvedAt.Some?) && (n.approvedBy.Some? <==> n.approvedAt.Some?)
    && (n.status == Sent <==> n.sentAt.Some?)
    && (n.sentAt.Some? ==> n.approvedAt.value <= n.sentAt.value)
    && Count(log, id, Succeeded()) == (if n.status == Sent then 1 else 0)
    && Count(log, id, FailedTry()) == n.retryCount
    && Count(log, id, OfWorker()) <= MAX_RETRIES
    && (n.status != Sent ==> Count(log, id, OfWorker()) <= n.retryCount)
    && (n.status == Pending ==> n.retryCount == 0)
    && (n.status == Failed ==> n.retryCount > 0)
  }

  /** Every attempt is on a known notification that was approved no later. */
  ghost predicate AttemptOk(a: Attempt, notes: map<nat, Note>) {
    && a.id in notes
    && notes[a.id].approvedAt.Some? && notes[a.id].approvedAt.value <= a.at
    && (a.sender == ByWorker ==> a.retriesBefore < MAX_RETRIES)
  }

  ghost predicate Valid(s: State) {
    && (forall id :: id in s.notes ==> NoteOk(s.notes[id], s.log, id))
    && (forall a :: a in s.log ==> AttemptOk(a, s.notes))
  }

  function TimeOf(op: Op): Option<real> {
    match op
    case Create(_) => None
    case Approve(_, _, _, _, now) => Some(now)
    case Send(_, _, _, now) => Some(now)
    case Dispatch(_, _, _, _, _, now) => Some(now)
    case Deliver(_, _, _, now) => Some(now)
    case Post(_) => None
  }

  ghost predicate Nondecreasing(ops: seq<Op>) {
    forall i, j :: 0 <= i < j < |ops| && TimeOf(ops[i]).Some? && TimeOf(ops[j]).Some? ==>
      TimeOf(ops[i]).value <= TimeOf(ops[j]).value
  }

  /** No approval lies in the future of `now`. */
  ghost predicate NotAfter(s: State, now: real) {
    forall id :: id in s.notes && s.notes[id].approvedAt.Some? ==> s.notes[id].approvedAt.value <= now
  }

  lemma {:induction false} NoAttempts(log: seq<Attempt>, id: nat, p: Attempt -> bool)
    requires forall a :: a in log ==> a.id != id
    ensures Count(log, id, p) == 0
  {
    if log != [] {
      NoAttempts(log[..|log| - 1], id, p);
      assert log[|log| - 1] in log;
    }
  }

  lemma CountAppend(log: seq<Attempt>, a: Attempt, id: nat, p: Attempt -> bool)
    ensures Count(log + [a], id, p) == Count(log, id, p) + (if a.id == id && p(a) then 1 else 0)
  {
  }

  lemma CreateValid(s: State, id: nat)
    requires Valid(s)
    ensures Valid(Step(s, Create(id)))
  {
    if id !in s.notes {
      assert forall a :: a in s.log ==> AttemptOk(a, s.notes) && a.id != id;
      NoAttempts(s.log, id, Succeeded());
      NoAttempts(s.log, id, FailedTry());
      NoAttempts(s.log, id, OfWorker());
    }
  }

  lemma ApproveValid(s: State, id: nat, user: nat, visible: bool, queued: bool, now: real)
    requires Valid(s)
    ensures Valid(ApproveStep(s, id, user, visible, queued, now).0)
  {
  }

  lemma SendValid(s: State, id: nat, sender: Sender, visible: bool, mail: Mail, now: real)
    requires Valid(s) && NotAfter(s, now)
    requires sender == ByWorker && id in s.notes ==> s.notes[id].retryCount < MAX_RETRIES
    ensures Valid(SendStep(s, id, sender, visible, mail, now).0)
  {
    var t := SendStep(s, id, sender, visible, mail, now).0;
    if t != s {
      var a := Attempt(id, sender, mail, now, s.notes[id].retryCount);
      assert NoteOk(s.notes[id], s.log, id);
      forall i | i in t.notes ensures NoteOk(t.notes[i], t.log, i) {
        assert NoteOk(s.notes[i], s.log, i);
        CountAppend(s.log, a, i, Succeeded());
        CountAppend(s.log, a, i, FailedTry());
        CountAppend(s.log, a, i, OfWorker());
      }
      forall b | b in t.log ensures AttemptOk(b, t.notes) {
        assert b in s.log ==> AttemptOk(b, s.notes);
      }
    }
  }

  lemma StepValid(s: State, op: Op)
    requires Valid(s) && (TimeOf(op).Some? ==> NotAfter(s, TimeOf(op).value))
    ensures Valid(Step(s, op))
  {
    match op
    case Create(id) => CreateValid(s, id);
    case Approve(id, user, visible, queued, now) => ApproveValid(s, id, user, visible, queued, now);
    case Send(id, visible, mail, now) => SendValid(s, id, ByUser, visible, mail, now);
    case Dispatch(id, user, visible, queued, mail, now) =>
      if id in s.notes && visible && s.notes[id].status == Pending {
        ApproveValid(s, id, user, visible, queued, now);
        SendValid(ApproveStep(s, id, user, visible, queued, now).0, id, ByUser, visible, mail, now);
      } else {
        SendValid(s, id, ByUser, visible, mail, now);
      }
    case Deliver(m, handling, deleted, now) =>
      if m.ForNote? && handling.Returned? && m.id in s.notes && s.notes[m.id].retryCount < MAX_RETRIES {
        SendValid(s, m.id, ByWorker, true, handling.mail, now);
      }
    case Post(_) =>
  }

  lemma StepNotAfter(s: State, op: Op, now: real)
    requires NotAfter(s, now) && (TimeOf(op).Some? ==> TimeOf(op).value <= now)
    ensures NotAfter(Step(s, op), now)
  {
    match op
    case Create(_) =>
    case Approve(id, user, visible, queued, _) => ApproveNotAfter(s, id, user, visible, queued, op.now, now);
    case Send(id, visible, mail, _) => SendNotAfter(s, id, ByUser, visible, mail, op.now, now);
    case Dispatch(id, user, visible, queued, mail, _) =>
      ApproveNotAfter(s, id, user, visible, queued, op.now, now);
      SendNotAfter(s, id, ByUser, visible, mail, op.now, now);
      SendNotAfter(ApproveStep(s, id, user, visible, queued, op.now).0, id, ByUser, visible, mail, op.now, now);
    case Deliver(m, handling, _, _) =>
      if m.ForNote? && handling.Returned? {
        SendNotAfter(s, m.id, ByWorker, true, handling.mail, op.now, now);
      }
    case Post(_) =>
  }

  lemma ApproveNotAfter(s: State, id: nat, user: nat, visible: bool, queued: bool, at: real, now: real)
    requires NotAfter(s, now) && at <= now
    ensures NotAfter(ApproveStep(s, id, user, visible, queued, at).0, now)
  {
  }

  lemma SendNotAfter(s: State, id: nat, sender: Sender, visible: bool, mail: Mail, at: real, now: real)
    requires NotAfter(s, now)
    ensures NotAfter(SendStep(s, id, sender, visible, mail, at).0, now)
  {
  }

  lemma {:induction false} RunNotAfter(ops: seq<Op>, now: real)
    requires forall i :: 0 <= i < |ops| && TimeOf(ops[i]).Some? ==> TimeOf(ops[i]).value <= now
    ensures NotAfter(Run(ops), now)
  {
    if ops != [] {
      RunNotAfter(ops[..|ops| - 1], now);
      StepNotAfter(Run(ops[..|ops| - 1]), ops[|ops| - 1], now);
    }
  }

  /** Over any interleaving of approvals, dispatches, sends and worker deliveries,
      repeated at will, on a clock that does not go back. */
  lemma {:induction false} DeliveryAlwaysValid(ops: seq<Op>)
    requires Nondecreasing(ops)
    ensures Valid(Run(ops))
  {
    if ops != [] {
      var before, op := ops[..|ops| - 1], ops[|ops| - 1];
      DeliveryAlwaysValid(before);
      if TimeOf(op).Some? {
        RunNotAfter(before, TimeOf(op).value);
      }
      StepValid(Run(before), op);
    }
  }

  /** The log is unchanged or has one more attempt, on a notification not sent before. */
  ghost predicate LogsAtMostOne(s: State, t: State) {
    t.log == s.log
    || (t.log != [] && t.log == s.log + [t.log[|t.log| - 1]]
        && t.log[|t.log| - 1].id in s.notes && s.notes[t.log[|t.log| - 1].id].status != Sent)
  }

  ghost predicate KeepsSentRow(s: State, t: State, id: nat) {
    id in s.notes && s.notes[id].status == Sent ==> id in t.notes && t.notes[id] == s.notes[id]
  }

  lemma ApproveKeepsSent(s: State, i: nat, user: nat, visible: bool, queued: bool, now: real, id: nat)
    ensures var t := ApproveStep(s, i, user, visible, queued, now).0;
            && t.log == s.log && KeepsSentRow(s, t, id) && t.notes.Keys == s.notes.Keys
            && (i in s.notes && s.notes[i].status == Pending && visible ==> t.notes[i].status == Approved)
  {
  }

  lemma SendKeepsSent(s: State, i: nat, sender: Sender, visible: bool, mail: Mail, now: real, id: nat)
    ensures var t := SendStep(s, i, sender, visible, mail, now).0;
            LogsAtMostOne(s, t) && KeepsSentRow(s, t, id)
  {
  }

  lemma StepKeepsSent(s: State, op: Op, id: nat)
    ensures LogsAtMostOne(s, Step(s, op)) && KeepsSentRow(s, Step(s, op), id)
  {
    match op
    case Create(_) =>
    case Approve(i, user, visible, queued, now) => ApproveKeepsSent(s, i, user, visible, queued, now, id);
    case Send(i, visible, mail, now) => SendKeepsSent(s, i, ByUser, visible, mail, now, id);
    case Dispatch(i, user, visible, queued, mail, now) => DispatchKeepsSent(s, i, user, visible, queued, mail, now, id);
    case Deliver(m, handling, deleted, now) => DeliverKeepsSent(s, m, handling, deleted, now, id);
    case Post(_) =>
  }

  lemma DeliverKeepsSent(s: State, m: Message, handling: Handling, deleted: bool, now: real, id: nat)
    ensures var t := DeliverStep(s, m, handling, deleted, now);
            LogsAtMostOne(s, t) && KeepsSentRow(s, t, id)
  {
    if m.ForNote? && handling.Returned? {
      SendKeepsSent(s, m.id, ByWorker, true, handling.mail, now, id);
    }
  }

  lemma DispatchKeepsSent(s: State, i: nat, user: nat, visible: bool, queued: bool, mail: Mail, now: real, id: nat)
    ensures var t := DispatchStep(s, i, user, visible, queued, mail, now).0;
            LogsAtMostOne(s, t) && KeepsSentRow(s, t, id)
  {
  }

  /** Once sent, a notification never changes, and nobody tries it again. */
  lemma SentIsTerminal(s: State, op: Op, id: nat, p: Attempt -> bool)
    requires id in s.notes && s.notes[id].status == Sent
    ensures var t := Step(s, op);
            id in t.notes && t.notes[id] == s.notes[id] && Count(t.log, id, p) == Count(s.log, id, p)
  {
    var t := Step(s, op);
    StepKeepsSent(s, op, id);
    if t.log != s.log {
      CountAppend(s.log, t.log[|t.log| - 1], id, p);
    }
  }

  // ------------------------------------------------------- the row is its history

  /** Outside the caller's project scope nothing can be done to a notification. */
  lemma OutsideScope(s: State, op: Op)
    requires (op.Approve? || op.Send? || op.Dispatch?) && !op.visible
    ensures Step(s, op) == s
  {
  }

  /** What each call answers: not found outside the scope, a conflict in the wrong
      status, and else the row as stored. */
  lemma AnswersExactly(s: State, id: nat, user: nat, visible: bool, queued: bool, mail: Mail, now: real)
    ensures var known := id in s.notes && visible;
            var (t, a) := ApproveStep(s, id, user, visible, queued, now);
            var (u, b) := SendStep(s, id, ByUser, visible, mail, now);
            var (v, c) := DispatchStep(s, id, user, visible, queued, mail, now);
            && (a == Err(NotFound) <==> !known) && (b == Err(NotFound) <==> !known) && (c == Err(NotFound) <==> !known)
            && (a.Ok? <==> known && s.notes[id].status == Pending)
            && (b.Ok? <==> known && s.notes[id].status in {Approved, Failed})
            && (c.Ok? <==> known && s.notes[id].status in {Pending, Approved, Failed})
            && (a.Ok? ==> id in t.notes && t.notes[id] == a.value)
            && (b.Ok? ==> id in u.notes && u.notes[id] == b.value)
            && (c.Ok? ==> id in v.notes && v.notes[id] == c.value)
  {
  }

  /** Who approved a notification and when: the first approval or dispatch within the
      caller's scope after its creation. */
  function ApprovalOf(ops: seq<Op>, id: nat): Option<(nat, real)> {
    if ops == [] then None
    else
      var before, op := ops[..|ops| - 1], ops[|ops| - 1];
      if ApprovalOf(before, id).Some? then ApprovalOf(before, id)
      else if (op.Approve? || op.Dispatch?) && op.id == id && op.visible && Create(id) in before
      then Some((op.user, op.now))
      else None
  }

  ghost predicate ApprovalColumns(s: State, id: nat, created: bool, approval: Option<(nat, real)>) {
    && (id in s.notes <==> created)
    && (approval.Some? ==> created)
    && (created ==>
          && (s.notes[id].status == Pending <==> approval.None?)
          && s.notes[id].approvedBy == (if approval.Some? then Some(approval.value.0) else None)
          && s.notes[id].approvedAt == (if approval.Some? then Some(approval.value.1) else None))
  }

  lemma SendKeepsApproval(s: State, i: nat, sender: Sender, visible: bool, mail: Mail, now: real, id: nat,
                          created: bool, approval: Option<(nat, real)>)
    requires ApprovalColumns(s, id, created, approval)
    ensures ApprovalColumns(SendStep(s, i, sender, visible, mail, now).0, id, created, approval)
  {
  }

  lemma ApproveSets(s: State, i: nat, user: nat, visible: bool, queued: bool, now: real, id: nat, created: bool,
                    approval: Option<(nat, real)>)
    requires ApprovalColumns(s, id, created, approval)
    ensures ApprovalColumns(ApproveStep(s, i, user, visible, queued, now).0, id, created,
                            if approval.None? && i == id && visible && created then Some((user, now)) else approval)
  {
  }

  /** A notification exists once it was created, and its approval columns say what the
      calls of the run alone determine. */
  lemma {:induction false} ApprovalFollowsRun(ops: seq<Op>, id: nat)
    ensures ApprovalColumns(Run(ops), id, Create(id) in ops, ApprovalOf(ops, id))
  {
    if ops != [] {
      var before, op := ops[..|ops| - 1], ops[|ops| - 1];
      ApprovalFollowsRun(before, id);
      assert ops == before + [op];
      ApprovalStep(Run(before), op, id, Create(id) in before, ApprovalOf(before, id));
    }
  }

  lemma ApprovalStep(s: State, op: Op, id: nat, created: bool, approval: Option<(nat, real)>)
    requires ApprovalColumns(s, id, created, approval)
    ensures ApprovalColumns(Step(s, op), id, created || op == Create(id),
                            if approval.Some? then approval
                            else if (op.Approve? || op.Dispatch?) && op.id == id && op.visible && created
                            then Some((op.user, op.now)) else None)
  {
    match op
    case Create(_) =>
    case Approve(i, user, visible, queued, now) => ApproveSets(s, i, user, visible, queued, now, id, created, approval);
    case Send(i, visible, mail, now) => SendKeepsApproval(s, i, ByUser, visible, mail, now, id, created, approval);
    case Dispatch(i, user, visible, queued, mail, now) =>
      DispatchSets(s, i, user, visible, queued, mail, now, id, created, approval);
    case Deliver(m, handling, _, now) =>
      if m.ForNote? && handling.Returned? {
        SendKeepsApproval(s, m.id, ByWorker, true, handling.mail, now, id, created, approval);
      }
    case Post(_) =>
  }

  lemma DispatchSets(s: State, i: nat, user: nat, visible: bool, queued: bool, mail: Mail, now: real, id: nat,
                     created: bool, approval: Option<(nat, real)>)
    requires ApprovalColumns(s, id, created, approval)
    ensures ApprovalColumns(DispatchStep(s, i, user, visible, queued, mail, now).0, id, created,
                            if approval.None? && i == id && visible && created then Some((user, now)) else approval)
  {
    if i in s.notes && visible && s.notes[i].status == Pending {
      ApproveSets(s, i, user, visible, queued, now, id, created, approval);
      SendKeepsApproval(ApproveStep(s, i, user, visible, queued, now).0, i, ByUser, visible, mail, now, id, created,
                        if approval.None? && i == id && visible && created then Some((user, now)) else approval);
    } else {
      SendKeepsApproval(s, i, ByUser, visible, mail, now, id, created, approval);
    }
  }

  /** The try a step makes: by a user within the scope on a notification that is
      approved or failed (a dispatch approves first), or by the worker below three
      retries. */
  function TryOf(s: State, op: Op): Option<Attempt> {
    if op.Send? && op.visible && op.id in s.notes && s.notes[op.id].status in {Approved, Failed}
    then Some(Attempt(op.id, ByUser, op.mail, op.now, s.notes[op.id].retryCount))
    else if op.Dispatch? && op.visible && op.id in s.notes && s.notes[op.id].status in {Pending, Approved, Failed}
    then Some(Attempt(op.id, ByUser, op.mail, op.now, s.notes[op.id].retryCount))
    else if op.Deliver? && op.message.ForNote? && op.handling.Returned? && op.message.id in s.notes
            && s.notes[op.message.id].status in {Approved, Failed} && s.notes[op.message.id].retryCount < 3
    then Some(Attempt(op.message.id, ByWorker, op.handling.mail, op.now, s.notes[op.message.id].retryCount))
    else None
  }

  /** The log with that try. */
  function WithTry(log: seq<Attempt>, a: Option<Attempt>): seq<Attempt> {
    match a
    case Some(attempt) => log + [attempt]
    case None => log
  }

  lemma SendTries(s: State, id: nat, visible: bool, mail: Mail, now: real)
    ensures SendStep(s, id, ByUser, visible, mail, now).0.log == WithTry(s.log, TryOf(s, Send(id, visible, mail, now)))
  {
  }

  lemma DispatchTries(s: State, id: nat, user: nat, visible: bool, queued: bool, mail: Mail, now: real)
    ensures DispatchStep(s, id, user, visible, queued, mail, now).0.log
         == WithTry(s.log, TryOf(s, Dispatch(id, user, visible, queued, mail, now)))
  {
  }

  lemma DeliverTries(s: State, m: Message, handling: Handling, deleted: bool, now: real)
    ensures DeliverStep(s, m, handling, deleted, now).log
         == WithTry(s.log, TryOf(s, Deliver(m, handling, deleted, now)))
  {
  }

  /** Each step tries exactly when it should, and tries nothing else. */
  lemma StepTriesExactly(s: State, op: Op)
    ensures Step(s, op).log == WithTry(s.log, TryOf(s, op))
  {
    match op
    case Create(_) =>
    case Approve(_, _, _, _, _) =>
    case Send(id, visible, mail, now) => SendTries(s, id, visible, mail, now);
    case Dispatch(id, user, visible, queued, mail, now) => DispatchTries(s, id, user, visible, queued, mail, now);
    case Deliver(m, handling, deleted, now) => DeliverTries(s, m, handling, deleted, now);
    case Post(_) =>
  }

  /** The last try on a notification. */
  function LastTry(log: seq<Attempt>, id: nat): Option<Attempt> {
    if log == [] then None
    else if log[|log| - 1].id == id then Some(log[|log| - 1])
    else LastTry(log[..|log| - 1], id)
  }

  lemma LastTryAppend(log: seq<Attempt>, a: Attempt, id: nat)
    ensures LastTry(log + [a], id) == if a.id == id then Some(a) else LastTry(log, id)
  {
    assert (log + [a])[..|log|] == log;
  }

  /** The columns of a row that the last try on it decides. */
  ghost predicate TriedColumns(n: Note, last: Option<Attempt>) {
    match last
    case None => n.status in {Pending, Approved} && n.sentAt == None && n.lastError == None
    case Some(a) =>
      match a.mail
      case Accepted => n.status == Sent && n.sentAt == Some(a.at) && n.lastError == None
      case Refused(error) => n.status == Failed && n.sentAt == None && n.lastError == Some(error)
  }

  ghost predicate TriesTold(s: State) {
    && (forall id :: id in s.notes ==> TriedColumns(s.notes[id], LastTry(s.log, id)))
    && forall a :: a in s.log ==> a.id in s.notes
  }

  lemma {:induction false} NeverTried(log: seq<Attempt>, id: nat)
    requires forall a :: a in log ==> a.id != id
    ensures LastTry(log, id) == None
  {
    if log != [] {
      assert log[|log| - 1] in log;
      NeverTried(log[..|log| - 1], id);
    }
  }

  lemma SendTells(s: State, i: nat, sender: Sender, visible: bool, mail: Mail, now: real)
    requires TriesTold(s)
    ensures TriesTold(SendStep(s, i, sender, visible, mail, now).0)
  {
    var t := SendStep(s, i, sender, visible, mail, now).0;
    if t != s {
      var a := Attempt(i, sender, mail, now, s.notes[i].retryCount);
      forall id | id in t.notes ensures TriedColumns(t.notes[id], LastTry(t.log, id)) {
        LastTryAppend(s.log, a, id);
        assert TriedColumns(s.notes[id], LastTry(s.log, id));
      }
    }
  }

  lemma ApproveTells(s: State, i: nat, user: nat, visible: bool, queued: bool, now: real)
    requires TriesTold(s)
    ensures TriesTold(ApproveStep(s, i, user, visible, queued, now).0)
  {
    if i in s.notes {
      assert TriedColumns(s.notes[i], LastTry(s.log, i));
    }
  }

  lemma StepTells(s: State, op: Op)
    requires TriesTold(s)
    ensures TriesTold(Step(s, op))
  {
    match op
    case Create(id) =>
      if id !in s.notes {
        NeverTried(s.log, id);
      }
    case Approve(i, user, visible, queued, now) => ApproveTells(s, i, user, visible, queued, now);
    case Send(i, visible, mail, now) => SendTells(s, i, ByUser, visible, mail, now);
    case Dispatch(i, user, visible, queued, mail, now) =>
      ApproveTells(s, i, user, visible, queued, now);
      SendTells(s, i, ByUser, visible, mail, now);
      SendTells(ApproveStep(s, i, user, visible, queued, now).0, i, ByUser, visible, mail, now);
    case Deliver(m, handling, _, now) =>
      if m.ForNote? && handling.Returned? {
        SendTells(s, m.id, ByWorker, true, handling.mail, now);
      }
    case Post(_) =>
  }

  /** The last try on a notification decides its status, the time it was sent and the
      last error, on every run. */
  lemma {:induction false} RowFollowsTries(ops: seq<Op>)
    ensures TriesTold(Run(ops))
  {
    if ops != [] {
      RowFollowsTries(ops[..|ops| - 1]);
      StepTells(Run(ops[..|ops| - 1]), ops[|ops| - 1]);
    }
  }

  /** The call that made a try: by a user whose scope holds the notification, or a
      delivery of its message whose handler returned. */
  ghost predicate MadeBy(a: Attempt, op: Op) {
    match a.sender
    case ByUser => (op.Send? || op.Dispatch?) && op.id == a.id && op.visible && op.mail == a.mail && op.now == a.at
    case ByWorker =>
      op.Deliver? && op.message == ForNote(a.id) && op.handling == Returned(a.mail) && op.now == a.at
  }

  /** No email is tried but by such a call of the run. */
  lemma {:induction false} TriesComeFromCalls(ops: seq<Op>)
    ensures forall a :: a in Run(ops).log ==> exists op :: op in ops && MadeBy(a, op)
  {
    if ops != [] {
      var before, op := ops[..|ops| - 1], ops[|ops| - 1];
      TriesComeFromCalls(before);
      StepTriesExactly(Run(before), op);
      forall a | a in Run(ops).log ensures exists o :: o in ops && MadeBy(a, o) {
        if a in Run(before).log {
          var o :| o in before && MadeBy(a, o);
          assert o in ops;
        } else {
          assert TryOf(Run(before), op) == Some(a) && MadeBy(a, op) && op in ops;
        }
      }
    }
  }

  // ------------------------------------------------------------------- the queue

  function Bit(b: bool): nat {
    if b then 1 else 0
  }

  /** The step is the approval of pending notification `id`, and its message was queued. */
  predicate Announces(s: State, op: Op, id: nat) {
    && (op.Approve? || op.Dispatch?) && op.id == id && op.visible && op.queued
    && id in s.notes && s.notes[id].status == Pending
  }

  predicate Queues(s: State, op: Op, m: Message) {
    (m.ForNote? && Announces(s, op, m.id)) || op == Post(m)
  }

  /** The step is a delivery that takes a copy of `m` off the queue. */
  predicate Takes(s: State, op: Op, m: Message) {
    && op.Deliver? && op.message == m && m in s.queue
    && HandlerReturns(m, op.handling) && op.deleted
  }

  lemma SendQueues(s: State, id: nat, sender: Sender, visible: bool, mail: Mail, now: real)
    ensures SendStep(s, id, sender, visible, mail, now).0.queue == s.queue
  {
  }

  lemma ApproveQueues(s: State, id: nat, user: nat, visible: bool, queued: bool, now: real, m: Message)
    ensures ApproveStep(s, id, user, visible, queued, now).0.queue[m]
         == s.queue[m] + Bit(m == ForNote(id) && Announces(s, Approve(id, user, visible, queued, now), id))
  {
  }

  lemma QueuesByApproval(s: State, op: Op, m: Message)
    requires op.Approve? || op.Dispatch?
    ensures Queues(s, op, m) <==> m == ForNote(op.id) && Announces(s, op, op.id)
    ensures !Takes(s, op, m)
  {
  }

  lemma DispatchQueues(s: State, id: nat, user: nat, visible: bool, queued: bool, mail: Mail, now: real, m: Message)
    ensures DispatchStep(s, id, user, visible, queued, mail, now).0.queue[m]
         == s.queue[m] + Bit(m == ForNote(id) && Announces(s, Dispatch(id, user, visible, queued, mail, now), id))
  {
    ApproveQueues(s, id, user, visible, queued, now, m);
    SendQueues(s, id, ByUser, visible, mail, now);
    SendQueues(ApproveStep(s, id, user, visible, queued, now).0, id, ByUser, visible, mail, now);
  }

  lemma WorkerQueues(s: State, id: nat, handling: Handling, now: real)
    ensures WorkerStep(s, id, handling, now).queue == s.queue
  {
    if handling.Returned? {
      SendQueues(s, id, ByWorker, true, handling.mail, now);
    }
  }

  lemma RemoveOne(queue: multiset<Message>, x: Message, m: Message)
    ensures (queue - multiset{x})[m] == queue[m] - Bit(x == m && m in queue)
  {
  }

  lemma DeliverQueues(s: State, x: Message, handling: Handling, deleted: bool, now: real, m: Message)
    ensures DeliverStep(s, x, handling, deleted, now).queue[m]
         == s.queue[m] - Bit(x == m && m in s.queue && HandlerReturns(m, handling) && deleted)
  {
    if x.ForNote? {
      WorkerQueues(s, x.id, handling, now);
    }
    RemoveOne(s.queue, x, m);
  }

  lemma PostQueues(s: State, x: Message, m: Message)
    ensures Step(s, Post(x)).queue[m] == s.queue[m] + Bit(x == m)
  {
  }

  /** What one step does to the copies of `m` in the queue. */
  lemma StepQueue(s: State, op: Op, m: Message)
    ensures Step(s, op).queue[m] == s.queue[m] + Bit(Queues(s, op, m)) - Bit(Takes(s, op, m))
  {
    match op
    case Create(_) =>
    case Approve(i, user, visible, queued, now) =>
      QueuesByApproval(s, op, m);
      ApproveQueues(s, i, user, visible, queued, now, m);
    case Send(i, visible, mail, now) => SendQueues(s, i, ByUser, visible, mail, now);
    case Dispatch(i, user, visible, queued, mail, now) =>
      QueuesByApproval(s, op, m);
      DispatchQueues(s, i, user, visible, queued, mail, now, m);
    case Deliver(x, handling, deleted, now) => DeliverQueues(s, x, handling, deleted, now, m);
    case Post(x) => PostQueues(s, x, m);
  }

  /** A step leaves fewer copies of a message exactly when it is a delivery of that
      message from the queue whose handler returned and whose deletion stuck. */
  lemma OnlyHandledMessagesLeave(s: State, op: Op, m: Message)
    ensures Step(s, op).queue[m] < s.queue[m] <==> Takes(s, op, m)
  {
    StepQueue(s, op, m);
  }

  /** A message without a notification is dropped, and a malformed one is left where it
      is; neither touches a notification. */
  lemma StrayMessages(s: State, handling: Handling, now: real)
    ensures Step(s, Deliver(WithoutId, handling, true, now)) == s.(queue := s.queue - multiset{WithoutId})
    ensures Step(s, Deliver(Malformed, handling, true, now)) == s
  {
  }

  function QueuedIn(ops: seq<Op>, m: Message): nat {
    if ops == [] then 0
    else
      var before := ops[..|ops| - 1];
      QueuedIn(before, m) + Bit(Queues(Run(before), ops[|ops| - 1], m))
  }

  function TakenIn(ops: seq<Op>, m: Message): nat {
    if ops == [] then 0
    else
      var before := ops[..|ops| - 1];
      TakenIn(before, m) + Bit(Takes(Run(before), ops[|ops| - 1], m))
  }

  /** Over every run, each copy of a message ever queued is still in the queue or
      was taken by a delivery whose handler returned. A malformed one is never taken. */
  lemma {:induction false} QueueConservation(ops: seq<Op>, m: Message)
    ensures Run(ops).queue[m] + TakenIn(ops, m) == QueuedIn(ops, m)
    ensures m == Malformed ==> TakenIn(ops, m) == 0
  {
    if ops != [] {
      QueueConservation(ops[..|ops| - 1], m);
      StepQueue(Run(ops[..|ops| - 1]), ops[|ops| - 1], m);
    }
  }

  predicate Decided(s: State, id: nat) {
    id in s.notes && s.notes[id].status != Pending
  }

  lemma SendDecides(s: State, i: nat, sender: Sender, visible: bool, mail: Mail, now: real, id: nat)
    ensures Decided(SendStep(s, i, sender, visible, mail, now).0, id) <==> Decided(s, id)
  {
  }

  lemma ApproveDecides(s: State, i: nat, user: nat, visible: bool, queued: bool, now: real, id: nat)
    ensures var t := ApproveStep(s, i, user, visible, queued, now).0;
            Decided(t, id) <==> Decided(s, id) || (i == id && visible && id in s.notes)
  {
  }

  lemma StepDecides(s: State, op: Op, id: nat)
    ensures Decided(s, id) ==> Decided(Step(s, op), id)
    ensures Announces(s, op, id) ==> Decided(Step(s, op), id)
    ensures !op.Approve? && !op.Dispatch? ==> (Decided(Step(s, op), id) <==> Decided(s, id))
  {
    match op
    case Create(_) =>
    case Approve(i, user, visible, queued, now) => ApproveDecides(s, i, user, visible, queued, now, id);
    case Send(i, visible, mail, now) => SendDecides(s, i, ByUser, visible, mail, now, id);
    case Dispatch(i, user, visible, queued, mail, now) =>
      ApproveDecides(s, i, user, visible, queued, now, id);
      SendDecides(s, i, ByUser, visible, mail, now, id);
      SendDecides(ApproveStep(s, i, user, visible, queued, now).0, i, ByUser, visible, mail, now, id);
    case Deliver(m, handling, _, now) =>
      if m.ForNote? && handling.Returned? {
        SendDecides(s, m.id, ByWorker, true, handling.mail, now, id);
      }
    case Post(_) =>
  }

  /** Nobody but the approval puts the message of a notification in the queue. */
  predicate NeverPosted(ops: seq<Op>, id: nat) {
    forall i :: 0 <= i < |ops| ==> ops[i] != Post(ForNote(id))
  }

  /** The service itself queues the message of a notification at most once. */
  lemma {:induction false} QueuedAtMostOnce(ops: seq<Op>, id: nat)
    requires NeverPosted(ops, id)
    ensures QueuedIn(ops, ForNote(id)) <= Bit(Decided(Run(ops), id))
  {
    if ops != [] {
      QueuedAtMostOnce(ops[..|ops| - 1], id);
      StepDecides(Run(ops[..|ops| - 1]), ops[|ops| - 1], id);
    }
  }

  // ------------------------------------------------- how often the worker tries

  /** The delivery of a message of notification `id` that returns, after the approval. */
  predicate Heard(s: State, op: Op, id: nat) {
    op.Deliver? && op.message == ForNote(id) && op.handling.Returned? && Decided(s, id)
  }

  /** What each of these deliveries of a run would meet or meets when sending. */
  function Mails(ops: seq<Op>, id: nat): seq<Mail> {
    if ops == [] then []
    else
      var before, op := ops[..|ops| - 1], ops[|ops| - 1];
      Mails(before, id) + (if Heard(Run(before), op, id) then [op.handling.mail] else [])
  }

  predicate AllRefused(mails: seq<Mail>) {
    mails == [] || (AllRefused(mails[..|mails| - 1]) && mails[|mails| - 1].Refused?)
  }

  /** The number of mails up to the first that is accepted, that one included. */
  function UpToAccepted(mails: seq<Mail>): (n: nat)
    ensures n <= |mails|
  {
    if mails == [] then 0
    else if AllRefused(mails[..|mails| - 1]) then |mails|
    else UpToAccepted(mails[..|mails| - 1])
  }

  lemma {:induction false} UpToAcceptedMeaning(mails: seq<Mail>)
    ensures var n := UpToAccepted(mails);
            if AllRefused(mails) then n == |mails|
            else n > 0 && mails[n - 1].Accepted? && AllRefused(mails[..n - 1])
  {
    if mails != [] {
      var before := mails[..|mails| - 1];
      UpToAcceptedMeaning(before);
      var n := UpToAccepted(before);
      assert n > 0 ==> before[n - 1] == mails[n - 1] && before[..n - 1] == mails[..n - 1];
    }
  }

  function Min(a: nat, b: nat): nat {
    if a <= b then a else b
  }

  predicate NotByHand(ops: seq<Op>, id: nat) {
    forall i :: 0 <= i < |ops| ==> !((ops[i].Send? || ops[i].Dispatch?) && ops[i].id == id)
  }

  /** Where a notification that only the worker sends stands after the deliveries
      `mails` and `tries` attempts. */
  ghost predicate Progress(s: State, id: nat, mails: seq<Mail>, tries: nat) {
    if !Decided(s, id) then mails == [] && tries == 0 && (id in s.notes ==> s.notes[id].retryCount == 0)
    else
      var n := s.notes[id];
      match n.status
      case Approved => mails == [] && tries == 0 && n.retryCount == 0
      case Failed =>
        && n.retryCount == tries && 1 <= tries <= MAX_RETRIES && UpToAccepted(mails) >= tries
        && (tries < MAX_RETRIES ==> |mails| == tries && AllRefused(mails))
      case Sent => tries == UpToAccepted(mails) <= MAX_RETRIES && !AllRefused(mails)
      case _ => false
  }

  lemma NextMail(mails: seq<Mail>, m: Mail)
    ensures AllRefused(mails + [m]) <==> AllRefused(mails) && m.Refused?
    ensures UpToAccepted(mails + [m]) == if AllRefused(mails) then |mails| + 1 else UpToAccepted(mails)
  {
    assert (mails + [m])[..|mails|] == mails;
  }

  /** A delivery to a notification that is settled or out of retries does nothing. */
  lemma IdleDelivery(s: State, op: Op, id: nat)
    requires Heard(s, op, id)
    requires s.notes[id].status == Sent || s.notes[id].retryCount >= MAX_RETRIES
    ensures Step(s, op).notes == s.notes && Step(s, op).log == s.log
  {
  }

  lemma SendingDelivery(s: State, op: Op, id: nat)
    requires Heard(s, op, id) && s.notes[id].retryCount < MAX_RETRIES
    requires s.notes[id].status == Approved || s.notes[id].status == Failed
    ensures var t := Step(s, op);
            && id in t.notes && t.notes[id] == AfterMail(s.notes[id], op.handling.mail, op.now)
            && Count(t.log, id, OfWorker()) == Count(s.log, id, OfWorker()) + 1
  {
    var a := Attempt(id, ByWorker, op.handling.mail, op.now, s.notes[id].retryCount);
    assert Step(s, op).log == s.log + [a];
    CountAppend(s.log, a, id, OfWorker());
  }

  lemma DeliveryProgress(s: State, op: Op, id: nat, mails: seq<Mail>, tries: nat)
    requires Progress(s, id, mails, tries) && Heard(s, op, id) && tries == Count(s.log, id, OfWorker())
    ensures Progress(Step(s, op), id, mails + [op.handling.mail], Count(Step(s, op).log, id, OfWorker()))
  {
    NextMail(mails, op.handling.mail);
    UpToAcceptedMeaning(mails);
    var n := s.notes[id];
    if n.status == Sent || n.retryCount >= MAX_RETRIES {
      IdleDelivery(s, op, id);
    } else {
      SendingDelivery(s, op, id);
    }
  }

  /** The row of a notification that is not being sent changes only by its approval. */
  ghost predicate RowStays(s: State, t: State, id: nat) {
    && (id in s.notes ==> id in t.notes)
    && (Decided(s, id) ==> t.notes[id] == s.notes[id])
    && (Decided(t, id) && !Decided(s, id) ==>
          id in s.notes && t.notes[id].status == Approved && t.notes[id].retryCount == s.notes[id].retryCount)
    && (id in t.notes && !Decided(t, id) ==>
          t.notes[id].retryCount == if id in s.notes then s.notes[id].retryCount else 0)
  }

  lemma ApproveRow(s: State, i: nat, user: nat, visible: bool, queued: bool, now: real, id: nat)
    ensures var t := ApproveStep(s, i, user, visible, queued, now).0;
            RowStays(s, t, id) && (i != id && id in t.notes ==> id in s.notes && t.notes[id] == s.notes[id])
  {
  }

  lemma SendRow(s: State, i: nat, sender: Sender, visible: bool, mail: Mail, now: real, id: nat)
    requires i != id
    ensures var t := SendStep(s, i, sender, visible, mail, now).0;
            && (id in t.notes <==> id in s.notes) && (id in s.notes ==> t.notes[id] == s.notes[id])
  {
  }

  lemma UnheardRow(s: State, m: Message, handling: Handling, deleted: bool, now: real, id: nat)
    requires !Heard(s, Deliver(m, handling, deleted, now), id)
    ensures RowStays(s, DeliverStep(s, m, handling, deleted, now), id)
  {
    if m.ForNote? && handling.Returned? && m.id != id {
      SendRow(s, m.id, ByWorker, true, handling.mail, now, id);
    }
  }

  lemma OtherStepRow(s: State, op: Op, id: nat)
    requires !((op.Send? || op.Dispatch?) && op.id == id) && !Heard(s, op, id)
    ensures RowStays(s, Step(s, op), id)
  {
    match op
    case Create(_) =>
    case Approve(i, user, visible, queued, now) => ApproveRow(s, i, user, visible, queued, now, id);
    case Send(i, visible, mail, now) => SendRow(s, i, ByUser, visible, mail, now, id);
    case Dispatch(i, user, visible, queued, mail, now) =>
      ApproveRow(s, i, user, visible, queued, now, id);
      SendRow(s, i, ByUser, visible, mail, now, id);
      SendRow(ApproveStep(s, i, user, visible, queued, now).0, i, ByUser, visible, mail, now, id);
    case Deliver(m, handling, deleted, now) => UnheardRow(s, m, handling, deleted, now, id);
    case Post(_) =>
  }

  lemma SendCount(s: State, i: nat, sender: Sender, visible: bool, mail: Mail, now: real, id: nat)
    requires i != id
    ensures Count(SendStep(s, i, sender, visible, mail, now).0.log, id, OfWorker()) == Count(s.log, id, OfWorker())
  {
    var t := SendStep(s, i, sender, visible, mail, now).0;
    if t.log != s.log {
      CountAppend(s.log, Attempt(i, sender, mail, now, s.notes[i].retryCount), id, OfWorker());
    }
  }

  lemma OtherStepCount(s: State, op: Op, id: nat)
    requires !((op.Send? || op.Dispatch?) && op.id == id) && !Heard(s, op, id)
    ensures Count(Step(s, op).log, id, OfWorker()) == Count(s.log, id, OfWorker())
  {
    match op
    case Create(_) =>
    case Approve(i, user, visible, queued, now) =>
    case Send(i, visible, mail, now) => SendCount(s, i, ByUser, visible, mail, now, id);
    case Dispatch(i, user, visible, queued, mail, now) =>
      SendCount(s, i, ByUser, visible, mail, now, id);
      SendCount(ApproveStep(s, i, user, visible, queued, now).0, i, ByUser, visible, mail, now, id);
    case Deliver(m, handling, _, now) =>
      if m.ForNote? && handling.Returned? && m.id != id {
        SendCount(s, m.id, ByWorker, true, handling.mail, now, id);
      }
    case Post(_) =>
  }

  lemma {:induction false} RunProgress(ops: seq<Op>, id: nat)
    requires NotByHand(ops, id)
    ensures Progress(Run(ops), id, Mails(ops, id), Count(Run(ops).log, id, OfWorker()))
  {
    if ops != [] {
      var before, op := ops[..|ops| - 1], ops[|ops| - 1];
      RunProgress(before, id);
      if Heard(Run(before), op, id) {
        DeliveryProgress(Run(before), op, id, Mails(before, id), Count(Run(before).log, id, OfWorker()));
      } else {
        OtherStepRow(Run(before), op, id);
        OtherStepCount(Run(before), op, id);
        assert Mails(before, id) + [] == Mails(before, id);
      }
    }
  }

  /** The number of tries is exact: a notification that nobody sends by hand is tried
      once for each delivery after its approval, up to the first accepted email, and
      at most three times. */
  lemma WorkerTriesExactly(ops: seq<Op>, id: nat)
    requires NotByHand(ops, id)
    ensures Count(Run(ops).log, id, OfWorker()) == Min(MAX_RETRIES, UpToAccepted(Mails(ops, id)))
  {
    RunProgress(ops, id);
  }

  /** So while every email is refused there is a second try if and only if the queue
      delivers the message at least twice after the approval, and a third if and
      only if it does so at least three times. */
  lemma RetriesNeedRedelivery(ops: seq<Op>, id: nat)
    requires NotByHand(ops, id) && AllRefused(Mails(ops, id))
    ensures var tries, deliveries := Count(Run(ops).log, id, OfWorker()), |Mails(ops, id)|;
            && tries == Min(MAX_RETRIES, deliveries)
            && (tries >= 2 <==> deliveries >= 2) && (tries == 3 <==> deliveries >= 3)
  {
    WorkerTriesExactly(ops, id);
    UpToAcceptedMeaning(Mails(ops, id));
  }

  /** The queue delivers what it holds, and what is deleted is gone. */
  ghost predicate NoRedelivery(ops: seq<Op>, id: nat) {
    forall i :: 0 <= i < |ops| && ops[i].Deliver? && ops[i].message == ForNote(id) && ops[i].handling.Returned? ==>
      ops[i].deleted && ForNote(id) in Run(ops[..i]).queue
  }

  lemma {:induction false} EachDeliveryTakes(ops: seq<Op>, id: nat)
    requires NoRedelivery(ops, id)
    ensures |Mails(ops, id)| <= TakenIn(ops, ForNote(id))
  {
    if ops != [] {
      var before := ops[..|ops| - 1];
      assert NoRedelivery(before, id) by {
        assert forall i :: 0 <= i < |before| ==> before[i] == ops[i] && before[..i] == ops[..i];
      }
      EachDeliveryTakes(before, id);
    }
  }

  /** The retry limit is out of reach of the queue alone. `send` swallows the mail
      error, so the handler returns and the message goes: without redelivery a
      notification nobody sends by hand is tried at most once, however that ends. */
  lemma QueueTriesOnce(ops: seq<Op>, id: nat)
    requires NotByHand(ops, id) && NeverPosted(ops, id) && NoRedelivery(ops, id)
    ensures |Mails(ops, id)| <= 1
    ensures Count(Run(ops).log, id, OfWorker()) == |Mails(ops, id)|
  {
    EachDeliveryTakes(ops, id);
    QueueConservation(ops, ForNote(id));
    QueuedAtMostOnce(ops, id);
    WorkerTriesExactly(ops, id);
  }

  function ForgottenRun(user: nat, error: string): seq<Op> {
    [Create(1), Approve(1, user, true, true, 0.0), Deliver(ForNote(1), Returned(Refused(error)), true, 1.0)]
  }

  lemma ForgottenStates(user: nat, error: string)
    ensures var ops := ForgottenRun(user, error);
            var n := NEW_NOTE.(status := Approved, approvedBy := Some(user), approvedAt := Some(0.0));
            && Run(ops[..2]) == State(map[1 := n], multiset{ForNote(1)}, [])
            && Run(ops) == State(map[1 := AfterMail(n, Refused(error), 1.0)], multiset{},
                                 [Attempt(1, ByWorker, Refused(error), 1.0, 0)])
  {
    var ops := ForgottenRun(user, error);
    assert ops[..2][..1] == ops[..1] && ops[..1][..0] == [];
    assert Run(ops[..1]) == Step(EMPTY, ops[0]);
    assert Run(ops[..1]).notes == map[1 := NEW_NOTE];
    assert Run(ops[..2]) == Step(Run(ops[..1]), ops[1]);
    assert Run(ops) == Step(Run(ops[..2]), ops[2]);
  }

  lemma ForgottenRunIsPlain(user: nat, error: string)
    ensures var ops := ForgottenRun(user, error);
            NotByHand(ops, 1) && NeverPosted(ops, 1) && NoRedelivery(ops, 1)
  {
    ForgottenStates(user, error);
  }

  /** Such a run: approved, queued, refused once, and nothing is left to retry. */
  lemma RefusedOnceAndForgotten(user: nat, error: string)
    ensures var ops := ForgottenRun(user, error);
            && NotByHand(ops, 1) && NeverPosted(ops, 1) && NoRedelivery(ops, 1)
            && Run(ops).queue == multiset{}
            && 1 in Run(ops).notes && Run(ops).notes[1].status == Failed && Run(ops).notes[1].retryCount == 1
            && Count(Run(ops).log, 1, OfWorker()) == 1
  {
    ForgottenRunIsPlain(user, error);
    ForgottenStates(user, error);
    assert Count([], 1, OfWorker()) == 0;
    CountAppend([], Attempt(1, ByWorker, Refused(error), 1.0, 0), 1, OfWorker());
    assert [] + [Attempt(1, ByWorker, Refused(error), 1.0, 0)] == [Attempt(1, ByWorker, Refused(error), 1.0, 0)];
  }
}
