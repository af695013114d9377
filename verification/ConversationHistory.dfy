/** What a conversation holds after a run, told from the operations of the run alone. */
module ConversationHistory {
  import opened ConversationTypes
  import opened ConversationLog
  import opened Options
  import opened Sequences

  // ---- one operation, message by message ----

  /** The row that an operation on an existing message changes, or -1. */
  function HitRow(s: Model, op: Op): (row: int)
    ensures -1 <= row < |s.messages|
  {
    match op
    case Acknowledge(id, _) => FirstRow(s.messages, id, Outgoing)
    case AcknowledgeFile(id, _) => FirstRow(s.messages, id, Outgoing)
    case Respond(id, _) => FirstRow(s.messages, id, Outgoing)
    case Progress(id, _) => FirstRow(s.messages, id, Any)
    case Complete(id, _) => FirstRow(s.messages, id, Any)
    case AcceptOffer(id) => FirstRow(s.messages, id, Incoming)
    case RejectOffer(id) => FirstRow(s.messages, id, Incoming)
    case Cancel(id) => FirstRow(s.messages, id, Any)
    case _ => -1
  }

  /** The message of that row afterwards. */
  function Changed(m: Message, op: Op): Message {
    match op
    case Acknowledge(_, true) => m.(status := Delivered)
    case Acknowledge(_, false) => m.(status := Failed)
    case AcknowledgeFile(_, true) => m.(status := Delivered)
    case AcknowledgeFile(_, false) => m.(status := Failed)
    case Respond(_, Accept) => m.(transfer := Accepted)
    case Respond(_, Reject) => m.(transfer := Rejected)
    case Progress(_, bytes) => m.(transfer := InProgress, bytes := bytes)
    case Complete(_, outcome) => m.(transfer := outcome)
    case AcceptOffer(_) => m.(transfer := Accepted)
    case RejectOffer(_) => m.(transfer := Rejected)
    case Cancel(_) => m.(transfer := Cancelled)
    case _ => m
  }

  /** An operation on an existing message changes that one as it says, and no other. */
  lemma {:induction false} OnlyTheHitChanges(s: Model, op: Op)
    requires Possible(s, op) && op != Clear && !Stores(op)
    ensures Apply(s, op).messages
      == if HitRow(s, op) < 0 then s.messages
         else s.messages[HitRow(s, op) := Changed(s.messages[HitRow(s, op)], op)]
  {
  }

  /** A new message, as it was sent or received, goes in front of the unchanged others. */
  lemma {:induction false} NewMessage(s: Model, op: Op)
    requires Possible(s, op) && Stores(op)
    ensures Apply(s, op).messages
      == [match op
          case Send(id, text) => Message(Text, text, id, Queued, InvalidTransfer, 0)
          case Receive(id, text) => Message(Text, text, id, Received, InvalidTransfer, 0)
          case SendFile(id) => Message(Transfer, "", id, Queued, Pending, 0)
          case _ => Message(Transfer, "", op.id, Received, Pending, 0)] + s.messages
  {
  }

  /** The event logged for a transfer tells its status after the operation. */
  lemma {:induction false} TransferLogged(s: Model, op: Op)
    requires Possible(s, op) && LoggedRow(s, op) >= 0 && s.messages[LoggedRow(s, op)].kind == Transfer
    ensures var row := LoggedRow(s, op); var m := Changed(s.messages[row], op);
            Apply(s, op).events == s.events + [TransferEvent(|s.messages| - row, m.transfer, m.bytes)]
  {
  }

  // ---- the status of what was sent ----

  function StatusOf(messages: seq<Message>, id: nat): Option<Status> {
    var row := FirstRow(messages, id, Outgoing);
    if row < 0 then None else Some(messages[row].status)
  }

  /** Queued when sent, and then as the last acknowledgement said; forgotten when the list is cleared. */
  function VerdictAfter(op: Op, id: nat, before: Option<Status>): Option<Status> {
    match op
    case Clear => None
    case Send(i, text) => if i == id && text != "" then Some(Queued) else before
    case SendFile(i) => if i == id then Some(Queued) else before
    case Acknowledge(i, accepted) =>
      if i == id && before.Some? then Some(if accepted then Delivered else Failed) else before
    case AcknowledgeFile(i, accepted) =>
      if i == id && before.Some? then Some(if accepted then Delivered else Failed) else before
    case _ => before
  }

  function Verdict(ops: seq<Op>, id: nat): Option<Status> {
    if ops == [] then None else VerdictAfter(ops[|ops| - 1], id, Verdict(ops[..|ops| - 1], id))
  }

  lemma {:induction false} SameIdentitiesSameRow(a: seq<Message>, b: seq<Message>, id: nat, side: Side)
    requires SameIdentities(a, b)
    ensures FirstRow(a, id, side) == FirstRow(b, id, side)
  {
    if a != [] {
      assert a[0].Identity() == b[0].Identity();
      forall i | 0 <= i < |a[1..]|
        ensures a[1..][i].Identity() == b[1..][i].Identity()
      {
        assert a[1..][i] == a[i + 1] && b[1..][i] == b[i + 1];
      }
      SameIdentitiesSameRow(a[1..], b[1..], id, side);
    }
  }

  lemma {:induction false} StatusInFront(m: Message, messages: seq<Message>, id: nat)
    ensures StatusOf([m] + messages, id)
      == if m.id == id && m.status != Received then Some(m.status) else StatusOf(messages, id)
  {
    DropFirst(m, messages);
  }

  lemma {:induction false} StatusOfChanged(messages: seq<Message>, row: nat, m: Message, id: nat)
    requires row < |messages| && m.Identity() == messages[row].Identity()
    ensures StatusOf(messages[row := m], id)
      == if FirstRow(messages, id, Outgoing) == row then Some(m.status) else StatusOf(messages, id)
  {
    SameIdentitiesSameRow(messages, messages[row := m], id, Outgoing);
  }

  lemma {:induction false} StatusStep(s: Model, op: Op, id: nat)
    requires Possible(s, op)
    ensures StatusOf(Apply(s, op).messages, id) == VerdictAfter(op, id, StatusOf(s.messages, id))
  {
    if op == Clear {
    } else if Stores(op) {
      NewMessage(s, op);
      StatusInFront(Apply(s, op).messages[0], s.messages, id);
    } else {
      OnlyTheHitChanges(s, op);
      var row := HitRow(s, op);
      if row >= 0 {
        ChangedIdentity(s, op);
        StatusOfChanged(s.messages, row, Changed(s.messages[row], op), id);
      }
    }
  }

  lemma {:induction false} ChangedIdentity(s: Model, op: Op)
    requires HitRow(s, op) >= 0
    ensures Changed(s.messages[HitRow(s, op)], op).Identity() == s.messages[HitRow(s, op)].Identity()
  {
  }

  lemma {:induction false} RunSplit(s: Model, ops: seq<Op>, op: Op)
    requires IsRun(s, ops + [op])
    ensures IsRun(s, ops) && Possible(Run(s, ops), op) && Run(s, ops + [op]) == Apply(Run(s, ops), op)
    decreases |ops|
  {
    if ops == [] {
      assert ops + [op] == [op] && [op][1..] == [];
    } else {
      assert (ops + [op])[0] == ops[0] && (ops + [op])[1..] == ops[1..] + [op];
      RunSplit(Apply(s, ops[0]), ops[1..], op);
    }
  }

  /**
   After any run the newest outgoing message of an id is queued while nothing acknowledged it since it was sent, and
   else delivered or failed as the last acknowledgement accepted it or not.
   */
  lemma {:induction false} StatusHistory(ops: seq<Op>, id: nat)
    requires IsRun(EMPTY, ops)
    ensures StatusOf(Run(EMPTY, ops).messages, id) == Verdict(ops, id)
    decreases |ops|
  {
    if ops != [] {
      var before, op := ops[..|ops| - 1], ops[|ops| - 1];
      assert ops == before + [op];
      RunSplit(EMPTY, before, op);
      StatusHistory(before, id);
      StatusStep(Run(EMPTY, before), op, id);
    }
  }

  // ---- the texts ----

  /** The texts sent and received since the last clear(), in order. */
  function TextsSince(ops: seq<Op>): seq<string> {
    if ops == [] then []
    else
      var before, op := TextsSince(ops[..|ops| - 1]), ops[|ops| - 1];
      match op
      case Clear => []
      case Send(_, text) => if text == "" then before else before + [text]
      case Receive(_, text) => before + [text]
      case _ => before
  }

  lemma {:induction false} SameIdentitiesSameTexts(a: seq<Message>, b: seq<Message>)
    requires SameIdentities(a, b)
    ensures TextsOldestFirst(a) == TextsOldestFirst(b)
  {
    if a != [] {
      assert a[0].Identity() == b[0].Identity();
      forall i | 0 <= i < |a[1..]|
        ensures a[1..][i].Identity() == b[1..][i].Identity()
      {
        assert a[1..][i] == a[i + 1] && b[1..][i] == b[i + 1];
      }
      SameIdentitiesSameTexts(a[1..], b[1..]);
    }
  }

  lemma {:induction false} TextsInFront(m: Message, messages: seq<Message>)
    ensures TextsOldestFirst([m] + messages)
      == if m.kind == Text then TextsOldestFirst(messages) + [m.text] else TextsOldestFirst(messages)
  {
    DropFirst(m, messages);
    AppendNothing(TextsOldestFirst(messages));
  }

  /** After any run the text messages are the texts sent and received since the last clear(), oldest first. */
  lemma {:induction false} TextsHistory(ops: seq<Op>)
    requires IsRun(EMPTY, ops)
    ensures TextsOldestFirst(Run(EMPTY, ops).messages) == TextsSince(ops)
    decreases |ops|
  {
    if ops != [] {
      var before, op := ops[..|ops| - 1], ops[|ops| - 1];
      assert ops == before + [op];
      RunSplit(EMPTY, before, op);
      TextsHistory(before);
      TextsStep(Run(EMPTY, before), op);
    }
  }

  lemma {:induction false} TextsStep(s: Model, op: Op)
    requires Possible(s, op)
    ensures TextsOldestFirst(Apply(s, op).messages)
      == match op
         case Clear => []
         case Send(_, text) => if text == "" then TextsOldestFirst(s.messages) else TextsOldestFirst(s.messages) + [text]
         case Receive(_, text) => TextsOldestFirst(s.messages) + [text]
         case _ => TextsOldestFirst(s.messages)
  {
    if op == Clear {
    } else if Stores(op) {
      NewMessage(s, op);
      TextsInFront(Apply(s, op).messages[0], s.messages);
    } else {
      OnlyTheHitChanges(s, op);
      if HitRow(s, op) >= 0 {
        ChangedIdentity(s, op);
        SameIdentitiesSameTexts(s.messages, Apply(s, op).messages);
      }
    }
  }

  // ---- the counter and the contact's status ----

  /** The messages and offers received since the counter was last reset or the list cleared. */
  function UnreadSince(ops: seq<Op>): nat {
    if ops == [] then 0
    else
      var before, op := UnreadSince(ops[..|ops| - 1]), ops[|ops| - 1];
      if op == Reset || op == Clear then 0 else if op.Receive? || op.Offer? then before + 1 else before
  }

  function StatusesIn(ops: seq<Op>): seq<ContactStatus> {
    if ops == [] then []
    else
      var before, op := StatusesIn(ops[..|ops| - 1]), ops[|ops| - 1];
      if op.ContactStatusIs? then before + [op.status] else before
  }

  function StatusesLogged(events: seq<Event>): seq<ContactStatus> {
    if events == [] then []
    else
      var before, e := StatusesLogged(events[..|events| - 1]), events[|events| - 1];
      if e.StatusEvent? then before + [e.contact] else before
  }

  lemma {:induction false} LogStep(s: Model, op: Op)
    requires Possible(s, op)
    ensures op.ContactStatusIs? ==> Apply(s, op).events == s.events + [StatusEvent(op.status)]
    ensures !op.ContactStatusIs? ==>
              || Apply(s, op).events == s.events
              || exists e: Event | !e.StatusEvent? :: Apply(s, op).events == s.events + [e]
  {
  }

  lemma {:induction false} StatusLoggedMore(events: seq<Event>, e: Event)
    ensures StatusesLogged(events + [e])
      == if e.StatusEvent? then StatusesLogged(events) + [e.contact] else StatusesLogged(events)
  {
    DropLast(events, e);
  }

  lemma {:induction false} StatusesStep(s: Model, op: Op)
    requires Possible(s, op)
    ensures StatusesLogged(Apply(s, op).events)
      == if op.ContactStatusIs? then StatusesLogged(s.events) + [op.status] else StatusesLogged(s.events)
  {
    LogStep(s, op);
    if op.ContactStatusIs? {
      StatusLoggedMore(s.events, StatusEvent(op.status));
    } else if Apply(s, op).events != s.events {
      var e: Event :| !e.StatusEvent? && Apply(s, op).events == s.events + [e];
      StatusLoggedMore(s.events, e);
    }
  }

  lemma {:induction false} UnreadStep(s: Model, op: Op)
    requires Possible(s, op) && Counted(s)
    ensures Counted(Apply(s, op))
    ensures Apply(s, op).unread
      == if op == Reset || op == Clear then 0 else if op.Receive? || op.Offer? then s.unread + 1 else s.unread
  {
    ApplyKeepsCount(s, op);
    if op != Clear { CountBy(s, op); }
  }

  /** After any run the counter is the number of messages and offers received since it was last reset or cleared. */
  lemma {:induction false} UnreadHistory(ops: seq<Op>)
    requires IsRun(EMPTY, ops)
    ensures Counted(Run(EMPTY, ops)) && Run(EMPTY, ops).unread == UnreadSince(ops)
    decreases |ops|
  {
    if ops != [] {
      var before, op := ops[..|ops| - 1], ops[|ops| - 1];
      assert ops == before + [op];
      RunSplit(EMPTY, before, op);
      UnreadHistory(before);
      UnreadStep(Run(EMPTY, before), op);
    }
  }

  /** After any run the log tells every change of the contact's status, in order. */
  lemma {:induction false} StatusesHistory(ops: seq<Op>)
    requires IsRun(EMPTY, ops)
    ensures StatusesLogged(Run(EMPTY, ops).events) == StatusesIn(ops)
    decreases |ops|
  {
    if ops != [] {
      var before, op := ops[..|ops| - 1], ops[|ops| - 1];
      assert ops == before + [op];
      RunSplit(EMPTY, before, op);
      StatusesHistory(before);
      StatusesStep(Run(EMPTY, before), op);
    }
  }

  // ---- what an export tells of the contact ----

  function StatusesTold(lines: seq<Line>): seq<ContactStatus> {
    if lines == [] then []
    else
      var before, line := StatusesTold(lines[..|lines| - 1]), lines[|lines| - 1];
      if line.StatusLine? then before + [line.contact] else before
  }

  function ButOutdated(statuses: seq<ContactStatus>): seq<ContactStatus> {
    if statuses == [] then []
    else
      var before, status := ButOutdated(statuses[..|statuses| - 1]), statuses[|statuses| - 1];
      if status == Outdated then before else before + [status]
  }

  lemma {:induction false} ToldMore(lines: seq<Line>, more: seq<Line>)
    requires |more| <= 1
    ensures StatusesTold(lines + more)
            == if more != [] && more[0].StatusLine? then StatusesTold(lines) + [more[0].contact] else StatusesTold(lines)
  {
    if more == [] {
      AppendNothing(lines);
    } else {
      assert more == [more[0]];
      DropLast(lines, more[0]);
    }
  }

  lemma {:induction false} LineTellsStatus(lines: seq<Line>, logged: seq<ContactStatus>, s: Model, e: Event)
    requires Points(s, e) && StatusesTold(lines) == ButOutdated(logged)
    ensures StatusesTold(lines + LineOf(s, e)) == ButOutdated(if e.StatusEvent? then logged + [e.contact] else logged)
  {
    ToldMore(lines, LineOf(s, e));
    if e.StatusEvent? { DropLast(logged, e.contact); }
  }

  lemma {:induction false} TellsLogged(s: Model, events: seq<Event>)
    requires AllPoint(s, events)
    ensures StatusesTold(LinesOf(s, events)) == ButOutdated(StatusesLogged(events))
  {
    if events != [] {
      var before, e := events[..|events| - 1], events[|events| - 1];
      TellsLogged(s, before);
      LineTellsStatus(LinesOf(s, before), StatusesLogged(before), s, e);
    }
  }

  /** An export after any run tells every change of the contact's status but the outdated ones, in order. */
  lemma {:induction false} ExportTellsStatuses(ops: seq<Op>)
    requires IsRun(EMPTY, ops) && AllPoint(Run(EMPTY, ops), Run(EMPTY, ops).events)
    ensures StatusesTold(LinesOf(Run(EMPTY, ops), Run(EMPTY, ops).events)) == ButOutdated(StatusesIn(ops))
  {
    TellsLogged(Run(EMPTY, ops), Run(EMPTY, ops).events);
    StatusesHistory(ops);
  }

  // ---- what an export tells of the transfers ----

  function TransfersTold(lines: seq<Line>): seq<Line> {
    if lines == [] then []
    else
      var before, line := TransfersTold(lines[..|lines| - 1]), lines[|lines| - 1];
      if line.TransferLine? then before + [line] else before
  }

  /** What a transfer event tells, if anything, about the message it denotes. */
  function Told(s: Model, e: Event): seq<Line>
    requires Points(s, e)
  {
    if !e.TransferEvent? then []
    else
      var m := Denoted(s, e);
      if e.status in {Pending, Accepted, Rejected, Cancelled, Finished} then
        [TransferLine(m.id, m.status == Received, e.status, 0)]
      else if e.status in {UnknownFailure, BadFileHash, NetworkError, FileSystemError} then
        [TransferLine(m.id, m.status == Received, e.status, e.bytes)]
      else []
  }

  function TransfersLogged(s: Model, events: seq<Event>): seq<Line>
    requires AllPoint(s, events)
  {
    if events == [] then [] else TransfersLogged(s, events[..|events| - 1]) + Told(s, events[|events| - 1])
  }

  lemma {:induction false} TransfersMore(lines: seq<Line>, more: seq<Line>)
    requires |more| <= 1
    ensures TransfersTold(lines + more) == TransfersTold(lines) + if more != [] && more[0].TransferLine? then more else []
  {
    if more == [] {
      AppendNothing(lines);
    } else {
      assert more == [more[0]];
      DropLast(lines, more[0]);
    }
    AppendNothing(TransfersTold(lines));
  }

  lemma {:induction false} LineTells(s: Model, e: Event)
    requires Points(s, e)
    ensures var more := LineOf(s, e); |more| <= 1 && Told(s, e) == if more != [] && more[0].TransferLine? then more else []
  {
  }

  /** An export tells every start, answer and end of a transfer, and of a failure how far it got. */
  lemma {:induction false} ExportTellsTransfers(s: Model, events: seq<Event>)
    requires AllPoint(s, events)
    ensures TransfersTold(LinesOf(s, events)) == TransfersLogged(s, events)
  {
    if events != [] {
      var before, e := events[..|events| - 1], events[|events| - 1];
      ExportTellsTransfers(s, before);
      LineTells(s, e);
      TransfersMore(LinesOf(s, before), LineOf(s, e));
    }
  }
}
