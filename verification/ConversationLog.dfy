/** The conversation log of the graphical build: messages newest first, events by reverse index, unread counters. */
module ConversationLog {
  import opened ConversationTypes
  import opened Sequences

  datatype Model = Model(messages: seq<Message>, events: seq<Event>, unread: int, told: seq<int>)

  const EMPTY := Model([], [], 0, [])

  datatype Response = Accept | Reject | OtherResponse

  /** What happens to a conversation; foreign calls and dialogs are the ones that succeeded. */
  datatype Op =
    | Send(id: nat, text: string)
    | SendFile(id: nat)
    | Receive(id: nat, text: string)
    | Offer(id: nat)
    | Acknowledge(id: nat, accepted: bool)
    | AcknowledgeFile(id: nat, accepted: bool)
    | Respond(id: nat, response: Response)
    | Progress(id: nat, bytes: nat)
    | Complete(id: nat, outcome: TransferStatus)
    | AcceptOffer(id: nat)
    | RejectOffer(id: nat)
    | Cancel(id: nat)
    | ContactStatusIs(status: ContactStatus)
    | Reset
    | Clear

  // ---- the operations ----

  function Prepend(s: Model, m: Message): Model {
    s.(messages := [m] + s.messages)
  }

  function Log(s: Model, row: int): Model
    requires row < |s.messages|
  {
    if row < 0 then s else s.(events := s.events + [EventOf(s.messages, row)])
  }

  function SetUnread(s: Model, count: int): Model {
    if s.unread == count then s else s.(unread := count, told := s.told + [count])
  }

  function SetStatus(s: Model, row: nat, status: Status): Model
    requires row < |s.messages|
  {
    s.(messages := s.messages[row := s.messages[row].(status := status)])
  }

  function SetTransfer(s: Model, row: nat, transfer: TransferStatus): Model
    requires row < |s.messages|
  {
    s.(messages := s.messages[row := s.messages[row].(transfer := transfer)])
  }

  /** A new transfer status for the message found, and an event about it. */
  function UpdateAndLog(s: Model, row: int, transfer: TransferStatus): Model
    requires row < |s.messages|
  {
    if row < 0 then s else Log(SetTransfer(s, row, transfer), row)
  }

  /** What the source asserts: an acknowledged or answered message is still in the list. */
  predicate Possible(s: Model, op: Op) {
    match op
    case Acknowledge(id, _) => s.messages == [] || FirstRow(s.messages, id, Outgoing) >= 0
    case AcknowledgeFile(id, _) => FirstRow(s.messages, id, Outgoing) >= 0
    case Respond(id, _) => FirstRow(s.messages, id, Outgoing) >= 0
    case _ => true
  }

  function Outcome(accepted: bool): Status {
    if accepted then Delivered else Failed
  }

  function Apply(s: Model, op: Op): Model
    requires Possible(s, op)
  {
    match op
    case Send(id, text) =>
      if text == "" then s
      else var t := Prepend(s, TextMessage(id, text, Queued)); Log(t, FirstRow(t.messages, id, Outgoing))
    case SendFile(id) =>
      var t := Prepend(s, TransferMessage(id, Queued)); Log(t, FirstRow(t.messages, id, Outgoing))
    case Receive(id, text) =>
      var t := SetUnread(Prepend(s, TextMessage(id, text, Received)), s.unread + 1);
      Log(t, FirstRow(t.messages, id, Incoming))
    case Offer(id) =>
      var t := SetUnread(Prepend(s, TransferMessage(id, Received)), s.unread + 1);
      Log(t, FirstRow(t.messages, id, Incoming))
    case Acknowledge(id, accepted) =>
      if s.messages == [] then s else SetStatus(s, FirstRow(s.messages, id, Outgoing), Outcome(accepted))
    case AcknowledgeFile(id, accepted) => SetStatus(s, FirstRow(s.messages, id, Outgoing), Outcome(accepted))
    case Respond(id, response) =>
      var row := FirstRow(s.messages, id, Outgoing);
      (match response
       case Accept => UpdateAndLog(s, row, Accepted)
       case Reject => UpdateAndLog(s, row, Rejected)
       case OtherResponse => s)
    case Progress(id, bytes) =>
      var row := FirstRow(s.messages, id, Any);
      if row < 0 then s
      else s.(messages := s.messages[row := s.messages[row].(transfer := InProgress, bytes := bytes)])
    case Complete(id, outcome) => UpdateAndLog(s, FirstRow(s.messages, id, Any), outcome)
    case AcceptOffer(id) => UpdateAndLog(s, FirstRow(s.messages, id, Incoming), Accepted)
    case RejectOffer(id) => UpdateAndLog(s, FirstRow(s.messages, id, Incoming), Rejected)
    case Cancel(id) =>
      var row := FirstRow(s.messages, id, Any);
      if row >= 0 && s.messages[row].transfer == Cancelled then s else UpdateAndLog(s, row, Cancelled)
    case ContactStatusIs(status) => s.(events := s.events + [StatusEvent(status)])
    case Reset => SetUnread(s, 0)
    case Clear => if s.messages == [] then s else SetUnread(s.(messages := []), 0)
  }

  // ---- runs ----

  predicate IsRun(s: Model, ops: seq<Op>)
    decreases |ops|
  {
    ops == [] || (Possible(s, ops[0]) && IsRun(Apply(s, ops[0]), ops[1..]))
  }

  function Run(s: Model, ops: seq<Op>): Model
    requires IsRun(s, ops)
    decreases |ops|
  {
    if ops == [] then s else Run(Apply(s, ops[0]), ops[1..])
  }

  // ---- what an event denotes ----

  predicate Points(s: Model, e: Event) {
    !e.StatusEvent? ==> 1 <= e.reverseIndex <= |s.messages|
  }

  /** The message an event denotes in the current list. */
  function Denoted(s: Model, e: Event): Message
    requires !e.StatusEvent? && Points(s, e)
  {
    s.messages[|s.messages| - e.reverseIndex]
  }

  predicate Sound(s: Model, e: Event) {
    Points(s, e) && (!e.StatusEvent? ==> (e.TextEvent? <==> Denoted(s, e).kind == Text))
  }

  /** Every event from the first-th on points at a message of its kind. */
  predicate SoundFrom(s: Model, first: nat) {
    forall i | first <= i < |s.events| :: Sound(s, s.events[i])
  }

  predicate SameIdentities(a: seq<Message>, b: seq<Message>) {
    |a| == |b| && forall i | 0 <= i < |a| :: a[i].Identity() == b[i].Identity()
  }

  /** Prepending or updating messages, and appending events, leaves every older event's message alone. */
  predicate Extends(s: Model, t: Model) {
    && |s.messages| <= |t.messages| && s.events <= t.events
    && SameIdentities(s.messages, t.messages[|t.messages| - |s.messages|..])
  }

  lemma ExtendsTrans(s: Model, t: Model, u: Model)
    requires Extends(s, t) && Extends(t, u)
    ensures Extends(s, u)
  {
    var k, l := |t.messages| - |s.messages|, |u.messages| - |t.messages|;
    forall i | 0 <= i < |s.messages|
      ensures s.messages[i].Identity() == u.messages[k + l..][i].Identity()
    {
      assert t.messages[k..][i] == t.messages[k + i] && u.messages[l..][k + i] == u.messages[l + k + i];
    }
  }

  lemma PrependExtends(s: Model, t: Model, m: Message)
    requires t.messages == [m] + s.messages && s.events <= t.events
    ensures Extends(s, t)
  {
    assert t.messages[1..] == s.messages;
  }

  lemma UpdateExtends(s: Model, t: Model)
    requires SameIdentities(s.messages, t.messages) && s.events <= t.events
    ensures Extends(s, t)
  {
    assert t.messages[0..] == t.messages;
  }

  lemma ApplyExtends(s: Model, op: Op)
    requires Possible(s, op) && op != Clear
    ensures Extends(s, Apply(s, op))
  {
    var t := Apply(s, op);
    match op
    case Send(id, text) =>
      if text == "" { UpdateExtends(s, t); } else { PrependExtends(s, t, TextMessage(id, text, Queued)); }
    case SendFile(id) => PrependExtends(s, t, TransferMessage(id, Queued));
    case Receive(id, text) => PrependExtends(s, t, TextMessage(id, text, Received));
    case Offer(id) => PrependExtends(s, t, TransferMessage(id, Received));
    case _ => UpdateExtends(s, t);
  }

  /** Without clear(), an event keeps denoting the very message it was logged for. */
  lemma {:induction false} EventsAreStable(s: Model, ops: seq<Op>)
    requires IsRun(s, ops) && Clear !in ops
    ensures Extends(s, Run(s, ops))
    ensures forall i | 0 <= i < |s.events| && !s.events[i].StatusEvent? && Points(s, s.events[i]) ::
              && Run(s, ops).events[i] == s.events[i] && Points(Run(s, ops), s.events[i])
              && Denoted(Run(s, ops), s.events[i]).Identity() == Denoted(s, s.events[i]).Identity()
    decreases |ops|
  {
    if ops != [] {
      var mid := Apply(s, ops[0]);
      ApplyExtends(s, ops[0]);
      EventsAreStable(mid, ops[1..]);
      ExtendsTrans(s, mid, Run(s, ops));
    }
    var t := Run(s, ops);
    var k := |t.messages| - |s.messages|;
    forall i | 0 <= i < |s.events| && !s.events[i].StatusEvent? && Points(s, s.events[i])
      ensures Denoted(t, s.events[i]).Identity() == Denoted(s, s.events[i]).Identity()
    {
      var at := |s.messages| - s.events[i].reverseIndex;
      assert t.messages[k..][at] == t.messages[k + at];
    }
  }

  // ---- the text events list the text messages ----

  /** The reverse indices of the text events, in the order they were logged. */
  function TextIndices(events: seq<Event>): seq<nat> {
    if events == [] then []
    else (if events[0].TextEvent? then [events[0].reverseIndex] else []) + TextIndices(events[1..])
  }

  /** The reverse indices of the text messages, oldest first. */
  function TextPositions(messages: seq<Message>): seq<nat> {
    if messages == [] then []
    else TextPositions(messages[1..]) + (if messages[0].kind == Text then [|messages|] else [])
  }

  /** TextPositions names every text message once, oldest first. */
  lemma {:induction false} TextPositionsExact(messages: seq<Message>)
    ensures forall i, j | 0 <= i < j < |TextPositions(messages)| ::
              TextPositions(messages)[i] < TextPositions(messages)[j]
    ensures forall r: nat :: r in TextPositions(messages)
              <==> 1 <= r <= |messages| && messages[|messages| - r].kind == Text
  {
    if messages != [] {
      var rest := messages[1..];
      TextPositionsExact(rest);
      forall r: nat
        ensures r in TextPositions(messages) <==> 1 <= r <= |messages| && messages[|messages| - r].kind == Text
      {
        if r < |messages| {
          assert 1 <= r ==> messages[|messages| - r] == rest[|rest| - r];
        }
      }
      forall i, j | 0 <= i < j < |TextPositions(messages)|
        ensures TextPositions(messages)[i] < TextPositions(messages)[j]
      {
        assert TextPositions(rest)[i] in TextPositions(rest);
      }
    }
  }

  lemma {:induction false} TextIndicesConcat(a: seq<Event>, b: seq<Event>)
    ensures TextIndices(a + b) == TextIndices(a) + TextIndices(b)
  {
    if a == [] {
      AppendNothing(b);
    } else {
      TextIndicesConcat(a[1..], b);
      assert (a + b)[0] == a[0] && (a + b)[1..] == a[1..] + b;
      Assoc(if a[0].TextEvent? then [a[0].reverseIndex] else [], TextIndices(a[1..]), TextIndices(b));
    }
  }

  lemma {:induction false} SameIdentitiesSamePositions(a: seq<Message>, b: seq<Message>)
    requires SameIdentities(a, b)
    ensures TextPositions(a) == TextPositions(b) && ReceivedCount(a) == ReceivedCount(b)
  {
    if a != [] {
      assert a[0].Identity() == b[0].Identity();
      forall i | 0 <= i < |a[1..]|
        ensures a[1..][i].Identity() == b[1..][i].Identity()
      {
        assert a[1..][i] == a[i + 1] && b[1..][i] == b[i + 1];
      }
      SameIdentitiesSamePositions(a[1..], b[1..]);
    }
  }

  /** The row of the message whose new transfer status an operation logs, or -1. */
  function LoggedRow(s: Model, op: Op): (row: int)
    ensures -1 <= row < |s.messages|
  {
    match op
    case Respond(id, response) => if response == OtherResponse then -1 else FirstRow(s.messages, id, Outgoing)
    case Complete(id, _) => FirstRow(s.messages, id, Any)
    case AcceptOffer(id) => FirstRow(s.messages, id, Incoming)
    case RejectOffer(id) => FirstRow(s.messages, id, Incoming)
    case Cancel(id) =>
      var row := FirstRow(s.messages, id, Any);
      if row >= 0 && s.messages[row].transfer == Cancelled then -1 else row
    case _ => -1
  }

  /** A file transfer operation whose id is that of a newer text message lands on that message. */
  predicate Stray(s: Model, op: Op) {
    LoggedRow(s, op) >= 0 && s.messages[LoggedRow(s, op)].kind == Text
  }

  function Strays(s: Model, ops: seq<Op>): nat
    requires IsRun(s, ops)
    decreases |ops|
  {
    if ops == [] then 0 else (if Stray(s, ops[0]) then 1 else 0) + Strays(Apply(s, ops[0]), ops[1..])
  }

  /** The text events from the first-th on are the text messages, once each and oldest first. */
  predicate Listed(s: Model, first: nat) {
    first <= |s.events| && TextIndices(s.events[first..]) == TextPositions(s.messages)
  }

  predicate BringsText(op: Op) {
    op.Receive? || (op.Send? && op.text != "")
  }

  lemma ExtendsPositions(s: Model, t: Model)
    requires Extends(s, t) && |t.messages| <= |s.messages| + 1
    ensures TextPositions(t.messages) == TextPositions(s.messages)
              + if |t.messages| > |s.messages| && t.messages[0].kind == Text then [|t.messages|] else []
  {
    var k := |t.messages| - |s.messages|;
    SameIdentitiesSamePositions(s.messages, t.messages[k..]);
    if k == 0 {
      assert t.messages[0..] == t.messages;
    }
  }

  lemma ExtendsIndices(s: Model, t: Model, first: nat)
    requires s.events <= t.events && first <= |s.events|
    ensures TextIndices(t.events[first..]) == TextIndices(s.events[first..]) + TextIndices(t.events[|s.events|..])
  {
    TextIndicesConcat(s.events[first..], t.events[|s.events|..]);
    assert t.events[first..] == s.events[first..] + t.events[|s.events|..];
  }

  lemma GrowsBy(s: Model, op: Op)
    requires Possible(s, op) && op != Clear
    ensures |Apply(s, op).messages| <= |s.messages| + 1
    ensures BringsText(op) <==> |Apply(s, op).messages| > |s.messages| && Apply(s, op).messages[0].kind == Text
  {
  }

  /** The text message that an operation should add. */
  function TextsAdded(s: Model, op: Op): seq<nat>
    requires Possible(s, op)
  {
    if BringsText(op) then [|Apply(s, op).messages|] else []
  }

  lemma PositionsStep(s: Model, op: Op)
    requires Possible(s, op) && op != Clear
    ensures TextPositions(Apply(s, op).messages) == TextPositions(s.messages) + TextsAdded(s, op)
  {
    ApplyExtends(s, op);
    GrowsBy(s, op);
    ExtendsPositions(s, Apply(s, op));
  }

  lemma IndicesStep(s: Model, op: Op, first: nat)
    requires Possible(s, op) && first <= |s.events|
    ensures first <= |Apply(s, op).events|
    ensures TextIndices(Apply(s, op).events[first..]) == TextIndices(s.events[first..]) + TextsLogged(s, op)
  {
    LoggedByStep(s, op);
    ExtendsIndices(s, Apply(s, op), first);
  }

  /** A new text message logs itself, and a stray operation logs one text event too many. */
  lemma StrayExact(s: Model, op: Op)
    requires Possible(s, op)
    ensures TextsLogged(s, op) == TextsAdded(s, op) <==> !Stray(s, op)
    ensures |TextsLogged(s, op)| == |TextsAdded(s, op)| + if Stray(s, op) then 1 else 0
  {
  }

  lemma LogGives(s: Model, row: int)
    requires row < |s.messages|
    ensures s.events <= Log(s, row).events
    ensures TextIndices(Log(s, row).events[|s.events|..])
            == if row >= 0 && s.messages[row].kind == Text then [|s.messages| - row] else []
  {
    if row < 0 {
      assert Log(s, row).events[|s.events|..] == [];
    } else {
      var e := EventOf(s.messages, row);
      assert Log(s, row).events[|s.events|..] == [e] && [e][1..] == [];
    }
  }

  lemma UpdateGives(s: Model, row: int, transfer: TransferStatus)
    requires row < |s.messages|
    ensures s.events <= UpdateAndLog(s, row, transfer).events
    ensures TextIndices(UpdateAndLog(s, row, transfer).events[|s.events|..])
            == if row >= 0 && s.messages[row].kind == Text then [|s.messages| - row] else []
  {
    if row < 0 {
      assert s.events[|s.events|..] == [];
    } else {
      LogGives(SetTransfer(s, row, transfer), row);
    }
  }

  predicate Arrives(op: Op) {
    op.Send? || op.SendFile? || op.Receive? || op.Offer?
  }

  /** The text events an operation should log. */
  function TextsLogged(s: Model, op: Op): seq<nat>
    requires Possible(s, op)
  {
    if BringsText(op) then [|Apply(s, op).messages|]
    else if Stray(s, op) then [|s.messages| - LoggedRow(s, op)]
    else []
  }

  predicate Logs(s: Model, t: Model, indices: seq<nat>) {
    s.events <= t.events && TextIndices(t.events[|s.events|..]) == indices
  }

  lemma LoggedByArrival(s: Model, op: Op)
    requires Possible(s, op) && Arrives(op)
    ensures Logs(s, Apply(s, op), TextsLogged(s, op))
  {
    assert s.events[|s.events|..] == [];
    match op
    case Send(id, text) => LogGives(Prepend(s, TextMessage(id, text, Queued)), 0);
    case SendFile(id) => LogGives(Prepend(s, TransferMessage(id, Queued)), 0);
    case Receive(id, text) => LogGives(SetUnread(Prepend(s, TextMessage(id, text, Received)), s.unread + 1), 0);
    case Offer(id) => LogGives(SetUnread(Prepend(s, TransferMessage(id, Received)), s.unread + 1), 0);
  }

  predicate Updates(op: Op) {
    op.Respond? || op.Complete? || op.AcceptOffer? || op.RejectOffer? || op.Cancel?
  }

  function TransferOf(op: Op): TransferStatus {
    match op
    case Respond(_, response) => if response == Accept then Accepted else Rejected
    case Complete(_, outcome) => outcome
    case AcceptOffer(_) => Accepted
    case RejectOffer(_) => Rejected
    case _ => Cancelled
  }

  lemma {:induction false} UpdateForm(s: Model, op: Op)
    requires Possible(s, op) && Updates(op)
    ensures Apply(s, op) == UpdateAndLog(s, LoggedRow(s, op), TransferOf(op))
  {
  }

  lemma {:induction false} LoggedByUpdate(s: Model, op: Op)
    requires Possible(s, op) && Updates(op)
    ensures Logs(s, Apply(s, op), TextsLogged(s, op))
  {
    UpdateForm(s, op);
    UpdateGives(s, LoggedRow(s, op), TransferOf(op));
  }

  /** What one operation appends to the log. */
  lemma LoggedByStep(s: Model, op: Op)
    requires Possible(s, op)
    ensures Logs(s, Apply(s, op), TextsLogged(s, op))
  {
    match op
    case Send(_, _) => LoggedByArrival(s, op);
    case SendFile(_) => LoggedByArrival(s, op);
    case Receive(_, _) => LoggedByArrival(s, op);
    case Offer(_) => LoggedByArrival(s, op);
    case Respond(_, _) => LoggedByUpdate(s, op);
    case Complete(_, _) => LoggedByUpdate(s, op);
    case AcceptOffer(_) => LoggedByUpdate(s, op);
    case RejectOffer(_) => LoggedByUpdate(s, op);
    case Cancel(_) => LoggedByUpdate(s, op);
    case ContactStatusIs(status) =>
      assert Apply(s, op).events[|s.events|..] == [StatusEvent(status)];
      assert [StatusEvent(status)][1..] == [];
    case _ => assert s.events[|s.events|..] == [];
  }

  /** From an empty list on and without clear(), the log lists the text messages exactly when no operation strayed. */
  lemma ListedExact(s: Model, ops: seq<Op>)
    requires IsRun(s, ops) && Clear !in ops && s.messages == []
    ensures Listed(Run(s, ops), |s.events|) <==> Strays(s, ops) == 0
  {
    assert s.events[|s.events|..] == [];
    Listing(s, ops, |s.events|);
  }

  lemma {:induction false} Listing(s: Model, ops: seq<Op>, first: nat)
    requires IsRun(s, ops) && Clear !in ops && first <= |s.events|
    ensures first <= |Run(s, ops).events|
    ensures |TextIndices(Run(s, ops).events[first..])| - |TextPositions(Run(s, ops).messages)|
            == |TextIndices(s.events[first..])| - |TextPositions(s.messages)| + Strays(s, ops)
    ensures Listed(s, first) && Strays(s, ops) == 0 ==> Listed(Run(s, ops), first)
    decreases |ops|
  {
    if ops != [] {
      PositionsStep(s, ops[0]);
      IndicesStep(s, ops[0], first);
      StrayExact(s, ops[0]);
      Listing(Apply(s, ops[0]), ops[1..], first);
    }
  }

  // ---- what an export writes ----

  function TextsOldestFirst(messages: seq<Message>): seq<string> {
    if messages == [] then []
    else TextsOldestFirst(messages[1..]) + (if messages[0].kind == Text then [messages[0].text] else [])
  }

  predicate InList(messages: seq<Message>, indices: seq<nat>) {
    indices == []
    || (InList(messages, indices[..|indices| - 1]) && 1 <= indices[|indices| - 1] <= |messages|)
  }

  /** The texts found by following reverse indices one after the other. */
  function Follow(messages: seq<Message>, indices: seq<nat>): seq<string>
    requires InList(messages, indices)
  {
    if indices == [] then []
    else
      var last := |indices| - 1;
      Follow(messages, indices[..last]) + [messages[|messages| - indices[last]].text]
  }

  lemma {:induction false} FollowMore(messages: seq<Message>, indices: seq<nat>, r: nat)
    requires InList(messages, indices) && 1 <= r <= |messages|
    ensures InList(messages, indices + [r])
    ensures Follow(messages, indices + [r]) == Follow(messages, indices) + [messages[|messages| - r].text]
  {
    DropLast(indices, r);
  }

  /** A new message at the front moves nothing. */
  lemma {:induction false} FollowStable(m: Message, messages: seq<Message>, indices: seq<nat>)
    requires InList(messages, indices)
    ensures InList([m] + messages, indices) && Follow([m] + messages, indices) == Follow(messages, indices)
  {
    if indices != [] {
      var last := |indices| - 1;
      FollowStable(m, messages, indices[..last]);
    }
  }

  lemma {:induction false} FollowPositions(messages: seq<Message>)
    ensures InList(messages, TextPositions(messages))
    ensures Follow(messages, TextPositions(messages)) == TextsOldestFirst(messages)
  {
    if messages != [] {
      var rest := messages[1..];
      FollowPositions(rest);
      FollowStable(messages[0], rest, TextPositions(rest));
      assert messages == [messages[0]] + rest;
      if messages[0].kind == Text {
        FollowMore(messages, TextPositions(rest), |messages|);
      } else {
        assert TextPositions(messages) == TextPositions(rest);
      }
    }
  }

  /** A line of an exported conversation. */
  datatype Line =
    | TextLine(text: string, status: Status)
    | TransferLine(id: nat, incoming: bool, transfer: TransferStatus, bytes: nat)
    | StatusLine(contact: ContactStatus)

  predicate IsFailure(status: TransferStatus) {
    status == UnknownFailure || status == BadFileHash || status == NetworkError || status == FileSystemError
  }

  /** Transfers under way and outdated contacts give no line; only failures tell how far they got. */
  function LineOf(s: Model, e: Event): seq<Line>
    requires Points(s, e)
  {
    match e
    case TextEvent(_) => [TextLine(Denoted(s, e).text, Denoted(s, e).status)]
    case TransferEvent(_, status, bytes) =>
      if status == InvalidTransfer || status == InProgress then []
      else [TransferLine(Denoted(s, e).id, Denoted(s, e).status == Received, status, if IsFailure(status) then bytes else 0)]
    case StatusEvent(contact) => if contact == Outdated then [] else [StatusLine(contact)]
  }

  predicate AllPoint(s: Model, events: seq<Event>) {
    events == [] || (AllPoint(s, events[..|events| - 1]) && Points(s, events[|events| - 1]))
  }

  function LinesOf(s: Model, events: seq<Event>): seq<Line>
    requires AllPoint(s, events)
  {
    if events == [] then [] else LinesOf(s, events[..|events| - 1]) + LineOf(s, events[|events| - 1])
  }

  function TextsIn(lines: seq<Line>): seq<string> {
    if lines == [] then []
    else TextsIn(lines[..|lines| - 1]) + if lines[|lines| - 1].TextLine? then [lines[|lines| - 1].text] else []
  }

  lemma {:induction false} TextsInMore(lines: seq<Line>, more: seq<Line>)
    requires |more| <= 1
    ensures TextsIn(lines + more) == TextsIn(lines) + if more != [] && more[0].TextLine? then [more[0].text] else []
  {
    if more == [] {
      AppendNothing(lines);
    } else {
      assert more == [more[0]];
      DropLast(lines, more[0]);
    }
  }

  /** An event past the list's end cannot be followed. */
  lemma {:induction false} AllPointExact(s: Model, events: seq<Event>)
    ensures AllPoint(s, events) <==> forall e | e in events :: Points(s, e)
  {
    if events != [] {
      var last := |events| - 1;
      AllPointExact(s, events[..last]);
      assert events == events[..last] + [events[last]];
    }
  }

  function TextIndex(e: Event): seq<nat> {
    if e.TextEvent? then [e.reverseIndex] else []
  }

  lemma {:induction false} IndicesMore(events: seq<Event>, e: Event)
    ensures TextIndices(events + [e]) == TextIndices(events) + TextIndex(e)
  {
    TextIndicesConcat(events, [e]);
    assert [e][1..] == [];
  }

  lemma {:induction false} LinesMore(s: Model, events: seq<Event>, e: Event)
    requires AllPoint(s, events) && Points(s, e)
    ensures AllPoint(s, events + [e]) && LinesOf(s, events + [e]) == LinesOf(s, events) + LineOf(s, e)
  {
    DropLast(events, e);
  }

  lemma {:induction false} OneMoreText(s: Model, lines: seq<Line>, indices: seq<nat>, e: Event)
    requires Points(s, e) && InList(s.messages, indices) && TextsIn(lines) == Follow(s.messages, indices)
    ensures InList(s.messages, indices + TextIndex(e))
    ensures TextsIn(lines + LineOf(s, e)) == Follow(s.messages, indices + TextIndex(e))
  {
    if e.TextEvent? {
      FollowMore(s.messages, indices, e.reverseIndex);
      TextsInMore(lines, [TextLine(Denoted(s, e).text, Denoted(s, e).status)]);
    } else {
      AppendNothing(indices);
      NoMoreText(lines, LineOf(s, e));
    }
  }

  lemma {:induction false} NoMoreText(lines: seq<Line>, more: seq<Line>)
    requires more == [] || (|more| == 1 && !more[0].TextLine?)
    ensures TextsIn(lines + more) == TextsIn(lines)
  {
    TextsInMore(lines, more);
    AppendNothing(TextsIn(lines));
  }

  ghost predicate TextsAgree(s: Model, events: seq<Event>) {
    && AllPoint(s, events) && InList(s.messages, TextIndices(events))
    && TextsIn(LinesOf(s, events)) == Follow(s.messages, TextIndices(events))
  }

  lemma {:induction false} OneMoreAgrees(s: Model, events: seq<Event>, e: Event)
    requires TextsAgree(s, events) && Points(s, e)
    ensures TextsAgree(s, events + [e])
  {
    OneMoreText(s, LinesOf(s, events), TextIndices(events), e);
    LinesMore(s, events, e);
    IndicesMore(events, e);
  }

  /** The text lines of an export are the texts its events denote. */
  lemma {:induction false} TextsOfLines(s: Model, events: seq<Event>)
    requires AllPoint(s, events)
    ensures TextsAgree(s, events)
  {
    if events != [] {
      var e, before := events[|events| - 1], events[..|events| - 1];
      TextsOfLines(s, before);
      OneMoreAgrees(s, before, e);
      assert before + [e] == events;
    }
  }

  // ---- clear() keeps the events ----

  function BaseAfter(s: Model, op: Op, first: nat): nat {
    if op == Clear && s.messages != [] then |s.events| else first
  }

  /** The first event that can still be followed: every event logged since the list was last cleared. */
  function Base(s: Model, ops: seq<Op>, first: nat): nat
    requires IsRun(s, ops)
    decreases |ops|
  {
    if ops == [] then first
    else Base(Apply(s, ops[0]), ops[1..], BaseAfter(s, ops[0], first))
  }

  lemma ExtendsStaysSound(s: Model, t: Model, first: nat)
    requires Extends(s, t) && SoundFrom(s, first)
    requires SoundFrom(t, |s.events|)
    ensures SoundFrom(t, first)
  {
    var k := |t.messages| - |s.messages|;
    forall i | first <= i < |s.events|
      ensures Sound(t, t.events[i])
    {
      var e := t.events[i];
      assert Sound(s, s.events[i]);
      if !e.StatusEvent? {
        var at := |s.messages| - e.reverseIndex;
        assert t.messages[k..][at] == t.messages[k + at];
      }
    }
  }

  lemma LogIsSound(s: Model, row: int)
    requires row < |s.messages|
    ensures SoundFrom(Log(s, row), |s.events|)
  {
  }

  /** What an operation logs points at a message of its kind. */
  lemma LoggedIsSound(s: Model, op: Op)
    requires Possible(s, op) && op != Clear
    ensures SoundFrom(Apply(s, op), |s.events|)
  {
    match op
    case Send(id, text) =>
      var t := Prepend(s, TextMessage(id, text, Queued));
      LogIsSound(t, FirstRow(t.messages, id, Outgoing));
    case SendFile(id) =>
      var t := Prepend(s, TransferMessage(id, Queued));
      LogIsSound(t, FirstRow(t.messages, id, Outgoing));
    case Receive(id, text) =>
      var t := SetUnread(Prepend(s, TextMessage(id, text, Received)), s.unread + 1);
      LogIsSound(t, FirstRow(t.messages, id, Incoming));
    case Offer(id) =>
      var t := SetUnread(Prepend(s, TransferMessage(id, Received)), s.unread + 1);
      LogIsSound(t, FirstRow(t.messages, id, Incoming));
    case Respond(id, response) =>
      var row := FirstRow(s.messages, id, Outgoing);
      LogIsSound(SetTransfer(s, row, Accepted), row);
      LogIsSound(SetTransfer(s, row, Rejected), row);
    case Complete(id, outcome) => UpdateIsSound(s, FirstRow(s.messages, id, Any), outcome);
    case AcceptOffer(id) => UpdateIsSound(s, FirstRow(s.messages, id, Incoming), Accepted);
    case RejectOffer(id) => UpdateIsSound(s, FirstRow(s.messages, id, Incoming), Rejected);
    case Cancel(id) => UpdateIsSound(s, FirstRow(s.messages, id, Any), Cancelled);
    case _ =>
  }

  lemma UpdateIsSound(s: Model, row: int, transfer: TransferStatus)
    requires row < |s.messages|
    ensures SoundFrom(UpdateAndLog(s, row, transfer), |s.events|)
  {
    if row >= 0 {
      LogIsSound(SetTransfer(s, row, transfer), row);
    }
  }

  lemma StepStaysSound(s: Model, op: Op, first: nat)
    requires Possible(s, op) && op != Clear && SoundFrom(s, first)
    ensures SoundFrom(Apply(s, op), first)
  {
    ApplyExtends(s, op);
    LoggedIsSound(s, op);
    ExtendsStaysSound(s, Apply(s, op), first);
  }

  /** Over whole runs, every event logged since the last clear() points at a message of its kind. */
  lemma {:induction false} RunStaysSound(s: Model, ops: seq<Op>, first: nat)
    requires IsRun(s, ops) && first <= |s.events| && SoundFrom(s, first)
    ensures Base(s, ops, first) <= |Run(s, ops).events| && SoundFrom(Run(s, ops), Base(s, ops, first))
    decreases |ops|
  {
    if ops != [] {
      OpStaysSound(s, ops[0], first);
      RunStaysSound(Apply(s, ops[0]), ops[1..], BaseAfter(s, ops[0], first));
    }
  }

  lemma {:induction false} OpStaysSound(s: Model, op: Op, first: nat)
    requires Possible(s, op) && first <= |s.events| && SoundFrom(s, first)
    ensures BaseAfter(s, op, first) <= |Apply(s, op).events| && SoundFrom(Apply(s, op), BaseAfter(s, op, first))
  {
    if op != Clear {
      StepStaysSound(s, op, first);
      ApplyExtends(s, op);
    }
  }

  /** clear() leaves no event about a message that could be followed. */
  lemma ClearExact(s: Model)
    requires s.messages != []
    ensures SoundFrom(Apply(s, Clear), 0) <==> forall e | e in s.events :: e.StatusEvent?
  {
    var t := Apply(s, Clear);
    if SoundFrom(t, 0) {
      forall e | e in s.events
        ensures e.StatusEvent?
      {
        var i :| 0 <= i < |s.events| && s.events[i] == e;
        assert Sound(t, t.events[i]);
      }
    }
  }

  lemma RunOne(s: Model, a: Op)
    requires Possible(s, a)
    ensures IsRun(s, [a]) && Run(s, [a]) == Apply(s, a)
  {
    assert [a][1..] == [];
  }

  lemma RunTwo(s: Model, a: Op, b: Op)
    requires Possible(s, a) && Possible(Apply(s, a), b)
    ensures IsRun(s, [a, b]) && Run(s, [a, b]) == Apply(Apply(s, a), b)
  {
    RunOne(Apply(s, a), b);
    assert [a, b][1..] == [b];
  }

  lemma RunThree(s: Model, a: Op, b: Op, c: Op)
    requires Possible(s, a) && Possible(Apply(s, a), b) && Possible(Apply(Apply(s, a), b), c)
    ensures IsRun(s, [a, b, c]) && Run(s, [a, b, c]) == Apply(Apply(Apply(s, a), b), c)
  {
    RunTwo(Apply(s, a), b, c);
    assert [a, b, c][1..] == [b, c];
  }

  /** After a clear() an export follows an event past the list's end, or to another message. */
  lemma ClearBreaksTheLog()
    ensures IsRun(EMPTY, [Send(1, "a"), Clear]) && IsRun(EMPTY, [Send(1, "a"), Clear, Send(2, "b")])
    ensures var t := Run(EMPTY, [Send(1, "a"), Clear]); |t.events| == 1 && !Points(t, t.events[0])
    ensures var u := Run(EMPTY, [Send(1, "a"), Clear, Send(2, "b")]);
            |u.events| == 2 && u.events[0] == u.events[1] && Sound(u, u.events[0])
            && Denoted(u, u.events[0]).text == "b"
  {
    RunTwo(EMPTY, Send(1, "a"), Clear);
    RunThree(EMPTY, Send(1, "a"), Clear, Send(2, "b"));
  }

  // ---- when an acknowledgement finds its message ----

  predicate IsSent(messages: seq<Message>, id: nat) {
    exists m | m in messages :: m.id == id && m.status != Received
  }

  lemma {:induction false} FoundExact(messages: seq<Message>, id: nat)
    ensures FirstRow(messages, id, Outgoing) >= 0 <==> IsSent(messages, id)
  {
    if messages != [] {
      FoundExact(messages[1..], id);
      assert messages == [messages[0]] + messages[1..];
    }
  }

  predicate Stores(op: Op) {
    BringsText(op) || op.SendFile? || op.Offer?
  }

  /** Whether something was stored since the last clear(). */
  function StoredSince(ops: seq<Op>, before: bool): bool {
    if ops == [] then before
    else StoredSince(ops[1..], if ops[0] == Clear then false else before || Stores(ops[0]))
  }

  /** The ids of what was sent since the last clear(). */
  function SentSince(ops: seq<Op>, before: set<nat>): set<nat> {
    if ops == [] then before
    else
      SentSince(ops[1..], if ops[0] == Clear then {}
                          else if Stores(ops[0]) && (ops[0].Send? || ops[0].SendFile?) then before + {ops[0].id}
                          else before)
  }

  lemma {:induction false} StoringPrepends(s: Model, op: Op)
    requires Possible(s, op) && Stores(op)
    ensures Apply(s, op).messages != [] && Apply(s, op).messages == [Apply(s, op).messages[0]] + s.messages
    ensures var m := Apply(s, op).messages[0];
            m.id == op.id && (m.status != Received <==> op.Send? || op.SendFile?)
  {
  }

  lemma {:induction false} OthersStoreNothing(s: Model, op: Op)
    requires Possible(s, op) && op != Clear && !Stores(op)
    ensures |Apply(s, op).messages| == |s.messages|
  {
  }

  lemma {:induction false} SameIdentitiesSameSent(a: seq<Message>, b: seq<Message>, id: nat)
    requires SameIdentities(a, b) && IsSent(a, id)
    ensures IsSent(b, id)
  {
    var i :| 0 <= i < |a| && a[i].id == id && a[i].status != Received;
    assert a[i].Identity() == b[i].Identity() && b[i] in b;
  }

  lemma {:induction false} SentStep(s: Model, op: Op, id: nat)
    requires Possible(s, op) && op != Clear
    ensures Apply(s, op).messages != [] <==> s.messages != [] || Stores(op)
    ensures IsSent(Apply(s, op).messages, id)
      <==> IsSent(s.messages, id) || (Stores(op) && (op.Send? || op.SendFile?) && op.id == id)
  {
    var t := Apply(s, op);
    if Stores(op) {
      StoringPrepends(s, op);
    } else {
      OthersStoreNothing(s, op);
      ApplyExtends(s, op);
      assert t.messages[0..] == t.messages;
      if IsSent(s.messages, id) { SameIdentitiesSameSent(s.messages, t.messages, id); }
      if IsSent(t.messages, id) { SameIdentitiesSameSent(t.messages, s.messages, id); }
    }
  }

  lemma {:induction false} SentOverRun(s: Model, ops: seq<Op>, stored: bool, sent: set<nat>, id: nat)
    requires IsRun(s, ops)
    requires stored == (s.messages != []) && (id in sent <==> IsSent(s.messages, id))
    ensures StoredSince(ops, stored) == (Run(s, ops).messages != [])
    ensures id in SentSince(ops, sent) <==> IsSent(Run(s, ops).messages, id)
    decreases |ops|
  {
    if ops != [] {
      var op := ops[0];
      if op != Clear { SentStep(s, op, id); }
      SentOverRun(Apply(s, op), ops[1..], if op == Clear then false else stored || Stores(op),
                  if op == Clear then {}
                  else if Stores(op) && (op.Send? || op.SendFile?) then sent + {op.id}
                  else sent, id);
    }
  }

  /**
   The assertions that an acknowledged or answered message is still there hold exactly when it was sent since the
   last clear(); for a text message also while nothing at all was stored since.
   */
  lemma {:induction false} AcknowledgementExact(ops: seq<Op>, id: nat, accepted: bool, response: Response)
    requires IsRun(EMPTY, ops)
    ensures Possible(Run(EMPTY, ops), Acknowledge(id, accepted))
      <==> id in SentSince(ops, {}) || !StoredSince(ops, false)
    ensures Possible(Run(EMPTY, ops), AcknowledgeFile(id, accepted)) <==> id in SentSince(ops, {})
    ensures Possible(Run(EMPTY, ops), Respond(id, response)) <==> id in SentSince(ops, {})
  {
    SentOverRun(EMPTY, ops, false, {}, id);
    FoundExact(Run(EMPTY, ops).messages, id);
  }

  /** A message sent, cleared, and acknowledged after the next one came in. */
  lemma {:induction false} LateAcknowledgement()
    ensures IsRun(EMPTY, [Send(1, "a"), Clear, Receive(2, "b")])
    ensures !Possible(Run(EMPTY, [Send(1, "a"), Clear, Receive(2, "b")]), Acknowledge(1, true))
  {
    var ops := [Send(1, "a"), Clear, Receive(2, "b")];
    RunThree(EMPTY, Send(1, "a"), Clear, Receive(2, "b"));
    AcknowledgementExact(ops, 1, true, Accept);
    assert ops[1..] == [Clear, Receive(2, "b")] && ops[1..][1..] == [Receive(2, "b")] && ops[1..][1..][1..] == [];
  }

  /** Cancelling a transfer whose id is that of a text message logs the text again. */
  lemma {:induction false} StrayHappens()
    ensures IsRun(EMPTY, [Send(1, "a"), Cancel(1)]) && !Listed(Run(EMPTY, [Send(1, "a"), Cancel(1)]), 0)
  {
    var ops := [Send(1, "a"), Cancel(1)];
    RunTwo(EMPTY, Send(1, "a"), Cancel(1));
    assert ops[1..] == [Cancel(1)] && ops[1..][1..] == [];
    assert Stray(Apply(EMPTY, ops[0]), Cancel(1));
    ListedExact(EMPTY, ops);
  }

  // ---- unread counters ----

  /** The counter never exceeds the received messages, and the last number told is the current one. */
  predicate Counted(s: Model) {
    && 0 <= s.unread <= ReceivedCount(s.messages)
    && s.unread == if s.told == [] then 0 else s.told[|s.told| - 1]
  }

  lemma ExtendsCounts(s: Model, t: Model)
    requires Extends(s, t) && |t.messages| <= |s.messages| + 1
    ensures ReceivedCount(t.messages) == ReceivedCount(s.messages)
              + if |t.messages| > |s.messages| && t.messages[0].status == Received then 1 else 0
  {
    var k := |t.messages| - |s.messages|;
    SameIdentitiesSamePositions(s.messages, t.messages[k..]);
    if k == 0 {
      assert t.messages[0..] == t.messages;
    }
  }

  /** Only Reset, Receive and Offer touch the counter of a list that is kept. */
  lemma CountBy(s: Model, op: Op)
    requires Possible(s, op) && op != Clear
    ensures |Apply(s, op).messages| <= |s.messages| + 1
    ensures match op
      case Reset => Apply(s, op) == SetUnread(s, 0)
      case Receive(_, _) => Apply(s, op).messages[0].status == Received && |Apply(s, op).messages| > |s.messages|
                            && Apply(s, op).unread == s.unread + 1 && Apply(s, op).told == s.told + [s.unread + 1]
      case Offer(_) => Apply(s, op).messages[0].status == Received && |Apply(s, op).messages| > |s.messages|
                       && Apply(s, op).unread == s.unread + 1 && Apply(s, op).told == s.told + [s.unread + 1]
      case _ => Apply(s, op).unread == s.unread && Apply(s, op).told == s.told
  {
  }

  lemma ApplyKeepsCount(s: Model, op: Op)
    requires Possible(s, op) && Counted(s)
    ensures Counted(Apply(s, op))
  {
    if op != Clear {
      ApplyExtends(s, op);
      CountBy(s, op);
      ExtendsCounts(s, Apply(s, op));
    }
  }

  /** All conversations ever created, and the one badge they share. */
  datatype House = House(models: seq<Model>, badge: int)

  datatype HouseEvent = Create | On(i: nat, op: Op)

  predicate HousePossible(h: House, e: HouseEvent) {
    e.On? ==> e.i < |h.models| && Possible(h.models[e.i], e.op)
  }

  /** Every change of a counter reaches the badge as a difference. */
  function HouseStep(h: House, e: HouseEvent): House
    requires HousePossible(h, e)
  {
    match e
    case Create => h.(models := h.models + [EMPTY])
    case On(i, op) =>
      var t := Apply(h.models[i], op);
      House(h.models[i := t], h.badge + (t.unread - h.models[i].unread))
  }

  predicate IsHouseRun(h: House, es: seq<HouseEvent>)
    decreases |es|
  {
    es == [] || (HousePossible(h, es[0]) && IsHouseRun(HouseStep(h, es[0]), es[1..]))
  }

  function HouseRun(h: House, es: seq<HouseEvent>): House
    requires IsHouseRun(h, es)
    decreases |es|
  {
    if es == [] then h else HouseRun(HouseStep(h, es[0]), es[1..])
  }

  function UnreadSum(models: seq<Model>): int {
    if models == [] then 0 else models[0].unread + UnreadSum(models[1..])
  }

  lemma {:induction false} UnreadSumAppend(models: seq<Model>, s: Model)
    ensures UnreadSum(models + [s]) == UnreadSum(models) + s.unread
  {
    if models == [] {
      assert (models + [s])[1..] == [];
    } else {
      UnreadSumAppend(models[1..], s);
      assert (models + [s])[1..] == models[1..] + [s];
    }
  }

  lemma {:induction false} UnreadSumUpdate(models: seq<Model>, i: nat, t: Model)
    requires i < |models|
    ensures UnreadSum(models[i := t]) == UnreadSum(models) - models[i].unread + t.unread
  {
    if i == 0 {
      assert models[i := t][1..] == models[1..];
    } else {
      UnreadSumUpdate(models[1..], i - 1, t);
      assert models[i := t][1..] == models[1..][i - 1 := t];
    }
  }

  predicate Conserved(h: House) {
    h.badge == UnreadSum(h.models) && forall i | 0 <= i < |h.models| :: Counted(h.models[i])
  }

  lemma HouseStepConserves(h: House, e: HouseEvent)
    requires HousePossible(h, e) && Conserved(h)
    ensures Conserved(HouseStep(h, e))
  {
    match e
    case Create => UnreadSumAppend(h.models, EMPTY);
    case On(i, op) =>
      ApplyKeepsCount(h.models[i], op);
      UnreadSumUpdate(h.models, i, Apply(h.models[i], op));
  }

  /** In every reachable state the badge is the sum of all unread counters. */
  lemma {:induction false} UnreadConserved(h: House, es: seq<HouseEvent>)
    requires IsHouseRun(h, es) && Conserved(h)
    ensures Conserved(HouseRun(h, es))
    decreases |es|
  {
    if es != [] {
      HouseStepConserves(h, es[0]);
      UnreadConserved(HouseStep(h, es[0]), es[1..]);
    }
  }
}
