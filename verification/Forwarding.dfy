/**
 The conversation of the IRC build: every received message is forwarded to the IRC clients from inside the
 notification of the unread counter, which clears the list while it is being notified.
 */
module Forwarding {
  import opened Sequences
  import opened Strings
  import opened ConversationTypes
  import H = ConversationHistory
  import I = IrcInvariant
  import L = ConversationLog
  import opened Options
  import S = IrcState
  import R = IrcRuns

  type Id = S.Id
  type ContactId = S.ContactId

  datatype Privmsg = Privmsg(from: string, to: string, line: string)

  /** What was sent to each connection. */
  type Outbox = map<Id, seq<Privmsg>>

  function Inbox(o: Outbox, c: Id): seq<Privmsg> {
    if c in o then o[c] else []
  }

  /** One line to every client. */
  function PostLine(o: Outbox, clients: set<Id>, nick: map<Id, string>, from: string, line: string): Outbox {
    map c | c in o.Keys + clients ::
      if c in clients then Inbox(o, c) + [Privmsg(from, S.Named(nick, c), line)] else Inbox(o, c)
  }

  function PostLines(o: Outbox, clients: set<Id>, nick: map<Id, string>, from: string, lines: seq<string>): Outbox
    decreases |lines|
  {
    if lines == [] then o else PostLines(PostLine(o, clients, nick, from, lines[0]), clients, nick, from, lines[1..])
  }

  const OFFER: string := "peer tries to offer file" + " (unsupported)"

  function ForwardedText(m: Message): string {
    if m.kind == Text then m.text else OFFER
  }

  function Sender(s: S.State, k: ContactId): string {
    if k in s.usermap then S.NickOf(s, s.usermap[k]) else ""
  }

  function Forward(o: Outbox, s: S.State, k: ContactId, m: Message): Outbox {
    if m.status != Received then o
    else PostLines(o, s.clients, s.nick, Sender(s, k), Split(ForwardedText(m), '\n'))
  }

  /** The server follows usermap[contact] without a check, once for every client. */
  predicate Deliverable(s: S.State, k: ContactId) {
    k in s.usermap || s.clients == {}
  }

  /** A received message drains the list; the manager hears of the nested reset before the increment. */
  function Drain(s: L.Model): L.Model {
    s.(messages := [], unread := 0, told := s.told + [0, s.unread + 1])
  }

  /** An acknowledgement of a message that is gone is ignored. */
  function Acknowledge(s: L.Model, id: nat, accepted: bool): L.Model {
    var row := FirstRow(s.messages, id, Outgoing);
    if row < 0 then s else L.SetStatus(s, row, L.Outcome(accepted))
  }

  // ---- the whole server ----

  datatype House = House(irc: S.State, chats: map<ContactId, L.Model>, outbox: Outbox, badge: int)

  datatype Event =
    | Irc(event: S.Event)
    | Send(k: ContactId, id: nat, text: string)
    | Receive(k: ContactId, message: Message)
    | Ack(k: ContactId, id: nat, accepted: bool)

  datatype Outcome = Good(house: House) | Crash

  function ChatOf(h: House, k: ContactId): L.Model {
    if k in h.chats then h.chats[k] else L.EMPTY
  }

  predicate Possible(h: House, e: Event) {
    match e
    case Irc(event) => S.Possible(h.irc, event)
    case Receive(_, message) => message.status == Received
    case _ => true
  }

  function Step(h: House, e: Event): Outcome
    requires Possible(h, e)
  {
    match e
    case Irc(event) =>
      (match S.Step(h.irc, event)
       case Good(irc) => Good(h.(irc := irc))
       case NullPointer => Crash)
    case Send(k, id, text) => Good(h.(chats := h.chats[k := L.Apply(ChatOf(h, k), L.Send(id, text))]))
    case Receive(k, message) =>
      if !Deliverable(h.irc, k) then Crash
      else Good(h.(chats := h.chats[k := Drain(ChatOf(h, k))], outbox := Forward(h.outbox, h.irc, k, message),
                   badge := h.badge - ChatOf(h, k).unread))
    case Ack(k, id, accepted) => Good(h.(chats := h.chats[k := Acknowledge(ChatOf(h, k), id, accepted)]))
  }

  predicate IsRun(h: House, es: seq<Event>)
    decreases |es|
  {
    es == [] || (Possible(h, es[0]) && Step(h, es[0]).Good? && IsRun(Step(h, es[0]).house, es[1..]))
  }

  function Run(h: House, es: seq<Event>): House
    requires IsRun(h, es)
    decreases |es|
  {
    if es == [] then h else Run(Step(h, es[0]).house, es[1..])
  }

  // ---- what a client should get ----

  /** A chat message on its way from a contact to a client. */
  datatype Parcel = Parcel(from: string, to: string, text: string)

  function Lines(p: Parcel, lines: seq<string>): seq<Privmsg> {
    seq(|lines|, i requires 0 <= i < |lines| => Privmsg(p.from, p.to, lines[i]))
  }

  function Unpack(parcels: seq<Parcel>): seq<Privmsg> {
    if parcels == [] then []
    else Lines(parcels[0], Split(parcels[0].text, '\n')) + Unpack(parcels[1..])
  }

  /** The text that should go out for a message: its own, or a fixed sentence for a file. */
  function GoesOut(m: Message): string {
    match m.kind
    case Text => m.text
    case Transfer => "peer tries to offer file" + " (unsupported)"
  }

  /** What an event should bring a client. */
  function News(h: House, e: Event, c: Id): seq<Parcel> {
    if e.Receive? && c in h.irc.clients
    then [Parcel(Sender(h.irc, e.k), S.NickOf(h.irc, c), GoesOut(e.message))] else []
  }

  /** The messages that arrived while c was connected, in the order of their arrival. */
  function Arrived(h: House, es: seq<Event>, c: Id): seq<Parcel>
    requires IsRun(h, es)
    decreases |es|
  {
    if es == [] then [] else News(h, es[0], c) + Arrived(Step(h, es[0]).house, es[1..], c)
  }

  /** Between events no unread count is left and no received message is stored. */
  predicate Quiet(s: L.Model) {
    s.unread == 0 && forall m | m in s.messages :: m.status != Received
  }

  predicate AllQuiet(h: House) {
    forall k | k in h.chats :: Quiet(h.chats[k])
  }

  lemma LinesCons(p: Parcel, lines: seq<string>)
    requires lines != []
    ensures Lines(p, lines) == [Privmsg(p.from, p.to, lines[0])] + Lines(p, lines[1..])
  {
  }

  lemma {:induction false} PostLinesInbox(o: Outbox, clients: set<Id>, nick: map<Id, string>, from: string,
                                          lines: seq<string>, c: Id)
    ensures Inbox(PostLines(o, clients, nick, from, lines), c)
            == Inbox(o, c) + if c in clients then Lines(Parcel(from, S.Named(nick, c), ""), lines) else []
    decreases |lines|
  {
    if lines != [] {
      var p := Parcel(from, S.Named(nick, c), "");
      var next := PostLine(o, clients, nick, from, lines[0]);
      PostLinesInbox(next, clients, nick, from, lines[1..], c);
      LinesCons(p, lines);
      Assoc(Inbox(o, c), [Privmsg(from, p.to, lines[0])], Lines(p, lines[1..]));
    }
  }

  lemma SendIsQuiet(s: L.Model, id: nat, text: string)
    requires Quiet(s)
    ensures Quiet(L.Apply(s, L.Send(id, text)))
  {
  }

  lemma StepStaysQuiet(h: House, e: Event)
    requires Possible(h, e) && Step(h, e).Good? && AllQuiet(h)
    ensures AllQuiet(Step(h, e).house) && Step(h, e).house.badge == h.badge
  {
    match e
    case Send(k, id, text) => SendIsQuiet(ChatOf(h, k), id, text);
    case _ =>
  }

  lemma UnpackOne(p: Parcel)
    ensures Unpack([p]) == Lines(p, Split(p.text, '\n'))
  {
    assert [p][1..] == [];
  }

  lemma UnpackCons(p: Parcel, rest: seq<Parcel>)
    ensures Unpack([p] + rest) == Unpack([p]) + Unpack(rest)
  {
    UnpackOne(p);
    DropFirst(p, rest);
  }

  lemma StepInbox(h: House, e: Event, c: Id)
    requires Possible(h, e) && Step(h, e).Good?
    ensures Inbox(Step(h, e).house.outbox, c) == Inbox(h.outbox, c) + Unpack(News(h, e, c))
  {
    if e.Receive? {
      var p := Parcel(Sender(h.irc, e.k), S.NickOf(h.irc, c), GoesOut(e.message));
      var lines := Split(p.text, '\n');
      PostLinesInbox(h.outbox, h.irc.clients, h.irc.nick, p.from, lines, c);
      UnpackOne(p);
      assert Lines(p.(text := ""), lines) == Lines(p, lines);
    }
  }

  /** Every message received reaches every client connected at that moment, once and in the order of arrival. */
  lemma {:induction false} ForwardedExactlyOnce(h: House, es: seq<Event>, c: Id)
    requires IsRun(h, es)
    ensures Inbox(Run(h, es).outbox, c) == Inbox(h.outbox, c) + Unpack(Arrived(h, es, c))
    decreases |es|
  {
    if es != [] {
      var next := Step(h, es[0]).house;
      StepInbox(h, es[0], c);
      ForwardedExactlyOnce(next, es[1..], c);
      NewsFirst(Inbox(h.outbox, c), News(h, es[0], c), Arrived(next, es[1..], c));
    }
  }

  /** At most one parcel at a time goes in front of those that come later. */
  lemma NewsFirst(inbox: seq<Privmsg>, news: seq<Parcel>, later: seq<Parcel>)
    requires |news| <= 1
    ensures (inbox + Unpack(news)) + Unpack(later) == inbox + Unpack(news + later)
  {
    if news == [] {
      AppendNothing(later);
      AppendNothing(inbox);
    } else {
      assert news == [news[0]];
      UnpackCons(news[0], later);
      Assoc(inbox, Unpack(news), Unpack(later));
    }
  }

  /** Between events nothing is unread or stored, and the badge does not move. */
  lemma {:induction false} RunStaysQuiet(h: House, es: seq<Event>)
    requires IsRun(h, es) && AllQuiet(h)
    ensures AllQuiet(Run(h, es)) && Run(h, es).badge == h.badge
    decreases |es|
  {
    if es != [] {
      StepStaysQuiet(h, es[0]);
      RunStaysQuiet(Step(h, es[0]).house, es[1..]);
    }
  }

  function TextsOf(parcels: seq<Parcel>): seq<string> {
    if parcels == [] then [] else [parcels[0].text] + TextsOf(parcels[1..])
  }

  /** The texts received in a run, whoever they are from. */
  function Texts(es: seq<Event>): seq<string> {
    if es == [] then []
    else (if es[0].Receive? then [GoesOut(es[0].message)] else []) + Texts(es[1..])
  }

  /** While nobody comes or goes, every client gets every text of the run, in order, and under its own nick. */
  lemma {:induction false} ArrivedAll(h: House, es: seq<Event>, c: Id)
    requires IsRun(h, es) && c in h.irc.clients && forall e | e in es :: !e.Irc?
    ensures TextsOf(Arrived(h, es, c)) == Texts(es)
    ensures forall p | p in Arrived(h, es, c) :: p.to == S.NickOf(h.irc, c)
    decreases |es|
  {
    if es != [] {
      var next := Step(h, es[0]).house;
      assert es[0] in es && next.irc == h.irc;
      ArrivedAll(next, es[1..], c);
      var rest := Arrived(next, es[1..], c);
      if es[0].Receive? {
        var p := Parcel(Sender(h.irc, es[0].k), S.NickOf(h.irc, c), GoesOut(es[0].message));
        DropFirst(p, rest);
        assert Arrived(h, es, c) == [p] + rest;
      } else {
        AppendNothing(rest);
        AppendNothing(Texts(es[1..]));
      }
    }
  }

  function LinesOf(messages: seq<Privmsg>): seq<string> {
    if messages == [] then [] else [messages[0].line] + LinesOf(messages[1..])
  }

  lemma {:induction false} LinesOfLines(p: Parcel, lines: seq<string>)
    ensures LinesOf(Lines(p, lines)) == lines
  {
    if lines != [] {
      assert Lines(p, lines)[1..] == Lines(p, lines[1..]);
      LinesOfLines(p, lines[1..]);
    }
  }

  /** The lines a message is sent as hold no line break, and joining them gives its text back. */
  lemma ParcelRejoins(p: Parcel)
    ensures Join(LinesOf(Unpack([p])), '\n') == p.text
    ensures forall m | m in Unpack([p]) :: m.from == p.from && m.to == p.to && '\n' !in m.line
  {
    var lines := Split(p.text, '\n');
    UnpackOne(p);
    LinesOfLines(p, lines);
    JoinSplit(p.text, '\n');
    forall i | 0 <= i < |lines|
      ensures '\n' !in Lines(p, lines)[i].line
    {
      assert lines[i] in lines;
    }
  }

  /** A contact's IRC user bears the contact's nickname, so that is who its messages come from. */
  lemma {:induction false} SenderIsContact(s: S.State, k: ContactId)
    requires I.Inv(s) && k in s.usermap
    ensures k in s.nickname && Sender(s, k) == s.nickname[k]
  {
  }

  /** What one event adds to a client's inbox. */
  ghost predicate Gains(h: House, e: Event, c: Id, gained: seq<Privmsg>)
    requires Possible(h, e) && Step(h, e).Good?
  {
    Inbox(Step(h, e).house.outbox, c) == Inbox(h.outbox, c) + gained
  }

  /** A received text reaches a connected client as lines that join to that very text, from the contact's nickname. */
  lemma {:induction false} TextGoesOut(h: House, k: ContactId, id: nat, text: string, c: Id) returns (gained: seq<Privmsg>)
    requires I.Inv(h.irc) && c in h.irc.clients && k in h.irc.usermap
    ensures Gains(h, Receive(k, TextMessage(id, text, Received)), c, gained)
    ensures Join(LinesOf(gained), '\n') == text
    ensures forall m | m in gained ::
              '\n' !in m.line && m.to == S.NickOf(h.irc, c) && k in h.irc.nickname && m.from == h.irc.nickname[k]
  {
    var p := Parcel(Sender(h.irc, k), S.NickOf(h.irc, c), text);
    StepInbox(h, Receive(k, TextMessage(id, text, Received)), c);
    ParcelRejoins(p);
    SenderIsContact(h.irc, k);
    gained := Unpack([p]);
  }

  lemma {:induction false} LineGoesOut(h: House, k: ContactId, m: Message, c: Id, text: string)
    requires I.Inv(h.irc) && c in h.irc.clients && k in h.irc.usermap && m.status == Received
    requires text == GoesOut(m) && '\n' !in text
    ensures k in h.irc.nickname
    ensures Gains(h, Receive(k, m), c, [Privmsg(h.irc.nickname[k], S.NickOf(h.irc, c), text)])
  {
    StepInbox(h, Receive(k, m), c);
    OneLine(Parcel(Sender(h.irc, k), S.NickOf(h.irc, c), text));
    SenderIsContact(h.irc, k);
  }

  lemma {:induction false} OfferSentence(m: Message)
    requires m.kind == Transfer
    ensures GoesOut(m) == "peer tries to offer file (unsupported)" && '\n' !in GoesOut(m)
  {
  }

  /** An offered file reaches a connected client as one line that says so. */
  lemma {:induction false} OfferGoesOut(h: House, k: ContactId, m: Message, c: Id) returns (line: Privmsg)
    requires I.Inv(h.irc) && c in h.irc.clients && k in h.irc.usermap && m.status == Received && m.kind == Transfer
    ensures Gains(h, Receive(k, m), c, [line])
    ensures k in h.irc.nickname && line.from == h.irc.nickname[k] && line.to == S.NickOf(h.irc, c)
    ensures line.line == "peer tries to offer file (unsupported)"
  {
    OfferSentence(m);
    LineGoesOut(h, k, m, c, GoesOut(m));
    line := Privmsg(h.irc.nickname[k], S.NickOf(h.irc, c), GoesOut(m));
  }

  lemma {:induction false} OneLine(p: Parcel)
    requires '\n' !in p.text
    ensures Unpack([p]) == [Privmsg(p.from, p.to, p.text)]
  {
    UnpackOne(p);
    SplitClean(p.text, '\n');
  }

  // ---- acknowledgements in this build ----

  /** Queued when sent, then as acknowledged; forgotten when a message of the contact comes in. */
  function IrcVerdict(es: seq<Event>, k: ContactId, id: nat, before: Option<Status>): Option<Status> {
    if es == [] then before
    else
      IrcVerdict(es[1..], k, id,
                 match es[0]
                 case Send(l, i, text) => if l == k && i == id && text != "" then Some(Queued) else before
                 case Receive(l, _) => if l == k then None else before
                 case Ack(l, i, accepted) =>
                   if l == k && i == id && before.Some? then Some(if accepted then Delivered else Failed) else before
                 case Irc(_) => before)
  }

  lemma {:induction false} AcknowledgedStatus(s: L.Model, i: nat, accepted: bool, id: nat)
    ensures H.StatusOf(Acknowledge(s, i, accepted).messages, id)
      == if i == id && H.StatusOf(s.messages, id).Some? then Some(if accepted then Delivered else Failed)
         else H.StatusOf(s.messages, id)
  {
    var row := FirstRow(s.messages, i, Outgoing);
    if row >= 0 {
      H.StatusOfChanged(s.messages, row, s.messages[row].(status := if accepted then Delivered else Failed), id);
    }
  }

  /** After any run the newest message sent to a contact has the status that its history gives it. */
  lemma {:induction false} IrcStatusHistory(h: House, es: seq<Event>, k: ContactId, id: nat)
    requires IsRun(h, es)
    ensures H.StatusOf(ChatOf(Run(h, es), k).messages, id)
      == IrcVerdict(es, k, id, H.StatusOf(ChatOf(h, k).messages, id))
    decreases |es|
  {
    if es != [] {
      match es[0] {
        case Send(l, i, text) => H.StatusStep(ChatOf(h, l), L.Send(i, text), id);
        case Ack(l, i, accepted) => AcknowledgedStatus(ChatOf(h, l), i, accepted, id);
        case _ =>
      }
      IrcStatusHistory(Step(h, es[0]).house, es[1..], k, id);
    }
  }

  // ---- when the server follows a null pointer ----

  /** Whether a contact has an IRC user after a run: it came up under a free name, and was not deleted since. */
  function HasUser(h: House, es: seq<Event>, k: ContactId, before: bool): bool
    requires IsRun(h, es)
    decreases |es|
  {
    if es == [] then before
    else
      HasUser(Step(h, es[0]).house, es[1..], k,
              if es[0].Irc?
              then (before || R.MapsContact(h.irc, es[0].event, k)) && !R.UnmapsContact(h.irc, es[0].event, k)
              else before)
  }

  lemma {:induction false} HasUserExact(h: House, es: seq<Event>, k: ContactId, before: bool)
    requires IsRun(h, es) && before == (k in h.irc.usermap)
    ensures HasUser(h, es, k, before) <==> k in Run(h, es).irc.usermap
    decreases |es|
  {
    if es != [] {
      var next := Step(h, es[0]).house;
      if es[0].Irc? { R.MappedStep(h.irc, es[0].event, k); }
      HasUserExact(next, es[1..], k, k in next.irc.usermap);
    }
  }

  function NewHouse(password: string, control: string): House {
    House(S.Start(password, control), map[], map[], 0)
  }

  /**
   After any run from the start, a message is fatal exactly when somebody is connected and its contact has not come
   up under a free name since it was last deleted.
   */
  lemma {:induction false} ReceiveExact(password: string, control: string, es: seq<Event>, k: ContactId, m: Message)
    requires IsRun(NewHouse(password, control), es) && m.status == Received
    ensures Step(Run(NewHouse(password, control), es), Receive(k, m)).Crash?
      <==> Run(NewHouse(password, control), es).irc.clients != {} && !HasUser(NewHouse(password, control), es, k, false)
  {
    HasUserExact(NewHouse(password, control), es, k, false);
  }

  // ---- what the contacts manager hears ----

  /** The messages of one contact in a run. */
  function Arrivals(es: seq<Event>, k: ContactId): nat {
    if es == [] then 0 else (if es[0].Receive? && es[0].k == k then 1 else 0) + Arrivals(es[1..], k)
  }

  function ZeroOnes(n: nat): seq<int> {
    if n == 0 then [] else [0, 1] + ZeroOnes(n - 1)
  }

  lemma {:induction false} ToldOverRun(h: House, es: seq<Event>, k: ContactId)
    requires IsRun(h, es) && AllQuiet(h)
    ensures ChatOf(Run(h, es), k).told == ChatOf(h, k).told + ZeroOnes(Arrivals(es, k))
    decreases |es|
  {
    if es == [] {
      AppendNothing(ChatOf(h, k).told);
    } else {
      var next := Step(h, es[0]).house;
      StepStaysQuiet(h, es[0]);
      ToldStep(h, es[0], k);
      ToldOverRun(next, es[1..], k);
      if es[0].Receive? && es[0].k == k {
        Assoc(ChatOf(h, k).told, [0, 1], ZeroOnes(Arrivals(es[1..], k)));
      }
    }
  }

  lemma {:induction false} ToldStep(h: House, e: Event, k: ContactId)
    requires Possible(h, e) && Step(h, e).Good? && AllQuiet(h)
    ensures ChatOf(Step(h, e).house, k).told
      == if e.Receive? && e.k == k then ChatOf(h, k).told + [0, 1] else ChatOf(h, k).told
  {
  }

  lemma {:induction false} ZeroOnesLast(n: nat)
    requires n > 0
    ensures ZeroOnes(n) != [] && ZeroOnes(n)[|ZeroOnes(n)| - 1] == 1
  {
    if n > 1 { ZeroOnesLast(n - 1); }
  }

  /**
   The manager hears a 0 and then a 1 for every message, so what it heard last is the contact's count exactly when
   no message of the contact came in at all.
   */
  lemma {:induction false} ManagerHearsStaleCount(password: string, control: string, es: seq<Event>, k: ContactId)
    requires IsRun(NewHouse(password, control), es)
    ensures var t := ChatOf(Run(NewHouse(password, control), es), k);
            && t.told == ZeroOnes(Arrivals(es, k)) && t.unread == 0
            && (L.Counted(t) <==> Arrivals(es, k) == 0)
  {
    var h := NewHouse(password, control);
    ToldOverRun(h, es, k);
    RunStaysQuiet(h, es);
    AppendNothing(ZeroOnes(Arrivals(es, k)));
    if Arrivals(es, k) > 0 { ZeroOnesLast(Arrivals(es, k)); }
  }
}
