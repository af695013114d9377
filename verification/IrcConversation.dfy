/**
 The conversation and the forwarding handler of the IRC build in place: setUnreadCount signals the handler, the
 handler clears the list, and clearing calls setUnreadCount again.
 */
module IrcConversation {
  import opened Strings
  import opened ConversationTypes
  import opened Forwarding
  import L = ConversationLog
  import S = IrcState
  import G = IrcGateway

  /** What the gateway sent to its connections. */
  class Wire {
    var outbox: Outbox
    constructor ()
      ensures outbox == map[]
    {
      outbox := map[];
    }
  }

  class Conversation {
    const contact: ContactId
    const gateway: G.Gateway
    const wire: Wire
    const badge: Badge
    var messages: seq<Message>
    var events: seq<ConversationTypes.Event>
    var unread: nat
    var told: seq<int>

    ghost function View(): L.Model
      reads this
    {
      L.Model(messages, events, unread, told)
    }

    constructor (contact: ContactId, gateway: G.Gateway, wire: Wire, badge: Badge)
      ensures View() == L.EMPTY && Quiet(View()) && this.contact == contact && this.gateway == gateway
      ensures this.wire == wire && this.badge == badge
    {
      this.contact, this.gateway, this.wire, this.badge := contact, gateway, wire, badge;
      messages, events, unread, told := [], [], 0, [];
    }

    /** One line to every client, in whatever order they are visited; fails when the contact has no user to name. */
    method SendLine(line: string) returns (ok: bool)
      modifies wire
      ensures ok <==> Deliverable(gateway.View(), contact)
      ensures wire.outbox == if ok then PostLine(old(wire.outbox), gateway.clients, gateway.nick,
                                                 Sender(gateway.View(), contact), line) else old(wire.outbox)
    {
      ghost var before := wire.outbox;
      var todo := gateway.clients;
      while todo != {}
        invariant todo <= gateway.clients
        invariant todo == gateway.clients || contact in gateway.usermap
        invariant todo == gateway.clients ==> wire.outbox == before
        invariant wire.outbox.Keys == before.Keys + (gateway.clients - todo)
        invariant forall c | c in wire.outbox ::
          wire.outbox[c] == Inbox(before, c) + if c in gateway.clients - todo
                                               then [Privmsg(Sender(gateway.View(), contact), S.Named(gateway.nick, c), line)]
                                               else []
      {
        var c :| c in todo;
        if contact !in gateway.usermap {
          return false;
        }
        var user := gateway.usermap[contact];
        var message := Privmsg(S.Named(gateway.nick, user), S.Named(gateway.nick, c), line);
        wire.outbox := wire.outbox[c := Inbox(wire.outbox, c) + [message]];
        todo := todo - {c};
      }
      return true;
    }

    method SendLines(lines: seq<string>) returns (ok: bool)
      modifies wire
      ensures ok <==> lines == [] || Deliverable(gateway.View(), contact)
      ensures wire.outbox == if ok then PostLines(old(wire.outbox), gateway.clients, gateway.nick,
                                                  Sender(gateway.View(), contact), lines) else old(wire.outbox)
    {
      for i := 0 to |lines|
        invariant i == 0 || Deliverable(gateway.View(), contact)
        invariant i == 0 ==> wire.outbox == old(wire.outbox)
        invariant PostLines(wire.outbox, gateway.clients, gateway.nick, Sender(gateway.View(), contact), lines[i..])
                  == PostLines(old(wire.outbox), gateway.clients, gateway.nick, Sender(gateway.View(), contact), lines)
      {
        var sent := SendLine(lines[i]);
        if !sent {
          return false;
        }
        assert lines[i..][1..] == lines[i + 1..];
      }
      return true;
    }

    /** Nothing changed. */
    twostate predicate Same()
      reads this, wire, badge
    {
      View() == old(View()) && wire.outbox == old(wire.outbox) && badge.count == old(badge.count)
    }

    /** The list was drained, the counter reset, the given numbers told, and the newest message forwarded. */
    twostate predicate Drained(numbers: seq<int>)
      requires old(messages) != []
      reads this, wire, badge, gateway
    {
      && View() == old(View()).(messages := [], unread := 0, told := old(told) + numbers)
      && wire.outbox == Forward(old(wire.outbox), gateway.View(), contact, old(messages)[0])
      && badge.count == old(badge.count) - old(unread)
    }

    /** The newest message can be forwarded, if it has to be. */
    ghost predicate Forwards()
      requires messages != []
      reads this, gateway
    {
      messages[0].status == Received ==> Deliverable(gateway.View(), contact)
    }

    method SetUnreadCount(count: nat) returns (ok: bool)
      modifies this`messages, this`unread, this`told, wire, badge
      ensures ok <==> old(unread == count || messages == [] || Forwards())
      ensures old(unread) == count ==> Same()
      ensures old(unread) != count && old(messages) == [] ==>
                View() == old(View()).(unread := count, told := old(told) + [count])
                && wire.outbox == old(wire.outbox) && badge.count == old(badge.count) + count - old(unread)
      ensures ok && old(unread) != count && old(messages) != [] ==> Drained((if count != 0 then [0] else []) + [count])
      ensures !ok ==> wire.outbox == old(wire.outbox)
      decreases |messages|, 2
    {
      var before := unread;
      if before != count {
        unread := count;
        badge.count := badge.count + (count - before);
        var handled := OnUnreadCountChanged();
        if !handled {
          return false;
        }
        told := told + [count];
      }
      return true;
    }

    /** The handler forwards the newest message only; clearing the list drops the others. */
    method OnUnreadCountChanged() returns (ok: bool)
      modifies this`messages, this`unread, this`told, wire, badge
      ensures ok <==> old(messages == [] || Forwards())
      ensures old(messages) == [] ==> Same()
      ensures ok && old(messages) != [] ==> Drained(if old(unread) != 0 then [0] else [])
      ensures !ok ==> wire.outbox == old(wire.outbox)
      decreases |messages|, 1
    {
      while |messages| > 0
        invariant messages == old(messages) ==> Same()
        invariant messages != old(messages) ==>
                    messages == [] && old(Forwards()) && Drained(if old(unread) != 0 then [0] else [])
      {
        var first := messages[0];
        Clear();
        if first.status == Received {
          var sent := SendLines(Split(ForwardedText(first), '\n'));
          if !sent {
            return false;
          }
        }
      }
      return true;
    }

    /** Clearing notifies a handler that finds nothing to forward, so it cannot fail. */
    method Clear()
      modifies this`messages, this`unread, this`told, wire, badge
      ensures wire.outbox == old(wire.outbox)
      ensures old(messages) == [] ==> Same()
      ensures old(messages) != [] ==>
                && View() == old(View()).(messages := [], unread := 0,
                                          told := old(told) + (if old(unread) != 0 then [0] else []))
                && badge.count == old(badge.count) - old(unread)
      decreases |messages|, 0
    {
      if messages == [] {
        return;
      }
      messages := [];
      var reset := SetUnreadCount(0);
    }

    method AddEventFromMessage(row: int)
      requires row < |messages|
      modifies this`events
      ensures View() == L.Log(old(View()), row)
    {
      if row >= 0 {
        var e := EventOf(messages, row);
        events := events + [e];
      }
    }

    method SendMessage(id: nat, text: string)
      modifies this`messages, this`events
      ensures View() == L.Apply(old(View()), L.Send(id, text))
      ensures old(Quiet(View())) ==> Quiet(View())
    {
      if Quiet(View()) { SendIsQuiet(View(), id, text); }
      if |text| == 0 {
        return;
      }
      messages := [TextMessage(id, text, Queued)] + messages;
      var row := IndexOf(messages, id, Outgoing);
      AddEventFromMessage(row);
    }

    /** What a received message leaves: fails exactly when it cannot be forwarded, and is gone otherwise. */
    twostate predicate HandedOn(m: Message, ok: bool)
      reads this, wire, badge, gateway
    {
      && (ok <==> Deliverable(gateway.View(), contact))
      && (ok ==> View() == Drain(old(View())) && badge.count == old(badge.count) - old(unread)
                 && wire.outbox == Forward(old(wire.outbox), gateway.View(), contact, m))
      && (!ok ==> wire.outbox == old(wire.outbox))
    }

    /** The message is gone before its event could be logged. */
    method MessageReceived(id: nat, text: string) returns (ok: bool)
      modifies this, wire, badge
      ensures HandedOn(TextMessage(id, text, Received), ok)
      ensures ok ==> Quiet(View())
    {
      messages := [TextMessage(id, text, Received)] + messages;
      ok := SetUnreadCount(unread + 1);
      if ok {
        var row := IndexOf(messages, id, Incoming);
        AddEventFromMessage(row);
      }
    }

    method FileTransferRequestReceived(id: nat) returns (ok: bool)
      modifies this, wire, badge
      ensures HandedOn(TransferMessage(id, Received), ok)
      ensures ok ==> Quiet(View())
    {
      var message := TransferMessage(id, Received);
      messages := [message] + messages;
      ok := SetUnreadCount(unread + 1);
      if ok {
        var row := IndexOf(messages, id, Incoming);
        AddEventFromMessage(row);
      }
    }

    method MessageAcknowledged(id: nat, accepted: bool)
      modifies this`messages
      ensures View() == Acknowledge(old(View()), id, accepted)
      ensures old(Quiet(View())) ==> Quiet(View())
    {
      if |messages| == 0 {
        return;
      }
      var row := IndexOf(messages, id, Outgoing);
      if row == -1 {
        return;
      }
      messages := messages[row := messages[row].(status := if accepted then Delivered else Failed)];
    }
  }
}
