/** The conversation model of the graphical build, updating its lists in place, against the log. */
module ConversationModel {
  import opened ConversationTypes
  import L = ConversationLog
  import opened Options

  class Conversation {
    const badge: Badge
    var messages: seq<Message>
    var events: seq<Event>
    var unread: int
    var told: seq<int>      // the numbers passed on to the contacts manager
    ghost var base: nat     // the first event logged since the list was last cleared

    ghost function View(): L.Model
      reads this
    {
      L.Model(messages, events, unread, told)
    }

    /** The counter is right, and every event since the last clear() points at a message of its kind. */
    ghost predicate Valid()
      reads this
    {
      L.Counted(View()) && base <= |events| && L.SoundFrom(View(), base)
    }

    /** The new state is what the operation makes of the old one, and the badge moves by the counter's difference. */
    twostate predicate Did(op: L.Op)
      reads this, badge
    {
      && L.Possible(old(View()), op) && View() == L.Apply(old(View()), op)
      && badge.count == old(badge.count) + unread - old(unread)
      && base == L.BaseAfter(old(View()), op, old(base))
    }

    /** What one more operation would leave valid. */
    lemma {:induction false} StaysValid(op: L.Op)
      requires Valid() && L.Possible(View(), op)
      ensures var t, first := L.Apply(View(), op), L.BaseAfter(View(), op, base);
              L.Counted(t) && first <= |t.events| && L.SoundFrom(t, first)
    {
      L.ApplyKeepsCount(View(), op);
      L.OpStaysSound(View(), op, base);
    }

    constructor (badge: Badge)
      ensures Valid() && View() == L.EMPTY && this.badge == badge
    {
      this.badge := badge;
      messages, events, unread, told, base := [], [], 0, [], 0;
    }

    method SetUnreadCount(count: int)
      modifies this`unread, this`told, badge
      ensures View() == L.SetUnread(old(View()), count)
      ensures badge.count == old(badge.count) + unread - old(unread)
    {
      var before := unread;
      if before != count {
        unread := count;
        badge.count := badge.count + (count - before);
        told := told + [count];
      }
    }

    method AddEventFromMessage(row: int)
      requires row < |messages|
      modifies this`events
      ensures View() == L.Log(old(View()), row)
    {
      if row < 0 {
        return;
      }
      var m := messages[row];
      match m.kind {
        case Text => events := events + [TextEvent(|messages| - row)];
        case Transfer => events := events + [TransferEvent(|messages| - row, m.transfer, m.bytes)];
      }
    }

    method SendMessage(id: nat, text: string)
      requires Valid()
      modifies this`messages, this`events
      ensures Valid() && Did(L.Send(id, text))
    {
      StaysValid(L.Send(id, text));
      if |text| == 0 {
        return;
      }
      messages := [TextMessage(id, text, Queued)] + messages;
      var row := IndexOf(messages, id, Outgoing);
      AddEventFromMessage(row);
    }

    method SendFile(id: nat)
      requires Valid()
      modifies this`messages, this`events
      ensures Valid() && Did(L.SendFile(id))
    {
      StaysValid(L.SendFile(id));
      messages := [TransferMessage(id, Queued)] + messages;
      var row := IndexOf(messages, id, Outgoing);
      AddEventFromMessage(row);
    }

    method MessageReceived(id: nat, text: string)
      requires Valid()
      modifies this, badge
      ensures Valid() && Did(L.Receive(id, text))
    {
      StaysValid(L.Receive(id, text));
      messages := [TextMessage(id, text, Received)] + messages;
      SetUnreadCount(unread + 1);
      var row := IndexOf(messages, id, Incoming);
      AddEventFromMessage(row);
    }

    method FileTransferRequestReceived(id: nat)
      requires Valid()
      modifies this, badge
      ensures Valid() && Did(L.Offer(id))
    {
      StaysValid(L.Offer(id));
      messages := [TransferMessage(id, Received)] + messages;
      SetUnreadCount(unread + 1);
      var row := IndexOf(messages, id, Incoming);
      AddEventFromMessage(row);
    }

    method MessageAcknowledged(id: nat, accepted: bool) returns (ok: bool)
      requires Valid()
      modifies this`messages
      ensures Valid() && (ok <==> old(L.Possible(View(), L.Acknowledge(id, accepted))))
      ensures if ok then Did(L.Acknowledge(id, accepted)) else View() == old(View())
    {
      if L.Possible(View(), L.Acknowledge(id, accepted)) { StaysValid(L.Acknowledge(id, accepted)); }
      if |messages| == 0 {
        return true;
      }
      var row := IndexOf(messages, id, Outgoing);
      if row < 0 {
        return false;
      }
      messages := messages[row := messages[row].(status := if accepted then Delivered else Failed)];
      return true;
    }

    method FileTransferRequestAcknowledged(id: nat, accepted: bool) returns (ok: bool)
      requires Valid()
      modifies this`messages
      ensures Valid() && (ok <==> old(L.Possible(View(), L.AcknowledgeFile(id, accepted))))
      ensures if ok then Did(L.AcknowledgeFile(id, accepted)) else View() == old(View())
    {
      if L.Possible(View(), L.AcknowledgeFile(id, accepted)) { StaysValid(L.AcknowledgeFile(id, accepted)); }
      var row := IndexOf(messages, id, Outgoing);
      if row < 0 {
        return false;
      }
      messages := messages[row := messages[row].(status := if accepted then Delivered else Failed)];
      return true;
    }

    method FileTransferRequestResponded(id: nat, response: L.Response) returns (ok: bool)
      requires Valid()
      modifies this`messages, this`events
      ensures Valid() && (ok <==> old(L.Possible(View(), L.Respond(id, response))))
      ensures if ok then Did(L.Respond(id, response)) else View() == old(View())
    {
      if L.Possible(View(), L.Respond(id, response)) { StaysValid(L.Respond(id, response)); }
      var row := IndexOf(messages, id, Outgoing);
      if row < 0 {
        return false;
      }
      match response {
        case Accept => messages := messages[row := messages[row].(transfer := Accepted)];
        case Reject => messages := messages[row := messages[row].(transfer := Rejected)];
        case OtherResponse => return true;
      }
      AddEventFromMessage(row);
      return true;
    }

    method FileTransferRequestProgressUpdated(id: nat, bytes: nat)
      requires Valid()
      modifies this`messages
      ensures Valid() && Did(L.Progress(id, bytes))
    {
      StaysValid(L.Progress(id, bytes));
      var row := IndexOf(messages, id, Any);
      if row >= 0 {
        messages := messages[row := messages[row].(transfer := InProgress, bytes := bytes)];
      }
    }

    method FileTransferRequestCompleted(id: nat, outcome: TransferStatus)
      requires Valid()
      modifies this`messages, this`events
      ensures Valid() && Did(L.Complete(id, outcome))
    {
      StaysValid(L.Complete(id, outcome));
      var row := IndexOf(messages, id, Any);
      if row >= 0 {
        messages := messages[row := messages[row].(transfer := outcome)];
        AddEventFromMessage(row);
      }
    }

    method TryAcceptFileTransfer(id: nat)
      requires Valid()
      modifies this`messages, this`events
      ensures Valid() && Did(L.AcceptOffer(id))
    {
      StaysValid(L.AcceptOffer(id));
      var row := IndexOf(messages, id, Incoming);
      if row < 0 {
        return;
      }
      messages := messages[row := messages[row].(transfer := Accepted)];
      AddEventFromMessage(row);
    }

    method RejectFileTransfer(id: nat)
      requires Valid()
      modifies this`messages, this`events
      ensures Valid() && Did(L.RejectOffer(id))
    {
      StaysValid(L.RejectOffer(id));
      var row := IndexOf(messages, id, Incoming);
      if row < 0 {
        return;
      }
      messages := messages[row := messages[row].(transfer := Rejected)];
      AddEventFromMessage(row);
    }

    method CancelFileTransfer(id: nat)
      requires Valid()
      modifies this`messages, this`events
      ensures Valid() && Did(L.Cancel(id))
    {
      StaysValid(L.Cancel(id));
      var row := IndexOf(messages, id, Any);
      if row < 0 {
        return;
      }
      if messages[row].transfer != Cancelled {
        messages := messages[row := messages[row].(transfer := Cancelled)];
        AddEventFromMessage(row);
      }
    }

    method SetStatus(status: ContactStatus)
      requires Valid()
      modifies this`events
      ensures Valid() && Did(L.ContactStatusIs(status))
    {
      StaysValid(L.ContactStatusIs(status));
      events := events + [StatusEvent(status)];
    }

    method ResetUnreadCount()
      requires Valid()
      modifies this`unread, this`told, badge
      ensures Valid() && Did(L.Reset)
    {
      StaysValid(L.Reset);
      SetUnreadCount(0);
    }

    method Clear()
      requires Valid()
      modifies this`messages, this`unread, this`told, this`base, badge
      ensures Valid() && Did(L.Clear)
    {
      StaysValid(L.Clear);
      if messages == [] {
        return;
      }
      messages, base := [], |events|;
      SetUnreadCount(0);
    }

    /** Fails where the source would follow an event past the list's end. */
    method LinesOfEvent(e: Event) returns (lines: Option<seq<L.Line>>)
      ensures lines == if L.Points(View(), e) then Some(L.LineOf(View(), e)) else None
    {
      if !e.StatusEvent? && (e.reverseIndex < 1 || e.reverseIndex > |messages|) {
        return None;
      }
      match e {
        case TextEvent(r) =>
          var m := messages[|messages| - r];
          return Some([L.TextLine(m.text, m.status)]);
        case TransferEvent(r, status, bytes) =>
          if status == InvalidTransfer || status == InProgress {
            return Some([]);
          }
          var m := messages[|messages| - r];
          return Some([L.TransferLine(m.id, m.status == Received, status, if L.IsFailure(status) then bytes else 0)]);
        case StatusEvent(contact) =>
          return Some(if contact == Outdated then [] else [L.StatusLine(contact)]);
      }
    }

    /** Every event's line in order; the texts are all texts, oldest first, when the log lists them. */
    method ExportConversation() returns (lines: Option<seq<L.Line>>)
      ensures lines.Some? <==> forall e | e in events :: L.Points(View(), e)
      ensures lines.Some? ==> L.AllPoint(View(), events) && lines.value == L.LinesOf(View(), events)
      ensures L.SoundFrom(View(), 0) ==> lines.Some?
      ensures lines.Some? && L.Listed(View(), 0) ==> L.TextsIn(lines.value) == L.TextsOldestFirst(messages)
    {
      SoundMeansAllPoint();
      var written: seq<L.Line> := [];
      for i := 0 to |events|
        invariant L.AllPoint(View(), events[..i]) && written == L.LinesOf(View(), events[..i])
      {
        var more := LinesOfEvent(events[i]);
        if more == None {
          assert events[i] in events;
          return None;
        }
        L.LinesMore(View(), events[..i], events[i]);
        assert events[..i + 1] == events[..i] + [events[i]];
        written := written + more.value;
      }
      assert events[..|events|] == events == events[0..];
      L.AllPointExact(View(), events);
      L.TextsOfLines(View(), events);
      L.FollowPositions(messages);
      return Some(written);
    }

    lemma {:induction false} SoundMeansAllPoint()
      ensures L.SoundFrom(View(), 0) ==> forall e | e in events :: L.Points(View(), e)
    {
      if L.SoundFrom(View(), 0) {
        forall e | e in events
          ensures L.Points(View(), e)
        {
          var i :| 0 <= i < |events| && events[i] == e;
          assert L.Sound(View(), View().events[i]);
        }
      }
    }
  }
}
