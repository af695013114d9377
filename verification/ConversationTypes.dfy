/** The messages and events of a conversation, the same in both builds. */
module ConversationTypes {

  datatype Kind = Text | Transfer

  /** Received is the only incoming status. */
  datatype Status = Received | Queued | Delivered | Failed

  datatype TransferStatus =
    | InvalidTransfer | Pending | Accepted | Rejected | InProgress | Cancelled | Finished
    | UnknownFailure | BadFileHash | NetworkError | FileSystemError

  datatype Message = Message(kind: Kind, text: string, id: nat, status: Status, transfer: TransferStatus, bytes: nat)
  {
    /** What no later update may change. */
    function Identity(): (Kind, string, nat, bool) {
      (kind, text, id, status == Received)
    }
  }

  datatype ContactStatus = Online | Offline | RequestPending | RequestRejected | Outdated

  /** Events point at their message by its distance from the old end of the list. */
  datatype Event =
    | TextEvent(reverseIndex: nat)
    | TransferEvent(reverseIndex: nat, status: TransferStatus, bytes: nat)
    | StatusEvent(contact: ContactStatus)

  function TextMessage(id: nat, text: string, status: Status): Message {
    Message(Text, text, id, status, InvalidTransfer, 0)
  }

  function TransferMessage(id: nat, status: Status): Message {
    Message(Transfer, "", id, status, Pending, 0)
  }

  /** Which messages a lookup by id considers. */
  datatype Side = Any | Incoming | Outgoing

  predicate Matches(m: Message, id: nat, side: Side) {
    m.id == id && (side == Incoming ==> m.status == Received) && (side == Outgoing ==> m.status != Received)
  }

  /** The row of the newest match, or -1. */
  function FirstRow(messages: seq<Message>, id: nat, side: Side): (row: int)
    ensures -1 <= row < |messages|
    ensures row >= 0 ==> Matches(messages[row], id, side)
  {
    if messages == [] then -1
    else if Matches(messages[0], id, side) then 0
    else
      var row := FirstRow(messages[1..], id, side);
      if row == -1 then -1 else row + 1
  }

  lemma {:induction false} FirstRowUnique(messages: seq<Message>, id: nat, side: Side, row: int)
    requires -1 <= row < |messages| && (row >= 0 ==> Matches(messages[row], id, side))
    requires forall i | 0 <= i < |messages| && (row == -1 || i < row) :: !Matches(messages[i], id, side)
    ensures row == FirstRow(messages, id, side)
  {
    if messages != [] && row != 0 {
      FirstRowUnique(messages[1..], id, side, if row == -1 then -1 else row - 1);
    }
  }

  /** indexOfMessage, indexOfIncomingMessage and indexOfOutgoingMessage: the newest match, or -1 when there is none. */
  method IndexOf(messages: seq<Message>, id: nat, side: Side) returns (row: int)
    ensures -1 <= row < |messages| && (row >= 0 ==> Matches(messages[row], id, side))
    ensures forall i | 0 <= i < |messages| && (row == -1 || i < row) :: !Matches(messages[i], id, side)
    ensures row == FirstRow(messages, id, side)
  {
    for i := 0 to |messages|
      invariant forall j | 0 <= j < i :: !Matches(messages[j], id, side)
    {
      if Matches(messages[i], id, side) {
        FirstRowUnique(messages, id, side, i);
        return i;
      }
    }
    FirstRowUnique(messages, id, side, -1);
    return -1;
  }

  /** The event that addEventFromMessage logs for a row. */
  function EventOf(messages: seq<Message>, row: nat): Event
    requires row < |messages|
  {
    var m := messages[row];
    if m.kind == Text then TextEvent(|messages| - row) else TransferEvent(|messages| - row, m.transfer, m.bytes)
  }

  function ReceivedCount(messages: seq<Message>): nat {
    if messages == [] then 0 else (if messages[0].status == Received then 1 else 0) + ReceivedCount(messages[1..])
  }

  /** The badge number: a counter shared by all conversations. */
  class Badge {
    var count: int
    constructor ()
      ensures count == 0
    {
      count := 0;
    }
  }
}
