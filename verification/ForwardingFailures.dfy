/** A run of the IRC build into a message that the server cannot forward. */
module ForwardingFailures {
  import C = ConversationTypes
  import opened Forwarding
  import S = IrcState
  import R = IrcRuns
  import X = IrcFailures

  function Lifted(events: seq<S.Event>): seq<Event> {
    if events == [] then [] else [Irc(events[0])] + Lifted(events[1..])
  }

  lemma {:induction false} LiftedRun(h: House, events: seq<S.Event>)
    requires R.IsRun(h.irc, events)
    ensures IsRun(h, Lifted(events)) && Run(h, Lifted(events)).irc == R.Run(h.irc, events)
    decreases |events|
  {
    if events != [] {
      assert Lifted(events)[1..] == Lifted(events[1..]);
      LiftedRun(Step(h, Irc(events[0])).house, events[1..]);
    }
  }

  /** The client's nick is the contact's name, so the contact has no IRC user when its message comes in. */
  lemma {:induction false} MessageFails() returns (es: seq<Event>)
    ensures var h := NewHouse("", X.CONTROL);
            IsRun(h, es) && Step(Run(h, es), Receive(0, C.TextMessage(1, "hi", C.Received))).Crash?
  {
    var events := X.ContactWithoutUser();
    LiftedRun(NewHouse("", X.CONTROL), events);
    es := Lifted(events);
  }
}
