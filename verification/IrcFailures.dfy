/** Runs of the gateway from its start into each of the situations it does not handle. */
module IrcFailures {
  import opened IrcState
  import opened IrcInvariant
  import opened IrcRuns
  import opened Options
  import opened Sequences
  import Strings

  const CONTROL := "#ricochet"
  const NICK_A := Line("NICK", ["a"])
  const NICK_B := Line("NICK", ["b"])
  const USER := Line("USER", ["a", "0", "*", "A"])

  /** One more event at the end of a run. */
  lemma {:induction false} RunMore(s: State, events: seq<Event>, e: Event)
    requires IsRun(s, events) && Expected(Run(s, events), e) && Step(Run(s, events), e).Good?
    ensures IsRun(s, events + [e]) && Run(s, events + [e]) == Step(Run(s, events), e).state
    decreases events
  {
    if events == [] {
      assert events + [e] == [e] && [e][1..] == [];
    } else {
      RunMore(Step(s, events[0]).state, events[1..], e);
      assert (events + [e])[0] == events[0] && (events + [e])[1..] == events[1..] + [e];
    }
  }

  lemma {:induction false} ValidWords()
    ensures ValidNick("a") && ValidNick("b") && ValidRealname("A") && !ValidRealname("") && ValidChannel("#x")
  {
  }

  lemma {:induction false} UserLine(s: State, c: Id)
    requires c in s.conns && s.conns[c].havePass && !s.conns[c].haveNick
    ensures HandleLine(s, c, USER, true)
            == Good(SetConn(s, c, s.conns[c].(haveUser := true, user := "a", realname := "A")))
  {
    ValidWords();
  }

  lemma {:induction false} NickLine(s: State, c: Id, line: Line)
    requires c in s.conns && s.conns[c].havePass && !s.conns[c].haveNick
    requires line == NICK_A || line == NICK_B
    ensures HandleLine(s, c, line, true)
            == Good(CheckLogin(SetConn(Rename(s, c, line.params[0]), c, s.conns[c].(haveNick := true)), c))
  {
    ValidWords();
  }

  lemma {:induction false} LoginKeepsChannels(s: State, c: Id)
    requires s.control in s.channels
    ensures LogIn(s, c).channels.Keys == s.channels.Keys
  {
    JoinFrame(s, c, s.control);
    var joined := Join(s, c, s.control);
    assert joined.channels.Keys == s.channels.Keys;
    assert SetFlags(joined, s.control, c, "+o").channels.Keys == s.channels.Keys;
  }

  /** What the completion of a login leaves as it was. */
  lemma {:induction false} LoginLeaves(s: State, c: Id, conn: Conn)
    requires Inv(s) && c in s.clients && !s.conns[c].IsLoggedIn() && conn.IsLoggedIn() && !conn.welcomeSent
    ensures var t := CheckLogin(SetConn(s, c, conn), c);
            && t.clients == {c} && c in t.conns && t.conns[c].IsLoggedIn() && t.channels.Keys == s.channels.Keys
            && c in MembersOf(t, t.control)
            && t.nick == s.nick && t.control == s.control && t.contacts == s.contacts && t.nickname == s.nickname
            && t.usermap == s.usermap && t.nextContact == s.nextContact
  {
    CompletedLogin(s, c, conn);
    LogInFrame(SetConn(s, c, conn), c);
    LoginKeepsChannels(SetConn(s, c, conn), c);
  }

  // ---- the start of every run below ----

  /** A first connection on a server without a password. */
  lemma {:induction false} OneConnection()
    ensures IsRun(Start("", CONTROL), [Connected])
    ensures var s := Start("", CONTROL); var t := Run(s, [Connected]);
            && Inv(t) && t.clients == {1}
            && t.conns == map[1 := Conn(false, false, true, false, "", "")]
            && t.nick == map[RICOCHET := RICOCHET_NICK, 1 := ""] && t.virtuals == [RICOCHET]
            && t.contacts == [] && t.nickname == map[] && t.usermap == map[] && t.nextContact == 0
            && t.control == CONTROL && t.channels == s.channels
  {
    StartInv("", CONTROL);
    RunMore(Start("", CONTROL), [], Connected);
    AppendNothing([Connected]);
    ConnectKeepsInv(Start("", CONTROL));
  }

  /** The same after its USER line. */
  lemma {:induction false} HalfLogin(events: seq<Event>)
    requires events == [Connected] + [Received(1, USER, true)]
    ensures var s := Start("", CONTROL);
            && IsRun(s, events) && Inv(Run(s, events))
            && Run(s, events) == SetConn(Run(s, [Connected]), 1, Conn(false, true, true, false, "a", "A"))
  {
    var s := Start("", CONTROL);
    StartInv("", CONTROL);
    OneConnection();
    UserLine(Run(s, [Connected]), 1);
    RunMore(s, [Connected], Received(1, USER, true));
    RunKeepsInv(s, events);
  }

  /** A connection that is closed before its NICK is read logs in all the same. */
  lemma {:induction false} LateLoginHappens() returns (events: seq<Event>)
    ensures var s := Start("", CONTROL);
            && IsRun(s, events) && 1 in Run(s, events).conns && 1 !in Run(s, events).clients
            && CompletesLogin(Run(s, events), 1, NICK_A)
            && HandleLine(Run(s, events), 1, NICK_A, true).Good?
            && !Inv(HandleLine(Run(s, events), 1, NICK_A, true).state)
  {
    var s, before := Start("", CONTROL), [Connected] + [Received(1, USER, true)];
    OneConnection();
    HalfLogin(before);
    RunMore(s, before, SocketClosed(1));
    events := before + [SocketClosed(1)];
    DisconnectKeepsInv(Run(s, before), 1);
    ValidWords();
    LateLineExact(Run(s, events), 1, NICK_A, true);
  }

  ghost predicate LoggedIn(t: State) {
    && Inv(t) && t.clients == {1} && 1 in t.conns && t.conns[1].IsLoggedIn()
    && NickOf(t, 1) == "a" && NickOf(t, RICOCHET) == RICOCHET_NICK
    && t.control == CONTROL && t.channels.Keys == {CONTROL} && 1 in t.channels[CONTROL]
    && t.contacts == [] && t.nickname == map[] && t.usermap == map[] && t.nextContact == 0
  }

  lemma {:induction false} SecondHalf(t: State)
    requires Inv(t) && t.clients == {1} && t.conns == map[1 := Conn(false, true, true, false, "a", "A")]
    requires t.nick == map[RICOCHET := RICOCHET_NICK, 1 := ""] && t.virtuals == [RICOCHET]
    requires t.control == CONTROL && t.channels.Keys == {CONTROL}
    requires t.contacts == [] && t.nickname == map[] && t.usermap == map[] && t.nextContact == 0
    ensures var r := HandleLine(t, 1, NICK_A, true); r.Good? && LoggedIn(r.state)
  {
    var u, conn := Rename(t, 1, "a"), Conn(true, true, true, false, "a", "A");
    NickLine(t, 1, NICK_A);
    RenameKeepsInv(t, 1, "a");
    CompletedLogin(u, 1, conn);
    LoginLeaves(u, 1, conn);
  }

  /** The same, logged in. */
  lemma {:induction false} FullLogin(events: seq<Event>)
    requires events == [Connected] + [Received(1, USER, true)] + [Received(1, NICK_A, true)]
    ensures IsRun(Start("", CONTROL), events) && LoggedIn(Run(Start("", CONTROL), events))
  {
    var s, before := Start("", CONTROL), [Connected] + [Received(1, USER, true)];
    OneConnection();
    HalfLogin(before);
    var t := Run(s, before);
    assert t.conns == map[1 := Conn(false, true, true, false, "a", "A")];
    SecondHalf(t);
    RunMore(s, before, Received(1, NICK_A, true));
  }

  const BAD_USER := Line("USER", ["a", "0", "*", ""])
  const JOIN_X := Line("JOIN", ["#x"])

  lemma {:induction false} JoinAfterBadUser(t: State)
    requires LoggedIn(t)
    ensures HandleLine(t, 1, BAD_USER, true) == Good(Disconnect(t, 1))
    ensures 1 in t.conns && JoinsChannel(Disconnect(t, 1), 1, JOIN_X)
    ensures var r := HandleLine(Disconnect(t, 1), 1, JOIN_X, true); r.Good? && !Inv(r.state)
  {
    ValidWords();
    DisconnectKeepsInv(t, 1);
    LateLineExact(Disconnect(t, 1), 1, JOIN_X, true);
  }

  /** A USER line with a bad real name closes the connection, and the JOIN after it is still handled. */
  lemma {:induction false} LateJoinHappens() returns (events: seq<Event>)
    ensures var s := Start("", CONTROL);
            && IsRun(s, events) && 1 in Run(s, events).conns && 1 !in Run(s, events).clients
            && JoinsChannel(Run(s, events), 1, JOIN_X)
            && HandleLine(Run(s, events), 1, JOIN_X, true).Good?
            && !Inv(HandleLine(Run(s, events), 1, JOIN_X, true).state)
  {
    var s, before := Start("", CONTROL), [Connected] + [Received(1, USER, true)] + [Received(1, NICK_A, true)];
    FullLogin(before);
    JoinAfterBadUser(Run(s, before));
    RunMore(s, before, Received(1, BAD_USER, true));
    events := before + [Received(1, BAD_USER, true)];
  }

  lemma {:induction false} TrimWords(s: string)
    requires s != "" && !IsBlank(s[0]) && !IsBlank(s[|s| - 1])
    ensures Trim(s) == s
  {
  }

  const DELETE_B := "delete " + "b"

  lemma {:induction false} DeleteWords()
    ensures Strings.Split(Trim(DELETE_B), ' ') == ["delete", "b"]
  {
    TrimWords(DELETE_B);
    Strings.SplitClean("delete", ' ');
    Strings.SplitClean("b", ' ');
    Strings.SplitConcat("delete", "b", ' ');
    assert "delete" + [' '] + "b" == DELETE_B;
  }

  /** A contact that never came online is deleted over IRC. */
  lemma {:induction false} DeletingFails() returns (events: seq<Event>)
    ensures var s := Start("", CONTROL);
            && IsRun(s, events) && 1 in Run(s, events).conns
            && HandleLine(Run(s, events), 1, Line("PRIVMSG", [CONTROL, DELETE_B]), true) == NullPointer
  {
    var s, before := Start("", CONTROL), [Connected] + [Received(1, USER, true)] + [Received(1, NICK_A, true)];
    FullLogin(before);
    RunMore(s, before, ContactAdded("b"));
    events := before + [ContactAdded("b")];
    var t := Run(s, events);
    assert t.contacts == [0] && t.nickname[0] == "b" && 0 !in t.usermap;
    DeleteWords();
    assert ["delete", "b"][1..] == ["b"];
    assert FirstContact(t.contacts, t.nickname, "b") == Some(0);
    assert CmdDelete(t, ["b"]) == NullPointer;
  }

  lemma {:induction false} ShadowedBy(t: State)
    requires Inv(t) && 1 in t.clients && NickOf(t, 1) == "b" && t.contacts == [0] && t.nickname == map[0 := "b"]
    requires !HasMember(t, t.control, "b")
    ensures Possible(t, StatusChanged(0, Online, 0)) && Shadowed(t, 0) && !Inv(ContactStatus(t, 0, Online, 0))
  {
    ContactStatusExact(t, 0, Online, 0);
  }

  /** A client that only gave its nick, and then a contact of that name: the contact's user gets the same nick. */
  lemma {:induction false} ShadowingHappens() returns (events: seq<Event>)
    ensures var s := Start("", CONTROL);
            && IsRun(s, events) && Possible(Run(s, events), StatusChanged(0, Online, 0))
            && Shadowed(Run(s, events), 0)
            && !Inv(ContactStatus(Run(s, events), 0, Online, 0))
  {
    var s, nick := Start("", CONTROL), Received(1, NICK_B, true);
    StartInv("", CONTROL);
    OneConnection();
    NickLine(Run(s, [Connected]), 1, NICK_B);
    RunMore(s, [Connected], nick);
    RunMore(s, [Connected] + [nick], ContactAdded("b"));
    events := [Connected] + [nick] + [ContactAdded("b")];
    RunKeepsInv(s, events);
    ShadowedBy(Run(s, events));
  }

  lemma {:induction false} NameHeldByClient(t: State)
    requires LoggedIn(t)
    ensures var u := AddContact(t, "a"); var e := StatusChanged(0, Online, 1);
            && Expected(u, e) && Step(u, e).Good?
            && Step(u, e).state.clients == {1} && 0 !in Step(u, e).state.usermap
  {
    var u := AddContact(t, "a");
    AddContactKeepsInv(t, "a");
    assert 1 in MembersOf(u, CONTROL) && NickOf(u, 1) == "a";
  }

  /** A contact that comes online under the nick of the logged-in client gets no IRC user of its own. */
  lemma {:induction false} ContactWithoutUser() returns (events: seq<Event>)
    ensures var s := Start("", CONTROL);
            IsRun(s, events) && Run(s, events).clients == {1} && 0 !in Run(s, events).usermap
  {
    var s, before := Start("", CONTROL), [Connected] + [Received(1, USER, true)] + [Received(1, NICK_A, true)];
    FullLogin(before);
    NameHeldByClient(Run(s, before));
    RunMore(s, before, ContactAdded("a"));
    RunMore(s, before + [ContactAdded("a")], StatusChanged(0, Online, 1));
    events := before + [ContactAdded("a")] + [StatusChanged(0, Online, 1)];
  }
}
