/** Contacts, whole events and whole runs of the gateway. */
module IrcRuns {
  import opened IrcState
  import opened Options
  import opened Sequences
  import opened IrcInvariant

  lemma {:induction false} WithoutExact(xs: seq<nat>, x: nat)
    requires NoRepeats(xs)
    ensures forall y :: y in Without(xs, x) <==> y in xs && y != x
    ensures NoRepeats(Without(xs, x))
  {
    if xs != [] {
      assert xs == [xs[0]] + xs[1..];
      assert NoRepeats(xs[1..]);
      WithoutExact(xs[1..], x);
      if xs[0] != x {
        forall j | 0 <= j < |Without(xs[1..], x)|
          ensures Without(xs[1..], x)[j] != xs[0]
        {
          assert Without(xs[1..], x)[j] in xs[1..];
        }
      }
    }
  }

  lemma {:induction false} FirstContactExact(contacts: seq<ContactId>, nickname: map<ContactId, string>, name: string)
    ensures var r := FirstContact(contacts, nickname, name);
            if r.Some? then r.value in contacts && r.value in nickname && nickname[r.value] == name
            else forall k | k in contacts && k in nickname :: nickname[k] != name
  {
    if contacts != [] {
      FirstContactExact(contacts[1..], nickname, name);
    }
  }

  // ---- the control channel's commands ----

  lemma AddContactKeepsInv(s: State, name: string)
    requires Inv(s)
    ensures Inv(AddContact(s, name))
  {
    assert s.nextContact !in s.contacts;
    NoRepeatsAppend(s.contacts, s.nextContact);
  }

  lemma VirtualUserLeavesTables(s: State, u: Id)
    requires Inv(s) && u in s.virtuals && u != RICOCHET
    ensures Tables(s.clients, s.open, s.conns, s.nick, s.next, Without(s.virtuals, u))
    ensures NicksUnique(s.nick, s.clients, Without(s.virtuals, u))
  {
    WithoutExact(s.virtuals, u);
    assert forall v | IsUser(s.clients, Without(s.virtuals, u), v) :: IsUser(s.clients, s.virtuals, v);
  }

  lemma MembershipWithout(channels: Channels, control: string, clients: set<Id>, virtuals: seq<Id>, rest: seq<Id>,
                          conns: map<Id, Conn>, u: Id)
    requires Membership(channels, control, clients, virtuals, conns) && u !in conns
    requires forall v :: v in rest <==> v in virtuals && v != u
    ensures Membership(RemoveEverywhere(channels, {u}), control, clients, rest, conns)
  {
  }

  lemma VirtualUserLeavesChannels(s: State, u: Id)
    requires Inv(s) && u in s.virtuals && u != RICOCHET
    ensures Membership(RemoveEverywhere(s.channels, {u}), s.control, s.clients, Without(s.virtuals, u), s.conns)
  {
    WithoutExact(s.virtuals, u);
    MembershipWithout(s.channels, s.control, s.clients, s.virtuals, Without(s.virtuals, u), s.conns, u);
  }

  lemma ContactLeavesMap(s: State, k: ContactId)
    requires Inv(s) && k in s.usermap
    ensures ContactMap(Without(s.contacts, k), s.nickname - {k}, s.nextContact, s.usermap - {k},
                       Without(s.virtuals, s.usermap[k]), s.nick)
  {
    var u, usermap := s.usermap[k], s.usermap - {k};
    WithoutExact(s.contacts, k);
    WithoutExact(s.virtuals, u);
    forall v | v in Without(s.virtuals, u) && v != RICOCHET
      ensures v in usermap.Values
    {
      assert v in s.usermap.Values;
      var l :| l in s.usermap && s.usermap[l] == v;
      assert l in usermap && usermap[l] == v;
    }
  }

  /** Deleting goes wrong exactly when the named contact has no IRC user yet. */
  lemma CmdDeleteExact(s: State, args: seq<string>)
    requires Inv(s)
    ensures CmdDelete(s, args) == NullPointer
      <==> |args| == 1 && var k := FirstContact(s.contacts, s.nickname, args[0]); k.Some? && k.value !in s.usermap
    ensures CmdDelete(s, args).Good? ==> Inv(CmdDelete(s, args).state)
  {
    if |args| == 1 {
      var r := FirstContact(s.contacts, s.nickname, args[0]);
      if r.Some? && r.value in s.usermap {
        VirtualUserLeavesTables(s, s.usermap[r.value]);
        VirtualUserLeavesChannels(s, s.usermap[r.value]);
        ContactLeavesMap(s, r.value);
      }
    }
  }

  lemma RenamedContactMap(s: State, k: ContactId, name: string)
    requires Inv(s) && k in s.contacts
    ensures ContactMap(s.contacts, s.nickname[k := name], s.nextContact, s.usermap, s.virtuals,
                       if k in s.usermap then s.nick[s.usermap[k] := name] else s.nick)
  {
  }

  lemma CmdRenameKeepsInv(s: State, args: seq<string>)
    requires Inv(s)
    ensures Inv(CmdRename(s, args))
  {
    if |args| == 2 && !Taken(s, args[1]) {
      FirstContactExact(s.contacts, s.nickname, args[0]);
      var r := FirstContact(s.contacts, s.nickname, args[0]);
      if r.Some? {
        RenamedContactMap(s, r.value, args[1]);
        if r.value in s.usermap { FreshNickStaysUnique(s, s.usermap[r.value], args[1]); }
      }
    }
  }

  lemma CommandKeepsInv(s: State, words: seq<string>, idOk: bool)
    requires Inv(s) && |words| > 0
    ensures Command(s, words, idOk).Good? ==> Inv(Command(s, words, idOk).state)
  {
    var args := words[1..];
    if words[0] == "delete" {
      CmdDeleteExact(s, args);
    } else if words[0] == "rename" {
      CmdRenameKeepsInv(s, args);
    } else if |args| >= 3 {
      AddContactKeepsInv(s, args[1]);
    }
  }

  lemma HandlePrivmsgKeepsInv(s: State, c: Id, params: seq<string>, idOk: bool)
    requires Inv(s) && c in s.conns
    ensures var r := HandlePrivmsg(s, c, params, idOk); r.Good? ==> Inv(r.state)
  {
    if |params| >= 2 {
      WithChannelKeepsInv(s, params[0]);
      var t := if params[0] != "" && params[0][0] == '#' then WithChannel(s, params[0]) else s;
      CommandKeepsInv(t, Strings.Split(Trim(params[1]), ' '), idOk);
    }
  }

  lemma HandleLineKeepsInv(s: State, c: Id, line: Line, idOk: bool)
    requires Inv(s) && c in s.clients
    ensures var r := HandleLine(s, c, line, idOk); r.Good? ==> Inv(r.state)
  {
    if line.command == "PASS" {
      HandlePassKeepsInv(s, c, line.params);
    } else if !s.conns[c].havePass {
    } else if line.command == "NICK" {
      HandleNickKeepsInv(s, c, line.params);
    } else if line.command == "USER" {
      HandleUserKeepsInv(s, c, line.params);
    } else if line.command == "JOIN" {
      if |line.params| >= 1 && s.conns[c].IsLoggedIn() { JoinKeepsInv(s, c, line.params[0]); }
    } else if line.command == "PART" {
      if |line.params| >= 1 { PartKeepsInv(s, c, line.params[0]); }
    } else if line.command == "QUIT" {
      QuitKeepsInv(s, c);
    } else {
      HandlePrivmsgKeepsInv(s, c, line.params, idOk);
    }
  }

  // ---- lines handled after their connection was closed ----

  /** The line sets the last flag that is missing. */
  predicate CompletesLogin(s: State, c: Id, line: Line)
    requires c in s.conns
  {
    var conn := s.conns[c];
    && conn.havePass
    && (|| (line.command == "NICK" && |line.params| >= 1 && ValidNick(line.params[0]) && !conn.haveNick && conn.haveUser)
        || (line.command == "USER" && |line.params| >= 4 && ValidNick(line.params[0]) && ValidRealname(line.params[3])
            && conn.haveNick && !conn.haveUser))
  }

  /** The line brings a logged-in connection into a channel. */
  predicate JoinsChannel(s: State, c: Id, line: Line)
    requires c in s.conns
  {
    && line.command == "JOIN" && |line.params| >= 1 && s.conns[c].IsLoggedIn()
    && ValidChannel(line.params[0]) && !HasMember(s, line.params[0], NickOf(s, c))
  }

  /** A login completed after the close leaves a member of the control channel that is nobody. */
  lemma LoginAfterClose(s: State, c: Id, conn: Conn)
    requires Inv(s) && c in s.conns && c !in s.clients
    requires conn.IsLoggedIn() && !conn.welcomeSent
    ensures !Inv(CheckLogin(SetConn(s, c, conn), c))
  {
    LogInFrame(SetConn(s, c, conn), c);
    var t := CheckLogin(SetConn(s, c, conn), c);
    assert c !in t.virtuals && c !in t.clients;
    StrangerBreaksInv(t, t.control, c);
  }

  lemma LateFlagsExact(s: State, c: Id, conn: Conn)
    requires Inv(s) && c in s.conns && c !in s.clients && !s.conns[c].IsLoggedIn()
    requires conn.havePass && !conn.welcomeSent
    ensures Inv(CheckLogin(SetConn(s, c, conn), c)) <==> !conn.IsLoggedIn()
  {
    if conn.IsLoggedIn() {
      LoginAfterClose(s, c, conn);
    } else {
      SetConnKeepsInv(s, c, conn);
    }
  }

  lemma LateNickExact(s: State, c: Id, line: Line)
    requires Inv(s) && c in s.conns && c !in s.clients && s.conns[c].havePass && line.command == "NICK"
    ensures Inv(HandleNick(s, c, line.params)) <==> !CompletesLogin(s, c, line)
  {
    var params := line.params;
    if |params| >= 1 && ValidNick(params[0]) {
      RenameKeepsInv(s, c, params[0]);
      if !s.conns[c].haveNick {
        LateFlagsExact(Rename(s, c, params[0]), c, s.conns[c].(haveNick := true));
      }
    }
  }

  /** A logged-in connection may change its user data. */
  lemma NewUserDataKeepsInv(s: State, c: Id, conn: Conn)
    requires Inv(s) && c in s.conns && s.conns[c].IsLoggedIn()
    requires conn == s.conns[c].(user := conn.user, realname := conn.realname)
    ensures CheckLogin(SetConn(s, c, conn), c) == SetConn(s, c, conn) && Inv(SetConn(s, c, conn))
  {
    MembershipGrows(s.channels, s.control, s.clients, s.virtuals, s.conns, s.clients, s.conns[c := conn]);
  }

  lemma LateUserExact(s: State, c: Id, line: Line)
    requires Inv(s) && c in s.conns && c !in s.clients && s.conns[c].havePass && line.command == "USER"
    ensures Inv(HandleUser(s, c, line.params)) <==> !CompletesLogin(s, c, line)
  {
    var params := line.params;
    if |params| >= 4 && ValidNick(params[0]) && ValidRealname(params[3]) {
      var conn := s.conns[c].(haveUser := true, user := params[0], realname := params[3]);
      if s.conns[c].IsLoggedIn() {
        NewUserDataKeepsInv(s, c, conn);
      } else {
        LateFlagsExact(s, c, conn);
      }
    }
  }

  lemma LatePassKeepsInv(s: State, c: Id, params: seq<string>)
    requires Inv(s) && c in s.conns && c !in s.clients
    ensures Inv(HandlePass(s, c, params))
  {
    if |params| >= 1 && !s.conns[c].havePass && s.password == params[0] {
      SetConnKeepsInv(s, c, s.conns[c].(havePass := true));
    }
  }

  lemma LateJoinExact(s: State, c: Id, line: Line)
    requires Inv(s) && c in s.conns && c !in s.clients && s.conns[c].IsLoggedIn()
    requires line.command == "JOIN" && |line.params| >= 1
    ensures Inv(Join(s, c, line.params[0])) <==> !JoinsChannel(s, c, line)
  {
    var channel := line.params[0];
    WithChannelKeepsInv(s, channel);
    assert HasMember(WithChannel(s, channel), channel, NickOf(s, c)) <==> HasMember(s, channel, NickOf(s, c));
    if JoinsChannel(s, c, line) {
      StrangerBreaksInv(Join(s, c, channel), channel, c);
    }
  }

  /** A line of a closed connection breaks the invariant exactly when it completes its login or joins a channel. */
  lemma LateLineExact(s: State, c: Id, line: Line, idOk: bool)
    requires Inv(s) && c in s.conns && c !in s.clients
    ensures var r := HandleLine(s, c, line, idOk);
            r.Good? ==> (Inv(r.state) <==> !CompletesLogin(s, c, line) && !JoinsChannel(s, c, line))
  {
    if line.command == "PASS" {
      LatePassKeepsInv(s, c, line.params);
    } else if !s.conns[c].havePass {
    } else if line.command == "NICK" {
      LateNickExact(s, c, line);
    } else if line.command == "USER" {
      LateUserExact(s, c, line);
    } else if line.command == "JOIN" {
      if |line.params| >= 1 && s.conns[c].IsLoggedIn() { LateJoinExact(s, c, line); }
    } else if line.command == "PART" {
      if |line.params| >= 1 { PartKeepsInv(s, c, line.params[0]); }
    } else if line.command == "QUIT" {
      QuitKeepsInv(s, c);
    } else {
      HandlePrivmsgKeepsInv(s, c, line.params, idOk);
    }
  }

  // ---- contacts coming and going ----

  /** The contact's name is held by a client that is not in the control channel to be found there. */
  predicate Shadowed(s: State, k: ContactId)
    requires k in s.nickname
  {
    && s.nickname[k] != ""
    && !HasMember(s, s.control, s.nickname[k])
    && exists c | c in s.clients :: NickOf(s, c) == s.nickname[k]
  }

  lemma ShowStatusKeepsInv(s: State, u: Id, status: Status)
    requires Inv(s) && u in MembersOf(s, s.control)
    ensures Inv(ShowStatus(s, u, status))
  {
    if status != OtherStatus {
      SetFlagsExact(s, s.control, u, if status == Online then "+v" else "-v");
    }
  }

  /** A contact without a member of its name in the control channel has no IRC user yet. */
  lemma AbsentMeansUnmapped(s: State, k: ContactId)
    requires Inv(s) && k in s.nickname && !HasMember(s, s.control, s.nickname[k])
    ensures k !in s.usermap
  {
    assert forall u | u in s.virtuals :: u in MembersOf(s, s.control);
  }

  lemma NewVirtualTables(s: State, name: string)
    requires Inv(s)
    ensures Tables(s.clients, s.open, s.conns, s.nick[s.next := name], s.next + 1, s.virtuals + [s.next])
    ensures Flags(s.conns, s.nick[s.next := name])
    ensures Membership(s.channels[s.control := Enter(s.channels[s.control], s.next, "+v")], s.control,
                       s.clients, s.virtuals + [s.next], s.conns)
  {
    assert s.next !in s.virtuals;
    NoRepeatsAppend(s.virtuals, s.next);
  }

  lemma NewVirtualMap(s: State, k: ContactId)
    requires Inv(s) && k in s.contacts && k !in s.usermap
    ensures ContactMap(s.contacts, s.nickname, s.nextContact, s.usermap[k := s.next], s.virtuals + [s.next],
                       s.nick[s.next := s.nickname[k]])
  {
    var usermap := s.usermap[k := s.next];
    forall v | v in s.virtuals + [s.next] && v != RICOCHET
      ensures v in usermap.Values
    {
      if v == s.next {
        assert usermap[k] == v;
      } else {
        var l :| l in s.usermap && s.usermap[l] == v;
        assert usermap[l] == v;
      }
    }
    assert s.next !in s.virtuals;
  }

  /** The new user's name collides exactly when a client outside the control channel holds it. */
  lemma NewVirtualNicks(s: State, k: ContactId)
    requires Inv(s) && k in s.nickname && !HasMember(s, s.control, s.nickname[k])
    ensures NicksUnique(s.nick[s.next := s.nickname[k]], s.clients, s.virtuals + [s.next]) <==> !Shadowed(s, k)
  {
    var name := s.nickname[k];
    var nick, virtuals := s.nick[s.next := name], s.virtuals + [s.next];
    assert s.next !in s.nick && s.next !in s.clients && s.next !in s.virtuals;
    assert forall u | u in s.nick :: Named(nick, u) == NickOf(s, u);
    if Shadowed(s, k) {
      var c :| c in s.clients && NickOf(s, c) == name;
      assert IsUser(s.clients, virtuals, c) && IsUser(s.clients, virtuals, s.next);
      assert Named(nick, c) == Named(nick, s.next) != "";
    } else {
      forall w | w in s.virtuals
        ensures NickOf(s, w) != name
      {
        assert w in MembersOf(s, s.control);
      }
      forall u, v | IsUser(s.clients, virtuals, u) && IsUser(s.clients, virtuals, v) && u != v && Named(nick, u) == Named(nick, v)
        ensures Named(nick, u) == ""
      {
        if u != s.next && v != s.next {
          assert IsUser(s.clients, s.virtuals, u) && IsUser(s.clients, s.virtuals, v);
        }
      }
    }
  }

  /** A contact's status change keeps the invariant if and only if no such client shadows its name. */
  lemma ContactStatusExact(s: State, k: ContactId, status: Status, seen: Id)
    requires Inv(s) && Possible(s, StatusChanged(k, status, seen))
    ensures Inv(ContactStatus(s, k, status, seen)) <==> !Shadowed(s, k)
  {
    if HasMember(s, s.control, s.nickname[k]) {
      ShowStatusKeepsInv(s, seen, status);
    } else {
      var t := NewVirtualUser(s, k);
      AbsentMeansUnmapped(s, k);
      NewVirtualTables(s, s.nickname[k]);
      NewVirtualMap(s, k);
      NewVirtualNicks(s, k);
      var r := ContactStatus(s, k, status, seen);
      assert r.nick == t.nick && r.clients == t.clients && r.virtuals == t.virtuals;
      if !Shadowed(s, k) {
        assert Inv(t);
        ShowStatusKeepsInv(t, s.next, status);
      }
    }
  }

  /** The user made for a contact that nobody in the control channel is named after fits in if and only if it is not shadowed. */
  lemma NewVirtualUserExact(s: State, k: ContactId)
    requires Inv(s) && k in s.nickname && k in s.contacts && !HasMember(s, s.control, s.nickname[k])
    ensures Inv(NewVirtualUser(s, k)) <==> !Shadowed(s, k)
    ensures var t := NewVirtualUser(s, k);
            k in t.usermap && t.usermap[k] !in s.nick && NickOf(t, t.usermap[k]) == s.nickname[k]
            && HasMember(t, t.control, s.nickname[k])
  {
    ContactStatusExact(s, k, OtherStatus, 0);
    var t := NewVirtualUser(s, k);
    assert s.next in MembersOf(t, t.control) && NickOf(t, s.next) == s.nickname[k];
  }

  // ---- which contacts have an IRC user ----

  /** A contact's status change makes it an IRC user unless the control channel has a member of its name. */
  predicate MapsContact(s: State, e: Event, k: ContactId) {
    e.StatusChanged? && e.k == k && k in s.nickname && !HasMember(s, s.control, s.nickname[k])
  }

  /** The line is a command to @ricochet. */
  predicate IsCommand(s: State, c: Id, line: Line)
    requires c in s.conns
  {
    && line.command == "PRIVMSG" && s.conns[c].IsLoggedIn() && |line.params| >= 2
    && line.params[0] == s.control && NickOf(s, c) != NickOf(s, RICOCHET)
  }

  function Words(line: Line): seq<string>
    requires |line.params| >= 2
  {
    Strings.Split(Trim(line.params[1]), ' ')
  }

  /** The words are a delete command that names the contact. */
  predicate Deletes(s: State, words: seq<string>, k: ContactId) {
    |words| == 2 && words[0] == "delete" && FirstContact(s.contacts, s.nickname, words[1]) == Some(k)
  }

  predicate DeletesContact(s: State, c: Id, line: Line, k: ContactId)
    requires c in s.conns
  {
    IsCommand(s, c, line) && Deletes(s, Words(line), k)
  }

  predicate UnmapsContact(s: State, e: Event, k: ContactId)
    requires Possible(s, e)
  {
    e.Received? && DeletesContact(s, e.c, e.line, k)
  }

  lemma {:induction false} CheckLoginKeepsMap(s: State, c: Id)
    ensures CheckLogin(s, c).usermap == s.usermap
  {
    LogInFrame(s, c);
  }

  lemma {:induction false} CommandMaps(s: State, words: seq<string>, idOk: bool, k: ContactId)
    requires |words| > 0
    ensures Command(s, words, idOk).Good? ==>
              (k in Command(s, words, idOk).state.usermap <==> k in s.usermap && !Deletes(s, words, k))
  {
  }

  lemma {:induction false} PrivmsgMaps(s: State, c: Id, line: Line, idOk: bool, k: ContactId)
    requires c in s.conns && line.command == "PRIVMSG" && HandlePrivmsg(s, c, line.params, idOk).Good?
    ensures k in HandlePrivmsg(s, c, line.params, idOk).state.usermap
      <==> k in s.usermap && !DeletesContact(s, c, line, k)
  {
    var params := line.params;
    if |params| >= 2 {
      var t := if params[0] != "" && params[0][0] == '#' then WithChannel(s, params[0]) else s;
      CommandMaps(t, Words(line), idOk, k);
    }
  }

  lemma {:induction false} LineMaps(s: State, c: Id, line: Line, idOk: bool, k: ContactId)
    requires c in s.conns && HandleLine(s, c, line, idOk).Good?
    ensures k in HandleLine(s, c, line, idOk).state.usermap <==> k in s.usermap && !DeletesContact(s, c, line, k)
  {
    var params := line.params;
    if line.command == "PASS" && |params| >= 1 {
      CheckLoginKeepsMap(s, c);
      CheckLoginKeepsMap(SetConn(s, c, s.conns[c].(havePass := true)), c);
    } else if line.command == "NICK" && |params| >= 1 {
      CheckLoginKeepsMap(SetConn(Rename(s, c, params[0]), c, s.conns[c].(haveNick := true)), c);
    } else if line.command == "USER" && |params| >= 4 {
      CheckLoginKeepsMap(SetConn(s, c, s.conns[c].(haveUser := true, user := params[0], realname := params[3])), c);
    } else if line.command == "PRIVMSG" && s.conns[c].havePass {
      PrivmsgMaps(s, c, line, idOk, k);
    }
  }

  /** Nothing but a status change gives a contact an IRC user, and nothing but its deletion takes it away. */
  lemma {:induction false} MappedStep(s: State, e: Event, k: ContactId)
    requires Possible(s, e) && Step(s, e).Good?
    ensures k in Step(s, e).state.usermap
      <==> (k in s.usermap || MapsContact(s, e, k)) && !UnmapsContact(s, e, k)
  {
    if e.Received? {
      LineMaps(s, e.c, e.line, e.idOk, k);
    }
  }

  // ---- whole runs ----

  /** No closed connection logs in or joins a channel any more, and no contact comes up under a shadowed name. */
  predicate Expected(s: State, e: Event) {
    && Possible(s, e)
    && match e
       case Received(c, line, _) => c in s.clients || (!CompletesLogin(s, c, line) && !JoinsChannel(s, c, line))
       case StatusChanged(k, _, _) => !Shadowed(s, k)
       case _ => true
  }

  /** An event that goes well keeps the invariant if and only if it is expected. */
  lemma StepExact(s: State, e: Event)
    requires Inv(s) && Possible(s, e) && Step(s, e).Good?
    ensures Inv(Step(s, e).state) <==> Expected(s, e)
  {
    match e {
      case Connected => ConnectKeepsInv(s);
      case Received(c, line, idOk) =>
        if c in s.clients {
          HandleLineKeepsInv(s, c, line, idOk);
        } else {
          LateLineExact(s, c, line, idOk);
        }
      case SocketClosed(c) => DisconnectKeepsInv(s, c);
      case ContactAdded(name) => AddContactKeepsInv(s, name);
      case StatusChanged(k, status, seen) => ContactStatusExact(s, k, status, seen);
    }
  }

  /** A run of expected events, none of which follows a null pointer. */
  predicate IsRun(s: State, events: seq<Event>)
    decreases events
  {
    events == []
    || (Expected(s, events[0]) && Step(s, events[0]).Good? && IsRun(Step(s, events[0]).state, events[1..]))
  }

  function Run(s: State, events: seq<Event>): State
    requires IsRun(s, events)
    decreases events
  {
    if events == [] then s else Run(Step(s, events[0]).state, events[1..])
  }

  lemma {:induction false} RunKeepsInv(s: State, events: seq<Event>)
    requires Inv(s) && IsRun(s, events)
    ensures Inv(Run(s, events))
    decreases events
  {
    if events != [] {
      StepExact(s, events[0]);
      RunKeepsInv(Step(s, events[0]).state, events[1..]);
    }
  }

  /** A run of possible events, none of which follows a null pointer. */
  predicate GoesWell(s: State, events: seq<Event>)
    decreases events
  {
    events == []
    || (Possible(s, events[0]) && Step(s, events[0]).Good? && GoesWell(Step(s, events[0]).state, events[1..]))
  }

  ghost predicate AlwaysInv(s: State, events: seq<Event>)
    requires GoesWell(s, events)
    decreases events
  {
    Inv(s) && (events == [] || AlwaysInv(Step(s, events[0]).state, events[1..]))
  }

  /** A run that goes well stays within the invariant if and only if all its events are expected. */
  lemma {:induction false} RunExact(s: State, events: seq<Event>)
    requires Inv(s) && GoesWell(s, events)
    ensures AlwaysInv(s, events) <==> IsRun(s, events)
    decreases events
  {
    if events != [] {
      StepExact(s, events[0]);
      if Inv(Step(s, events[0]).state) {
        RunExact(Step(s, events[0]).state, events[1..]);
      } else {
        assert !AlwaysInv(Step(s, events[0]).state, events[1..]);
      }
    }
  }

  /** The invariant in every reachable state, spelt out. */
  lemma Reachable(password: string, control: string, events: seq<Event>)
    requires IsRun(Start(password, control), events)
    ensures var s := Run(Start(password, control), events);
            && Inv(s)
            && (forall u, v | IsUser(s.clients, s.virtuals, u) && IsUser(s.clients, s.virtuals, v) && u != v
                              && NickOf(s, u) != "" :: NickOf(s, u) != NickOf(s, v))
            && (forall k, l | k in s.usermap && l in s.usermap && k != l :: s.usermap[k] != s.usermap[l])
            && (forall c, d | c in s.clients && d in s.clients && s.conns[c].IsLoggedIn() && s.conns[d].IsLoggedIn() :: c == d)
  {
    StartInv(password, control);
    RunKeepsInv(Start(password, control), events);
  }

  // ---- login, seen from outside ----

  /** Whichever line completes a login, the connection takes over: every other client is closed. */
  lemma LoginTakesOver(s: State, c: Id, line: Line, idOk: bool)
    requires Inv(s) && c in s.clients && !s.conns[c].IsLoggedIn()
    ensures var r := HandleLine(s, c, line, idOk);
            r.Good? && c in r.state.conns && r.state.conns[c].IsLoggedIn() ==>
              && r.state.clients == r.state.open == {c}
              && r.state.welcomes == s.welcomes + [c]
              && c in MembersOf(r.state, s.control) && MembersOf(r.state, s.control)[c] == "+o"
  {
    var conn := s.conns[c];
    if line.command == "PASS" && |line.params| >= 1 && !conn.havePass && s.password == line.params[0] {
      CompletedLoginAs(s, c, conn.(havePass := true));
    } else if line.command == "NICK" && conn.havePass && |line.params| >= 1 && ValidNick(line.params[0]) && !conn.haveNick {
      RenameKeepsInv(s, c, line.params[0]);
      CompletedLoginAs(Rename(s, c, line.params[0]), c, conn.(haveNick := true));
    } else if line.command == "USER" && conn.havePass && |line.params| >= 4 && ValidNick(line.params[0]) && ValidRealname(line.params[3]) {
      CompletedLoginAs(s, c, conn.(haveUser := true, user := line.params[0], realname := line.params[3]));
    }
  }

  lemma CompletedLoginAs(s: State, c: Id, conn: Conn)
    requires Inv(s) && c in s.clients && !s.conns[c].IsLoggedIn()
    requires conn.havePass && !conn.welcomeSent
    ensures conn.IsLoggedIn() ==>
              var t := CheckLogin(SetConn(s, c, conn), c);
              && t.clients == t.open == {c} && t.welcomes == s.welcomes + [c]
              && c in MembersOf(t, s.control) && MembersOf(t, s.control)[c] == "+o"
  {
    if conn.IsLoggedIn() {
      CompletedLogin(s, c, conn);
      MembershipGrows(s.channels, s.control, s.clients, s.virtuals, s.conns, s.clients, s.conns[c := conn]);
      LogInEffect(SetConn(s, c, conn), c);
    }
  }

  predicate GivesPassword(e: Event, c: Id, password: string) {
    e.Received? && e.c == c && e.line.command == "PASS" && |e.line.params| >= 1 && e.line.params[0] == password
  }

  predicate HasPass(s: State, c: Id) {
    c in s.conns && s.conns[c].havePass
  }

  ghost predicate SameGate(s: State, t: State) {
    t.password == s.password && forall c :: HasPass(t, c) <==> HasPass(s, c)
  }

  lemma NickSameGate(s: State, c: Id, params: seq<string>)
    requires c in s.conns
    ensures SameGate(s, HandleNick(s, c, params))
  {
    if |params| >= 1 {
      CheckLoginSameGate(SetConn(Rename(s, c, params[0]), c, s.conns[c].(haveNick := true)), c);
    }
  }

  lemma UserSameGate(s: State, c: Id, params: seq<string>)
    requires c in s.conns
    ensures SameGate(s, HandleUser(s, c, params))
  {
    if |params| >= 4 {
      CheckLoginSameGate(SetConn(s, c, s.conns[c].(haveUser := true, user := params[0], realname := params[3])), c);
    }
  }

  lemma PassSameGate(s: State, c: Id, params: seq<string>)
    requires c in s.conns
    ensures (|params| >= 1 && params[0] == s.password) || SameGate(s, HandlePass(s, c, params))
    ensures HandlePass(s, c, params).password == s.password
    ensures forall d | d != c :: HasPass(HandlePass(s, c, params), d) <==> HasPass(s, d)
  {
    CheckLoginSameGate(s, c);
    CheckLoginSameGate(SetConn(s, c, s.conns[c].(havePass := true)), c);
  }

  lemma PrivmsgSameGate(s: State, c: Id, params: seq<string>, idOk: bool)
    requires c in s.conns
    ensures var r := HandlePrivmsg(s, c, params, idOk); r.Good? ==> SameGate(s, r.state)
  {
    if |params| >= 2 {
      var t := if params[0] != "" && params[0][0] == '#' then WithChannel(s, params[0]) else s;
      CommandSameGate(t, Strings.Split(Trim(params[1]), ' '), idOk);
    }
  }

  lemma CheckLoginSameGate(s: State, c: Id)
    ensures SameGate(s, CheckLogin(s, c))
  {
    LogInFrame(s, c);
  }

  lemma CommandSameGate(s: State, words: seq<string>, idOk: bool)
    requires |words| > 0
    ensures Command(s, words, idOk).Good? ==> SameGate(s, Command(s, words, idOk).state)
  {
  }

  lemma LineSameGate(s: State, c: Id, line: Line, idOk: bool)
    requires c in s.conns
    ensures var r := HandleLine(s, c, line, idOk);
            r.Good? && !GivesPassword(Received(c, line, idOk), c, s.password) ==> SameGate(s, r.state)
    ensures var r := HandleLine(s, c, line, idOk);
            r.Good? ==> r.state.password == s.password && forall d | d != c :: HasPass(r.state, d) <==> HasPass(s, d)
  {
    if line.command == "PASS" {
      PassSameGate(s, c, line.params);
    } else if line.command == "NICK" {
      NickSameGate(s, c, line.params);
    } else if line.command == "USER" {
      UserSameGate(s, c, line.params);
    } else if line.command == "PRIVMSG" {
      PrivmsgSameGate(s, c, line.params, idOk);
    }
  }

  lemma PassStep(s: State, e: Event, c: Id)
    requires Inv(s) && Expected(s, e) && Step(s, e).Good?
    ensures var t := Step(s, e).state;
            && t.password == s.password
            && (HasPass(t, c) ==> HasPass(s, c) || s.password == "" || GivesPassword(e, c, s.password))
  {
    if e.Received? {
      LineSameGate(s, e.c, e.line, e.idOk);
    }
  }

  lemma {:induction false} PassRun(s: State, events: seq<Event>, c: Id)
    requires Inv(s) && IsRun(s, events)
    ensures HasPass(Run(s, events), c) ==>
              HasPass(s, c) || s.password == "" || exists e | e in events :: GivesPassword(e, c, s.password)
    decreases events
  {
    if events != [] {
      PassStep(s, events[0], c);
      StepExact(s, events[0]);
      PassRun(Step(s, events[0]).state, events[1..], c);
      if e :| e in events[1..] && GivesPassword(e, c, s.password) { assert e in events; }
    }
  }

  /** On a server with a password, a connection that never sent it is never welcomed, has no nick and is in no channel. */
  lemma PasswordGate(password: string, control: string, events: seq<Event>, c: Id)
    requires IsRun(Start(password, control), events) && password != ""
    requires forall e | e in events :: !GivesPassword(e, c, password)
    ensures var s := Run(Start(password, control), events);
            c in s.conns ==>
              && c !in s.welcomes && !s.conns[c].haveNick && !s.conns[c].haveUser && NickOf(s, c) == ""
              && forall ch | ch in s.channels :: c !in s.channels[ch]
  {
    StartInv(password, control);
    RunKeepsInv(Start(password, control), events);
    PassRun(Start(password, control), events, c);
  }
}
