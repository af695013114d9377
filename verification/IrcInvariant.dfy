/** What holds in every reachable state of the gateway, and that every operation keeps it. */
module IrcInvariant {
  import opened IrcState
  import opened Sequences

  lemma NoRepeatsAppend(xs: seq<nat>, x: nat)
    requires NoRepeats(xs) && x !in xs
    ensures NoRepeats(xs + [x])
  {
  }

  predicate IsUser(clients: set<Id>, virtuals: seq<Id>, u: Id) {
    u in clients || u in virtuals
  }

  /** The record tables fit together, and @ricochet is always there. */
  ghost predicate Tables(clients: set<Id>, open: set<Id>, conns: map<Id, Conn>, nick: map<Id, string>,
                         next: Id, virtuals: seq<Id>)
  {
    && clients <= conns.Keys && open == clients
    && conns.Keys <= nick.Keys
    && (forall u | u in nick :: u < next)
    && (forall u | u in virtuals :: u in nick && u !in conns)
    && NoRepeats(virtuals)
    && RICOCHET in virtuals && Named(nick, RICOCHET) == RICOCHET_NICK
  }

  /** Non-empty nicks are unique over clients and virtual users. */
  ghost predicate NicksUnique(nick: map<Id, string>, clients: set<Id>, virtuals: seq<Id>) {
    forall u, v | IsUser(clients, virtuals, u) && IsUser(clients, virtuals, v) && u != v && Named(nick, u) == Named(nick, v) ::
      Named(nick, u) == ""
  }

  /**
   Every channel member is a virtual user or a logged-in client, and every virtual
   user is in the control channel.
   */
  ghost predicate Membership(channels: Channels, control: string, clients: set<Id>, virtuals: seq<Id>, conns: map<Id, Conn>) {
    && control in channels
    && (forall ch, u | ch in channels && u in channels[ch] ::
          u in virtuals || (u in clients && u in conns && conns[u].IsLoggedIn()))
    && (forall u | u in virtuals :: u in channels[control])
  }

  /** usermap is injective into the virtual users, reaches all but @ricochet, and agrees on names. */
  ghost predicate ContactMap(contacts: seq<ContactId>, nickname: map<ContactId, string>, nextContact: ContactId,
                             usermap: map<ContactId, Id>, virtuals: seq<Id>, nick: map<Id, string>)
  {
    && (forall k | k in contacts :: k in nickname && k < nextContact)
    && NoRepeats(contacts)
    && (forall k | k in usermap ::
          && k in contacts && usermap[k] in virtuals && usermap[k] != RICOCHET
          && Named(nick, usermap[k]) == nickname[k])
    && (forall k, l | k in usermap && l in usermap && k != l :: usermap[k] != usermap[l])
    && (forall u | u in virtuals && u != RICOCHET :: u in usermap.Values)
  }

  /** Logged in means welcomed, and nobody gets anywhere without the password. */
  ghost predicate Flags(conns: map<Id, Conn>, nick: map<Id, string>) {
    && (forall c | c in conns :: conns[c].welcomeSent <==> conns[c].IsLoggedIn())
    && (forall c | c in conns && !conns[c].havePass ::
          !conns[c].haveNick && !conns[c].haveUser && Named(nick, c) == "")
  }

  ghost predicate OneSession(clients: set<Id>, conns: map<Id, Conn>) {
    forall c, d | c in clients && d in clients && c in conns && d in conns && conns[c].IsLoggedIn() && conns[d].IsLoggedIn() ::
      c == d
  }

  /** Each connection is welcomed at most once, and exactly the logged-in ones were. */
  ghost predicate Welcomes(welcomes: seq<Id>, conns: map<Id, Conn>) {
    && NoRepeats(welcomes)
    && (forall c :: c in welcomes <==> c in conns && conns[c].welcomeSent)
  }

  ghost predicate Inv(s: State) {
    && Tables(s.clients, s.open, s.conns, s.nick, s.next, s.virtuals)
    && NicksUnique(s.nick, s.clients, s.virtuals)
    && Membership(s.channels, s.control, s.clients, s.virtuals, s.conns)
    && ContactMap(s.contacts, s.nickname, s.nextContact, s.usermap, s.virtuals, s.nick)
    && Flags(s.conns, s.nick)
    && OneSession(s.clients, s.conns)
    && Welcomes(s.welcomes, s.conns)
  }

  lemma StartInv(password: string, control: string)
    ensures Inv(Start(password, control))
  {
  }

  // ---- connections ----

  /** The contact map looks at the nicks of virtual users only. */
  lemma ContactMapFrame(s: State, nick: map<Id, string>)
    requires Inv(s) && forall u | u in s.virtuals :: Named(nick, u) == NickOf(s, u)
    ensures ContactMap(s.contacts, s.nickname, s.nextContact, s.usermap, s.virtuals, nick)
  {
  }

  lemma NewClientTables(s: State, conn: Conn)
    requires Inv(s)
    ensures Tables(s.clients + {s.next}, s.open + {s.next}, s.conns[s.next := conn], s.nick[s.next := ""], s.next + 1, s.virtuals)
    ensures forall u | u in s.nick :: u != s.next && Named(s.nick[s.next := ""], u) == NickOf(s, u)
  {
  }

  lemma NewClientNicks(s: State)
    requires Inv(s)
    ensures NicksUnique(s.nick[s.next := ""], s.clients + {s.next}, s.virtuals)
  {
    var nick := s.nick[s.next := ""];
    forall u, v | IsUser(s.clients + {s.next}, s.virtuals, u) && IsUser(s.clients + {s.next}, s.virtuals, v)
                  && u != v && Named(nick, u) == Named(nick, v)
      ensures Named(nick, u) == ""
    {
      if u != s.next && v != s.next {
        assert IsUser(s.clients, s.virtuals, u) && IsUser(s.clients, s.virtuals, v);
      }
    }
  }

  /** Login flags that only grow keep every member entitled. */
  lemma MembershipGrows(channels: Channels, control: string, clients: set<Id>, virtuals: seq<Id>, conns: map<Id, Conn>,
                        clients': set<Id>, conns': map<Id, Conn>)
    requires Membership(channels, control, clients, virtuals, conns)
    requires forall u | u in clients && u in conns && conns[u].IsLoggedIn() :: u in clients' && u in conns' && conns'[u].IsLoggedIn()
    ensures Membership(channels, control, clients', virtuals, conns')
  {
  }

  lemma ConnectKeepsInv(s: State)
    requires Inv(s)
    ensures Inv(Connect(s))
  {
    var t := Connect(s);
    NewClientTables(s, t.conns[s.next]);
    NewClientNicks(s);
    assert s.next !in s.nick && s.next !in s.conns;
    MembershipGrows(s.channels, s.control, s.clients, s.virtuals, s.conns, t.clients, t.conns);
    ContactMapFrame(s, t.nick);
  }

  lemma QuitKeepsInv(s: State, c: Id)
    requires Inv(s) && c in s.conns
    ensures Inv(Quit(s, c))
  {
  }

  lemma DisconnectKeepsInv(s: State, c: Id)
    requires Inv(s) && c in s.conns
    ensures Inv(Disconnect(s, c))
  {
  }

  lemma FreshNickStaysUnique(s: State, u: Id, nick: string)
    requires Inv(s) && !Taken(s, nick)
    ensures NicksUnique(s.nick[u := nick], s.clients, s.virtuals)
  {
    assert forall v | IsUser(s.clients, s.virtuals, v) :: Named(s.nick, v) != nick;
  }

  lemma RenameKeepsInv(s: State, c: Id, nick: string)
    requires Inv(s) && c in s.conns && s.conns[c].havePass
    ensures Inv(Rename(s, c, nick))
  {
    if !Taken(s, nick) {
      FreshNickStaysUnique(s, c, nick);
      ContactMapFrame(s, s.nick[c := nick]);
    }
  }

  lemma WithChannelKeepsInv(s: State, channel: string)
    requires Inv(s)
    ensures Inv(WithChannel(s, channel))
  {
  }

  lemma PartKeepsInv(s: State, c: Id, channel: string)
    requires Inv(s) && c in s.conns
    ensures Inv(Part(s, c, channel))
  {
    WithChannelKeepsInv(s, channel);
  }

  /** Entering a virtual user or a logged-in client into a channel, or changing its flags there. */
  lemma EnterKeepsMembership(channels: Channels, control: string, clients: set<Id>, virtuals: seq<Id>, conns: map<Id, Conn>,
                             channel: string, u: Id, flags: string)
    requires Membership(channels, control, clients, virtuals, conns) && channel in channels
    requires u in virtuals || (u in clients && u in conns && conns[u].IsLoggedIn())
    ensures Membership(channels[channel := Enter(channels[channel], u, flags)], control, clients, virtuals, conns)
  {
  }

  lemma JoinKeepsInv(s: State, c: Id, channel: string)
    requires Inv(s) && c in s.clients && s.conns[c].IsLoggedIn()
    ensures Inv(Join(s, c, channel))
  {
    if ValidChannel(channel) {
      var t := WithChannel(s, channel);
      WithChannelKeepsInv(s, channel);
      EnterKeepsMembership(t.channels, t.control, t.clients, t.virtuals, t.conns, channel, c, "");
    }
  }

  /** Who may be in a channel: a virtual user, or a client that is logged in. */
  predicate MayEnter(s: State, u: Id) {
    u in s.virtuals || (u in s.clients && u in s.conns && s.conns[u].IsLoggedIn())
  }

  /** Setting flags keeps the invariant, whether the user is a member already or inserted, exactly when it may enter. */
  lemma SetFlagsExact(s: State, channel: string, u: Id, flags: string)
    requires Inv(s)
    ensures Inv(SetFlags(s, channel, u, flags)) <==> MayEnter(s, u)
  {
    var t := WithChannel(s, channel);
    WithChannelKeepsInv(s, channel);
    if MayEnter(s, u) {
      EnterKeepsMembership(t.channels, t.control, t.clients, t.virtuals, t.conns, channel, u, flags);
    } else {
      StrangerBreaksInv(SetFlags(s, channel, u, flags), channel, u);
    }
  }

  /** A member that may not be there. */
  lemma StrangerBreaksInv(s: State, channel: string, u: Id)
    requires u in MembersOf(s, channel) && !MayEnter(s, u)
    ensures !Inv(s)
  {
  }

  // ---- login ----

  lemma JoinFrame(s: State, c: Id, channel: string)
    ensures Join(s, c, channel) == s.(channels := Join(s, c, channel).channels)
  {
  }

  /** A login touches the channels, and closes connections; nothing else. */
  lemma LogInFrame(s: State, c: Id)
    ensures var t := LogIn(s, c);
            t == s.(channels := t.channels, clients := t.clients, open := t.open)
            && t.clients <= s.clients && c in MembersOf(t, s.control)
  {
    JoinFrame(s, c, s.control);
    var joined := Join(s, c, s.control);
    var t := SetFlags(joined, s.control, c, "+o");
    assert t == s.(channels := t.channels) && c in t.channels[s.control];
    assert c in KillOthers(t, c).channels[s.control];
  }

  lemma OnlyOne(clients: set<Id>, c: Id)
    requires c in clients && |clients| <= 1
    ensures clients == {c}
  {
    assert |clients - {c}| == 0;
  }

  /** Closing the other connections keeps the channels in order. */
  lemma KillKeepsMembership(channels: Channels, control: string, clients: set<Id>, virtuals: seq<Id>, conns: map<Id, Conn>, c: Id)
    requires Membership(channels, control, clients, virtuals, conns)
    requires c in clients && forall u | u in virtuals :: u !in clients
    ensures Membership(RemoveEverywhere(channels, clients - {c}), control, {c}, virtuals, conns)
  {
  }

  /** However many clients there were, exactly the one that logged in is left, and the channels stay in order. */
  lemma LogInEffect(s: State, c: Id)
    requires Tables(s.clients, s.open, s.conns, s.nick, s.next, s.virtuals)
    requires Membership(s.channels, s.control, s.clients, s.virtuals, s.conns)
    requires c in s.clients && s.conns[c].IsLoggedIn()
    ensures var t := LogIn(s, c);
            && t == s.(channels := t.channels, clients := {c}, open := {c})
            && Membership(t.channels, s.control, {c}, s.virtuals, s.conns)
            && c in t.channels[s.control] && t.channels[s.control][c] == "+o"
  {
    var joined := Join(s, c, s.control);
    if ValidChannel(s.control) {
      EnterKeepsMembership(s.channels, s.control, s.clients, s.virtuals, s.conns, s.control, c, "");
    }
    EnterKeepsMembership(joined.channels, s.control, s.clients, s.virtuals, s.conns, s.control, c, "+o");
    var t := SetFlags(joined, s.control, c, "+o");
    assert t == s.(channels := t.channels);
    if |s.clients| > 1 {
      assert s.clients - (s.clients - {c}) == {c};
      KillKeepsMembership(t.channels, s.control, s.clients, s.virtuals, s.conns, c);
    } else {
      OnlyOne(s.clients, c);
    }
  }

  /** Flags set by a connection that has given the password and is not fully logged in afterwards. */
  lemma SetConnKeepsInv(s: State, c: Id, conn: Conn)
    requires Inv(s) && c in s.conns && !s.conns[c].IsLoggedIn()
    requires conn.havePass && !conn.welcomeSent && !conn.IsLoggedIn()
    ensures Inv(SetConn(s, c, conn))
  {
    MembershipGrows(s.channels, s.control, s.clients, s.virtuals, s.conns, s.clients, s.conns[c := conn]);
    assert forall d :: d in s.welcomes <==> d in s.conns && s.conns[d].welcomeSent;
  }

  /** The records after a login that leaves only c. */
  lemma WelcomedRecords(s: State, c: Id, conn: Conn)
    requires Inv(s) && c in s.clients && !s.conns[c].welcomeSent
    requires conn.IsLoggedIn() && conn.welcomeSent
    ensures Flags(s.conns[c := conn], s.nick)
    ensures OneSession({c}, s.conns[c := conn])
    ensures Welcomes(s.welcomes + [c], s.conns[c := conn])
    ensures Tables({c}, {c}, s.conns[c := conn], s.nick, s.next, s.virtuals)
  {
    NoRepeatsAppend(s.welcomes, c);
  }

  /** The last missing flag: the login goes through, and every other client is gone. */
  lemma CompletedLogin(s: State, c: Id, conn: Conn)
    requires Inv(s) && c in s.clients && !s.conns[c].IsLoggedIn()
    requires conn.IsLoggedIn() && !conn.welcomeSent
    ensures Inv(CheckLogin(SetConn(s, c, conn), c))
    ensures CheckLogin(SetConn(s, c, conn), c).clients == {c}
  {
    var t := SetConn(s, c, conn);
    var done := conn.(welcomeSent := true);
    WelcomedRecords(s, c, done);
    FewerNicks(s, {c});
    MembershipGrows(s.channels, s.control, s.clients, s.virtuals, s.conns, s.clients, t.conns);
    LogInEffect(t, c);
    var r := LogIn(t, c);
    assert t.conns[c := done] == s.conns[c := done];
    MembershipGrows(r.channels, s.control, {c}, s.virtuals, t.conns, {c}, s.conns[c := done]);
    assert CheckLogin(t, c) == s.(channels := r.channels, clients := {c}, open := {c},
                                  conns := s.conns[c := done], welcomes := s.welcomes + [c]);
  }

  lemma FewerNicks(s: State, clients: set<Id>)
    requires Inv(s) && clients <= s.clients
    ensures NicksUnique(s.nick, clients, s.virtuals)
  {
    assert forall u | IsUser(clients, s.virtuals, u) :: IsUser(s.clients, s.virtuals, u);
  }

  /** Setting a flag of a client that is not logged in yet, with the login that may follow. */
  lemma CheckLoginKeepsInv(s: State, c: Id, conn: Conn)
    requires Inv(s) && c in s.clients && !s.conns[c].IsLoggedIn()
    requires conn.havePass && !conn.welcomeSent
    ensures Inv(CheckLogin(SetConn(s, c, conn), c))
    ensures conn.IsLoggedIn() ==> CheckLogin(SetConn(s, c, conn), c).clients == {c}
  {
    if conn.IsLoggedIn() {
      CompletedLogin(s, c, conn);
    } else {
      SetConnKeepsInv(s, c, conn);
    }
  }

  lemma HandlePassKeepsInv(s: State, c: Id, params: seq<string>)
    requires Inv(s) && c in s.clients
    ensures Inv(HandlePass(s, c, params))
  {
    if |params| >= 1 && !s.conns[c].havePass {
      if s.password == params[0] {
        CheckLoginKeepsInv(s, c, s.conns[c].(havePass := true));
      } else {
        DisconnectKeepsInv(s, c);
      }
    }
  }

  lemma HandleNickKeepsInv(s: State, c: Id, params: seq<string>)
    requires Inv(s) && c in s.clients && s.conns[c].havePass
    ensures Inv(HandleNick(s, c, params))
  {
    if |params| >= 1 && ValidNick(params[0]) {
      RenameKeepsInv(s, c, params[0]);
      if !s.conns[c].haveNick {
        CheckLoginKeepsInv(Rename(s, c, params[0]), c, s.conns[c].(haveNick := true));
      }
    }
  }

  lemma HandleUserKeepsInv(s: State, c: Id, params: seq<string>)
    requires Inv(s) && c in s.clients && s.conns[c].havePass
    ensures Inv(HandleUser(s, c, params))
  {
    if |params| >= 4 {
      if !ValidNick(params[0]) || !ValidRealname(params[3]) {
        DisconnectKeepsInv(s, c);
      } else {
        var conn := s.conns[c].(haveUser := true, user := params[0], realname := params[3]);
        if s.conns[c].IsLoggedIn() {
          assert CheckLogin(SetConn(s, c, conn), c) == SetConn(s, c, conn);
        } else {
          CheckLoginKeepsInv(s, c, conn);
        }
      }
    }
  }
}
