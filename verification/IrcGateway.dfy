/** The gateway's methods, updating their fields in place, against the state machine. */
module IrcGateway {
  import Strings
  import opened IrcState
  import I = IrcInvariant
  import R = IrcRuns
  import opened Options

  lemma RemoveTwice(m: Channels, a: set<Id>, b: set<Id>)
    ensures RemoveEverywhere(RemoveEverywhere(m, a), b) == RemoveEverywhere(m, a + b)
    ensures RemoveEverywhere(m, {}) == m
  {
    forall c | c in m
      ensures m[c] - a - b == m[c] - (a + b) && m[c] - {} == m[c]
    {
    }
  }

  class Gateway {
    const password: string
    const control: string
    var nick: map<Id, string>
    var conns: map<Id, Conn>
    var clients: set<Id>
    var open: set<Id>
    var virtuals: seq<Id>
    var channels: Channels
    var usermap: map<ContactId, Id>
    var contacts: seq<ContactId>
    var nickname: map<ContactId, string>
    var next: Id
    var nextContact: ContactId
    ghost var welcomes: seq<Id>

    ghost function View(): State
      reads this
    {
      State(password, control, nick, conns, clients, open, virtuals, channels, usermap, contacts, nickname,
            next, nextContact, welcomes)
    }

    constructor (password: string, control: string)
      ensures View() == Start(password, control) && I.Inv(View())
    {
      this.password, this.control := password, control;
      nick, conns, clients, open := map[RICOCHET := RICOCHET_NICK], map[], {}, {};
      virtuals, channels := [RICOCHET], map[control := map[RICOCHET := "@"]];
      usermap, contacts, nickname := map[], [], map[];
      next, nextContact, welcomes := 1, 0, [];
      new;
      I.StartInv(password, control);
    }

    method NewConnection()
      modifies this`nick, this`conns, this`clients, this`open, this`next
      ensures View() == IrcState.Connect(old(View()))
      ensures old(I.Inv(View())) ==> I.Inv(View())
    {
      if I.Inv(View()) { I.ConnectKeepsInv(View()); }
      nick := nick[next := ""];
      conns := conns[next := Conn(false, false, password == "", false, "", "")];
      clients, open, next := clients + {next}, open + {next}, next + 1;
    }

    /** Clients first, then virtual users. */
    method FindUser(name: string) returns (found: Option<Id>)
      ensures found.Some? <==> Taken(View(), name)
      ensures found.Some? ==> NickOf(View(), found.value) == name && (found.value in clients || found.value in virtuals)
      ensures found.Some? && found.value !in clients ==> forall c | c in clients :: NickOf(View(), c) != name
    {
      var todo := clients;
      while todo != {}
        invariant todo <= clients
        invariant forall c | c in clients - todo :: NickOf(View(), c) != name
      {
        var c :| c in todo;
        if Named(nick, c) == name {
          return Some(c);
        }
        todo := todo - {c};
      }
      for i := 0 to |virtuals|
        invariant forall j | 0 <= j < i :: NickOf(View(), virtuals[j]) != name
      {
        if Named(nick, virtuals[i]) == name {
          assert NickOf(View(), virtuals[i]) == name;
          return Some(virtuals[i]);
        }
      }
      return None;
    }

    method GetMember(channel: string, name: string) returns (found: Option<Id>)
      ensures found.Some? <==> IrcState.HasMember(View(), channel, name)
      ensures found.Some? ==> found.value in MembersOf(View(), channel) && NickOf(View(), found.value) == name
    {
      var members: Members := if channel in channels then channels[channel] else map[];
      var todo := members.Keys;
      while todo != {}
        invariant todo <= members.Keys
        invariant forall u | u in members.Keys - todo :: NickOf(View(), u) != name
      {
        var u :| u in todo;
        if Named(nick, u) == name {
          assert NickOf(View(), u) == name;
          return Some(u);
        }
        todo := todo - {u};
      }
      return None;
    }

    method RemoveFromAllChannels(u: Id)
      modifies this`channels
      ensures channels == RemoveEverywhere(old(channels), {u})
    {
      var todo := channels.Keys;
      while todo != {}
        invariant todo <= channels.Keys == old(channels).Keys
        invariant forall c | c in channels :: channels[c] == if c in todo then old(channels)[c] else old(channels)[c] - {u}
      {
        var c :| c in todo;
        channels := channels[c := channels[c] - {u}];
        todo := todo - {c};
      }
    }

    method Quit(u: Id)
      modifies this`channels
      ensures View() == IrcState.Quit(old(View()), u)
    {
      RemoveFromAllChannels(u);
    }

    /** Closing the socket signals disconnected, which leads back here once more. */
    method Disconnect(c: Id)
      modifies this`channels, this`clients, this`open
      ensures View() == IrcState.Disconnect(old(View()), c)
      ensures old(I.Inv(View())) && c in conns ==> I.Inv(View())
      decreases if c in open then 1 else 0, 1
    {
      if I.Inv(View()) && c in conns { I.DisconnectKeepsInv(View(), c); }
      RemoveFromAllChannels(c);
      clients := clients - {c};
      RemoveTwice(old(channels), {c}, {c});
      assert {c} + {c} == {c};
      CloseSocket(c);
    }

    method CloseSocket(c: Id)
      modifies this`channels, this`clients, this`open
      ensures View() == IrcState.CloseSocket(old(View()), c)
      decreases if c in open then 1 else 0, 0
    {
      if c in open {
        open := open - {c};
        Disconnect(c);
      }
    }

    method Rename(u: Id, name: string) returns (renamed: bool)
      modifies this`nick
      ensures View() == IrcState.Rename(old(View()), u, name)
      ensures renamed <==> !Taken(old(View()), name)
    {
      var holder := FindUser(name);
      if holder.Some? {
        return false;
      }
      nick := nick[u := name];
      return true;
    }

    method GetChannel(channel: string)
      modifies this`channels
      ensures View() == WithChannel(old(View()), channel)
    {
      if channel !in channels {
        channels := channels[channel := map[]];
      }
    }

    method Part(c: Id, channel: string)
      modifies this`channels
      ensures View() == IrcState.Part(old(View()), c, channel)
    {
      GetChannel(channel);
      channels := channels[channel := channels[channel] - {c}];
    }

    method Join(c: Id, channel: string)
      modifies this`channels
      ensures View() == IrcState.Join(old(View()), c, channel)
    {
      if ValidChannel(channel) {
        GetChannel(channel);
        var same := GetMember(channel, Named(nick, c));
        if same == None {
          channels := channels[channel := Enter(channels[channel], c, "")];
        }
      }
    }

    method SetMemberFlags(channel: string, u: Id, flags: string)
      modifies this`channels
      ensures View() == SetFlags(old(View()), channel, u, flags)
    {
      GetChannel(channel);
      channels := channels[channel := Enter(channels[channel], u, flags)];
    }

    method KillOtherConnections(c: Id)
      modifies this`channels, this`clients, this`open
      ensures View() == KillOthers(old(View()), c)
    {
      var todo := clients - {c};
      ghost var done: set<Id> := {};
      RemoveTwice(channels, {}, {});
      while todo != {}
        invariant done + todo == old(clients) - {c} && done !! todo
        invariant channels == RemoveEverywhere(old(channels), done)
        invariant clients == old(clients) - done && open == old(open) - done
      {
        var other :| other in todo;
        RemoveTwice(old(channels), done, {other});
        RemoveTwice(old(channels), done + {other}, {other});
        assert done + {other} + {other} == done + {other};
        Quit(other);
        Disconnect(other);
        todo, done := todo - {other}, done + {other};
      }
    }

    method IrcUserLoggedIn(c: Id)
      modifies this`channels, this`clients, this`open
      ensures View() == LogIn(old(View()), c)
    {
      Join(c, control);
      SetMemberFlags(control, c, "+o");
      if |clients| > 1 {
        KillOtherConnections(c);
      }
    }

    method CheckLogin(c: Id)
      requires c in conns
      modifies this`channels, this`clients, this`open, this`conns, this`welcomes
      ensures View() == IrcState.CheckLogin(old(View()), c)
    {
      if conns[c].IsLoggedIn() && !conns[c].welcomeSent {
        IrcUserLoggedIn(c);
        conns := conns[c := conns[c].(welcomeSent := true)];
        welcomes := welcomes + [c];
      }
    }

    // ---- lines ----

    method HandlePass(c: Id, params: seq<string>)
      requires c in conns
      modifies this`channels, this`clients, this`open, this`conns, this`welcomes
      ensures View() == IrcState.HandlePass(old(View()), c, params)
    {
      if |params| < 1 {
        return;
      }
      if !conns[c].havePass {
        if password == params[0] {
          conns := conns[c := conns[c].(havePass := true)];
        } else {
          CloseSocket(c);
          return;
        }
      }
      CheckLogin(c);
    }

    method HandleNick(c: Id, params: seq<string>)
      requires c in conns
      modifies this`nick, this`channels, this`clients, this`open, this`conns, this`welcomes
      ensures View() == IrcState.HandleNick(old(View()), c, params)
    {
      if |params| < 1 || !ValidNick(params[0]) {
        return;
      }
      var renamed := Rename(c, params[0]);
      if !conns[c].haveNick {
        conns := conns[c := conns[c].(haveNick := true)];
        CheckLogin(c);
      }
    }

    method HandleUser(c: Id, params: seq<string>)
      requires c in conns
      modifies this`channels, this`clients, this`open, this`conns, this`welcomes
      ensures View() == IrcState.HandleUser(old(View()), c, params)
    {
      if |params| < 4 {
        return;
      }
      if !ValidNick(params[0]) || !ValidRealname(params[3]) {
        CloseSocket(c);
        return;
      }
      conns := conns[c := conns[c].(haveUser := true, user := params[0], realname := params[3])];
      CheckLogin(c);
    }

    // ---- contacts ----

    method ContactByNickname(name: string) returns (found: Option<ContactId>)
      ensures found == FirstContact(contacts, nickname, name)
    {
      for i := 0 to |contacts|
        invariant FirstContact(contacts, nickname, name) == FirstContact(contacts[i..], nickname, name)
      {
        if contacts[i] in nickname && nickname[contacts[i]] == name {
          return Some(contacts[i]);
        }
      }
      return None;
    }

    method AddContact(name: string)
      modifies this`contacts, this`nickname, this`nextContact
      ensures View() == IrcState.AddContact(old(View()), name)
      ensures old(I.Inv(View())) ==> I.Inv(View())
    {
      if I.Inv(View()) { R.AddContactKeepsInv(View(), name); }
      contacts, nickname := contacts + [nextContact], nickname[nextContact := name];
      nextContact := nextContact + 1;
    }

    /** Fails where the source would follow a null pointer. */
    method CmdDelete(args: seq<string>) returns (ok: bool)
      modifies this`contacts, this`nickname, this`virtuals, this`channels, this`usermap
      ensures if ok then IrcState.CmdDelete(old(View()), args) == Good(View())
              else IrcState.CmdDelete(old(View()), args) == NullPointer
    {
      if |args| != 1 {
        return true;
      }
      var contact := ContactByNickname(args[0]);
      match contact {
        case None =>
          return true;
        case Some(k) =>
          if k !in usermap {
            return false;
          }
          var u := usermap[k];
          contacts, nickname := Without(contacts, k), nickname - {k};
          virtuals := Without(virtuals, u);
          Quit(u);
          usermap := usermap - {k};
          return true;
      }
    }

    method CmdRename(args: seq<string>)
      modifies this`nickname, this`nick
      ensures View() == IrcState.CmdRename(old(View()), args)
    {
      if |args| != 2 {
        return;
      }
      var other := ContactByNickname(args[1]);
      var holder := FindUser(args[1]);
      if other.Some? || holder.Some? {
        return;
      }
      var contact := ContactByNickname(args[0]);
      match contact {
        case None =>
        case Some(k) =>
          nickname := nickname[k := args[1]];
          if k in usermap {
            var renamed := Rename(usermap[k], args[1]);
          }
      }
    }

    method CreateVirtualUser(k: ContactId) returns (u: Id)
      requires k in nickname
      modifies this`nick, this`next, this`usermap, this`virtuals, this`channels
      ensures u == old(next) && next == u + 1 && nick == old(nick)[u := nickname[k]]
      ensures usermap == old(usermap)[k := u] && virtuals == old(virtuals) + [u]
      ensures channels == SetFlags(old(View()), control, u, "+v").channels
    {
      u := next;
      nick, next := nick[u := nickname[k]], next + 1;
      SetMemberFlags(control, u, "+v");
      usermap, virtuals := usermap[k := u], virtuals + [u];
    }

    method ShowContactStatus(u: Id, status: Status)
      modifies this`channels
      ensures View() == ShowStatus(old(View()), u, status)
    {
      match status {
        case Online => SetMemberFlags(control, u, "+v");
        case Offline => SetMemberFlags(control, u, "-v");
        case OtherStatus =>
      }
    }

    /** seen is the member found by name, if there was one. */
    method OnContactStatusChanged(k: ContactId, status: Status) returns (ghost seen: Id)
      requires k in nickname && k in contacts && control in channels
      modifies this`nick, this`next, this`usermap, this`virtuals, this`channels
      ensures Possible(old(View()), StatusChanged(k, status, seen))
      ensures View() == ContactStatus(old(View()), k, status, seen)
      ensures old(I.Inv(View())) ==> (I.Inv(View()) <==> !old(R.Shadowed(View(), k)))
    {
      var member := GetMember(control, nickname[k]);
      var u;
      if member.Some? {
        u := member.value;
      } else {
        u := CreateVirtualUser(k);
      }
      seen := u;
      ShowContactStatus(u, status);
      if old(I.Inv(View())) { R.ContactStatusExact(old(View()), k, status, seen); }
    }

    // ---- dispatch ----

    method HandlePrivmsg(c: Id, params: seq<string>, idOk: bool) returns (ok: bool)
      requires c in conns
      modifies this`contacts, this`nickname, this`nextContact, this`virtuals, this`channels, this`usermap, this`nick
      ensures if ok then IrcState.HandlePrivmsg(old(View()), c, params, idOk) == Good(View())
              else IrcState.HandlePrivmsg(old(View()), c, params, idOk) == NullPointer
    {
      ok := true;
      if |params| < 2 || !conns[c].IsLoggedIn() {
        return;
      }
      if params[0] != "" && params[0][0] == '#' {
        GetChannel(params[0]);
      }
      if params[0] == control && Named(nick, c) != Named(nick, RICOCHET) {
        var words := Strings.Split(Trim(params[1]), ' ');
        var args := words[1..];
        if words[0] == "delete" {
          ok := CmdDelete(args);
        } else if words[0] == "rename" {
          CmdRename(args);
        } else if words[0] == "add" && |args| >= 3 && idOk {
          AddContact(args[1]);
        }
      }
    }

    method HandleLine(c: Id, line: Line, idOk: bool) returns (ok: bool)
      requires c in conns
      modifies this
      ensures if ok then IrcState.HandleLine(old(View()), c, line, idOk) == Good(View())
              else IrcState.HandleLine(old(View()), c, line, idOk) == NullPointer
      ensures ok && old(I.Inv(View())) ==>
                (I.Inv(View()) <==> old(R.Expected(View(), Received(c, line, idOk))))
    {
      if I.Inv(View()) && IrcState.HandleLine(View(), c, line, idOk).Good? {
        R.StepExact(View(), Received(c, line, idOk));
      }
      ok := true;
      if line.command !in COMMANDS || (!conns[c].havePass && line.command != "PASS") {
        return;
      }
      var params := line.params;
      match line.command {
        case "PASS" => HandlePass(c, params);
        case "NICK" => HandleNick(c, params);
        case "USER" => HandleUser(c, params);
        case "JOIN" => if |params| >= 1 && conns[c].IsLoggedIn() { Join(c, params[0]); }
        case "PART" => if |params| >= 1 && conns[c].IsLoggedIn() && ValidChannel(params[0]) { Part(c, params[0]); }
        case "QUIT" => Quit(c);
        case "PRIVMSG" => ok := HandlePrivmsg(c, params, idOk);
        case _ =>
      }
    }
  }
}
