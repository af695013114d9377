/** What each event does to the gateway's tables, entry by entry, told from the event and the state before it. */
module IrcHistory {
  import opened IrcState
  import opened IrcInvariant
  import opened IrcRuns
  import opened Options
  import opened Sequences
  import Strings

  function Lookup<V>(m: map<nat, V>, k: nat): Option<V> {
    if k in m then Some(m[k]) else None
  }

  // ---- what the lines of a connection do ----

  lemma {:induction false} PassLine(s: State, c: Id, line: Line, idOk: bool)
    requires Inv(s) && c in s.conns && line.command == "PASS"
    ensures HandleLine(s, c, line, idOk)
            == Good(if |line.params| < 1 || s.conns[c].havePass then s
                    else if line.params[0] == s.password then SetConn(s, c, s.conns[c].(havePass := true))
                    else CloseSocket(s, c))
  {
  }

  lemma {:induction false} NickLine(s: State, c: Id, line: Line, idOk: bool)
    requires Inv(s) && c in s.conns && line.command == "NICK" && s.conns[c].havePass && !CompletesLogin(s, c, line)
    ensures HandleLine(s, c, line, idOk)
            == Good(if |line.params| < 1 || !ValidNick(line.params[0]) then s
                    else var t := Rename(s, c, line.params[0]); t.(conns := s.conns[c := s.conns[c].(haveNick := true)]))
  {
  }

  lemma {:induction false} UserLine(s: State, c: Id, line: Line, idOk: bool)
    requires Inv(s) && c in s.conns && line.command == "USER" && s.conns[c].havePass && !CompletesLogin(s, c, line)
    ensures HandleLine(s, c, line, idOk)
            == Good(if |line.params| < 4 then s
                    else if !ValidNick(line.params[0]) || !ValidRealname(line.params[3]) then CloseSocket(s, c)
                    else SetConn(s, c, s.conns[c].(haveUser := true, user := line.params[0], realname := line.params[3])))
  {
  }

  /** A member's flags, if it is one. */
  function FlagsOf(channels: Channels, channel: string, u: Id): Option<string> {
    if channel in channels && u in channels[channel] then Some(channels[channel][u]) else None
  }

  lemma {:induction false} ChannelMadeEmpty(s: State, channel: string, nick: string)
    ensures HasMember(WithChannel(s, channel), channel, nick) <==> HasMember(s, channel, nick)
  {
  }

  lemma {:induction false} MadeFlags(s: State, made: string, channel: string, u: Id)
    ensures made in WithChannel(s, made).channels
    ensures FlagsOf(WithChannel(s, made).channels, channel, u) == FlagsOf(s.channels, channel, u)
  {
  }

  lemma {:induction false} EnterFlags(channels: Channels, at: string, v: Id, flags: string, channel: string, u: Id)
    requires at in channels
    ensures FlagsOf(channels[at := Enter(channels[at], v, flags)], channel, u)
            == if u == v && channel == at then Some(flags) else FlagsOf(channels, channel, u)
  {
  }

  lemma {:induction false} JoinFlags(s: State, c: Id, joined: string, channel: string, u: Id)
    ensures FlagsOf(Join(s, c, joined).channels, channel, u)
            == if u == c && channel == joined && ValidChannel(joined) && !HasMember(s, joined, NickOf(s, c)) then Some("")
               else FlagsOf(s.channels, channel, u)
  {
    ChannelMadeEmpty(s, joined, NickOf(s, c));
    MadeFlags(s, joined, channel, u);
    EnterFlags(WithChannel(s, joined).channels, joined, c, "", channel, u);
  }

  lemma {:induction false} PartFlags(s: State, c: Id, parted: string, channel: string, u: Id)
    ensures FlagsOf(Part(s, c, parted).channels, channel, u)
            == if u == c && channel == parted then None else FlagsOf(s.channels, channel, u)
  {
  }

  lemma {:induction false} SetFlagsFlags(s: State, at: string, v: Id, flags: string, channel: string, u: Id)
    ensures FlagsOf(SetFlags(s, at, v, flags).channels, channel, u)
            == if u == v && channel == at then Some(flags) else FlagsOf(s.channels, channel, u)
  {
    MadeFlags(s, at, channel, u);
    EnterFlags(WithChannel(s, at).channels, at, v, flags, channel, u);
  }

  lemma {:induction false} RemoveFlags(channels: Channels, gone: set<Id>, channel: string, u: Id)
    ensures FlagsOf(RemoveEverywhere(channels, gone), channel, u) == if u in gone then None else FlagsOf(channels, channel, u)
  {
  }

  /** The login makes its connection an operator of the control channel and takes every other client out of every channel. */
  lemma {:induction false} LogInFlags(s: State, c: Id, channel: string, u: Id)
    requires c in s.clients && FlagsOf(s.channels, channel, c) == None
    ensures FlagsOf(LogIn(s, c).channels, channel, u)
            == if u == c then (if channel == s.control then Some("+o") else None)
               else if u in s.clients then None else FlagsOf(s.channels, channel, u)
  {
    var joined := Join(s, c, s.control);
    JoinFrame(s, c, s.control);
    var t := SetFlags(joined, s.control, c, "+o");
    JoinFlags(s, c, s.control, channel, u);
    SetFlagsFlags(joined, s.control, c, "+o", channel, u);
    RemoveFlags(t.channels, s.clients - {c}, channel, u);
    if |s.clients| <= 1 { OnlyOne(s.clients, c); }
  }

  lemma {:induction false} LoginEffect(s: State, c: Id, conn: Conn)
    requires Inv(s) && c in s.clients && !s.conns[c].IsLoggedIn() && conn.IsLoggedIn() && !conn.welcomeSent
    ensures var t := CheckLogin(SetConn(s, c, conn), c);
            && t == s.(channels := LogIn(SetConn(s, c, conn), c).channels, clients := {c}, open := {c},
                       conns := s.conns[c := conn.(welcomeSent := true)], welcomes := s.welcomes + [c])
  {
    CompletedLogin(s, c, conn);
    LogInFrame(SetConn(s, c, conn), c);
    var t := CheckLogin(SetConn(s, c, conn), c);
    assert t.open == t.clients;
    assert s.conns[c := conn][c := conn.(welcomeSent := true)] == s.conns[c := conn.(welcomeSent := true)];
  }

  /** The state from which the line that completes a login logs its connection in. */
  function LoginBase(s: State, c: Id, line: Line): State
    requires c in s.conns && CompletesLogin(s, c, line)
  {
    if line.command == "USER" then s else Rename(s, c, line.params[0])
  }

  function LoginConn(s: State, c: Id, line: Line): Conn
    requires c in s.conns && CompletesLogin(s, c, line)
  {
    if line.command == "USER" then s.conns[c].(haveUser := true, user := line.params[0], realname := line.params[3])
    else s.conns[c].(haveNick := true)
  }

  lemma {:induction false} LoginLine(s: State, c: Id, line: Line, idOk: bool)
    requires Inv(s) && c in s.clients && CompletesLogin(s, c, line)
    ensures var base, conn := LoginBase(s, c, line), LoginConn(s, c, line);
            && HandleLine(s, c, line, idOk).Good?
            && HandleLine(s, c, line, idOk).state
               == base.(channels := LogIn(SetConn(base, c, conn), c).channels, clients := {c}, open := {c},
                        conns := s.conns[c := conn.(welcomeSent := true)], welcomes := s.welcomes + [c])
  {
    var base, conn := LoginBase(s, c, line), LoginConn(s, c, line);
    if line.command == "NICK" { RenameKeepsInv(s, c, line.params[0]); }
    LoginEffect(base, c, conn);
    assert HandleLine(s, c, line, idOk) == Good(CheckLogin(SetConn(base, c, conn), c));
  }

  // ---- commands in the control channel ----

  /** The state in which a line's command runs: a channel it names may have been made on the way. */
  function CommandBase(s: State, line: Line): State
    requires |line.params| >= 1
  {
    if line.params[0] != "" && line.params[0][0] == '#' then WithChannel(s, line.params[0]) else s
  }

  lemma {:induction false} CommandLine(s: State, c: Id, line: Line, idOk: bool)
    requires Inv(s) && c in s.conns && IsCommand(s, c, line)
    ensures HandleLine(s, c, line, idOk) == Command(CommandBase(s, line), Words(line), idOk)
  {
  }

  lemma {:induction false} OtherPrivmsg(s: State, c: Id, line: Line, idOk: bool)
    requires Inv(s) && c in s.conns && !IsCommand(s, c, line) && line.command == "PRIVMSG"
    ensures var r := HandleLine(s, c, line, idOk);
            r.Good? && r.state == s.(channels := r.state.channels)
            && forall channel, u :: FlagsOf(r.state.channels, channel, u) == FlagsOf(s.channels, channel, u)
  {
  }

  /** The words are a rename command to a name that neither a contact nor a user has. */
  predicate Renames(s: State, words: seq<string>, k: ContactId) {
    && |words| == 3 && words[0] == "rename" && FirstContact(s.contacts, s.nickname, words[1]) == Some(k)
    && FirstContact(s.contacts, s.nickname, words[2]) == None && !Taken(s, words[2])
  }

  /** The words are an add command with a name, an id that is valid and a greeting. */
  predicate Adds(words: seq<string>, idOk: bool) {
    |words| >= 4 && words[0] == "add" && idOk
  }

  /** The states differ in nothing but the channels. */
  predicate SameTables(s: State, b: State) {
    b == s.(channels := b.channels)
  }

  lemma {:induction false} CommandContacts(s: State, b: State, words: seq<string>, idOk: bool, k: ContactId)
    requires SameTables(s, b) && NoRepeats(s.contacts) && |words| > 0 && Command(b, words, idOk).Good?
    ensures k in Command(b, words, idOk).state.contacts
      <==> (k in s.contacts || (k == s.nextContact && Adds(words, idOk))) && !Deletes(s, words, k)
  {
    if words[0] == "delete" && |words| == 2 {
      var r := FirstContact(s.contacts, s.nickname, words[1]);
      if r.Some? { WithoutExact(s.contacts, r.value); }
    }
  }

  lemma {:induction false} RenameNames(s: State, args: seq<string>, k: ContactId)
    ensures Lookup(CmdRename(s, args).nickname, k)
            == if |args| == 2 && FirstContact(s.contacts, s.nickname, args[0]) == Some(k)
                  && FirstContact(s.contacts, s.nickname, args[1]) == None && !Taken(s, args[1])
               then Some(args[1]) else Lookup(s.nickname, k)
  {
  }

  lemma {:induction false} CommandNames(s: State, b: State, words: seq<string>, idOk: bool, k: ContactId)
    requires SameTables(s, b) && |words| > 0 && Command(b, words, idOk).Good?
    ensures Lookup(Command(b, words, idOk).state.nickname, k)
            == if Deletes(s, words, k) then None
               else if Adds(words, idOk) && k == s.nextContact then Some(words[2])
               else if Renames(s, words, k) then Some(words[2])
               else Lookup(s.nickname, k)
  {
    if words[0] == "rename" { RenameNames(b, words[1..], k); }
  }

  lemma {:induction false} CommandUsers(s: State, b: State, words: seq<string>, idOk: bool, k: ContactId)
    requires SameTables(s, b) && |words| > 0 && Command(b, words, idOk).Good?
    ensures Lookup(Command(b, words, idOk).state.usermap, k) == if Deletes(s, words, k) then None else Lookup(s.usermap, k)
  {
  }

  /** The command renames the user's contact. */
  ghost predicate RenamesUser(s: State, words: seq<string>, u: Id) {
    exists k :: Renames(s, words, k) && Lookup(s.usermap, k) == Some(u)
  }

  /** The command deletes the user's contact. */
  ghost predicate DeletesUser(s: State, words: seq<string>, u: Id) {
    exists k :: Deletes(s, words, k) && Lookup(s.usermap, k) == Some(u)
  }

  lemma {:induction false} CommandNicks(s: State, b: State, words: seq<string>, idOk: bool, u: Id)
    requires SameTables(s, b) && |words| > 0 && Command(b, words, idOk).Good?
    ensures Lookup(Command(b, words, idOk).state.nick, u)
            == if RenamesUser(s, words, u) then Some(words[2]) else Lookup(s.nick, u)
  {
    if words[0] == "rename" && |words| == 3 {
      var r := FirstContact(s.contacts, s.nickname, words[1]);
      if r.Some? && Lookup(s.usermap, r.value) == Some(u) {
        assert RenamesUser(s, words, u) <==> Renames(s, words, r.value);
      } 
    }
  }

  lemma {:induction false} CommandFlags(s: State, b: State, words: seq<string>, idOk: bool, channel: string, u: Id)
    requires SameTables(s, b) && |words| > 0 && Command(b, words, idOk).Good?
    requires FlagsOf(b.channels, channel, u) == FlagsOf(s.channels, channel, u)
    ensures FlagsOf(Command(b, words, idOk).state.channels, channel, u)
            == if DeletesUser(s, words, u) then None else FlagsOf(s.channels, channel, u)
  {
    if words[0] == "delete" && |words| == 2 {
      var r := FirstContact(s.contacts, s.nickname, words[1]);
      if r.Some? {
        assert DeletesUser(s, words, u) <==> Deletes(s, words, r.value) && Lookup(s.usermap, r.value) == Some(u);
        RemoveFlags(b.channels, {b.usermap[r.value]}, channel, u);
      }
    }
  }

  // ---- the contacts ----

  /** What no line but a command touches. */
  predicate SameContacts(s: State, t: State) {
    t.contacts == s.contacts && t.nickname == s.nickname && t.usermap == s.usermap
  }

  /** The lines that a connection registers with. */
  predicate Registers(line: Line) {
    line.command == "PASS" || line.command == "NICK" || line.command == "USER"
  }

  lemma {:induction false} RegistrationKeepsContacts(s: State, c: Id, line: Line, idOk: bool)
    requires Inv(s) && c in s.conns && (CompletesLogin(s, c, line) ==> c in s.clients) && Registers(line)
    ensures HandleLine(s, c, line, idOk).Good? && SameContacts(s, HandleLine(s, c, line, idOk).state)
  {
    if line.command == "PASS" {
      PassLine(s, c, line, idOk);
    } else if s.conns[c].havePass {
      if CompletesLogin(s, c, line) {
        LoginLine(s, c, line, idOk);
      } else if line.command == "NICK" {
        NickLine(s, c, line, idOk);
      } else {
        UserLine(s, c, line, idOk);
      }
    }
  }

  lemma {:induction false} JoinLine(s: State, c: Id, line: Line, idOk: bool)
    requires Inv(s) && c in s.conns && line.command == "JOIN"
    ensures HandleLine(s, c, line, idOk)
            == Good(if line.params != [] && s.conns[c].IsLoggedIn() then Join(s, c, line.params[0]) else s)
  {
  }

  lemma {:induction false} PartLine(s: State, c: Id, line: Line, idOk: bool)
    requires Inv(s) && c in s.conns && line.command == "PART"
    ensures HandleLine(s, c, line, idOk)
            == Good(if line.params != [] && s.conns[c].IsLoggedIn() && ValidChannel(line.params[0])
                    then Part(s, c, line.params[0]) else s)
  {
  }

  lemma {:induction false} ChannelLine(s: State, c: Id, line: Line, idOk: bool)
    requires Inv(s) && c in s.conns && !Registers(line) && line.command != "PRIVMSG"
    ensures var r := HandleLine(s, c, line, idOk); r.Good? && SameTables(s, r.state)
  {
    if line.command == "JOIN" {
      JoinLine(s, c, line, idOk);
      if line.params != [] { JoinFrame(s, c, line.params[0]); }
    } else if line.command == "PART" {
      PartLine(s, c, line, idOk);
    }
  }

  lemma {:induction false} LineKeepsContacts(s: State, c: Id, line: Line, idOk: bool)
    requires Inv(s) && Expected(s, Received(c, line, idOk)) && !IsCommand(s, c, line)
    ensures var r := HandleLine(s, c, line, idOk); r.Good? && SameContacts(s, r.state)
  {
    if Registers(line) {
      RegistrationKeepsContacts(s, c, line, idOk);
    } else if line.command == "PRIVMSG" {
      OtherPrivmsg(s, c, line, idOk);
    } else {
      ChannelLine(s, c, line, idOk);
    }
  }

  /** The contacts manager, or an add command, creates the contact. */
  predicate AddsContact(s: State, e: Event, k: ContactId)
    requires Possible(s, e)
  {
    && k == s.nextContact
    && (e.ContactAdded? || (e.Received? && IsCommand(s, e.c, e.line) && Adds(Words(e.line), e.idOk)))
  }

  /** The name that the event gives to a contact. */
  function NewName(s: State, e: Event, k: ContactId): Option<string>
    requires Possible(s, e)
  {
    match e
    case ContactAdded(name) => if k == s.nextContact then Some(name) else None
    case Received(c, line, idOk) =>
      if !IsCommand(s, c, line) then None
      else if k == s.nextContact && Adds(Words(line), idOk) then Some(Words(line)[2])
      else if Renames(s, Words(line), k) then Some(Words(line)[2])
      else None
    case _ => None
  }

  lemma {:induction false} LineContacts(s: State, c: Id, line: Line, idOk: bool, k: ContactId)
    requires Inv(s) && Expected(s, Received(c, line, idOk)) && HandleLine(s, c, line, idOk).Good?
    ensures var e, t := Received(c, line, idOk), HandleLine(s, c, line, idOk).state;
            && (k in t.contacts <==> (k in s.contacts || AddsContact(s, e, k)) && !UnmapsContact(s, e, k))
            && Lookup(t.nickname, k)
               == if UnmapsContact(s, e, k) then None
                  else if NewName(s, e, k).Some? then NewName(s, e, k) else Lookup(s.nickname, k)
  {
    if IsCommand(s, c, line) {
      CommandLine(s, c, line, idOk);
      CommandContacts(s, CommandBase(s, line), Words(line), idOk, k);
      CommandNames(s, CommandBase(s, line), Words(line), idOk, k);
    } else {
      LineKeepsContacts(s, c, line, idOk);
    }
  }

  /** The contacts after an event are those before and the one it adds, less the one it deletes. */
  lemma {:induction false} ContactsStep(s: State, e: Event, k: ContactId)
    requires Inv(s) && Expected(s, e) && Step(s, e).Good?
    ensures k in Step(s, e).state.contacts <==> (k in s.contacts || AddsContact(s, e, k)) && !UnmapsContact(s, e, k)
  {
    if e.Received? { LineContacts(s, e.c, e.line, e.idOk, k); }
  }

  /** A contact's name is the one it was added under or last renamed to; a deleted contact has none. */
  lemma {:induction false} NameStep(s: State, e: Event, k: ContactId)
    requires Inv(s) && Expected(s, e) && Step(s, e).Good?
    ensures Lookup(Step(s, e).state.nickname, k)
            == if UnmapsContact(s, e, k) then None
               else if NewName(s, e, k).Some? then NewName(s, e, k)
               else Lookup(s.nickname, k)
  {
    if e.Received? { LineContacts(s, e.c, e.line, e.idOk, k); }
  }

  lemma {:induction false} LineUsers(s: State, c: Id, line: Line, idOk: bool, k: ContactId)
    requires Inv(s) && Expected(s, Received(c, line, idOk)) && HandleLine(s, c, line, idOk).Good?
    ensures Lookup(HandleLine(s, c, line, idOk).state.usermap, k)
            == if DeletesContact(s, c, line, k) then None else Lookup(s.usermap, k)
  {
    if IsCommand(s, c, line) {
      CommandLine(s, c, line, idOk);
      CommandUsers(s, CommandBase(s, line), Words(line), idOk, k);
    } else {
      LineKeepsContacts(s, c, line, idOk);
    }
  }

  lemma {:induction false} ShowKeepsUsers(s: State, u: Id, status: Status)
    ensures ShowStatus(s, u, status).usermap == s.usermap
  {
  }

  lemma {:induction false} StatusUsers(s: State, k: ContactId, status: Status, seen: Id, l: ContactId)
    requires k in s.nickname
    ensures Lookup(ContactStatus(s, k, status, seen).usermap, l)
            == if l == k && !HasMember(s, s.control, s.nickname[k]) then Some(s.next) else Lookup(s.usermap, l)
  {
    ShowKeepsUsers(s, seen, status);
    ShowKeepsUsers(NewVirtualUser(s, k), s.next, status);
  }

  /** A contact keeps the IRC user made for it until it is deleted. */
  lemma {:induction false} UserStep(s: State, e: Event, k: ContactId)
    requires Inv(s) && Expected(s, e) && Step(s, e).Good?
    ensures Lookup(Step(s, e).state.usermap, k)
            == if UnmapsContact(s, e, k) then None
               else if MapsContact(s, e, k) then Some(s.next)
               else Lookup(s.usermap, k)
  {
    match e {
      case Received(c, line, idOk) => LineUsers(s, c, line, idOk, k);
      case StatusChanged(l, status, seen) => StatusUsers(s, l, status, seen, k);
      case _ =>
    }
  }

  // ---- the names of users ----

  /** The line gives its connection a nick that nobody has. */
  predicate TakesNick(s: State, c: Id, line: Line)
    requires c in s.conns
  {
    && line.command == "NICK" && s.conns[c].havePass && |line.params| >= 1
    && ValidNick(line.params[0]) && !Taken(s, line.params[0])
  }

  /** The name that the event gives to a user. */
  ghost function NewNick(s: State, e: Event, u: Id): Option<string>
    requires Possible(s, e)
  {
    match e
    case Connected => if u == s.next then Some("") else None
    case Received(c, line, _) =>
      if u == c && TakesNick(s, c, line) then Some(line.params[0])
      else if IsCommand(s, c, line) && RenamesUser(s, Words(line), u) then Some(Words(line)[2])
      else None
    case StatusChanged(k, _, _) => if u == s.next && MapsContact(s, e, k) then Some(s.nickname[k]) else None
    case _ => None
  }

  lemma {:induction false} RegistrationNicks(s: State, c: Id, line: Line, idOk: bool, u: Id)
    requires Inv(s) && c in s.conns && (CompletesLogin(s, c, line) ==> c in s.clients) && Registers(line)
    ensures HandleLine(s, c, line, idOk).Good?
    ensures Lookup(HandleLine(s, c, line, idOk).state.nick, u)
            == if u == c && TakesNick(s, c, line) then Some(line.params[0]) else Lookup(s.nick, u)
  {
    if line.command == "PASS" {
      PassLine(s, c, line, idOk);
    } else if s.conns[c].havePass {
      if CompletesLogin(s, c, line) {
        LoginLine(s, c, line, idOk);
      } else if line.command == "NICK" {
        NickLine(s, c, line, idOk);
      } else {
        UserLine(s, c, line, idOk);
      }
    }
  }

  lemma {:induction false} LineNicks(s: State, c: Id, line: Line, idOk: bool, u: Id)
    requires Inv(s) && Expected(s, Received(c, line, idOk)) && HandleLine(s, c, line, idOk).Good?
    ensures Lookup(HandleLine(s, c, line, idOk).state.nick, u)
            == if u == c && TakesNick(s, c, line) then Some(line.params[0])
               else if IsCommand(s, c, line) && RenamesUser(s, Words(line), u) then Some(Words(line)[2])
               else Lookup(s.nick, u)
  {
    if Registers(line) {
      RegistrationNicks(s, c, line, idOk, u);
    } else if IsCommand(s, c, line) {
      CommandLine(s, c, line, idOk);
      CommandNicks(s, CommandBase(s, line), Words(line), idOk, u);
    } else if line.command == "PRIVMSG" {
      OtherPrivmsg(s, c, line, idOk);
    } else {
      ChannelLine(s, c, line, idOk);
    }
  }

  /** A user's name is the last one that an event gave it. */
  lemma {:induction false} NickStep(s: State, e: Event, u: Id)
    requires Inv(s) && Expected(s, e) && Step(s, e).Good?
    ensures Lookup(Step(s, e).state.nick, u)
            == if NewNick(s, e, u).Some? then NewNick(s, e, u) else Lookup(s.nick, u)
  {
    if e.Received? { LineNicks(s, e.c, e.line, e.idOk, u); }
  }

  // ---- the clients ----

  /** A wrong password or malformed user data. */
  predicate BadLine(s: State, c: Id, line: Line)
    requires c in s.conns
  {
    || (line.command == "PASS" && !s.conns[c].havePass && |line.params| >= 1 && line.params[0] != s.password)
    || (line.command == "USER" && s.conns[c].havePass && |line.params| >= 4
        && (!ValidNick(line.params[0]) || !ValidRealname(line.params[3])))
  }

  /** The event closes the connection: its own socket or its own bad line does, or another client's login. */
  predicate Closes(s: State, e: Event, c: Id)
    requires Possible(s, e)
  {
    match e
    case SocketClosed(d) => d == c
    case Received(d, line, _) => if d == c then BadLine(s, d, line) else CompletesLogin(s, d, line)
    case _ => false
  }

  lemma {:induction false} RegistrationClients(s: State, c: Id, line: Line, idOk: bool, d: Id)
    requires Inv(s) && c in s.conns && (CompletesLogin(s, c, line) ==> c in s.clients) && Registers(line)
    ensures HandleLine(s, c, line, idOk).Good?
    ensures d in HandleLine(s, c, line, idOk).state.clients
      <==> d in s.clients && if d == c then !BadLine(s, c, line) else !CompletesLogin(s, c, line)
  {
    if line.command == "PASS" {
      PassLine(s, c, line, idOk);
    } else if s.conns[c].havePass {
      if CompletesLogin(s, c, line) {
        LoginLine(s, c, line, idOk);
      } else if line.command == "NICK" {
        NickLine(s, c, line, idOk);
      } else {
        UserLine(s, c, line, idOk);
      }
    }
  }

  /** Lines that do not register touch neither the connections nor their records. */
  lemma {:induction false} OtherLineConns(s: State, c: Id, line: Line, idOk: bool)
    requires Inv(s) && c in s.conns && !Registers(line) && HandleLine(s, c, line, idOk).Good?
    ensures var t := HandleLine(s, c, line, idOk).state; t.clients == s.clients && t.conns == s.conns
  {
    if line.command != "PRIVMSG" {
      ChannelLine(s, c, line, idOk);
    } else if IsCommand(s, c, line) {
      CommandLine(s, c, line, idOk);
    } else {
      OtherPrivmsg(s, c, line, idOk);
    }
  }

  /** The clients after an event are those before and the one that connects, less those it closes. */
  lemma {:induction false} ClientStep(s: State, e: Event, c: Id)
    requires Inv(s) && Expected(s, e) && Step(s, e).Good?
    ensures c in Step(s, e).state.clients <==> (c in s.clients || (e.Connected? && c == s.next)) && !Closes(s, e, c)
  {
    if e.Received? {
      if Registers(e.line) {
        RegistrationClients(s, e.c, e.line, e.idOk, c);
      } else {
        OtherLineConns(s, e.c, e.line, e.idOk);
      }
    }
  }

  // ---- how far a connection got with its registration ----

  /** The password, a nick, even a refused one, and user data each set their flag; all three together bring the welcome. */
  function Progress(conn: Conn, password: string, line: Line): Conn {
    var next :=
      if line.command == "PASS" && |line.params| >= 1 && line.params[0] == password then conn.(havePass := true)
      else if line.command == "NICK" && conn.havePass && |line.params| >= 1 && ValidNick(line.params[0]) then
        conn.(haveNick := true)
      else if line.command == "USER" && conn.havePass && |line.params| >= 4
              && ValidNick(line.params[0]) && ValidRealname(line.params[3]) then
        conn.(haveUser := true, user := line.params[0], realname := line.params[3])
      else conn;
    next.(welcomeSent := next.haveNick && next.haveUser && next.havePass)
  }

  lemma {:induction false} RegistrationConns(s: State, c: Id, line: Line, idOk: bool)
    requires Inv(s) && Registers(line) && c in s.conns && (CompletesLogin(s, c, line) ==> c in s.clients)
    ensures var r := HandleLine(s, c, line, idOk);
            r.Good? && r.state.conns == s.conns[c := Progress(s.conns[c], s.password, line)]
  {
    if line.command == "PASS" {
      PassLine(s, c, line, idOk);
    } else if s.conns[c].havePass {
      if CompletesLogin(s, c, line) {
        LoginLine(s, c, line, idOk);
      } else if line.command == "NICK" {
        NickLine(s, c, line, idOk);
      } else {
        UserLine(s, c, line, idOk);
      }
    }
  }

  lemma {:induction false} NoProgress(s: State, c: Id, line: Line)
    requires Inv(s) && !Registers(line) && c in s.conns
    ensures s.conns == s.conns[c := Progress(s.conns[c], s.password, line)]
  {
  }

  /** A record changes by its own connection's lines alone, and starts without any flag but that of an empty password. */
  lemma {:induction false} ConnStep(s: State, e: Event)
    requires Inv(s) && Expected(s, e) && Step(s, e).Good?
    ensures Step(s, e).state.conns
            == match e
               case Connected => s.conns[s.next := Conn(false, false, s.password == "", false, "", "")]
               case Received(c, line, _) => s.conns[c := Progress(s.conns[c], s.password, line)]
               case _ => s.conns
  {
    if e.Received? {
      if Registers(e.line) {
        RegistrationConns(s, e.c, e.line, e.idOk);
      } else {
        OtherLineConns(s, e.c, e.line, e.idOk);
        NoProgress(s, e.c, e.line);
      }
    }
  }

  // ---- the members of the channels ----

  /** The event takes the user out of the channel: its connection closes, quits or parts, or its contact is deleted. */
  ghost predicate Leaves(s: State, e: Event, channel: string, u: Id)
    requires Possible(s, e)
  {
    || (u in s.clients && Closes(s, e, u))
    || (&& e.Received? && e.c == u && s.conns[u].havePass
        && (|| e.line.command == "QUIT"
            || (e.line.command == "PART" && s.conns[u].IsLoggedIn() && e.line.params != [] && e.line.params[0] == channel
                && ValidChannel(channel))))
    || (e.Received? && IsCommand(s, e.c, e.line) && DeletesUser(s, Words(e.line), u))
  }

  /** The flags under which the event shows the user in the channel. */
  function Shows(s: State, e: Event, channel: string, u: Id): Option<string>
    requires Possible(s, e)
  {
    match e
    case Received(c, line, _) =>
      if u != c then None
      else if CompletesLogin(s, c, line) && channel == s.control then Some("+o")
      else if JoinsChannel(s, c, line) && channel == line.params[0] then Some("")
      else None
    case StatusChanged(k, status, seen) =>
      var absent := MapsContact(s, e, k);
      if channel != s.control || u != (if absent then s.next else seen) then None
      else if status == Online then Some("+v")
      else if status == Offline then Some("-v")
      else if absent then Some("+v")
      else None
    case _ => None
  }

  /** What the two predicates say about the channels before and after an event. */
  ghost predicate FlagsFollow(s: State, e: Event, t: State, channel: string, u: Id)
    requires Possible(s, e)
  {
    FlagsOf(t.channels, channel, u)
    == if Leaves(s, e, channel, u) then None
       else if Shows(s, e, channel, u).Some? then Shows(s, e, channel, u)
       else FlagsOf(s.channels, channel, u)
  }

  lemma {:induction false} JoinLineFlags(s: State, e: Event, channel: string, u: Id)
    requires Inv(s) && Possible(s, e) && e.Received? && e.line.command == "JOIN"
    ensures var r := HandleLine(s, e.c, e.line, e.idOk); r.Good? && FlagsFollow(s, e, r.state, channel, u)
  {
    JoinLine(s, e.c, e.line, e.idOk);
    if e.line.params != [] { JoinFlags(s, e.c, e.line.params[0], channel, u); }
  }

  lemma {:induction false} PartLineFlags(s: State, e: Event, channel: string, u: Id)
    requires Inv(s) && Possible(s, e) && e.Received? && e.line.command == "PART"
    ensures var r := HandleLine(s, e.c, e.line, e.idOk); r.Good? && FlagsFollow(s, e, r.state, channel, u)
  {
    PartLine(s, e.c, e.line, e.idOk);
    if e.line.params != [] { PartFlags(s, e.c, e.line.params[0], channel, u); }
  }

  lemma {:induction false} OtherLineFlags(s: State, e: Event, channel: string, u: Id)
    requires Inv(s) && Possible(s, e) && e.Received? && !Registers(e.line)
    requires e.line.command !in {"PRIVMSG", "JOIN", "PART"}
    ensures var r := HandleLine(s, e.c, e.line, e.idOk); r.Good? && FlagsFollow(s, e, r.state, channel, u)
  {
    RemoveFlags(s.channels, {e.c}, channel, u);
  }

  lemma {:induction false} PrivmsgFlags(s: State, e: Event, channel: string, u: Id)
    requires Inv(s) && Possible(s, e) && e.Received? && e.line.command == "PRIVMSG"
    ensures var r := HandleLine(s, e.c, e.line, e.idOk); r.Good? ==> FlagsFollow(s, e, r.state, channel, u)
  {
    if !IsCommand(s, e.c, e.line) {
      OtherPrivmsg(s, e.c, e.line, e.idOk);
    } else if HandleLine(s, e.c, e.line, e.idOk).Good? {
      CommandLine(s, e.c, e.line, e.idOk);
      CommandFlags(s, CommandBase(s, e.line), Words(e.line), e.idOk, channel, u);
    }
  }

  lemma {:induction false} LoginFlags(s: State, e: Event, channel: string, u: Id)
    requires Inv(s) && Possible(s, e) && e.Received? && CompletesLogin(s, e.c, e.line) && e.c in s.clients
    ensures var r := HandleLine(s, e.c, e.line, e.idOk); r.Good? && FlagsFollow(s, e, r.state, channel, u)
  {
    LoginLine(s, e.c, e.line, e.idOk);
    LogInFlags(SetConn(LoginBase(s, e.c, e.line), e.c, LoginConn(s, e.c, e.line)), e.c, channel, u);
  }

  lemma {:induction false} PassFlags(s: State, e: Event, channel: string, u: Id)
    requires Inv(s) && Possible(s, e) && e.Received? && e.line.command == "PASS"
    ensures var r := HandleLine(s, e.c, e.line, e.idOk); r.Good? && FlagsFollow(s, e, r.state, channel, u)
  {
    RemoveFlags(s.channels, {e.c}, channel, u);
    PassLine(s, e.c, e.line, e.idOk);
  }

  lemma {:induction false} NickFlags(s: State, e: Event, channel: string, u: Id)
    requires Inv(s) && Possible(s, e) && e.Received? && e.line.command == "NICK" && !CompletesLogin(s, e.c, e.line)
    ensures var r := HandleLine(s, e.c, e.line, e.idOk); r.Good? && FlagsFollow(s, e, r.state, channel, u)
  {
    if s.conns[e.c].havePass { NickLine(s, e.c, e.line, e.idOk); }
  }

  lemma {:induction false} UserFlags(s: State, e: Event, channel: string, u: Id)
    requires Inv(s) && Possible(s, e) && e.Received? && e.line.command == "USER" && !CompletesLogin(s, e.c, e.line)
    ensures var r := HandleLine(s, e.c, e.line, e.idOk); r.Good? && FlagsFollow(s, e, r.state, channel, u)
  {
    RemoveFlags(s.channels, {e.c}, channel, u);
    if s.conns[e.c].havePass { UserLine(s, e.c, e.line, e.idOk); }
  }

  lemma {:induction false} ShowFlags(s: State, v: Id, status: Status, channel: string, u: Id)
    ensures FlagsOf(ShowStatus(s, v, status).channels, channel, u)
            == if u == v && channel == s.control && status == Online then Some("+v")
               else if u == v && channel == s.control && status == Offline then Some("-v")
               else FlagsOf(s.channels, channel, u)
  {
    SetFlagsFlags(s, s.control, v, "+v", channel, u);
    SetFlagsFlags(s, s.control, v, "-v", channel, u);
  }

  lemma {:induction false} NewVirtualFlags(s: State, k: ContactId, channel: string, u: Id)
    requires k in s.nickname
    ensures FlagsOf(NewVirtualUser(s, k).channels, channel, u)
            == if u == s.next && channel == s.control then Some("+v") else FlagsOf(s.channels, channel, u)
  {
    SetFlagsFlags(s.(nick := s.nick[s.next := s.nickname[k]], next := s.next + 1), s.control, s.next, "+v", channel, u);
  }

  lemma {:induction false} StatusFlags(s: State, e: Event, channel: string, u: Id)
    requires Inv(s) && Possible(s, e) && e.StatusChanged?
    ensures FlagsFollow(s, e, ContactStatus(s, e.k, e.status, e.seen), channel, u)
  {
    NewVirtualFlags(s, e.k, channel, u);
    if HasMember(s, s.control, s.nickname[e.k]) {
      ShowFlags(s, e.seen, e.status, channel, u);
    } else {
      ShowFlags(NewVirtualUser(s, e.k), s.next, e.status, channel, u);
    }
  }

  lemma {:induction false} CloseFlags(s: State, e: Event, channel: string, u: Id)
    requires Inv(s) && Possible(s, e) && e.SocketClosed?
    ensures FlagsFollow(s, e, Disconnect(s, e.c), channel, u)
  {
    RemoveFlags(s.channels, {e.c}, channel, u);
  }

  /** Who is in a channel after an event, and with which flags. */
  lemma {:induction false} MemberStep(s: State, e: Event, channel: string, u: Id)
    requires Inv(s) && Expected(s, e) && Step(s, e).Good?
    ensures FlagsFollow(s, e, Step(s, e).state, channel, u)
  {
    match e {
      case Received(c, line, idOk) =>
        if line.command == "PRIVMSG" {
          PrivmsgFlags(s, e, channel, u);
        } else if line.command == "JOIN" {
          JoinLineFlags(s, e, channel, u);
        } else if line.command == "PART" {
          PartLineFlags(s, e, channel, u);
        } else if !Registers(line) {
          OtherLineFlags(s, e, channel, u);
        } else if CompletesLogin(s, c, line) {
          LoginFlags(s, e, channel, u);
        } else if line.command == "PASS" {
          PassFlags(s, e, channel, u);
        } else if line.command == "NICK" {
          NickFlags(s, e, channel, u);
        } else {
          UserFlags(s, e, channel, u);
        }
      case StatusChanged(_, _, _) => StatusFlags(s, e, channel, u);
      case SocketClosed(_) => CloseFlags(s, e, channel, u);
      case _ =>
    }
  }

  // ---- over whole runs ----

  /** Whether a contact is there after a run: it was added, and not deleted since. */
  function Listed(s: State, events: seq<Event>, k: ContactId, before: bool): bool
    requires IsRun(s, events)
    decreases events
  {
    if events == [] then before
    else
      var e := events[0];
      Listed(Step(s, e).state, events[1..], k, (before || AddsContact(s, e, k)) && !UnmapsContact(s, e, k))
  }

  lemma {:induction false} ContactsFrom(s: State, events: seq<Event>, k: ContactId)
    requires Inv(s) && IsRun(s, events)
    ensures k in Run(s, events).contacts <==> Listed(s, events, k, k in s.contacts)
    decreases events
  {
    if events != [] {
      ContactsStep(s, events[0], k);
      StepExact(s, events[0]);
      ContactsFrom(Step(s, events[0]).state, events[1..], k);
    }
  }

  /** In every reachable state the contacts are those added and not deleted since. */
  lemma {:induction false} ContactsHistory(password: string, control: string, events: seq<Event>, k: ContactId)
    requires IsRun(Start(password, control), events)
    ensures k in Run(Start(password, control), events).contacts <==> Listed(Start(password, control), events, k, false)
  {
    StartInv(password, control);
    ContactsFrom(Start(password, control), events, k);
  }

  /** The name of a contact after a run: the last one given, unless it was deleted since. */
  function NameAfter(s: State, events: seq<Event>, k: ContactId, before: Option<string>): Option<string>
    requires IsRun(s, events)
    decreases events
  {
    if events == [] then before
    else
      var e := events[0];
      NameAfter(Step(s, e).state, events[1..], k,
                if UnmapsContact(s, e, k) then None
                else if NewName(s, e, k).Some? then NewName(s, e, k)
                else before)
  }

  lemma {:induction false} NamesFrom(s: State, events: seq<Event>, k: ContactId)
    requires Inv(s) && IsRun(s, events)
    ensures Lookup(Run(s, events).nickname, k) == NameAfter(s, events, k, Lookup(s.nickname, k))
    decreases events
  {
    if events != [] {
      NameStep(s, events[0], k);
      StepExact(s, events[0]);
      NamesFrom(Step(s, events[0]).state, events[1..], k);
    }
  }

  lemma {:induction false} NamesHistory(password: string, control: string, events: seq<Event>, k: ContactId)
    requires IsRun(Start(password, control), events)
    ensures Lookup(Run(Start(password, control), events).nickname, k) == NameAfter(Start(password, control), events, k, None)
  {
    StartInv(password, control);
    NamesFrom(Start(password, control), events, k);
  }

  /** The nick of a user after a run: the last one given. */
  ghost function NickAfter(s: State, events: seq<Event>, u: Id, before: Option<string>): Option<string>
    requires IsRun(s, events)
    decreases events
  {
    if events == [] then before
    else
      var e := events[0];
      NickAfter(Step(s, e).state, events[1..], u, if NewNick(s, e, u).Some? then NewNick(s, e, u) else before)
  }

  lemma {:induction false} NicksFrom(s: State, events: seq<Event>, u: Id)
    requires Inv(s) && IsRun(s, events)
    ensures Lookup(Run(s, events).nick, u) == NickAfter(s, events, u, Lookup(s.nick, u))
    decreases events
  {
    if events != [] {
      NickStep(s, events[0], u);
      StepExact(s, events[0]);
      NicksFrom(Step(s, events[0]).state, events[1..], u);
    }
  }

  lemma {:induction false} NicksHistory(password: string, control: string, events: seq<Event>, u: Id)
    requires IsRun(Start(password, control), events)
    ensures Lookup(Run(Start(password, control), events).nick, u)
            == NickAfter(Start(password, control), events, u, if u == 0 then Some("ricochet") else None)
  {
    StartInv(password, control);
    NicksFrom(Start(password, control), events, u);
  }

  /** A user's flags in a channel after a run: the last shown, unless the user left since. */
  ghost function FlagsAfter(s: State, events: seq<Event>, channel: string, u: Id, before: Option<string>): Option<string>
    requires IsRun(s, events)
    decreases events
  {
    if events == [] then before
    else
      var e := events[0];
      FlagsAfter(Step(s, e).state, events[1..], channel, u,
                 if Leaves(s, e, channel, u) then None
                 else if Shows(s, e, channel, u).Some? then Shows(s, e, channel, u)
                 else before)
  }

  lemma {:induction false} MembersFrom(s: State, events: seq<Event>, channel: string, u: Id)
    requires Inv(s) && IsRun(s, events)
    ensures FlagsOf(Run(s, events).channels, channel, u)
            == FlagsAfter(s, events, channel, u, FlagsOf(s.channels, channel, u))
    decreases events
  {
    if events != [] {
      MemberStep(s, events[0], channel, u);
      StepExact(s, events[0]);
      MembersFrom(Step(s, events[0]).state, events[1..], channel, u);
    }
  }

  /** At the start @ricochet alone is in the control channel, with the flag of its owner. */
  lemma {:induction false} MembersHistory(password: string, control: string, events: seq<Event>, channel: string, u: Id)
    requires IsRun(Start(password, control), events)
    ensures FlagsOf(Run(Start(password, control), events).channels, channel, u)
            == FlagsAfter(Start(password, control), events, channel, u,
                          if u == 0 && channel == control then Some("@") else None)
  {
    StartInv(password, control);
    MembersFrom(Start(password, control), events, channel, u);
  }
}
