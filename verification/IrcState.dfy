/**
 The IRC gateway: IrcServer, IrcConnection, IrcChannel and RicochetIrcServer as one state machine.
 Object pointers are ids into record tables, so two names for one object stay one object.
 */
module IrcState {
  import opened Options
  import opened Strings

  type Id = nat
  type ContactId = nat
  type Members = map<Id, string>
  type Channels = map<string, Members>

  /** The login flags and user data of an IrcConnection. */
  datatype Conn = Conn(haveNick: bool, haveUser: bool, havePass: bool, welcomeSent: bool, user: string, realname: string)
  {
    predicate IsLoggedIn() {
      haveNick && haveUser && havePass
    }
  }

  datatype State = State(
    password: string,
    control: string,                // control_channel_name
    nick: map<Id, string>,          // every IrcUser ever created
    conns: map<Id, Conn>,           // every IrcConnection ever created
    clients: set<Id>,
    open: set<Id>,                  // connections whose socket is open
    virtuals: seq<Id>,              // virtual_clients
    channels: Channels,
    usermap: map<ContactId, Id>,
    contacts: seq<ContactId>,       // the contacts manager's list
    nickname: map<ContactId, string>,
    next: Id,                       // the next object to be created
    nextContact: ContactId,
    welcomes: seq<Id>               // the connections welcomed so far, in order
  )

  const RICOCHET: Id := 0
  const RICOCHET_NICK := "ricochet"

  /** RicochetIrcServer::run, before any contact is known. */
  function Start(password: string, control: string): State {
    State(password, control, map[RICOCHET := RICOCHET_NICK], map[], {}, {}, [RICOCHET],
          map[control := map[RICOCHET := "@"]], map[], [], map[], 1, 0, [])
  }

  // ---- what the handlers accept ----

  predicate IsNickHead(c: char) {
    c in "][`_^{|}" || 'A' <= c <= 'Z' || 'a' <= c <= 'z'
  }

  predicate IsNickTail(c: char) {
    IsNickHead(c) || '0' <= c <= '9' || c == '-'
  }

  /** The text up to a last newline. */
  function Body(s: string): string {
    if s != "" && s[|s| - 1] == '\n' then s[..|s| - 1] else s
  }

  /** re_nickname and re_user; the closing anchor also matches before one final newline. */
  predicate ValidNick(s: string) {
    var body := Body(s);
    1 <= |body| <= 51 && IsNickHead(body[0]) && forall i | 1 <= i < |body| :: IsNickTail(body[i])
  }

  /** re_realname is not anchored at the end. */
  predicate ValidRealname(s: string) {
    s != "" && (s[0] in ".-" || 'A' <= s[0] <= 'Z' || 'a' <= s[0] <= 'z' || '0' <= s[0] <= '9')
  }

  predicate IsChannelHead(c: char) {
    c in "&#+!"
  }

  predicate IsChannelTail(c: char) {
    c !in "\0\n\r ,:" && c != '\U{0007}'
  }

  predicate ValidChannel(s: string) {
    var body := Body(s);
    1 <= |body| <= 51 && IsChannelHead(body[0]) && forall i | 1 <= i < |body| :: IsChannelTail(body[i])
  }

  /** QChar::isSpace: the five control characters, the next-line character, and Unicode's separators. */
  predicate IsBlank(c: char) {
    '\t' <= c <= '\r' || c == ' '
    || c == '\U{0085}' || c == '\U{00A0}' || c == '\U{1680}' || '\U{2000}' <= c <= '\U{200A}'
    || c == '\U{2028}' || c == '\U{2029}' || c == '\U{202F}' || c == '\U{205F}' || c == '\U{3000}'
  }

  function TrimLeft(s: string): string {
    if s != "" && IsBlank(s[0]) then TrimLeft(s[1..]) else s
  }

  function Trim(s: string): string
    decreases |s|
  {
    if s != "" && IsBlank(s[|s| - 1]) then Trim(s[..|s| - 1]) else TrimLeft(s)
  }

  // ---- lookups ----

  function Named(nick: map<Id, string>, u: Id): string {
    if u in nick then nick[u] else ""
  }

  function NickOf(s: State, u: Id): string {
    Named(s.nick, u)
  }

  /** findUser finds somebody. */
  predicate Taken(s: State, nick: string) {
    (exists c | c in s.clients :: NickOf(s, c) == nick) || (exists u | u in s.virtuals :: NickOf(s, u) == nick)
  }

  function MembersOf(s: State, channel: string): Members {
    if channel in s.channels then s.channels[channel] else map[]
  }

  predicate HasMember(s: State, channel: string, nick: string) {
    exists u | u in MembersOf(s, channel) :: NickOf(s, u) == nick
  }

  /** getShimContactByNickname: the first contact of that name. */
  function FirstContact(contacts: seq<ContactId>, nickname: map<ContactId, string>, name: string): Option<ContactId> {
    if contacts == [] then None
    else if contacts[0] in nickname && nickname[contacts[0]] == name then Some(contacts[0])
    else FirstContact(contacts[1..], nickname, name)
  }

  function Without(xs: seq<nat>, x: nat): seq<nat> {
    if xs == [] then [] else if xs[0] == x then xs[1..] else [xs[0]] + Without(xs[1..], x)
  }

  // ---- IrcServer ----

  function RemoveEverywhere(channels: Channels, gone: set<Id>): Channels {
    map c | c in channels :: channels[c] - gone
  }

  function Connect(s: State): State {
    s.(nick := s.nick[s.next := ""],
       conns := s.conns[s.next := Conn(false, false, s.password == "", false, "", "")],
       clients := s.clients + {s.next}, open := s.open + {s.next}, next := s.next + 1)
  }

  function Quit(s: State, u: Id): State {
    s.(channels := RemoveEverywhere(s.channels, {u}))
  }

  function Disconnect(s: State, c: Id): State {
    s.(channels := RemoveEverywhere(s.channels, {c}), clients := s.clients - {c}, open := s.open - {c})
  }

  /** Closing an open socket signals disconnected; a closed one signals nothing more. */
  function CloseSocket(s: State, c: Id): State {
    if c in s.open then Disconnect(s, c) else s
  }

  function Rename(s: State, u: Id, nick: string): State {
    if Taken(s, nick) then s else s.(nick := s.nick[u := nick])
  }

  function WithChannel(s: State, channel: string): State {
    if channel in s.channels then s else s.(channels := s.channels[channel := map[]])
  }

  function Enter(members: Members, u: Id, flags: string): Members {
    members[u := flags]
  }

  function Part(s: State, c: Id, channel: string): State {
    var t := WithChannel(s, channel);
    t.(channels := t.channels[channel := t.channels[channel] - {c}])
  }

  function Join(s: State, c: Id, channel: string): State {
    if !ValidChannel(channel) then s
    else
      var t := WithChannel(s, channel);
      if HasMember(t, channel, NickOf(t, c)) then t
      else t.(channels := t.channels[channel := Enter(t.channels[channel], c, "")])
  }

  /** setMemberFlags inserts a user that is not a member yet. */
  function SetFlags(s: State, channel: string, u: Id, flags: string): State {
    var t := WithChannel(s, channel);
    t.(channels := t.channels[channel := Enter(t.channels[channel], u, flags)])
  }

  // ---- login ----

  function KillOthers(s: State, c: Id): State {
    var others := s.clients - {c};
    s.(channels := RemoveEverywhere(s.channels, others), clients := s.clients - others, open := s.open - others)
  }

  /** ircUserLoggedIn: join the control channel as operator, and close every other connection. */
  function LogIn(s: State, c: Id): State {
    var t := SetFlags(Join(s, c, s.control), s.control, c, "+o");
    if |t.clients| > 1 then KillOthers(t, c) else t
  }

  function CheckLogin(s: State, c: Id): State {
    if c in s.conns && s.conns[c].IsLoggedIn() && !s.conns[c].welcomeSent then
      var t := LogIn(s, c);
      t.(conns := t.conns[c := s.conns[c].(welcomeSent := true)], welcomes := t.welcomes + [c])
    else s
  }

  function SetConn(s: State, c: Id, conn: Conn): State {
    s.(conns := s.conns[c := conn])
  }

  function HandlePass(s: State, c: Id, params: seq<string>): State
    requires c in s.conns
  {
    if |params| < 1 then s
    else if s.conns[c].havePass then CheckLogin(s, c)
    else if s.password == params[0] then CheckLogin(SetConn(s, c, s.conns[c].(havePass := true)), c)
    else CloseSocket(s, c)
  }

  /** The flag is set even when the nick was refused. */
  function HandleNick(s: State, c: Id, params: seq<string>): State
    requires c in s.conns
  {
    if |params| < 1 || !ValidNick(params[0]) then s
    else
      var t := Rename(s, c, params[0]);
      if s.conns[c].haveNick then t else CheckLogin(SetConn(t, c, s.conns[c].(haveNick := true)), c)
  }

  function HandleUser(s: State, c: Id, params: seq<string>): State
    requires c in s.conns
  {
    if |params| < 4 then s
    else if !ValidNick(params[0]) || !ValidRealname(params[3]) then CloseSocket(s, c)
    else CheckLogin(SetConn(s, c, s.conns[c].(haveUser := true, user := params[0], realname := params[3])), c)
  }

  // ---- the control channel's commands ----

  /** Deleting a contact that has no IRC user yet makes the server follow a null pointer. */
  datatype Outcome = Good(state: State) | NullPointer

  function AddContact(s: State, name: string): State {
    s.(contacts := s.contacts + [s.nextContact], nickname := s.nickname[s.nextContact := name],
       nextContact := s.nextContact + 1)
  }

  function CmdDelete(s: State, args: seq<string>): Outcome {
    if |args| != 1 then Good(s)
    else
      match FirstContact(s.contacts, s.nickname, args[0])
      case None => Good(s)
      case Some(k) =>
        if k !in s.usermap then NullPointer
        else
          var u := s.usermap[k];
          Good(s.(contacts := Without(s.contacts, k), nickname := s.nickname - {k}, virtuals := Without(s.virtuals, u),
                  channels := RemoveEverywhere(s.channels, {u}), usermap := s.usermap - {k}))
  }

  function CmdRename(s: State, args: seq<string>): State {
    if |args| != 2 || FirstContact(s.contacts, s.nickname, args[1]).Some? || Taken(s, args[1]) then s
    else
      match FirstContact(s.contacts, s.nickname, args[0])
      case None => s
      case Some(k) =>
        var t := s.(nickname := s.nickname[k := args[1]]);
        if k in s.usermap then t.(nick := t.nick[s.usermap[k] := args[1]]) else t
  }

  /** The validator of contact ids is foreign code: idOk is its verdict. */
  function CmdAdd(s: State, args: seq<string>, idOk: bool): State {
    if |args| < 3 || !idOk then s else AddContact(s, args[1])
  }

  function Command(s: State, words: seq<string>, idOk: bool): Outcome
    requires |words| > 0
  {
    if words[0] == "delete" then CmdDelete(s, words[1..])
    else if words[0] == "rename" then Good(CmdRename(s, words[1..]))
    else if words[0] == "add" then Good(CmdAdd(s, words[1..], idOk))
    else Good(s)
  }

  function HandlePrivmsg(s: State, c: Id, params: seq<string>, idOk: bool): Outcome
    requires c in s.conns
  {
    if |params| < 2 || !s.conns[c].IsLoggedIn() then Good(s)
    else
      var t := if params[0] != "" && params[0][0] == '#' then WithChannel(s, params[0]) else s;
      if params[0] == s.control && NickOf(s, c) != NickOf(s, RICOCHET) then Command(t, Split(Trim(params[1]), ' '), idOk)
      else Good(t)
  }

  // ---- lines ----

  datatype Line = Line(command: string, params: seq<string>)

  const COMMANDS: set<string> := {"PASS", "NICK", "USER", "JOIN", "PING", "PRIVMSG", "PART", "QUIT"}

  function HandleLine(s: State, c: Id, line: Line, idOk: bool): Outcome
    requires c in s.conns
  {
    if line.command !in COMMANDS || (!s.conns[c].havePass && line.command != "PASS") then Good(s)
    else if line.command == "PASS" then Good(HandlePass(s, c, line.params))
    else if line.command == "NICK" then Good(HandleNick(s, c, line.params))
    else if line.command == "USER" then Good(HandleUser(s, c, line.params))
    else if line.command == "JOIN" then
      Good(if |line.params| >= 1 && s.conns[c].IsLoggedIn() then Join(s, c, line.params[0]) else s)
    else if line.command == "PART" then
      Good(if |line.params| >= 1 && s.conns[c].IsLoggedIn() && ValidChannel(line.params[0])
           then Part(s, c, line.params[0]) else s)
    else if line.command == "QUIT" then Good(Quit(s, c))
    else if line.command == "PRIVMSG" then HandlePrivmsg(s, c, line.params, idOk)
    else Good(s)
  }

  // ---- contacts ----

  datatype Status = Online | Offline | OtherStatus

  function ShowStatus(s: State, u: Id, status: Status): State {
    match status
    case Online => SetFlags(s, s.control, u, "+v")
    case Offline => SetFlags(s, s.control, u, "-v")
    case OtherStatus => s
  }

  /** A virtual user for a contact, entered into the control channel, the list and the map. */
  function NewVirtualUser(s: State, k: ContactId): State
    requires k in s.nickname
  {
    var t := SetFlags(s.(nick := s.nick[s.next := s.nickname[k]], next := s.next + 1), s.control, s.next, "+v");
    t.(usermap := t.usermap[k := s.next], virtuals := t.virtuals + [s.next])
  }

  /** seen is the member that getMember returns when the control channel has one of the contact's name. */
  function ContactStatus(s: State, k: ContactId, status: Status, seen: Id): State
    requires k in s.nickname
  {
    if HasMember(s, s.control, s.nickname[k]) then ShowStatus(s, seen, status)
    else ShowStatus(NewVirtualUser(s, k), s.next, status)
  }

  // ---- events and runs ----

  datatype Event =
    | Connected
    | Received(c: Id, line: Line, idOk: bool)
    | SocketClosed(c: Id)
    | ContactAdded(name: string)
    | StatusChanged(k: ContactId, status: Status, seen: Id)

  predicate Possible(s: State, e: Event) {
    match e
    case Received(c, _, _) => c in s.conns
    case SocketClosed(c) => c in s.conns
    case StatusChanged(k, _, seen) =>
      k in s.nickname && k in s.contacts
      && (HasMember(s, s.control, s.nickname[k]) ==>
            seen in MembersOf(s, s.control) && NickOf(s, seen) == s.nickname[k])
    case _ => true
  }

  function Step(s: State, e: Event): Outcome
    requires Possible(s, e)
  {
    match e
    case Connected => Good(Connect(s))
    case Received(c, line, idOk) => HandleLine(s, c, line, idOk)
    case SocketClosed(c) => Good(Disconnect(s, c))
    case ContactAdded(name) => Good(AddContact(s, name))
    case StatusChanged(k, status, seen) => Good(ContactStatus(s, k, status, seen))
  }
}
