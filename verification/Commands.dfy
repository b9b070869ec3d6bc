/**
 * What a line of user input does (src/state_start.c, state_auth.c, state_open.c, state_join.c and the
 * cmd_*.c files): the state and the display name it leaves, and the request it sends, if any.
 * The same code serves both transports; `tcp` is the flag `use_tcp_protocol`.
 */
module Commands {
  import opened Base
  import opened Validation

  datatype AppState = Start | Auth | Open | Join

  /** A line after `strtok`: the command word with the tokens that follow it, or a chat line. */
  datatype Command =
    | AuthCmd(args: seq<CString>)
    | JoinCmd(args: seq<CString>)
    | RenameCmd(args: seq<CString>)
    | HelpCmd
    | SayCmd(line: CString)

  /** A message the client sends on its own initiative, before it is encoded for a transport. */
  datatype Request =
    | AuthRequest(username: CString, name: CString, secret: CString)
    | JoinRequest(channel: CString, name: CString)
    | SayRequest(name: CString, content: CString)
    | ByeRequest(name: CString)

  datatype Reaction = Reaction(state: AppState, name: CString, emit: Option<Request>)

  /** `strncpy` into a zeroed buffer of n + 1 bytes. */
  function Clip(s: CString, n: nat): CString {
    if |s| <= n then s else s[..n]
  }

  function CmdAuth(tcp: bool, state: AppState, name: CString, args: seq<CString>): Reaction {
    if |args| < 3 then Reaction(state, name, None)
    else
      var username, secret, newName := Clip(args[0], MAX_ID), Clip(args[1], MAX_SECRET), Clip(args[2], MAX_NAME);
      if !ValidId(username) || !ValidSecret(secret) || !ValidName(newName) then Reaction(state, name, None)
      else Reaction(if tcp then Auth else state, newName, Some(AuthRequest(username, newName, secret)))
  }

  function CmdJoin(state: AppState, name: CString, args: seq<CString>): Reaction {
    if |args| < 1 then Reaction(state, name, None)
    else
      var channel := Clip(args[0], MAX_ID);
      if !ValidId(channel) || !ValidName(name) then Reaction(state, name, None)
      else Reaction(Join, name, Some(JoinRequest(channel, name)))
  }

  function CmdRename(state: AppState, name: CString, args: seq<CString>): Reaction {
    if |args| < 1 || !ValidName(Clip(args[0], MAX_NAME)) then Reaction(state, name, None)
    else Reaction(state, Clip(args[0], MAX_NAME), None)
  }

  /** The line reached `cmd_msg` through a buffer of 60000 bytes, so at most 59999 survive. */
  function CmdMsg(state: AppState, name: CString, line: CString): Reaction {
    var content := Clip(line, MAX_CONTENT - 1);
    if !ValidName(name) || !ValidContent(content) then Reaction(state, name, None)
    else Reaction(state, name, Some(SayRequest(name, content)))
  }

  function Dispatch(tcp: bool, state: AppState, name: CString, cmd: Command): Reaction {
    match (state, cmd)
    case (_, RenameCmd(args)) => CmdRename(state, name, args)
    case (Start, AuthCmd(args)) => CmdAuth(tcp, Auth, name, args)
    case (Auth, AuthCmd(args)) => CmdAuth(tcp, state, name, args)
    case (Open, JoinCmd(args)) => CmdJoin(state, name, args)
    case (Open, SayCmd(line)) => CmdMsg(state, name, line)
    case _ => Reaction(state, name, None)
  }

  /** The parameters obey the rules of validation.c and the buffer sizes of the client. */
  predicate ValidRequest(r: Request) {
    match r
    case AuthRequest(username, name, secret) => ValidId(username) && ValidName(name) && ValidSecret(secret)
    case JoinRequest(channel, name) => ValidId(channel) && ValidName(name)
    case SayRequest(name, content) => ValidName(name) && ValidContent(content) && |content| < MAX_CONTENT
    case ByeRequest(name) => ValidName(name)
  }

  /** What has to happen before an edge of the published automaton may be taken: nothing, or a negative REPLY. */
  datatype Trigger = Spontaneous | Refusal

  /** The edges of diagrams/protocol_fsm_client.dot that end in an output of the client, and staying put without one. */
  predicate PublishedEdge(from: AppState, trigger: Trigger, emit: Option<Request>, to: AppState) {
    match emit
    case None => trigger == Spontaneous && to == from
    case Some(AuthRequest(_, _, _)) => to == Auth && from == if trigger == Refusal then Auth else Start
    case Some(JoinRequest(_, _)) => trigger == Spontaneous && from == Open && to == Join
    case Some(SayRequest(_, _)) => trigger == Spontaneous && from == Open && to == Open
    case Some(ByeRequest(_)) => false
  }

  predicate PublishedInputEdge(from: AppState, emit: Option<Request>, to: AppState) {
    PublishedEdge(from, Spontaneous, emit, to) || PublishedEdge(from, Refusal, emit, to)
  }

  /** The three checks of `cmd_auth` on the clipped parameters. */
  predicate Accepted(args: seq<CString>) {
    && |args| >= 3
    && ValidId(Clip(args[0], MAX_ID)) && ValidSecret(Clip(args[1], MAX_SECRET)) && ValidName(Clip(args[2], MAX_NAME))
  }

  /** An /auth that is refused after the state was already changed. */
  predicate RefusedAuth(state: AppState, cmd: Command) {
    state == Start && cmd.AuthCmd? && !Accepted(cmd.args)
  }

  /** No input makes the client send an invalid parameter, spoil its display name, or send from the wrong state. */
  lemma DispatchIsSafe(tcp: bool, state: AppState, name: CString, cmd: Command)
    requires ValidName(name)
    ensures var r := Dispatch(tcp, state, name, cmd);
            && ValidName(r.name)
            && (PublishedInputEdge(state, r.emit, r.state) || (RefusedAuth(state, cmd) && r == Reaction(Auth, name, None)))
            && (r.emit.Some? ==> ValidRequest(r.emit.value) && r.emit.value.name == r.name)
  {
  }

  /** The state changes without any output, off the published automaton, exactly for a refused /auth in START. */
  lemma DispatchLeavesDiagramExactly(tcp: bool, state: AppState, name: CString, cmd: Command)
    ensures var r := Dispatch(tcp, state, name, cmd);
            && (!PublishedInputEdge(state, r.emit, r.state) <==> RefusedAuth(state, cmd))
            && (r.emit.None? && r.state != state <==> RefusedAuth(state, cmd))
  {
  }

  /** Such an input: /auth without parameters. */
  lemma BareAuthLeavesDiagram(tcp: bool, name: CString)
    ensures Dispatch(tcp, Start, name, AuthCmd([])) == Reaction(Auth, name, None)
    ensures !PublishedInputEdge(Start, None, Auth)
  {
  }

  /** The inputs that send something, whether typed within the limits or cut to them, and only those. */
  lemma DispatchEmitsExactly(tcp: bool, state: AppState, name: CString, cmd: Command)
    ensures Dispatch(tcp, state, name, cmd).emit.Some? <==>
      match cmd
      case AuthCmd(args) =>
        state in {Start, Auth} && |args| >= 3 &&
        ValidId(Clip(args[0], 20)) && ValidSecret(Clip(args[1], 128)) && ValidName(Clip(args[2], 20))
      case JoinCmd(args) => state == Open && |args| >= 1 && ValidId(Clip(args[0], 20)) && ValidName(name)
      case SayCmd(line) => state == Open && ValidName(name) && ValidContent(Clip(line, 59999))
      case RenameCmd(_) => false
      case HelpCmd => false
  {
  }

  // ----- the array behind the display name -----

  /** The size of the global `display_name`. */
  const DISPLAY_NAME_SIZE: nat := MAX_NAME

  /** `strcpy` of a C string into an array writes the string and its terminator. */
  predicate CopyFits(s: Bytes, size: nat) {
    |s| + 1 <= size
  }

  /** The display name an input copies into the global, if it copies one. */
  function Copied(state: AppState, cmd: Command): Option<CString> {
    match cmd
    case AuthCmd(args) => if state in {Start, Auth} && Accepted(args) then Some(Clip(args[2], MAX_NAME)) else None
    case RenameCmd(args) =>
      if |args| >= 1 && ValidName(Clip(args[0], MAX_NAME)) then Some(Clip(args[0], MAX_NAME)) else None
    case _ => None
  }

  /** The name as it was typed. */
  function TypedName(cmd: Command): CString
    requires (cmd.AuthCmd? && |cmd.args| >= 3) || (cmd.RenameCmd? && |cmd.args| >= 1)
  {
    if cmd.AuthCmd? then cmd.args[2] else cmd.args[0]
  }

  /** The copy of an accepted name stays inside the global if and only if fewer than 20 bytes were typed. */
  lemma NameCopyFitsExactly(tcp: bool, state: AppState, name: CString, cmd: Command)
    requires Copied(state, cmd).Some?
    ensures Dispatch(tcp, state, name, cmd).name == Copied(state, cmd).value
    ensures CopyFits(Copied(state, cmd).value, DISPLAY_NAME_SIZE) <==> |TypedName(cmd)| < MAX_NAME
  {
  }

  /** No other input changes the name. */
  lemma NameStaysUnlessCopied(tcp: bool, state: AppState, name: CString, cmd: Command)
    requires Copied(state, cmd).None?
    ensures Dispatch(tcp, state, name, cmd).name == name
  {
  }

  /** An input whose copy does not fit: /rename with a valid name of 20 bytes. */
  lemma TwentyByteNameOverruns(state: AppState) returns (cmd: Command)
    ensures cmd.RenameCmd? && |cmd.args| == 1 && |cmd.args[0]| == MAX_NAME && ValidName(cmd.args[0])
    ensures Copied(state, cmd) == Some(cmd.args[0]) && !CopyFits(cmd.args[0], DISPLAY_NAME_SIZE)
  {
    var typed: CString := seq(MAX_NAME, _ => 0x61);
    cmd := RenameCmd([typed]);
  }

  /** What was typed, cut to at most n bytes. */
  predicate CutOf(s: CString, typed: CString, n: nat) {
    s <= typed && |s| == if |typed| <= n then |typed| else n
  }

  /** The request carries the parameters that were typed, each in its own place. */
  predicate Carries(r: Request, name: CString, cmd: Command) {
    match r
    case AuthRequest(username, newName, secret) =>
      cmd.AuthCmd? && |cmd.args| >= 3 && CutOf(username, cmd.args[0], MAX_ID) &&
      CutOf(secret, cmd.args[1], MAX_SECRET) && CutOf(newName, cmd.args[2], MAX_NAME)
    case JoinRequest(channel, from) =>
      cmd.JoinCmd? && |cmd.args| >= 1 && CutOf(channel, cmd.args[0], MAX_ID) && from == name
    case SayRequest(from, content) =>
      cmd.SayCmd? && CutOf(content, cmd.line, MAX_CONTENT - 1) && from == name
    case ByeRequest(_) => false
  }

  /** Nothing is sent but what was typed, and only /auth and /rename touch the display name. */
  lemma DispatchCarries(tcp: bool, state: AppState, name: CString, cmd: Command)
    ensures var r := Dispatch(tcp, state, name, cmd);
      && (r.emit.Some? ==> Carries(r.emit.value, name, cmd))
      && (r.name != name ==> if cmd.RenameCmd? then |cmd.args| >= 1 && CutOf(r.name, cmd.args[0], MAX_NAME)
                             else r.emit.Some? && r.emit.value.AuthRequest? && r.emit.value.name == r.name)
  {
  }

  /** A command whose parameters are within the rules, given in a state that permits it. */
  predicate InOrder(state: AppState, name: CString, cmd: Command) {
    match cmd
    case AuthCmd(args) =>
      state in {Start, Auth} && |args| >= 3 && ValidId(args[0]) && ValidSecret(args[1]) && ValidName(args[2])
    case JoinCmd(args) => state == Open && |args| >= 1 && ValidId(args[0]) && ValidName(name)
    case SayCmd(line) => state == Open && ValidName(name) && ValidContent(line) && |line| < MAX_CONTENT
    case RenameCmd(args) => |args| >= 1 && ValidName(args[0])
    case HelpCmd => false
  }

  /** A command in order has its effect: the request carries the typed parameters, uncut, and the state moves on. */
  lemma DispatchTakesEffect(tcp: bool, state: AppState, name: CString, cmd: Command)
    requires InOrder(state, name, cmd)
    ensures Dispatch(tcp, state, name, cmd) == match cmd
      case AuthCmd(args) => Reaction(Auth, args[2], Some(AuthRequest(args[0], args[2], args[1])))
      case JoinCmd(args) => Reaction(Join, name, Some(JoinRequest(args[0], name)))
      case SayCmd(line) => Reaction(Open, name, Some(SayRequest(name, line)))
      case RenameCmd(args) => Reaction(state, args[0], None)
      case HelpCmd => Reaction(state, name, None)
  {
  }

  /** Both transports react alike to every input. */
  lemma DispatchSameForBoth(state: AppState, name: CString, cmd: Command)
    ensures Dispatch(true, state, name, cmd) == Dispatch(false, state, name, cmd)
  {
  }

  /** The globals `state` and `display_name` with the functions that update them from user input. */
  class Session {
    const tcp: bool
    var state: AppState
    var name: CString

    constructor (tcp: bool, defaultName: CString)
      ensures this.tcp == tcp && state == Start && name == defaultName
    {
      this.tcp, state, name := tcp, Start, defaultName;
    }

    method RunAuth(args: seq<CString>) returns (emit: Option<Request>)
      modifies this
      ensures Reaction(state, name, emit) == CmdAuth(tcp, old(state), old(name), args)
    {
      emit := None;
      if |args| < 3 {
        return;
      }
      var username := Clip(args[0], MAX_ID);
      var secret := Clip(args[1], MAX_SECRET);
      var newName := Clip(args[2], MAX_NAME);
      var ok := ValidateId(username);
      if !ok {
        return;
      }
      ok := ValidateSecret(secret);
      if !ok {
        return;
      }
      ok := ValidateDisplayName(newName);
      if !ok {
        return;
      }
      name := newName;
      if tcp {
        state := Auth;
      }
      emit := Some(AuthRequest(username, name, secret));
    }

    method RunJoin(args: seq<CString>) returns (emit: Option<Request>)
      modifies this
      ensures Reaction(state, name, emit) == CmdJoin(old(state), old(name), args)
    {
      emit := None;
      if |args| < 1 {
        return;
      }
      var channel := Clip(args[0], MAX_ID);
      var ok := ValidateId(channel);
      if !ok {
        return;
      }
      ok := ValidateDisplayName(name);
      if !ok {
        return;
      }
      state := Join;
      emit := Some(JoinRequest(channel, name));
    }

    method RunRename(args: seq<CString>)
      modifies this`name
      ensures Reaction(state, name, None) == CmdRename(state, old(name), args)
    {
      if |args| < 1 {
        return;
      }
      var newName := Clip(args[0], MAX_NAME);
      var ok := ValidateDisplayName(newName);
      if !ok {
        return;
      }
      name := newName;
    }

    method RunMsg(line: CString) returns (emit: Option<Request>)
      ensures Reaction(state, name, emit) == CmdMsg(state, name, line)
    {
      var content := Clip(line, MAX_CONTENT - 1);
      var ok := ValidateDisplayName(name);
      if !ok {
        return None;
      }
      ok := ValidateMessageContent(content);
      if !ok {
        return None;
      }
      return Some(SayRequest(name, content));
    }

    /** The `switch (state)` of the command loop with the four state_*_logic functions. */
    method Run(cmd: Command) returns (emit: Option<Request>)
      modifies this
      ensures Reaction(state, name, emit) == Dispatch(tcp, old(state), old(name), cmd)
    {
      emit := None;
      match cmd
      case AuthCmd(args) =>
        if state == Start {
          state := Auth;
          emit := RunAuth(args);
        } else if state == Auth {
          emit := RunAuth(args);
        }
      case JoinCmd(args) =>
        if state == Open {
          emit := RunJoin(args);
        }
      case RenameCmd(args) =>
        RunRename(args);
      case SayCmd(line) =>
        if state == Open {
          emit := RunMsg(line);
        }
      case HelpCmd =>
    }
  }
}
