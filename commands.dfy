/**
 * `CommandProcessor`: a fixed table of five commands. A command is
 * upper-cased and stripped, looked up, and answered with a reply string;
 * only `CONFIG` looks at its arguments.
 */
module Commands {
  import opened Wrappers
  import opened Text

  /** The five handlers of the command table. */
  datatype Command = Status | Reset | Config | Start | Stop

  /** The command table, keyed by the upper-case command name. */
  const Table: map<string, Command> :=
    map["STATUS" := Status, "RESET" := Reset, "CONFIG" := Config, "START" := Start, "STOP" := Stop]

  /** `get_available_commands`: the table's keys in insertion order. */
  const AvailableCommands: seq<string> := ["STATUS", "RESET", "CONFIG", "START", "STOP"]

  /** The available commands are exactly the table's keys, each listed once. */
  lemma AvailableCommandsAreKeys()
    ensures forall name :: name in AvailableCommands <==> name in Table
    ensures forall i, j :: 0 <= i < j < |AvailableCommands| ==> AvailableCommands[i] != AvailableCommands[j]
  {
  }

  // ---------------------------------------------------------------------
  // Normalisation
  // ---------------------------------------------------------------------

  /** `str.upper` on one character, for the ASCII letters. */
  function AsciiUpper(c: char): (u: char)
  {
    if 'a' <= c <= 'z' then (c as int - 32) as char else c
  }

  predicate IsUpper(c: char) {
    AsciiUpper(c) == c
  }

  /** `str.upper`, character by character. */
  function Upper(s: string): (r: string)
    ensures |r| == |s|
  {
    if s == [] then [] else [AsciiUpper(s[0])] + Upper(s[1..])
  }

  lemma {:induction false} UpperAt(s: string)
    ensures forall i :: 0 <= i < |s| ==> Upper(s)[i] == AsciiUpper(s[i])
    decreases |s|
  {
    if s != [] {
      UpperAt(s[1..]);
      assert forall i :: 1 <= i < |s| ==> Upper(s)[i] == Upper(s[1..])[i - 1];
    }
  }

  /** `command.upper().strip()`. */
  function Normalise(command: string): string
  {
    Strip(Upper(command))
  }

  /** Stripping keeps only characters of the original text. */
  lemma {:induction false} StripKeepsCharacters(s: string)
    ensures forall c :: c in Strip(s) ==> c in s
  {
    var l := StripLeft(s);
    var r := StripRight(l);
    StripLeftSuffix(s);
    forall c | c in r
      ensures c in s
    {
      var i :| 0 <= i < |r| && r[i] == c;
      assert l[i] == c;
      assert s[|s| - |l| + i] == c;
    }
  }

  /** Text whose characters are all upper case is left unchanged by `upper`. */
  lemma {:induction false} UpperFixed(s: string)
    requires forall c :: c in s ==> IsUpper(c)
    ensures Upper(s) == s
  {
    UpperAt(s);
    forall i | 0 <= i < |s|
      ensures Upper(s)[i] == s[i]
    {
      assert s[i] in s;
    }
  }

  /** Normalising twice is normalising once. */
  lemma {:induction false} NormaliseIdempotent(command: string)
    ensures Normalise(Normalise(command)) == Normalise(command)
  {
    var u := Upper(command);
    var t := Strip(u);
    UpperAt(command);
    StripKeepsCharacters(u);
    forall c | c in t
      ensures IsUpper(c)
    {
      var i :| 0 <= i < |u| && u[i] == c;
    }
    UpperFixed(t);
  }

  // ---------------------------------------------------------------------
  // Processing
  // ---------------------------------------------------------------------

  /** `args or []`: a missing argument list is an empty one. */
  function Arguments(args: Option<seq<string>>): (r: seq<string>)
    ensures args.None? ==> r == []
    ensures args.Some? ==> r == args.value
  {
    match args
    case None => []
    case Some(a) => a
  }

  /** A reply: `OK: ` or `ERROR: ` followed by a message. */
  datatype Reply = Ok(message: string) | Error(message: string)

  const OkPrefix := "OK: "
  const ErrorPrefix := "ERROR: "

  function Render(r: Reply): string {
    match r
    case Ok(m) => OkPrefix + m
    case Error(m) => ErrorPrefix + m
  }

  predicate HasPrefix(s: string, p: string) {
    |p| <= |s| && s[..|p|] == p
  }

  /** The rendered text tells an `OK: ` reply from an `ERROR: ` reply. */
  lemma RenderKind(r: Reply)
    ensures HasPrefix(Render(r), OkPrefix) <==> r.Ok?
    ensures HasPrefix(Render(r), ErrorPrefix) <==> r.Error?
  {
    var s := Render(r);
    if r.Ok? {
      assert s[..|OkPrefix|] == OkPrefix;
      assert s[0] == 'O';
    } else {
      assert s[..|ErrorPrefix|] == ErrorPrefix;
      assert s[0] == 'E';
    }
  }

  /** The reply of each handler. */
  function Handle(c: Command, args: seq<string>): (reply: Reply)
    ensures reply.Ok? <==> c != Config || args != []
  {
    match c
    case Status => Ok("System operational")
    case Reset => Ok("Reset requested")
    case Config =>
      if args == [] then Error("CONFIG requires parameters")
      else Ok("Config updated with " + Join(args, ", "))
    case Start => Ok("Data transmission started")
    case Stop => Ok("Data transmission stopped")
  }

  /** The reply to a normalised command name: its handler's, or the unknown-command error. */
  function Respond(name: string, args: seq<string>): (reply: Reply)
    ensures reply.Ok? <==> name in Table && (name != "CONFIG" || args != [])
  {
    if name in Table then Handle(Table[name], args)
    else Error("Unknown command '" + name + "'")
  }

  /** `process_command`: normalise, look up, answer. */
  function ProcessCommand(command: string, args: Option<seq<string>>): string
  {
    Render(Respond(Normalise(command), Arguments(args)))
  }

  /**
   * Every reply is either an `OK: ` or an `ERROR: ` reply, and it is an
   * `OK: ` reply exactly when the command is in the table and is not a
   * `CONFIG` without arguments.
   */
  lemma ReplyKind(command: string, args: Option<seq<string>>)
    ensures var reply := ProcessCommand(command, args);
      HasPrefix(reply, OkPrefix) != HasPrefix(reply, ErrorPrefix)
    ensures HasPrefix(ProcessCommand(command, args), OkPrefix)
      <==> Normalise(command) in Table && (Normalise(command) != "CONFIG" || Arguments(args) != [])
  {
    RenderKind(Respond(Normalise(command), Arguments(args)));
  }

  /** A name outside the table is answered with the name quoted. */
  lemma UnknownCommandReply(name: string, args: seq<string>)
    requires name !in Table
    ensures Respond(name, args) == Error("Unknown command '" + name + "'")
  {
  }

  /** The fixed replies of the four commands without arguments. */
  lemma FixedReplies(args: seq<string>)
    ensures Respond("STATUS", args) == Ok("System operational")
    ensures Respond("RESET", args) == Ok("Reset requested")
    ensures Respond("START", args) == Ok("Data transmission started")
    ensures Respond("STOP", args) == Ok("Data transmission stopped")
  {
  }

  /** Commands are case-insensitive and ignore surrounding whitespace. */
  lemma ProcessNormalised(command: string, args: Option<seq<string>>)
    ensures ProcessCommand(Normalise(command), args) == ProcessCommand(command, args)
  {
    NormaliseIdempotent(command);
  }

  /** `CONFIG` echoes its arguments joined by `, `, and refuses an empty list. */
  lemma ConfigReply(args: seq<string>)
    ensures args == [] ==> Respond("CONFIG", args) == Error("CONFIG requires parameters")
    ensures args != [] ==> Respond("CONFIG", args) == Ok("Config updated with " + Join(args, ", "))
  {
  }

  /** The other four commands ignore their arguments. */
  lemma ArgumentsIgnored(name: string, args: seq<string>, other: seq<string>)
    requires name != "CONFIG"
    ensures Respond(name, args) == Respond(name, other)
  {
    if name in Table {
      assert Table[name] != Config;
    }
  }
}
