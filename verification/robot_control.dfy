/**
 * The robot-control tool's `run`: it checks the tool name, parses the prompt,
 * checks the command against the supported kinds and only then posts the
 * command to the robot server, turning the server's answer into the tool's
 * result tuple.
 *
 * The HTTP exchange itself is a parameter: `Delivered` is a 2xx answer whose
 * JSON body is an object, `RequestFailed` is a `requests` exception (connection
 * error, timeout or a 4xx/5xx status) with its text.
 */
module RobotControl {
  import opened Results
  import opened Ascii
  import opened Decimal
  import opened Json
  import opened PromptParser
  import Simulator

  /** The only tool this service offers: the prefix `robot-` and `control`. */
  const RobotTool: string := "robot-control"

  /** The command kinds the tool forwards to the server. */
  const ValidCommands: set<string> := {"forward", "backward", "left", "right"}

  /**
   * The order in which the error message lists the supported kinds. Python
   * joins a set, whose order depends on string hashing; this is one such order.
   */
  const CommandListing: seq<string> := ["forward", "backward", "left", "right"]

  /** What happens to the POST, when one is made. */
  datatype SendOutcome =
    | Delivered(body: map<string, Json>)
    | RequestFailed(reason: string)

  /**
   * The tool's result tuple: the message, the prompt echoed back, the server's
   * JSON as metadata; the fourth slot is always `None` and is left implicit.
   */
  datatype MechResult = MechResult(message: Json, prompt: Option<string>, metadata: Option<map<string, Json>>)

  function JoinComma(items: seq<string>): string {
    if |items| == 0 then ""
    else if |items| == 1 then items[0]
    else items[0] + ", " + JoinComma(items[1..])
  }

  /** The refusal of an unknown tool, which names the tool. */
  function ToolError(tool: string): (r: string)
    ensures |r| > 5 + |tool| && r[..5] == "Tool " && r[5..5 + |tool|] == tool
  {
    "Tool " + tool + " is not in the list of supported tools."
  }

  /** The refusal of an unsupported kind, which quotes the kind and ends with the supported list. */
  function InvalidCommand(cmd: string): (r: string)
    ensures |r| > 17 + |cmd| && r[..17] == "Invalid command '"
    ensures r[17..17 + |cmd|] == cmd && r[|r| - 1] == '.'
  {
    "Invalid command '" + cmd + "'. Supported commands: " + JoinComma(CommandListing) + "."
  }

  /** The JSON body `send_robot_command` posts. */
  function RequestBody(cmd: string, duration: real): Json {
    JObj(map["command" := JStr(cmd), "duration" := JNum(duration)])
  }

  /**
   * The checks `run` makes before it contacts the server: the command and
   * duration it would send, or the result tuple it returns instead. A command
   * that gets through is a supported kind with a positive duration, exactly as
   * the prompt parser read it.
   */
  function Validate(prompt: string, tool: string): (r: Result<(string, real), MechResult>)
    ensures r.Ok? <==> tool == RobotTool && ParsePrompt(prompt).Ok? && ParsePrompt(prompt).value.0 in ValidCommands
    ensures r.Ok? ==> r.value == ParsePrompt(prompt).value && r.value.1 > 0.0
    ensures r.Err? ==> r.error.metadata.None? && r.error.message.JStr?
    ensures r.Err? ==> (r.error.prompt.None? <==> tool != RobotTool)
  {
    if tool != RobotTool then
      Err(MechResult(JStr(ToolError(tool)), None, None))
    else
      match ParsePrompt(prompt)
      case Err(e) => Err(MechResult(JStr("Error parsing prompt: " + Message(e)), Some(prompt), None))
      case Ok((cmd, duration)) =>
        if cmd !in ValidCommands then Err(MechResult(JStr(InvalidCommand(cmd)), Some(prompt), None))
        else Ok((cmd, duration))
  }

  /** `run(prompt=prompt, tool=tool)` when the POST, if made, has the outcome `outcome`. */
  function Run(prompt: string, tool: string, outcome: SendOutcome): (r: MechResult)
    ensures r.prompt == (if tool == RobotTool then Some(prompt) else None)
    ensures r.metadata.Some? <==> Validate(prompt, tool).Ok? && outcome.Delivered?
    ensures r.metadata.Some? ==> r.metadata.value == outcome.body
  {
    match Validate(prompt, tool)
    case Err(result) => result
    case Ok(_) =>
      match outcome
      case Delivered(body) => MechResult(Get(body, "message", JStr("No message returned")), Some(prompt), Some(body))
      case RequestFailed(reason) =>
        MechResult(JStr("Error communicating with robot server: " + reason), Some(prompt), None)
  }

  /** A prompt that fails a check never reaches the server: the result does not depend on it. */
  lemma RejectedBeforeSending(prompt: string, tool: string, o1: SendOutcome, o2: SendOutcome)
    requires Validate(prompt, tool).Err?
    ensures Run(prompt, tool, o1) == Run(prompt, tool, o2) == Validate(prompt, tool).error
  {
  }

  /** The server's `message` is passed on when it has one; a body without it gives the fixed text. */
  lemma ServerMessagePassedOn(prompt: string, body: map<string, Json>)
    requires Validate(prompt, RobotTool).Ok?
    ensures "message" in body ==> Run(prompt, RobotTool, Delivered(body)).message == body["message"]
    ensures "message" !in body ==> Run(prompt, RobotTool, Delivered(body)).message == JStr("No message returned")
  {
  }

  /** Every kind the tool accepts is in lower case, as the parser's output always is. */
  lemma ValidCommandsLower(cmd: string)
    requires cmd in ValidCommands
    ensures Lower(cmd) == cmd
  {
    LowerOfLower(cmd);
  }

  /** `raise_for_status`: a 4xx or 5xx answer becomes a `requests` exception. */
  function HttpOutcome(reply: Simulator.Reply, errorText: string): (o: SendOutcome)
    ensures o.Delivered? <==> reply.JsonReply? && !(400 <= reply.code < 600)
  {
    match reply
    case JsonReply(code, body) => if 400 <= code < 600 then RequestFailed(errorText) else Delivered(body)
    case InternalServerError => RequestFailed(errorText)
  }

  /**
   * What the simulator makes of the body `run` posts: every command that passes
   * `run`'s checks is queued unchanged and answered with 200.
   */
  lemma SimulatorQueuesValidated(prompt: string)
    requires Validate(prompt, RobotTool).Ok?
    ensures var (cmd, d) := Validate(prompt, RobotTool).value;
      && Simulator.DecodeCommand(RequestBody(cmd, d)) == Simulator.Accept((cmd, d))
      && Simulator.IntakeReply(Simulator.DecodeCommand(RequestBody(cmd, d)))
         == Simulator.JsonReply(200, Simulator.AcceptedBody((cmd, d)))
  {
    var (cmd, d) := Validate(prompt, RobotTool).value;
    Simulator.IntakeAcceptsAnything(cmd, d);
    ValidCommandsLower(cmd);
  }

  /**
   * The simulator's 200 answer has no `message`, so for every command it
   * queues the tool reports the fixed text, with the simulator's body as metadata.
   */
  lemma SimulatorAnswerReported(prompt: string, errorText: string)
    requires Validate(prompt, RobotTool).Ok?
    ensures var (cmd, d) := Validate(prompt, RobotTool).value;
      Run(prompt, RobotTool, HttpOutcome(Simulator.IntakeReply(Simulator.DecodeCommand(RequestBody(cmd, d))), errorText))
      == MechResult(JStr("No message returned"), Some(prompt), Some(Simulator.AcceptedBody((cmd, d))))
  {
    var (cmd, d) := Validate(prompt, RobotTool).value;
    var body := Simulator.AcceptedBody((cmd, d));
    SimulatorQueuesValidated(prompt);
    assert HttpOutcome(Simulator.IntakeReply(Simulator.DecodeCommand(RequestBody(cmd, d))), errorText) == Delivered(body);
    AcceptedBodyWithoutMessage((cmd, d));
    ServerMessagePassedOn(prompt, body);
  }

  lemma AcceptedBodyWithoutMessage(cmd: Simulator.Command)
    ensures "message" !in Simulator.AcceptedBody(cmd)
  {
    assert "message"[0] == 'm' && "status"[0] == 's' && "command"[0] == 'c' && "duration"[0] == 'd';
  }

  /** A prompt the parser refuses is answered with the parser's message. */
  lemma ParseErrorReported(prompt: string, e: ParseError, outcome: SendOutcome)
    requires ParsePrompt(prompt) == Err(e)
    ensures Run(prompt, RobotTool, outcome) == MechResult(JStr("Error parsing prompt: " + Message(e)), Some(prompt), None)
  {
    assert Validate(prompt, RobotTool) == Err(MechResult(JStr("Error parsing prompt: " + Message(e)), Some(prompt), None));
  }

  /** A parsed kind outside the supported four is answered with the list of supported kinds. */
  lemma InvalidKindReported(prompt: string, cmd: string, d: real, outcome: SendOutcome)
    requires ParsePrompt(prompt) == Ok((cmd, d)) && cmd !in ValidCommands
    ensures Run(prompt, RobotTool, outcome) == MechResult(JStr(InvalidCommand(cmd)), Some(prompt), None)
  {
  }

  lemma MoveNotValid()
    ensures "move" !in ValidCommands
  {
    assert "move"[0] == 'm' && "left"[0] == 'l';
  }

  /** `move <n>` parses, but `move` is not a supported kind. */
  lemma BareMoveIsInvalid(prompt: string, n: string, outcome: SendOutcome)
    requires prompt == "move " + n && AllDigits(n) && HasNonZeroDigit(n)
    ensures Run(prompt, RobotTool, outcome) == MechResult(JStr(InvalidCommand("move")), Some(prompt), None)
  {
    BareMove(prompt, n);
    MoveNotValid();
    InvalidKindReported(prompt, "move", FloatOfDecimal(n).value, outcome);
  }

  /** The planner's turn form is refused with the parser's format error. */
  lemma TurnFormRefused(prompt: string, w: string, n: string, unit: string, outcome: SendOutcome)
    requires prompt == "turn " + w + " " + n + unit
    requires w == "left" || w == "right"
    requires IsDecimalShape(n) && n != ""
    requires unit == "" || unit == " seconds"
    ensures Run(prompt, RobotTool, outcome)
            == MechResult(JStr("Error parsing prompt: " + Message(NoMatch)), Some(prompt), None)
  {
    TurnFormRejected(prompt, w, n, unit);
    ParseErrorReported(prompt, NoMatch, outcome);
  }

  /** The planner's move form reaches the server with the direction and the number. */
  lemma MoveFormSent(prompt: string, dir: string, n: string, unit: string)
    requires prompt == "move " + dir + " " + n + unit && dir in ValidCommands
    requires IsDecimalShape(n) && HasNonZeroDigit(n) && IsUnit(unit)
    ensures Validate(prompt, RobotTool) == Ok((dir, FloatOfDecimal(n).value))
  {
    assert IsLowerWord(dir);
    MoveForm(prompt, dir, n, unit);
  }
}
