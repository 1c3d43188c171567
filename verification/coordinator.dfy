/**
 * The coordinators' handling of mech answers: unwrapping the result of a
 * mech call, the test script's `"Error: "` sentinel and its failure check,
 * and the trigger that asks the planner for a new path after a robot answer.
 */
module Coordinator {
  import opened Results
  import opened Ascii
  import opened Json
  import opened PromptParser
  import opened RobotControl
  import opened PlannerOutput
  import Simulator

  /** What a mech call gives back when it does not raise: a tuple, or a single value. */
  datatype Reply = Tuple(items: seq<Json>) | Single(value: Json)

  /** A mech call: it returns a reply or raises an exception with the given text. */
  datatype Call = Returned(reply: Reply) | Raised(reason: string)

  /** The text of the `IndexError` raised by taking the first item of an empty tuple. */
  const EmptyTupleError: string := "tuple index out of range"

  /**
   * The agents' request helpers: the first item of a tuple, the value itself
   * otherwise, and `None` whenever the call raises, which includes taking the
   * first item of an empty tuple.
   */
  function AgentResponse(call: Call): (r: Option<Json>)
    ensures r.None? <==> call.Raised? || call.reply == Tuple([])
    ensures r.Some? && call.reply.Tuple? ==> r.value == call.reply.items[0]
    ensures r.Some? && call.reply.Single? ==> r.value == call.reply.value
  {
    match call
    case Raised(_) => None
    case Returned(Tuple(items)) => if items == [] then None else Some(items[0])
    case Returned(Single(v)) => Some(v)
  }

  /**
   * The test script's request helper: it unwraps the result like the agents do,
   * but an exception becomes the text `Error: ` followed by the exception's text.
   */
  function TestResponse(call: Call): (r: Json)
    ensures AgentResponse(call).Some? ==> r == AgentResponse(call).value
    ensures call.Raised? ==> r == JStr("Error: " + call.reason)
    ensures call == Returned(Tuple([])) ==> r == JStr("Error: " + EmptyTupleError)
  {
    match call
    case Raised(e) => JStr("Error: " + e)
    case Returned(Tuple(items)) => if items == [] then JStr("Error: " + EmptyTupleError) else items[0]
    case Returned(Single(v)) => v
  }

  /**
   * `_parse_openai_response` on whatever the planner handed back: a text is
   * split into its commands; anything else (`None`, a number, a list) has no
   * `split`, the exception is caught and there are no commands.
   */
  function ParseAnswer(answer: Json): (r: seq<string>)
    ensures answer.JStr? ==> r == ParseCommands(answer.s)
    ensures !answer.JStr? ==> r == []
    ensures forall k :: 0 <= k < |r| ==> r[k] != [] && Strip(r[k]) == r[k] && ',' !in r[k]
  {
    match answer
    case JStr(s) => ParseCommandsWellFormed(s); ParseCommands(s)
    case _ => []
  }

  /**
   * The commands a replanning answer adds to the queue: only a truthy answer
   * is parsed, a guard that changes nothing, since every falsy answer parses
   * to no commands anyway.
   */
  function ReplanCommands(answer: Json): (r: seq<string>)
    ensures r == ParseAnswer(answer)
  {
    if Truthy(answer) then ParseAnswer(answer)
    else []
  }

  /**
   * The replanning trigger: the lower-cased answer mentions `error` or
   * `obstacle`. It needs at least five characters to fire.
   */
  predicate NeedsReplan(response: string)
    ensures NeedsReplan(response) ==> |response| >= 5
  {
    Contains(Lower(response), "error") || Contains(Lower(response), "obstacle")
  }

  /** The trigger ignores case: an answer fires it exactly when its lower-cased form does. */
  lemma {:induction false} NeedsReplanIgnoresCase(response: string)
    ensures NeedsReplan(Lower(response)) == NeedsReplan(response)
  {
    LowerIdempotent(response);
  }

  /**
   * The test script's planner failure check: case-sensitive `Error`. Whatever
   * it takes for a failure also fires the replanning trigger.
   */
  predicate PlannerFailed(response: string)
    ensures PlannerFailed(response) ==> NeedsReplan(response)
  {
    if Contains(response, "Error") then ErrorTriggersReplan(response); true else false
  }

  /** What `act` does with one robot answer. */
  datatype Reaction =
    | Skip     // the request helper gave `None`: log and go to the next command
    | Proceed  // the answer is fine
    | Replan   // the trigger fired: ask the planner for a new path
    | Crash    // the answer is not a string: `.lower()` raises and `act` stops

  /**
   * `act`'s handling of one robot answer. A call that returned `None` itself
   * (the JSON `null`) is skipped like a call that raised, since both reach the
   * `is None` test as `None`.
   */
  function React(response: Option<Json>): (r: Reaction)
    ensures r == Skip <==> response.None? || response.value.JNull?
    ensures r == Crash <==> response.Some? && !response.value.JStr? && !response.value.JNull?
    ensures r == Replan <==> response.Some? && response.value.JStr? && NeedsReplan(response.value.s)
  {
    match response
    case None => Skip
    case Some(JNull) => Skip
    case Some(JStr(s)) => if NeedsReplan(s) then Replan else Proceed
    case Some(_) => Crash
  }

  /** `run`'s result as the 4-tuple the local coordinator receives. */
  function RunReply(r: MechResult): (reply: Reply)
    ensures reply.Tuple? && |reply.items| == 4
    ensures reply.items[0] == r.message && reply.items[3] == JNull
    ensures reply.items[1].JStr? <==> r.prompt.Some?
    ensures reply.items[2].JObj? <==> r.metadata.Some?
  {
    Tuple([
      r.message,
      match r.prompt case Some(p) => JStr(p) case None => JNull,
      match r.metadata case Some(m) => JObj(m) case None => JNull,
      JNull])
  }

  /** The local coordinator unwraps `run`'s tuple to the message. */
  lemma {:induction false} LocalRobotResponse(prompt: string, tool: string, outcome: SendOutcome)
    ensures AgentResponse(Returned(RunReply(Run(prompt, tool, outcome)))) == Some(Run(prompt, tool, outcome).message)
  {
  }

  /** Lower-casing `Error` gives `error`. */
  lemma LowerError()
    ensures Lower("Error") == "error"
  {
    var l := Lower("Error");
    assert l[0] == 'e' && l[1] == 'r' && l[2] == 'r' && l[3] == 'o' && l[4] == 'r';
  }

  /** An answer that contains `Error` fires the replanning trigger. */
  lemma {:induction false} ErrorTriggersReplan(response: string)
    requires Contains(response, "Error")
    ensures NeedsReplan(response)
  {
    var i :| 0 <= i <= |response| - 5 && OccursAt(response, "Error", i);
    LowerSlice(response, i, i + 5);
    LowerError();
    assert OccursAt(Lower(response), "error", i);
  }

  /** The sentinel is caught by the failure check and by the trigger, whatever the exception says. */
  lemma {:induction false} SentinelDetected(reason: string)
    ensures TestResponse(Raised(reason)).JStr?
    ensures PlannerFailed(TestResponse(Raised(reason)).s)
    ensures NeedsReplan(TestResponse(Raised(reason)).s)
  {
    ErrorPrefix("Error: ", reason);
  }

  /**
   * The two checks differ in case: an answer that says `ERROR` is not taken
   * for a planner failure, yet the same text fires the trigger.
   */
  lemma UpperCaseGap()
    ensures !PlannerFailed("ERROR")
    ensures NeedsReplan("ERROR")
  {
    assert "ERROR"[1] != "Error"[1];
    var l := Lower("ERROR");
    assert l[0] == 'e' && l[1] == 'r' && l[2] == 'r' && l[3] == 'o' && l[4] == 'r';
    assert OccursAt(l, "error", 0);
  }

  /**
   * `s` has no two neighbours that lower-case to `a` then `b`: a way to show,
   * one character at a time, that a text does not contain a word.
   */
  predicate PairFree(s: string, a: char, b: char)
    decreases |s|
  {
    |s| < 2 || (!(LowerChar(s[0]) == a && LowerChar(s[1]) == b) && PairFree(s[1..], a, b))
  }

  lemma {:induction false} PairFreeAt(s: string, a: char, b: char, j: nat)
    requires PairFree(s, a, b) && j + 1 < |s|
    ensures !(LowerChar(s[j]) == a && LowerChar(s[j + 1]) == b)
  {
    if j > 0 {
      PairFreeAt(s[1..], a, b, j - 1);
    }
  }

  /** Where a word occurs in a lowered text, each of its neighbouring pairs is lowered from the text. */
  lemma OccursAtPair(s: string, sub: string, i: int, k: nat)
    requires OccursAt(Lower(s), sub, i) && k + 1 < |sub|
    ensures LowerChar(s[i + k]) == sub[k] && LowerChar(s[i + k + 1]) == sub[k + 1]
  {
    var w := Lower(s)[i..i + |sub|];
    assert w[k] == Lower(s)[i + k] && w[k + 1] == Lower(s)[i + k + 1];
  }

  /** A text free of one of a word's neighbouring pairs does not contain the word, once lower-cased. */
  lemma {:induction false} PairFreeExcludes(s: string, sub: string, k: nat)
    requires k + 1 < |sub| && PairFree(s, sub[k], sub[k + 1])
    ensures !Contains(Lower(s), sub)
  {
    if Contains(Lower(s), sub) {
      var i :| 0 <= i <= |s| - |sub| && OccursAt(Lower(s), sub, i);
      OccursAtPair(s, sub, i, k);
      PairFreeAt(s, sub[k], sub[k + 1], i + k);
    }
  }

  /** Two texts free of a pair, joined where the pair does not form, are free of it. */
  lemma {:induction false} PairFreeConcat(x: string, y: string, a: char, b: char)
    requires PairFree(x, a, b) && PairFree(y, a, b)
    requires x == [] || y == [] || !(LowerChar(x[|x| - 1]) == a && LowerChar(y[0]) == b)
    ensures PairFree(x + y, a, b)
  {
    if x == [] {
      assert x + y == y;
    } else {
      assert (x + y)[1..] == x[1..] + y;
      PairFreeConcat(x[1..], y, a, b);
    }
  }

  /** A text without `rr` and without `bs` never fires the trigger. */
  lemma {:induction false} Quiet(s: string)
    requires PairFree(s, 'r', 'r') && PairFree(s, 'b', 's')
    ensures !NeedsReplan(s)
  {
    PairFreeExcludes(s, "error", 1);
    PairFreeExcludes(s, "obstacle", 1);
  }

  /** A text that starts with `Error` is a planner failure and fires the trigger. */
  lemma {:induction false} ErrorPrefix(p: string, rest: string)
    requires |p| >= 5 && p[..5] == "Error"
    ensures PlannerFailed(p + rest) && NeedsReplan(p + rest)
  {
    assert (p + rest)[..5] == p[..5];
    assert OccursAt(p + rest, "Error", 0);
    assert PlannerFailed(p + rest);
  }

  /** An answer whose message starts with `Error` makes the coordinator ask for a new path. */
  lemma {:induction false} ErrorAnswerReplans(result: MechResult, p: string, rest: string)
    requires result.message == JStr(p + rest)
    requires |p| >= 5 && p[..5] == "Error"
    ensures React(AgentResponse(Returned(RunReply(result)))) == Replan
  {
    ErrorPrefix(p, rest);
  }

  lemma ParseErrorPrefix()
    ensures "Error parsing prompt: "[..5] == "Error"
  {
    var s := "Error parsing prompt: ";
    assert s[0] == 'E' && s[1] == 'r' && s[2] == 'r' && s[3] == 'o' && s[4] == 'r';
  }

  lemma CommunicationErrorPrefix()
    ensures "Error communicating with robot server: "[..5] == "Error"
  {
    var s := "Error communicating with robot server: ";
    assert s[0] == 'E' && s[1] == 'r' && s[2] == 'r' && s[3] == 'o' && s[4] == 'r';
  }

  /** A prompt the parser refuses comes back as an error message, and the coordinator asks for a new path. */
  lemma {:induction false} ParseErrorTriggersReplan(prompt: string, e: ParseError, outcome: SendOutcome)
    requires ParsePrompt(prompt) == Err(e)
    ensures React(AgentResponse(Returned(RunReply(Run(prompt, RobotTool, outcome))))) == Replan
  {
    ParseErrorReported(prompt, e, outcome);
    ParseErrorPrefix();
    ErrorAnswerReplans(Run(prompt, RobotTool, outcome), "Error parsing prompt: ", Message(e));
  }

  /** A command that fails on the way to the server makes the coordinator ask for a new path. */
  lemma {:induction false} RequestFailureTriggersReplan(prompt: string, reason: string)
    requires Validate(prompt, RobotTool).Ok?
    ensures React(AgentResponse(Returned(RunReply(Run(prompt, RobotTool, RequestFailed(reason)))))) == Replan
  {
    CommunicationErrorPrefix();
    ErrorAnswerReplans(Run(prompt, RobotTool, RequestFailed(reason)), "Error communicating with robot server: ", reason);
  }

  /** The planner's own `turn` form is refused by the parser, so every such step leads to a replan. */
  lemma {:induction false} TurnStepTriggersReplan(prompt: string, w: string, n: string, unit: string, outcome: SendOutcome)
    requires prompt == "turn " + w + " " + n + unit
    requires w == "left" || w == "right"
    requires Decimal.IsDecimalShape(n) && n != ""
    requires unit == "" || unit == " seconds"
    ensures React(AgentResponse(Returned(RunReply(Run(prompt, RobotTool, outcome))))) == Replan
  {
    TurnFormRejected(prompt, w, n, unit);
    ParseErrorTriggersReplan(prompt, NoMatch, outcome);
  }

  // The fixed messages below are cut into pieces of at most seven characters
  // only for the proofs: the verifier settles pair-freedom of a short literal
  // by itself, and `PairFreeConcat` joins the pieces back into the message.

  /** Three pieces free of a pair, joined where the pair does not form, are free of it. */
  lemma {:induction false} PairFree3(x: string, y: string, z: string, a: char, b: char)
    requires x != [] && y != [] && z != []
    requires PairFree(x, a, b) && PairFree(y, a, b) && PairFree(z, a, b)
    requires !(LowerChar(x[|x| - 1]) == a && LowerChar(y[0]) == b)
    requires !(LowerChar(y[|y| - 1]) == a && LowerChar(z[0]) == b)
    ensures PairFree(x + y + z, a, b)
  {
    PairFreeConcat(y, z, a, b);
    PairFreeConcat(x, y + z, a, b);
    assert x + (y + z) == x + y + z;
  }

  lemma NoMessagePiecesNoRR()
    ensures PairFree("No mess", 'r', 'r') && PairFree("age ret", 'r', 'r') && PairFree("urned", 'r', 'r')
  {
  }

  lemma NoMessagePiecesNoBS()
    ensures PairFree("No mess", 'b', 's') && PairFree("age ret", 'b', 's') && PairFree("urned", 'b', 's')
  {
  }

  lemma {:induction false} NoMessageNoRR()
    ensures PairFree("No message returned", 'r', 'r')
  {
    NoMessagePiecesNoRR();
    PairFree3("No mess", "age ret", "urned", 'r', 'r');
    assert "No mess" + "age ret" + "urned" == "No message returned";
  }

  lemma {:induction false} NoMessageNoBS()
    ensures PairFree("No message returned", 'b', 's')
  {
    NoMessagePiecesNoBS();
    PairFree3("No mess", "age ret", "urned", 'b', 's');
    assert "No mess" + "age ret" + "urned" == "No message returned";
  }

  lemma NoMessageQuiet()
    ensures !NeedsReplan("No message returned")
  {
    NoMessageNoRR();
    NoMessageNoBS();
    Quiet("No message returned");
  }

  /** A comma-separated list of texts free of a pair of letters is free of it. */
  lemma {:induction false} JoinCommaPairFree(items: seq<string>, a: char, b: char)
    requires a != ',' && a != ' ' && b != ','
    requires forall i :: 0 <= i < |items| ==> PairFree(items[i], a, b)
    ensures PairFree(JoinComma(items), a, b)
    decreases |items|
  {
    if |items| > 1 {
      JoinCommaPairFree(items[1..], a, b);
      assert PairFree(", ", a, b);
      PairFreeConcat(items[0], ", ", a, b);
      PairFreeConcat(items[0] + ", ", JoinComma(items[1..]), a, b);
    }
  }

  lemma IntroPiecesNoRR()
    ensures PairFree("Invalid", 'r', 'r') && PairFree(" comman", 'r', 'r') && PairFree("d '", 'r', 'r')
  {
  }

  lemma IntroPiecesNoBS()
    ensures PairFree("Invalid", 'b', 's') && PairFree(" comman", 'b', 's') && PairFree("d '", 'b', 's')
  {
  }

  lemma ListLeadPiecesNoRR()
    ensures PairFree("'. Supp", 'r', 'r') && PairFree("orted c", 'r', 'r') && PairFree("ommands", 'r', 'r')
  {
  }

  lemma ListLeadPiecesNoBS()
    ensures PairFree("'. Supp", 'b', 's') && PairFree("orted c", 'b', 's') && PairFree("ommands", 'b', 's')
  {
  }

  lemma MoveKindsFree()
    ensures PairFree("forward", 'r', 'r') && PairFree("backward", 'r', 'r')
    ensures PairFree("forward", 'b', 's') && PairFree("backward", 'b', 's')
  {
  }

  lemma TurnKindsFree()
    ensures PairFree("left", 'r', 'r') && PairFree("right", 'r', 'r')
    ensures PairFree("left", 'b', 's') && PairFree("right", 'b', 's')
  {
  }

  /** None of the supported kinds has `rr` or `bs`. */
  lemma {:induction false} ListingFree(a: char, b: char)
    requires a == b == 'r' || (a == 'b' && b == 's')
    ensures forall i :: 0 <= i < |CommandListing| ==> PairFree(CommandListing[i], a, b)
  {
    MoveKindsFree();
    TurnKindsFree();
  }

  /** The list of supported kinds, as the message spells it, has neither `rr` nor `bs`. */
  lemma {:induction false} ListingTextFree(a: char, b: char)
    requires a == b == 'r' || (a == 'b' && b == 's')
    ensures PairFree(JoinComma(CommandListing), a, b)
  {
    ListingFree(a, b);
    JoinCommaPairFree(CommandListing, a, b);
  }

  /** The opening of the invalid-command message has neither `rr` nor `bs`. */
  lemma {:induction false} IntroFree(a: char, b: char)
    requires a == b == 'r' || (a == 'b' && b == 's')
    ensures PairFree("Invalid command '", a, b)
  {
    if a == 'r' {
      IntroPiecesNoRR();
    } else {
      IntroPiecesNoBS();
    }
    PairFree3("Invalid", " comman", "d '", a, b);
    assert "Invalid" + " comman" + "d '" == "Invalid command '";
  }

  lemma ListLeadPieces()
    ensures "'. Supp" + "orted c" + "ommands" + ": " == "'. Supported commands: "
  {
  }

  /** The text before the list of supported kinds has neither `rr` nor `bs`. */
  lemma {:induction false} ListLeadFree(a: char, b: char)
    requires a == b == 'r' || (a == 'b' && b == 's')
    ensures PairFree("'. Supported commands: ", a, b)
  {
    if a == 'r' {
      ListLeadPiecesNoRR();
    } else {
      ListLeadPiecesNoBS();
    }
    PairFree3("'. Supp", "orted c", "ommands", a, b);
    assert PairFree(": ", a, b);
    PairFreeConcat("'. Supp" + "orted c" + "ommands", ": ", a, b);
    ListLeadPieces();
  }

  /**
   * A text put together like the invalid-command message, from pieces free of
   * a pair of letters, is free of it: the quotes, blanks and full stop where
   * the pieces meet cannot form the pair.
   */
  lemma {:induction false} QuotedPairFree(p1: string, cmd: string, p2: string, list: string, a: char, b: char)
    requires a != '\'' && a != ' ' && b != '\'' && b != '.'
    requires p1 != [] && p1[|p1| - 1] == '\'' && p2 != [] && p2[0] == '\'' && p2[|p2| - 1] == ' '
    requires PairFree(p1, a, b) && PairFree(cmd, a, b) && PairFree(p2, a, b) && PairFree(list, a, b)
    ensures PairFree(p1 + cmd + p2 + list + ".", a, b)
  {
    PairFreeConcat(p1, cmd, a, b);
    assert (p1 + cmd)[|p1 + cmd| - 1] == if cmd == [] then '\'' else cmd[|cmd| - 1];
    PairFreeConcat(p1 + cmd, p2, a, b);
    PairFreeConcat(p1 + cmd + p2, list, a, b);
    assert PairFree(".", a, b);
    PairFreeConcat(p1 + cmd + p2 + list, ".", a, b);
  }

  /**
   * The invalid-command message is free of a pair of letters when the kind it
   * quotes and the message's fixed parts are.
   */
  lemma {:induction false} InvalidCommandFree(cmd: string, a: char, b: char)
    requires a != '\'' && a != ' ' && b != '\'' && b != '.'
    requires PairFree(cmd, a, b)
    requires PairFree("Invalid command '", a, b) && PairFree("'. Supported commands: ", a, b)
    requires PairFree(JoinComma(CommandListing), a, b)
    ensures PairFree(InvalidCommand(cmd), a, b)
  {
    var p1, p2 := "Invalid command '", "'. Supported commands: ";
    assert p1[16] == '\'' && p2[0] == '\'' && p2[22] == ' ';
    QuotedPairFree(p1, cmd, p2, JoinComma(CommandListing), a, b);
  }

  /** The fixed parts of the invalid-command message have neither `rr` nor `bs`. */
  lemma FixedPartsFree()
    ensures PairFree("Invalid command '", 'r', 'r') && PairFree("'. Supported commands: ", 'r', 'r')
    ensures PairFree(JoinComma(CommandListing), 'r', 'r')
    ensures PairFree("Invalid command '", 'b', 's') && PairFree("'. Supported commands: ", 'b', 's')
    ensures PairFree(JoinComma(CommandListing), 'b', 's')
  {
    IntroFree('r', 'r');
    IntroFree('b', 's');
    ListLeadFree('r', 'r');
    ListLeadFree('b', 's');
    ListingTextFree('r', 'r');
    ListingTextFree('b', 's');
  }

  /** A kind with neither `rr` nor `bs` is refused with a message that does not fire the trigger. */
  lemma {:induction false} InvalidCommandQuiet(cmd: string)
    requires PairFree(cmd, 'r', 'r') && PairFree(cmd, 'b', 's')
    ensures !NeedsReplan(InvalidCommand(cmd))
  {
    FixedPartsFree();
    InvalidCommandFree(cmd, 'r', 'r');
    InvalidCommandFree(cmd, 'b', 's');
    Quiet(InvalidCommand(cmd));
  }

  /**
   * A parsed kind outside the supported four is refused with a message that
   * does not fire the trigger, provided the kind itself has no `rr` and no
   * `bs`: the coordinator then proceeds as if the command had been carried out.
   */
  lemma {:induction false} InvalidKindProceeds(prompt: string, cmd: string, d: real, outcome: SendOutcome)
    requires ParsePrompt(prompt) == Ok((cmd, d)) && cmd !in ValidCommands
    requires PairFree(cmd, 'r', 'r') && PairFree(cmd, 'b', 's')
    ensures React(AgentResponse(Returned(RunReply(Run(prompt, RobotTool, outcome))))) == Proceed
  {
    InvalidKindReported(prompt, cmd, d, outcome);
    InvalidCommandQuiet(cmd);
  }

  /** The refusal of the kind `move` does not fire the trigger. */
  lemma MoveRefusalQuiet()
    ensures !NeedsReplan(InvalidCommand("move"))
  {
    assert PairFree("move", 'r', 'r') && PairFree("move", 'b', 's');
    InvalidCommandQuiet("move");
  }

  /** `move <n>` is refused as an invalid command, and the refusal lets the coordinator proceed. */
  lemma {:induction false} BareMoveProceeds(prompt: string, n: string, outcome: SendOutcome)
    requires prompt == "move " + n && Decimal.AllDigits(n) && Decimal.HasNonZeroDigit(n)
    ensures React(AgentResponse(Returned(RunReply(Run(prompt, RobotTool, outcome))))) == Proceed
  {
    BareMoveIsInvalid(prompt, n, outcome);
    MoveRefusalQuiet();
  }

  /** Every command the simulator queues comes back as the fixed text, which does not fire the trigger. */
  lemma {:induction false} SimulatorAnswerProceeds(prompt: string, errorText: string)
    requires Validate(prompt, RobotTool).Ok?
    ensures var (cmd, d) := Validate(prompt, RobotTool).value;
      React(AgentResponse(Returned(RunReply(Run(prompt, RobotTool,
        HttpOutcome(Simulator.IntakeReply(Simulator.DecodeCommand(RequestBody(cmd, d))), errorText)))))) == Proceed
  {
    SimulatorAnswerReported(prompt, errorText);
    NoMessageQuiet();
  }
}
