# decentrabrain robot control, modelled in Dafny

decentrabrain drives a simulated robot through two "mechs" (remote tools):
a language-model planner that answers with a comma-separated list of motion
commands, and the `robot-control` tool that parses one command and posts it
to the robot simulator's HTTP server. Coordinators (the autonomous agent,
its local variant and a test script) ask the planner for a path, split the
answer into commands, send them one by one to the robot tool, and ask for a
new path when an answer mentions an error or an obstacle.

This project models that core:

- `arena.dfy` (`Arena`): the simulator's geometry and timing. It covers the
  arena constants, the clamp that keeps a move's target inside the arena, and
  headings modulo 360. It also covers the signed turn delta, which is proved
  to be the shortest arc, and the progress and interpolation of an
  animation tick.
- `simulator.dfy` (`Simulator`): the simulator engine as a class
  (`RobotSimulator`) with the pose, the command queue, the executing flag,
  the running command's context and the recorded path. It covers the
  `/command` and `/status` handler bodies and the test buttons' enqueue. It
  also covers `process_commands`, the dispatch in `execute_command`, and the
  movement and turn animations, one tick at a time.
- `prompt_parser.dfy` (`PromptParser`): `parse_prompt`. The regular
  expression is matched by hand. The matcher is proved to return exactly the
  groups the pattern admits, with the `move` branch given priority as the
  backtracking matcher gives it.
- `robot_control.dfy` (`RobotControl`): the tool's `run`. It checks the tool
  name, parses the prompt and checks the kind before sending anything, then
  turns the server's answer into the result tuple. The HTTP call is a
  parameter.
- `planner_output.dfy` (`PlannerOutput`): the coordinators' reading of the
  planner's answer: `str.split(",")`, then strip each piece and drop the
  empty ones.
- `coordinator.dfy` (`Coordinator`): the coordinators' handling of a mech
  answer. It covers unwrapping a tuple result, parsing a planner answer of
  any JSON type, the test script's `"Error: "` sentinel, the case-sensitive
  `"Error"` check and the case-insensitive replanning trigger.
- `ascii.dfy`, `decimal.dfy`, `json.dfy` and `results.dfy` hold Python's
  string primitives on ASCII text, `float` on strings (signs, exponents,
  underscores and surrounding C whitespace), decoded JSON values with Python's truth test,
  and `Option`/`Result`.

Where a prose description of the system and the code differ, the model
follows the code:

- A turn runs along the shortest arc to the target heading
  (`robotsim.py:474-476`). It does not follow the commanded direction for
  the commanded angle. `Arena.TurnDeltaIsShortest` proves the delta is the
  shortest arc, so a left turn whose angle modulo 360 exceeds 180 degrees
  runs clockwise. Three seconds to the left aim at 270 degrees and are run as
  90 degrees to the right (`Arena.ThreeSecondLeftTurn`); four seconds are a
  full turn and are not shown at all (`Arena.FourSecondLeftTurn`).
- The `/command` handler checks neither the kind nor the duration
  (`robotsim.py:332-336`). `Simulator.IntakeAcceptsAnything` states that
  every kind and every duration is queued.
- The parser does not accept the formats the planner is asked to produce.
  `turn left 1.5` is refused (`PromptParser.TurnLeftExample`), and so is
  every `turn <dir> <n>` (`PromptParser.TurnFormRejected`). The same holds
  for `move forward 1 second` (`PromptParser.SingularSecondRejected`).
  `move 2` parses as the kind `move`, which the tool then refuses
  (`RobotControl.BareMoveIsInvalid`). Each refusal by the parser makes the
  coordinator ask for a new path (`Coordinator.ParseErrorTriggersReplan`,
  `Coordinator.TurnStepTriggersReplan`). The refusal of the kind `move` does
  not: its message mentions neither `error` nor `obstacle`, so the
  coordinator goes on to the next command as if the step had been carried
  out (`Coordinator.BareMoveProceeds`).

## Model

| member | source | states |
|---|---|---|
| Json.Get | robot_control_mech.py:69 | `d.get(key, default)`: the stored value when the key is present, the default otherwise |
| Ascii.Lower | robot_control_mech.py:88 | `str.lower` keeps the length and lowers each character; only `A`-`Z` change |
| Ascii.LowerIdempotent | robot_control_mech.py:88 | lowering twice is lowering once |
| Ascii.LowerSlice | testdeployedmechs.py:59 | lowering commutes with taking a slice |
| Ascii.LowerOfLower | robot_control_mech.py:31 | a text without upper-case letters is its own lower case |
| Ascii.Strip | robot_control_mech.py:88 | `str.strip` returns a middle slice bordered only by whitespace, and the result has no whitespace at either end |
| Ascii.Trim | robotsim.py:333 | the text without its longest leading and trailing runs of the given characters is a middle slice bordered only by them, with none of them at either end |
| Ascii.StripUnpadded | robot_control_mech.py:88 | a text without whitespace at its ends is left unchanged |
| Ascii.StripBlank | robotagent.py:116 | an all-whitespace text strips to the empty text |
| Ascii.StripIdempotent | robotagent.py:116 | stripping twice is stripping once |
| Ascii.StripKeepsContent | robotagent.py:116 | a text with a non-whitespace character strips to a non-empty text |
| Decimal.DigitsValuePositive | robot_control_mech.py:95 | a digit string has a positive value exactly when one digit is not zero |
| Decimal.FloatOfDecimal | robot_control_mech.py:94 | `float` of a `\d*\.?\d*` group fails exactly for `""` and `"."`; otherwise the value is non-negative, and positive exactly when some digit is not zero |
| Decimal.PythonFloat | robotsim.py:333 | `float` fails on a string with an underscore that does not stand between two digits |
| Decimal.PythonFloatAccepts | robotsim.py:333 | `float` succeeds exactly when the underscores stand between digits and the text without underscores and without surrounding space, tab, newline, carriage return, vertical tab and form feed is a float literal |
| Decimal.SeparatorRefused | robotsim.py:333 | a string holding one of the separators `\x1c` to `\x1f`, which `str.isspace` counts as whitespace, is refused by `float` wherever the separator stands |
| Decimal.UnitSeparatorExample | robotsim.py:333 | `"1\x1f"` is refused by `float`, although `str.strip` reduces it to `"1"` |
| Decimal.PythonFloatDecimal | robot_control_mech.py:94 | on a plain decimal string `float` is the decimal reading |
| Decimal.SignedDecimal | robotsim.py:333 | a leading minus negates a decimal and a leading plus keeps it |
| Decimal.ScaleUpIsPower | robotsim.py:333 | scaling by a non-negative exponent n multiplies by ten to the n |
| Decimal.ScaleDownIsPower | robotsim.py:333 | scaling by -n divides by ten to the n |
| Decimal.ExponentMultiplies | robotsim.py:333 | a decimal followed by `e` or `E` and digits n is worth the decimal scaled by ten to the n |
| Decimal.ExponentDivides | robotsim.py:333 | a decimal followed by `e-` or `E-` and digits n is worth the decimal divided by ten to the n |
| Decimal.UnderscoreIgnored | robotsim.py:333 | an underscore between two runs of digits changes nothing |
| Decimal.ExponentExample | robotsim.py:333 | `float("1e3")` is 1000 |
| Decimal.PaddedExponentExample | robotsim.py:333 | `float(" 2E-1 ")` is 0.2 |
| Decimal.UnderscoreExample | robotsim.py:333 | `float("1_000")` is 1000 |
| Decimal.MisplacedUnderscoreExamples | robotsim.py:333 | `1__0`, `_1`, `1_` and `1_.5` are refused |
| Decimal.ExponentWithoutDigits | robotsim.py:333 | `1e` is refused |
| Decimal.ExponentWithoutMantissa | robotsim.py:333 | `e3` is refused |
| Json.Truthy | robotsim.py:329 | Python's truth test is false exactly for null, false, zero, and the empty text, list and object |
| Arena.Clamp | robotsim.py:419-420 | `max(lo, min(hi, v))` lies in [lo, hi], is `v` inside and the nearer bound outside |
| Arena.MoveTarget | robotsim.py:411-420 | a move's target always lies in the arena box; a raw end point inside the box is kept, and one outside is pinned to the crossed edge |
| Arena.Mod360 | robotsim.py:465 | Python's `% 360` on a real lies in [0, 360) |
| Arena.Mod360Unique | robotsim.py:465 | `% 360` is the unique representative in [0, 360) of a whole-turn class |
| Arena.Mod360Congruent | robotsim.py:465 | `% 360` differs from its argument by whole turns |
| Arena.TurnTarget | robotsim.py:464-465 | a turn's target heading lies in [0, 360) |
| Arena.TurnTargetCongruent | robotsim.py:464-465 | the target is the heading plus turn speed times duration times direction, up to whole turns |
| Arena.TurnDelta | robotsim.py:474-476 | the rotation of an animated turn lies in (-180, 180] |
| Arena.TurnDeltaReachesTarget | robotsim.py:474-476 | the start heading plus the delta is the target heading modulo 360 |
| Arena.TurnDeltaIsShortest | robotsim.py:474-476 | every rotation in (-180, 180] that reaches the target is the delta |
| Arena.ThreeSecondLeftTurn | robotsim.py:464-476 | three seconds to the left from heading 0 aim at 270 and turn by -90 |
| Arena.FiveSecondLeftTurn | robotsim.py:464-476 | five seconds to the left from heading 0 aim at 90 and turn by 90 |
| Arena.FourSecondLeftTurn | robotsim.py:464-476 | four seconds to the left from heading 0 aim at 0 and turn by 0 |
| Arena.TurnHeading | robotsim.py:484 | the heading during a turn lies in [0, 360) |
| Arena.TurnHeadingEnds | robotsim.py:484 | a turn starts at the start heading and reaches the target at progress 1 |
| Arena.Progress | robotsim.py:434 | `min(elapsed / duration, 1.0)` is at most 1, lies in [0, 1] for positive durations, and is 1 exactly when the duration has elapsed |
| Arena.Lerp | robotsim.py:437-438 | interpolation gives the start at progress 0 and the end at progress 1 |
| Arena.LerpBetween | robotsim.py:437-438 | for progress in [0, 1] the interpolated value lies between its ends |
| Arena.LerpInArena | robotsim.py:437-438 | interpolating between two arena points stays in the arena |
| Simulator.FloatOfJson | robotsim.py:333 | `float` of a JSON number is the number; null, lists and objects fail |
| Simulator.DecodeCommand | robotsim.py:328-333 | a falsy body is refused as "no data"; an accepted body is an object whose kind is a string |
| Simulator.IntakeAcceptsAnything | robotsim.py:332-336 | every kind and every duration is queued, with the kind in lower case |
| Simulator.TextDuration | robotsim.py:332-336 | a duration sent as text is queued with the value `float` reads from it |
| Simulator.RefusedTextDuration | robotsim.py:332-336 | a duration text that `float` refuses makes the handler raise |
| Simulator.SeparatorDurationCrashes | robotsim.py:333 | a duration of `"1\x1f"` makes the handler raise |
| Simulator.ExponentDurationRead | robotsim.py:332-336 | a duration of `"1e3"` queues the command for 1000 seconds |
| Simulator.IntakeDefaults | robotsim.py:332-333 | a non-empty body without the keys queues an empty kind for 1.0 seconds |
| Simulator.AcceptedBody | robotsim.py:342 | the `/command` answer has exactly the keys status, command and duration, holding the queued kind and duration |
| Simulator.StatusBody | robotsim.py:346-351 | the `/status` answer has exactly the keys position, angle, queue_size and executing; the position has exactly x and y |
| Simulator.IntakeReply | robotsim.py:329-342 | a JSON answer has status 200 exactly for an accepted command; a false-valued body, and only that, gets status 400 with the body `{"error": "No data provided"}`; a crash gives a server error |
| Simulator.StartMotion | robotsim.py:385-401 | the four kinds start a move or a turn (any other kind starts nothing), with the clamped target or the heading modulo 360 |
| Simulator.Tick | robotsim.py:431-500 | one animation tick: the command ends exactly when the full duration has elapsed, and then the pose is the target; a move records one point and keeps the heading, a turn keeps the position |
| Simulator.Begin | robotsim.py:425-503 | starting an animation raises exactly for a zero duration, with only the context recorded |
| Simulator.Start | robotsim.py:385-406 | `execute_command` raises exactly for a known kind with a zero duration; an unknown kind changes nothing |
| Simulator.StartAtOnce | robotsim.py:431-438 | when the first tick comes at the start time, the pose is unchanged, the command keeps running and a move records its start point |
| Simulator.ShortCommandEndsAtOnce | robotsim.py:445-454 | a command whose duration has elapsed by the first tick is over at once, on its clamped target or its target heading |
| Simulator.NegativeDurationNeverEnds | robotsim.py:433-446 | a negative duration never completes |
| Simulator.TickInArena | robotsim.py:437-438 | a tick of a move with a positive duration keeps the robot in the arena |
| Simulator.RobotSimulator.constructor | robotsim.py:21-37 | the robot starts at (250, 250) facing east, idle, with an empty queue and path |
| Simulator.RobotSimulator.ReceiveCommand | robotsim.py:326-342 | an accepted command is appended at the tail, nothing else is queued, and the reply is the handler's |
| Simulator.RobotSimulator.GetStatus | robotsim.py:344-351 | the snapshot holds the pose, the queue length and the flag, and changes nothing |
| Simulator.RobotSimulator.AddTestCommand | robotsim.py:551-557 | appends the kind with the given duration, or with the selected one when none is given |
| Simulator.RobotSimulator.ProcessCommands | robotsim.py:368-374 | busy or empty: nothing changes; otherwise the head is removed and started with its first tick at `tick`, the pose, context and path become those `Start` gives, and the heading and containment invariants are kept |
| Simulator.RobotSimulator.ExecuteCommand | robotsim.py:385-406 | the pose, context and path become those `Start` gives: an unknown kind only clears the flag, a known kind begins its motion and runs its first tick at `tick` |
| Simulator.RobotSimulator.ExecuteMovement | robotsim.py:408-423 | begins a move from the current position towards the clamped target of the current heading and runs its first tick; a robot in the arena stays there for a non-negative duration |
| Simulator.RobotSimulator.AnimateMovement | robotsim.py:425-459 | records the move's context and runs the first tick at `tick`, which moves the robot by the elapsed fraction and records the point; a zero duration raises |
| Simulator.RobotSimulator.MovementTick | robotsim.py:431-456 | the position is the interpolation at the elapsed fraction and is recorded on the path; at progress 1 it snaps to the target and the command ends; the robot stays in the arena |
| Simulator.RobotSimulator.ExecuteTurn | robotsim.py:461-468 | begins a turn towards the heading the commanded rotation reaches, modulo 360, and runs its first tick |
| Simulator.RobotSimulator.AnimateTurn | robotsim.py:470-503 | records the turn's context with the shortest delta and runs the first tick at `tick`, which turns by the elapsed fraction of the delta; a zero duration raises |
| Simulator.RobotSimulator.TurnTick | robotsim.py:478-500 | the heading is the start plus the elapsed fraction of the delta, modulo 360; at progress 1 it is the target and the command ends |
| PromptParser.DecimalEnd | robot_control_mech.py:87 | `\d*\.?\d*` consumes a decimal-shaped run |
| PromptParser.DecimalEndIs | robot_control_mech.py:87 | a decimal run followed by neither a digit nor a point is the one the pattern takes |
| PromptParser.MatchTail | robot_control_mech.py:87 | the tail pattern's groups are a word and a decimal-shaped text |
| PromptParser.Match | robot_control_mech.py:87-88 | the pattern's groups are a word and a decimal-shaped text |
| PromptParser.MatchTailComplete | robot_control_mech.py:87 | every decomposition the tail pattern admits has the groups the matcher returns |
| PromptParser.MatchSpec | robot_control_mech.py:87-88 | the matcher returns a pair exactly when the `move` branch admits it, or the `move` branch admits nothing and the plain branch admits it |
| PromptParser.ParsePrompt | robot_control_mech.py:84-99 | a parse succeeds only with a word and a positive duration; the format error comes exactly when the pattern does not match |
| PromptParser.ParseOfMatch | robot_control_mech.py:92-99 | once the pattern matches: no digits is a conversion error, only zeros is "must be positive", otherwise the kind and the value |
| PromptParser.Message | robot_control_mech.py:90-99 | only the format error's message starts with `P`; the conversion message ends with the refused text in quotes |
| PromptParser.ParsePromptSpec | robot_control_mech.py:84-99 | the same outcome, stated against the groups the pattern admits rather than the matcher |
| PromptParser.ParsePromptNoMatch | robot_control_mech.py:89-90 | a prompt the pattern admits no groups for raises the format error |
| PromptParser.NormalizeIdentity | robot_control_mech.py:88 | a prompt without upper-case letters or padding is its own normal form |
| PromptParser.MoveFormMatch | robot_control_mech.py:87 | `move <dir> <n>[ seconds]` is matched by the `move` branch with groups dir and n |
| PromptParser.PlainFormMatch | robot_control_mech.py:87 | `<dir> <n>[ seconds]` is matched by the plain branch when dir is not `move` |
| PromptParser.MoveForm | robot_control_mech.py:84-99 | `move <dir> <n>[ seconds]` parses to dir and n's value when n is not zero, and to the duration errors otherwise |
| PromptParser.PlainForm | robot_control_mech.py:84-99 | the same for `<dir> <n>[ seconds]` |
| PromptParser.DecimalExamples | robot_control_mech.py:94 | `2` reads as 2.0, `2.5` as 2.5, and `0.0` has no non-zero digit |
| PromptParser.ForwardTwo | robot_control_mech.py:86 | `forward 2` parses to (forward, 2.0) |
| PromptParser.MoveForwardTwoSeconds | robot_control_mech.py:86 | `move forward 2 seconds` parses to (forward, 2.0) |
| PromptParser.ForwardGluedUnit | robot_control_mech.py:87 | `forward 2.5seconds` parses to (forward, 2.5) |
| PromptParser.ZeroDuration | robot_control_mech.py:95-96 | `backward 0.0 seconds` is refused as not positive |
| PromptParser.PointDuration | robot_control_mech.py:93-99 | `left .` is refused as not convertible |
| PromptParser.TurnFormRejected | robot_control_mech.py:86-90 | `turn <left/right> <n>[ seconds]` raises the format error |
| PromptParser.TurnLeftExample | robot_control_mech.py:90 | the format message's own example `turn left 1.5` raises the format error |
| PromptParser.WordWhereNumberExpected | robot_control_mech.py:87 | a word followed by a letter where the number should be does not match the tail pattern |
| PromptParser.SingularSecondRejected | robot_control_mech.py:87-90 | `move <dir> <n> second` raises the format error |
| PromptParser.SingularSecondExample | robotagent.py:115 | the example's `move forward 1 second` raises the format error |
| PromptParser.BareMove | robot_control_mech.py:87 | `move <n>` parses to the kind `move` with n's value |
| PromptParser.MoveNumberSeconds | robot_control_mech.py:87-99 | `move <n> seconds` takes n as the kind and an empty duration, which `float` refuses |
| PromptParser.BareMoveExample | robot_control_mech.py:87 | `move 2` parses to (move, 2.0) |
| PromptParser.MoveNumberSecondsExample | robot_control_mech.py:87-99 | `move 2 seconds` is refused as not convertible |
| RobotControl.ToolError | robot_control_mech.py:42 | the message names the tool right after `Tool ` |
| RobotControl.InvalidCommand | robot_control_mech.py:53 | the message quotes the kind after `Invalid command '` and ends with a point |
| RobotControl.Validate | robot_control_mech.py:39-64 | a command goes out exactly when the tool is `robot-control`, the prompt parses and the kind is one of the four; it is the parsed pair, with a positive duration; refusals carry no metadata and echo the prompt unless the tool is wrong |
| RobotControl.Run | robot_control_mech.py:33-82 | the prompt is echoed exactly when the tool is right; metadata is present exactly when the command was sent and delivered, and is the server's body |
| RobotControl.RejectedBeforeSending | robot_control_mech.py:39-64 | a refused prompt gives the same result whatever the server would do |
| RobotControl.ServerMessagePassedOn | robot_control_mech.py:69 | the server's `message` is passed on; without one the result is `No message returned` |
| RobotControl.ValidCommandsLower | robot_control_mech.py:31 | the supported kinds are in lower case |
| RobotControl.HttpOutcome | robot_control_mech.py:108 | a reply is delivered exactly when it is JSON with a status outside 400-599 |
| RobotControl.SimulatorQueuesValidated | robot_control_mech.py:101-109 | the simulator queues every validated command unchanged and answers 200 |
| RobotControl.SimulatorAnswerReported | robot_control_mech.py:67-75 | for every validated command the tool reports `No message returned` with the simulator's body as metadata |
| RobotControl.ParseErrorReported | robot_control_mech.py:58-64 | a parser refusal is reported as `Error parsing prompt: ` and the parser's message |
| RobotControl.InvalidKindReported | robot_control_mech.py:51-57 | a parsed kind outside the four is reported with the supported list |
| RobotControl.MoveNotValid | robot_control_mech.py:31 | `move` is not a supported kind |
| RobotControl.BareMoveIsInvalid | robot_control_mech.py:49-57 | `move <n>` is refused as an invalid command `move` |
| RobotControl.TurnFormRefused | robot_control_mech.py:49-64 | the planner's turn form is refused with the parser's format message |
| RobotControl.MoveFormSent | robot_control_mech.py:49-57 | the planner's move form is sent with its direction and value |
| PlannerOutput.Split | robotagent.py:116 | `split(",")` yields at least one piece and no piece holds a comma |
| PlannerOutput.JoinSplit | robotagent.py:116 | joining the pieces with the separator gives the text back |
| PlannerOutput.SplitCount | robotagent.py:116 | there is one more piece than there are separators |
| PlannerOutput.SplitConcat | robotagent.py:116 | splitting `a,b` is splitting a, then splitting b |
| PlannerOutput.SplitWhole | robotagent.py:116 | a text without the separator is one piece |
| PlannerOutput.SplitJoin | robotagent.py:116 | non-empty separator-free parts, joined and split, come back unchanged |
| PlannerOutput.Kept | robotagent.py:116 | one piece gives its stripped text, or nothing when that is empty |
| PlannerOutput.KeepCommands | robotagent.py:116 | no more commands are kept than there are pieces |
| PlannerOutput.KeepWellFormed | robotagent.py:116 | the kept commands are stripped, non-empty and comma-free |
| PlannerOutput.KeepConcat | robotagent.py:116 | filtering distributes over concatenation, so order is kept |
| PlannerOutput.KeepClean | robotagent.py:116 | already-stripped non-empty pieces are kept unchanged |
| PlannerOutput.StripChars | robotagent.py:116 | stripping adds no character |
| PlannerOutput.ParseCommands | robotagent.py:116 | an answer holds at most one command more than it has commas |
| PlannerOutput.ParseCommandsWellFormed | localrobotagent.py:97 | every command is non-empty, stripped and comma-free |
| PlannerOutput.ParseCommandsConcat | testdeployedmechs.py:22-24 | the commands of `a,b` are those of a followed by those of b |
| PlannerOutput.ParseCommandsRejoin | robotagent.py:116 | re-joining the commands with commas and parsing again gives the same commands |
| PlannerOutput.SingleCommand | robotagent.py:116 | a comma-free answer is its stripped self, or nothing when blank |
| PlannerOutput.BlankAnswer | testdeployedmechs.py:46-49 | an answer of blanks and commas holds no command, so the script stops |
| PlannerOutput.StripLeadingBlank | robotagent.py:116 | stripping removes the blank after a comma |
| PlannerOutput.BlankThenCommand | robotagent.py:116 | a blank and a written command read as that command |
| PlannerOutput.AppendCommand | robotagent.py:116 | a written command after `, ` adds exactly that command at the end |
| PlannerOutput.OneCommand | robotagent.py:116 | a written command alone reads back unchanged |
| PlannerOutput.TwoCommands | robotagent.py:116 | two written commands separated by `, ` come back in order |
| PlannerOutput.ThirdCommand | robotagent.py:116 | a third written command comes back after the first two |
| PlannerOutput.ExampleAnswer | robotagent.py:115 | the example answer gives its three commands in order |
| Coordinator.AgentResponse | robotagent.py:105-110 | nothing exactly when the call raises or returns an empty tuple; otherwise the first item of a tuple or the value itself |
| Coordinator.TestResponse | testdeployedmechs.py:18-20 | the agents' unwrapping, but a raised exception becomes `Error: ` and its text, including the empty tuple's `IndexError` |
| Coordinator.React | robotagent.py:76-82 | a missing or null answer is skipped, a non-text answer crashes the loop, and a replan is asked exactly when the trigger fires |
| Coordinator.RunReply | robot_control_mech.py:70-75 | `run`'s result is a 4-tuple of the message, the prompt when there is one, the metadata when there is some, and `None` |
| Coordinator.ParseAnswer | robotagent.py:112-120 | a text answer gives its commands, each non-empty, stripped and comma-free; any other answer gives none |
| Coordinator.ReplanCommands | robotagent.py:90-91 | parsing a new path only when the answer is truthy gives the same commands as parsing it always |
| Coordinator.NeedsReplan | localrobotagent.py:58 | the trigger needs at least five characters |
| Coordinator.NeedsReplanIgnoresCase | robotagent.py:82 | the trigger fires on an answer exactly when it fires on its lower case |
| Coordinator.PlannerFailed | testdeployedmechs.py:41 | every answer the script takes for a planner failure also fires the trigger |
| Coordinator.LocalRobotResponse | localrobotagent.py:86-87 | unwrapping the tool's 4-tuple gives its message |
| Coordinator.LowerError | testdeployedmechs.py:59 | `Error` lowers to `error` |
| Coordinator.ErrorTriggersReplan | testdeployedmechs.py:41-59 | every answer the script takes for a planner failure also fires the trigger |
| Coordinator.SentinelDetected | testdeployedmechs.py:18-20 | the sentinel is caught by the failure check and fires the trigger, whatever the exception says |
| Coordinator.UpperCaseGap | testdeployedmechs.py:59-64 | `ERROR` is not taken for a planner failure, yet fires the trigger |
| Coordinator.PairFreeExcludes | localrobotagent.py:58 | a text without one of a word's neighbouring pairs does not contain the word once lowered |
| Coordinator.Quiet | localrobotagent.py:58 | a text without `rr` and without `bs` never fires the trigger |
| Coordinator.ErrorPrefix | testdeployedmechs.py:41 | a text starting with `Error` is a planner failure and fires the trigger |
| Coordinator.ErrorAnswerReplans | localrobotagent.py:58 | a tool result whose message starts with `Error` makes the coordinator ask for a new path |
| Coordinator.ParseErrorTriggersReplan | robot_control_mech.py:58-64 | a prompt the parser refuses leads to a replan |
| Coordinator.RequestFailureTriggersReplan | robot_control_mech.py:76-82 | a command lost on the way to the server leads to a replan |
| Coordinator.TurnStepTriggersReplan | robotagent.py:52 | every turn step in the format the planner is asked for leads to a replan |
| Coordinator.NoMessageQuiet | robot_control_mech.py:69 | the fixed text `No message returned` does not fire the trigger |
| Coordinator.InvalidCommandQuiet | robot_control_mech.py:53 | the refusal of a kind with neither `rr` nor `bs` does not fire the trigger |
| Coordinator.InvalidKindProceeds | robot_control_mech.py:51-57 | a parsed kind outside the four, with neither `rr` nor `bs`, lets the coordinator proceed |
| Coordinator.MoveRefusalQuiet | robot_control_mech.py:53 | the refusal of the kind `move` does not fire the trigger |
| Coordinator.BareMoveProceeds | localrobotagent.py:58 | `move <n>` is refused, and the refusal lets the coordinator proceed |
| Coordinator.SimulatorAnswerProceeds | robot_control_mech.py:67-75 | every command the simulator queues comes back as an answer that lets the coordinator proceed |

## Left out

- The Tk window and everything drawn on it is not modelled: the canvas, labels, buttons, obstacles and the timer label of `process_commands`. The Flask server, the threads and `sleep` are left out too. Calls into the engine are taken to be serialized.
- The clock is a parameter of the methods that read it. `now` is the reading `animate_movement` and `animate_turn` take as the animation's start (robotsim.py:427, 472); `execute_command`'s own reading (robotsim.py:390) only feeds the timer label and is not modelled. `tick` is the reading the first tick takes (robotsim.py:433, 480), no earlier than `now`. Later ticks take theirs as the `now` of `MovementTick` and `TurnTick`. The heading's unit vector `(cos, sin)` is a parameter of the movement start, because trigonometry is not modelled.
- Numbers are exact reals, not IEEE doubles. Rounding, infinities and NaN are not modelled.
- The Tk timer's rescheduling is not modelled. Each call of `ProcessCommands`, `MovementTick` or `TurnTick` stands for one run of the callback. A zero duration is reported as `raised`, the point after which the source's callback is never scheduled again.
- The HTTP exchange with the simulator and the mech `interact` and OpenAI calls are parameters (`SendOutcome`, `Call`). The planner's own behaviour is not modelled.
- RobotControl.Run: the answer body is assumed to be a JSON object. A body that decodes to something else would make `.get` raise, which the tool does not catch. The fourth slot of the result tuple is always `None` and is left implicit.
- RobotControl.InvalidCommand: Python joins a set, so the order of the supported kinds in the message depends on string hashing. The model lists them in one fixed order.
- The `act` and `test_system` loops are not modelled as loops. They extend the list they iterate over with new commands after a replan, so they need not terminate. Their steps are modelled one at a time: parsing (`PlannerOutput`), unwrapping (`Coordinator.AgentResponse`, `Coordinator.TestResponse`), the reaction (`Coordinator.React`) and the checks (`Coordinator.PlannerFailed`, `Coordinator.NeedsReplan`).
- The test script's checks assume a text planner answer, and that is all the model covers. For a JSON object or list, `"Error" in` tests its keys or elements and does not raise. One that holds `"Error"` ends the script quietly (testdeployedmechs.py:41-43, 64). Any other one passes the check and raises at `.split` (line 24). A number, a boolean or null makes `in` itself raise at line 41, and a non-text robot answer makes `.lower()` raise at line 59.
- Text is ASCII. Python's Unicode whitespace, `\w`, `\d`, case mapping and digits beyond ASCII are not modelled.
- Coordinator.InvalidKindProceeds: covers kinds without `rr` and `bs` only. The kind is quoted in the message, so a kind such as `error` does fire the trigger.
- Decimal.PythonFloat: the spellings `inf`, `infinity` and `nan`, which Python also accepts, are refused, since exact reals have no such values.
- PlannerOutput.ParseCommands: its own contract states only the count bound. The well-formedness, order and concatenation properties are separate lemmas (`ParseCommandsWellFormed`, `ParseCommandsConcat`, `AppendCommand`).
- testlocalrobotagent.py, testingrobotsim.py, testopenaimech.py and callopenaimech.py are not part of this model.
