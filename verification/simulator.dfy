/**
 * The robot simulator's engine: the `/command` and `/status` handler bodies,
 * the command queue, the start rule of the periodic `process_commands`
 * callback, the dispatch on the command kind, and the movement and turn
 * animations, one tick at a time.
 *
 * Clock readings (`now` for the start of an animation, `tick` for its first
 * tick) and the heading's unit vector `(cosA, sinA)` are parameters; the Tk timer and the HTTP server that call these methods are not
 * modelled, and their calls are taken to be serialized.
 */
module Simulator {
  import opened Results
  import opened Ascii
  import opened Decimal
  import opened Json
  import opened Arena

  /** A queued command: its kind, as sent, and its duration in seconds. */
  type Command = (string, real)

  /**
   * The context of the command being animated, which the source keeps in
   * closure variables: when it started, how long it lasts, the pose it started
   * from and the pose it aims for.
   */
  datatype Motion =
    | Moving(startTime: real, duration: real, startX: real, startY: real, targetX: real, targetY: real)
    | Turning(startTime: real, duration: real, startAngle: real, targetAngle: real, delta: real)

  /** What the `/command` handler makes of a decoded request body. */
  datatype Intake =
    | NoData              // answered 400
    | Accept(cmd: Command)  // queued, answered 200
    | Crash               // an uncaught exception: Flask answers 500

  datatype Reply =
    | JsonReply(code: int, body: map<string, Json>)
    | InternalServerError

  /** `float(v)` for a JSON value; `None` where Python raises. */
  function FloatOfJson(v: Json): (r: Option<real>)
    ensures v.JNum? ==> r == Some(v.n)
    ensures v.JNull? || v.JArr? || v.JObj? ==> r == None
  {
    match v
    case JNum(n) => Some(n)
    case JBool(b) => Some(if b then 1.0 else 0.0)
    case JStr(s) => PythonFloat(s)
    case _ => None
  }

  /**
   * The `/command` handler's decision: a false-valued body (absent, empty) is
   * refused; otherwise the kind defaults to `""` and is lower-cased, the
   * duration defaults to 1.0 and goes through `float`; neither is checked
   * further. A body that is not an object, a kind that is not a string, or a
   * duration `float` refuses, raises.
   */
  function DecodeCommand(body: Json): (r: Intake)
    ensures r.NoData? <==> !Truthy(body)
    ensures r.Accept? ==> body.JObj? && Get(body.fields, "command", JStr("")).JStr?
  {
    if !Truthy(body) then NoData
    else if !body.JObj? then Crash
    else
      var kind := Get(body.fields, "command", JStr(""));
      var duration := Get(body.fields, "duration", JNum(1.0));
      if !kind.JStr? then Crash
      else match FloatOfJson(duration)
        case None => Crash
        case Some(d) => Accept((Lower(kind.s), d))
  }

  /** The kind and duration are queued as sent: no kind is refused, no duration is too small. */
  lemma IntakeAcceptsAnything(kind: string, duration: real)
    ensures DecodeCommand(JObj(map["command" := JStr(kind), "duration" := JNum(duration)]))
            == Accept((Lower(kind), duration))
  {
    var fields := map["command" := JStr(kind), "duration" := JNum(duration)];
    assert "command" in fields;
  }

  /** A duration sent as text goes through `float`: the command is queued with the value `float` reads. */
  lemma TextDuration(kind: string, text: string, v: real)
    requires PythonFloat(text) == Some(v)
    ensures DecodeCommand(JObj(map["command" := JStr(kind), "duration" := JStr(text)])) == Accept((Lower(kind), v))
  {
    var fields := map["command" := JStr(kind), "duration" := JStr(text)];
    assert Get(fields, "command", JStr("")) == JStr(kind);
    assert Get(fields, "duration", JNum(1.0)) == JStr(text);
    assert FloatOfJson(JStr(text)) == Some(v);
    assert Truthy(JObj(fields)) by {
      assert "command" in fields;
    }
  }

  /** Exponents included: a duration of `"1e3"` queues a thousand seconds. */
  lemma ExponentDurationRead(kind: string)
    ensures DecodeCommand(JObj(map["command" := JStr(kind), "duration" := JStr("1e3")])) == Accept((Lower(kind), 1000.0))
  {
    ExponentExample();
    TextDuration(kind, "1e3", 1000.0);
  }

  /** A duration text `float` refuses makes the handler raise. */
  lemma RefusedTextDuration(kind: string, text: string)
    requires PythonFloat(text) == None
    ensures DecodeCommand(JObj(map["command" := JStr(kind), "duration" := JStr(text)])) == Crash
  {
    var fields := map["command" := JStr(kind), "duration" := JStr(text)];
    assert Get(fields, "command", JStr("")) == JStr(kind);
    assert Get(fields, "duration", JNum(1.0)) == JStr(text);
    assert FloatOfJson(JStr(text)) == None;
    assert Truthy(JObj(fields)) by {
      assert "command" in fields;
    }
  }

  /** A duration of `"1\x1f"` is refused by `float`, so the handler raises. */
  lemma SeparatorDurationCrashes(kind: string)
    ensures DecodeCommand(JObj(map["command" := JStr(kind), "duration" := JStr("1\U{1F}")])) == Crash
  {
    UnitSeparatorExample();
    RefusedTextDuration(kind, "1\U{1F}");
  }

  /** A non-empty object without the two keys queues the defaults: an empty kind for one second. */
  lemma IntakeDefaults(fields: map<string, Json>)
    requires fields != map[] && "command" !in fields && "duration" !in fields
    ensures DecodeCommand(JObj(fields)) == Accept(("", 1.0))
  {
  }

  /** The body of the 200 answer: the status text and the queued command, echoed. */
  function AcceptedBody(cmd: Command): (r: map<string, Json>)
    ensures r.Keys == {"status", "command", "duration"}
    ensures r["command"] == JStr(cmd.0) && r["duration"] == JNum(cmd.1)
  {
    map["status" := JStr("Command received"), "command" := JStr(cmd.0), "duration" := JNum(cmd.1)]
  }

  /** The HTTP answer to each decision. */
  function IntakeReply(intake: Intake): (r: Reply)
    ensures r.JsonReply? ==> (r.code == 200 <==> intake.Accept?)
    ensures intake.NoData? <==> r.JsonReply? && r.code == 400
    ensures intake.NoData? ==> r == JsonReply(400, map["error" := JStr("No data provided")])
    ensures intake.Crash? <==> r.InternalServerError?
  {
    match intake
    case NoData => JsonReply(400, map["error" := JStr("No data provided")])
    case Accept(cmd) => JsonReply(200, AcceptedBody(cmd))
    case Crash => InternalServerError
  }

  /** The `/status` body: the position as an `x`/`y` object, the heading, the queue length and the flag. */
  function StatusBody(x: real, y: real, angle: real, queueSize: nat, executing: bool): (r: map<string, Json>)
    ensures r.Keys == {"position", "angle", "queue_size", "executing"}
    ensures r["position"].JObj? && r["position"].fields.Keys == {"x", "y"}
    ensures r["position"].fields["x"] == JNum(x) && r["position"].fields["y"] == JNum(y)
    ensures r["angle"] == JNum(angle) && r["executing"] == JBool(executing)
    ensures r["queue_size"] == JNum(queueSize as real)
  {
    map["position" := JObj(map["x" := JNum(x), "y" := JNum(y)]),
        "angle" := JNum(angle),
        "queue_size" := JNum(queueSize as real),
        "executing" := JBool(executing)]
  }

  /**
   * The context `execute_command` sets up for a dequeued command at time `now`
   * from the pose `(x, y, angle)`: a move for `forward`/`backward`, a turn for
   * `left`/`right`, nothing for any other kind.
   */
  function StartMotion(cmd: Command, now: real, x: real, y: real, angle: real, cosA: real, sinA: real): (m: Option<Motion>)
    ensures m.None? <==> cmd.0 !in {"forward", "backward", "left", "right"}
    ensures m.Some? ==> m.value.startTime == now && m.value.duration == cmd.1
    ensures m.Some? && m.value.Moving? ==>
              cmd.0 in {"forward", "backward"} && m.value.startX == x && m.value.startY == y
              && InArena(m.value.targetX, m.value.targetY)
    ensures m.Some? && m.value.Turning? ==>
              cmd.0 in {"left", "right"} && m.value.startAngle == angle
              && 0.0 <= m.value.targetAngle < 360.0 && -180.0 < m.value.delta <= 180.0
    ensures cmd.0 == "left" ==> m.value.targetAngle == Mod360(angle + TurnSpeed * cmd.1)
    ensures cmd.0 == "right" ==> m.value.targetAngle == Mod360(angle - TurnSpeed * cmd.1)
    ensures cmd.0 == "forward" ==> (m.value.targetX, m.value.targetY) == MoveTarget(x, y, cosA, sinA, cmd.1, 1.0)
    ensures cmd.0 == "backward" ==> (m.value.targetX, m.value.targetY) == MoveTarget(x, y, cosA, sinA, cmd.1, -1.0)
  {
    var (kind, duration) := cmd;
    if kind == "forward" || kind == "backward" then
      var t := MoveTarget(x, y, cosA, sinA, duration, if kind == "forward" then 1.0 else -1.0);
      Some(Moving(now, duration, x, y, t.0, t.1))
    else if kind == "left" || kind == "right" then
      var t := TurnTarget(angle, duration, if kind == "left" then 1.0 else -1.0);
      Some(Turning(now, duration, angle, t, TurnDelta(angle, t)))
    else
      None
  }

  /** What holds of every context the engine sets up. */
  ghost predicate WellFormed(m: Motion) {
    match m
    case Moving(_, _, _, _, tx, ty) => InArena(tx, ty)
    case Turning(_, _, sa, ta, delta) => 0.0 <= sa < 360.0 && 0.0 <= ta < 360.0 && delta == TurnDelta(sa, ta)
  }

  /** The pose, the context still running, and the points recorded on the path. */
  datatype Snapshot = Snapshot(x: real, y: real, angle: real, active: Option<Motion>, trace: seq<(real, real)>)

  /**
   * One run of an animation closure (`update_position`, `update_angle`) at time
   * `now` for the context `m`, from the pose `(x, y, angle)`. A move records the
   * point it reaches and a turn changes only the heading; the command ends
   * exactly when the full duration has elapsed, and then the pose is the target.
   */
  function Tick(m: Motion, now: real, x: real, y: real, angle: real): (s: Snapshot)
    requires m.duration != 0.0
    ensures s.active.None? <==> Progress(now - m.startTime, m.duration) == 1.0
    ensures s.active.Some? ==> s.active == Some(m)
    ensures m.Moving? ==> s.angle == angle && s.trace == [(s.x, s.y)]
    ensures m.Turning? ==> s.x == x && s.y == y && s.trace == []
    ensures s.active.Some? && m.Turning? ==> 0.0 <= s.angle < 360.0
    ensures s.active.None? && m.Moving? ==> s.x == m.targetX && s.y == m.targetY
    ensures s.active.None? && m.Turning? ==> s.angle == m.targetAngle
  {
    var p := Progress(now - m.startTime, m.duration);
    match m
    case Moving(_, _, sx, sy, tx, ty) =>
      var pt := (Lerp(sx, tx, p), Lerp(sy, ty, p));
      if p >= 1.0 then Snapshot(tx, ty, angle, None, [pt]) else Snapshot(pt.0, pt.1, angle, Some(m), [pt])
    case Turning(_, _, sa, ta, delta) =>
      if p >= 1.0 then Snapshot(x, y, ta, None, [])
      else Snapshot(x, y, TurnHeading(sa, delta, p), Some(m), [])
  }

  /**
   * Recording the context `m` and running its first tick at time `tick`, as
   * `animate_movement` and `animate_turn` do. A zero duration makes that tick
   * divide by zero: `raised`, with only the context recorded.
   */
  function Begin(m: Motion, tick: real, x: real, y: real, angle: real): (r: (Snapshot, bool))
    ensures r.1 <==> m.duration == 0.0
    ensures r.1 ==> r.0 == Snapshot(x, y, angle, Some(m), [])
    ensures r.0.active.Some? ==> r.0.active == Some(m)
  {
    if m.duration == 0.0 then (Snapshot(x, y, angle, Some(m), []), true)
    else (Tick(m, tick, x, y, angle), false)
  }

  /**
   * `execute_command` for `cmd` started at `now` from the pose `(x, y, angle)`,
   * its first tick running at `tick`: an unknown kind changes nothing, a known
   * kind is begun with the context `StartMotion` sets up.
   */
  function Start(cmd: Command, now: real, tick: real, x: real, y: real, angle: real, cosA: real, sinA: real): (r: (Snapshot, bool))
    ensures r.1 <==> StartMotion(cmd, now, x, y, angle, cosA, sinA).Some? && cmd.1 == 0.0
    ensures StartMotion(cmd, now, x, y, angle, cosA, sinA).None? ==> r == (Snapshot(x, y, angle, None, []), false)
    ensures r.0.active.Some? ==> r.0.active == StartMotion(cmd, now, x, y, angle, cosA, sinA)
  {
    match StartMotion(cmd, now, x, y, angle, cosA, sinA)
    case None => (Snapshot(x, y, angle, None, []), false)
    case Some(m) => Begin(m, tick, x, y, angle)
  }

  /**
   * When no time passes between the start and the first tick, a command of a
   * known kind and non-zero duration leaves the pose where it is, keeps running,
   * and records the start point if it is a move.
   */
  lemma {:induction false} StartAtOnce(cmd: Command, now: real, x: real, y: real, angle: real, cosA: real, sinA: real)
    requires 0.0 <= angle < 360.0
    requires cmd.0 in {"forward", "backward", "left", "right"} && cmd.1 != 0.0
    ensures var s := Start(cmd, now, now, x, y, angle, cosA, sinA).0;
            && s.x == x && s.y == y && s.angle == angle
            && s.active == StartMotion(cmd, now, x, y, angle, cosA, sinA)
            && s.trace == (if cmd.0 in {"forward", "backward"} then [(x, y)] else [])
  {
    var m := StartMotion(cmd, now, x, y, angle, cosA, sinA).value;
    assert Progress(now - now, m.duration) == 0.0;
    if m.Turning? {
      Mod360OfNormal(angle);
    }
  }

  /**
   * A command of a known kind whose whole duration has already elapsed by the
   * first tick is over at once: a move ends on its clamped target and a turn on
   * its target heading.
   */
  lemma {:induction false} ShortCommandEndsAtOnce(cmd: Command, now: real, tick: real, x: real, y: real, angle: real, cosA: real, sinA: real)
    requires cmd.0 in {"forward", "backward", "left", "right"}
    requires 0.0 < cmd.1 <= tick - now
    ensures var (s, raised) := Start(cmd, now, tick, x, y, angle, cosA, sinA);
            && !raised && s.active.None?
            && (cmd.0 == "forward" ==> (s.x, s.y) == MoveTarget(x, y, cosA, sinA, cmd.1, 1.0))
            && (cmd.0 == "backward" ==> (s.x, s.y) == MoveTarget(x, y, cosA, sinA, cmd.1, -1.0))
            && (cmd.0 == "left" ==> s.angle == TurnTarget(angle, cmd.1, 1.0))
            && (cmd.0 == "right" ==> s.angle == TurnTarget(angle, cmd.1, -1.0))
  {
    var m := StartMotion(cmd, now, x, y, angle, cosA, sinA).value;
    assert Progress(tick - now, m.duration) == 1.0;
  }

  /** A command of a known kind with a negative duration never ends: its progress stays below 1. */
  lemma {:induction false} NegativeDurationNeverEnds(m: Motion, now: real, x: real, y: real, angle: real)
    requires m.duration < 0.0 && now >= m.startTime
    ensures Tick(m, now, x, y, angle).active == Some(m)
  {
  }

  /** A tick of a move with a positive duration, after its start, keeps the robot between two arena points in the arena. */
  lemma {:induction false} TickInArena(m: Motion, now: real, x: real, y: real, angle: real)
    requires m.Moving? && m.duration > 0.0 && now >= m.startTime
    requires InArena(m.startX, m.startY) && InArena(m.targetX, m.targetY)
    ensures InArena(Tick(m, now, x, y, angle).x, Tick(m, now, x, y, angle).y)
  {
    var p := Progress(now - m.startTime, m.duration);
    LerpInArena(m.startX, m.startY, m.targetX, m.targetY, p);
  }

  /** The simulator's engine state (`OptimizedRobotSimulator`, without its widgets). */
  class RobotSimulator {
    var x: real
    var y: real
    /** The heading in degrees, 0 facing east, counter-clockwise. */
    var angle: real
    var queue: seq<Command>
    var executing: bool
    /** The running command's context; absent when no command runs. */
    var active: Option<Motion>
    /** The positions visited by movement ticks, in order. */
    var path: seq<(real, real)>

    /** The heading is normalized and a context exists exactly while a command executes. */
    ghost predicate Valid()
      reads this
    {
      && 0.0 <= angle < 360.0
      && (executing <==> active.Some?)
      && (active.Some? ==> WellFormed(active.value))
    }

    /** The robot is inside the arena, and so is the point the running move started from. */
    ghost predicate Contained()
      reads this
    {
      && InArena(x, y)
      && (active.Some? && active.value.Moving? ==> InArena(active.value.startX, active.value.startY))
    }

    /** The pose and the context are those of `s`, and the path is `before` followed by the points `s` recorded. */
    ghost predicate Shows(s: Snapshot, before: seq<(real, real)>)
      reads this
    {
      x == s.x && y == s.y && angle == s.angle && active == s.active && path == before + s.trace
    }

    constructor ()
      ensures Valid() && Contained()
      ensures x == StartX && y == StartY && angle == StartAngle
      ensures queue == [] && !executing && active == None && path == []
    {
      x, y, angle := StartX, StartY, StartAngle;
      queue, executing, active, path := [], false, None, [];
    }

    /** `POST /command`: queue the decoded command at the tail and answer. */
    method ReceiveCommand(body: Json) returns (reply: Reply)
      modifies this`queue
      ensures reply == IntakeReply(DecodeCommand(body))
      ensures DecodeCommand(body).Accept? ==> queue == old(queue) + [DecodeCommand(body).cmd]
      ensures !DecodeCommand(body).Accept? ==> queue == old(queue)
    {
      var intake := DecodeCommand(body);
      if intake.Accept? {
        queue := queue + [intake.cmd];
      }
      reply := IntakeReply(intake);
    }

    /** `GET /status`: a snapshot of the pose, the queue length and the flag; changes nothing. */
    method GetStatus() returns (body: map<string, Json>)
      ensures body == StatusBody(x, y, angle, |queue|, executing)
      ensures body["queue_size"] == JNum(|queue| as real) && body["executing"] == JBool(executing)
    {
      body := StatusBody(x, y, angle, |queue|, executing);
    }

    /** A button press or test-sequence step: queue the kind as given, with the dropdown's duration by default. */
    method AddTestCommand(kind: string, duration: Option<real>, selected: real)
      modifies this`queue
      ensures queue == old(queue) + [(kind, duration.GetOr(selected))]
    {
      queue := queue + [(kind, duration.GetOr(selected))];
    }

    /**
     * One run of `process_commands` at time `now`, the first animation tick
     * reading the clock again at `tick`: when the queue is non-empty and nothing
     * executes, the head is removed and started; otherwise nothing changes.
     * `raised` reports the `ZeroDivisionError` of a zero-duration move or turn,
     * after which the source's callback is never scheduled again.
     */
    method ProcessCommands(now: real, tick: real, cosA: real, sinA: real) returns (raised: bool)
      requires Valid() && now <= tick
      modifies this
      ensures Valid()
      ensures old(queue) == [] || old(executing) ==>
                && !raised && queue == old(queue) && executing == old(executing)
                && x == old(x) && y == old(y) && angle == old(angle)
                && active == old(active) && path == old(path)
      ensures old(queue) != [] && !old(executing) ==>
                var (s, r) := Start(old(queue)[0], now, tick, old(x), old(y), old(angle), cosA, sinA);
                && queue == old(queue)[1..]
                && Shows(s, old(path)) && raised == r
      ensures old(Contained()) && (old(queue) != [] && !old(executing) ==> old(queue)[0].1 >= 0.0) ==> Contained()
    {
      raised := false;
      if queue != [] && !executing {
        executing := true;
        var cmd := queue[0];
        queue := queue[1..];
        raised := ExecuteCommand(cmd, now, tick, cosA, sinA);
      }
    }

    /** `execute_command`: dispatch on the kind; an unknown kind only clears the flag. */
    method ExecuteCommand(cmd: Command, now: real, tick: real, cosA: real, sinA: real) returns (raised: bool)
      requires 0.0 <= angle < 360.0 && executing && active == None && now <= tick
      modifies this`x, this`y, this`angle, this`executing, this`active, this`path
      ensures Valid()
      ensures var (s, r) := Start(cmd, now, tick, old(x), old(y), old(angle), cosA, sinA);
              Shows(s, old(path)) && raised == r
      ensures InArena(old(x), old(y)) && cmd.1 >= 0.0 ==> Contained()
    {
      var (kind, duration) := cmd;
      if kind == "forward" {
        raised := ExecuteMovement(duration, 1.0, now, tick, cosA, sinA);
      } else if kind == "backward" {
        raised := ExecuteMovement(duration, -1.0, now, tick, cosA, sinA);
      } else if kind == "left" {
        raised := ExecuteTurn(duration, 1.0, now, tick);
      } else if kind == "right" {
        raised := ExecuteTurn(duration, -1.0, now, tick);
      } else {
        executing := false;
        raised := false;
      }
    }

    /** `execute_movement`: aim at the clamped end point and start animating. */
    method ExecuteMovement(duration: real, direction: real, now: real, tick: real, cosA: real, sinA: real) returns (raised: bool)
      requires 0.0 <= angle < 360.0 && executing && active == None && now <= tick
      modifies this`x, this`y, this`executing, this`active, this`path
      ensures Valid()
      ensures var t := MoveTarget(old(x), old(y), cosA, sinA, duration, direction);
              var (s, r) := Begin(Moving(now, duration, old(x), old(y), t.0, t.1), tick, old(x), old(y), old(angle));
              Shows(s, old(path)) && raised == r
      ensures InArena(old(x), old(y)) && duration >= 0.0 ==> Contained()
    {
      var t := MoveTarget(x, y, cosA, sinA, duration, direction);
      raised := AnimateMovement(t.0, t.1, duration, now, tick);
    }

    /**
     * `animate_movement`: record the context started at `now` and run the
     * first tick at once, the clock reading `tick` by then. A zero duration
     * makes that first tick divide by zero.
     */
    method AnimateMovement(targetX: real, targetY: real, duration: real, now: real, tick: real) returns (raised: bool)
      requires 0.0 <= angle < 360.0 && executing && active == None && InArena(targetX, targetY) && now <= tick
      modifies this`x, this`y, this`executing, this`active, this`path
      ensures Valid()
      ensures var (s, r) := Begin(Moving(now, duration, old(x), old(y), targetX, targetY), tick, old(x), old(y), old(angle));
              Shows(s, old(path)) && raised == r
      ensures InArena(old(x), old(y)) && duration >= 0.0 ==> Contained()
    {
      active := Some(Moving(now, duration, x, y, targetX, targetY));
      if duration == 0.0 {
        raised := true;
      } else {
        raised := false;
        MovementTick(tick);
      }
    }

    /**
     * One run of the movement closure `update_position`: interpolate between the
     * start and the target by the elapsed fraction, record the point, and on
     * reaching the full duration snap to the target and clear the flag.
     */
    method MovementTick(now: real)
      requires Valid() && active.Some? && active.value.Moving? && active.value.duration != 0.0
      modifies this`x, this`y, this`executing, this`active, this`path
      ensures Valid()
      ensures Shows(Tick(old(active).value, now, old(x), old(y), old(angle)), old(path))
      ensures var m := old(active).value;
              old(Contained()) && m.duration > 0.0 && now >= m.startTime ==> Contained()
    {
      var m := active.value;
      var p := Progress(now - m.startTime, m.duration);
      x := Lerp(m.startX, m.targetX, p);
      y := Lerp(m.startY, m.targetY, p);
      path := path + [(x, y)];
      if m.duration > 0.0 && now >= m.startTime && InArena(m.startX, m.startY) {
        LerpInArena(m.startX, m.startY, m.targetX, m.targetY, p);
      }
      if p >= 1.0 {
        x, y := m.targetX, m.targetY;
        executing := false;
        active := None;
      }
    }

    /** `execute_turn`: aim at the heading the commanded rotation reaches, modulo 360, and start animating. */
    method ExecuteTurn(duration: real, direction: real, now: real, tick: real) returns (raised: bool)
      requires 0.0 <= angle < 360.0 && executing && active == None && now <= tick
      modifies this`angle, this`executing, this`active
      ensures Valid()
      ensures var t := TurnTarget(old(angle), duration, direction);
              var (s, r) := Begin(Turning(now, duration, old(angle), t, TurnDelta(old(angle), t)), tick, x, y, old(angle));
              Shows(s, path) && raised == r
    {
      var t := TurnTarget(angle, duration, direction);
      raised := AnimateTurn(t, duration, now, tick);
    }

    /**
     * `animate_turn`: fix the signed delta towards the target, record the
     * context started at `now` and run the first tick at once, the clock
     * reading `tick` by then. A zero duration makes that tick divide by zero.
     */
    method AnimateTurn(targetAngle: real, duration: real, now: real, tick: real) returns (raised: bool)
      requires 0.0 <= angle < 360.0 && executing && active == None && 0.0 <= targetAngle < 360.0 && now <= tick
      modifies this`angle, this`executing, this`active
      ensures Valid()
      ensures var m := Turning(now, duration, old(angle), targetAngle, TurnDelta(old(angle), targetAngle));
              var (s, r) := Begin(m, tick, x, y, old(angle));
              Shows(s, path) && raised == r
    {
      var delta := TurnDelta(angle, targetAngle);
      active := Some(Turning(now, duration, angle, targetAngle, delta));
      if duration == 0.0 {
        raised := true;
      } else {
        raised := false;
        TurnTick(tick);
      }
    }

    /**
     * One run of the turn closure `update_angle`: rotate from the start heading
     * by the elapsed fraction of the delta, modulo 360, and on reaching the full
     * duration set the target heading exactly and clear the flag.
     */
    method TurnTick(now: real)
      requires Valid() && active.Some? && active.value.Turning? && active.value.duration != 0.0
      modifies this`angle, this`executing, this`active
      ensures Valid()
      ensures Shows(Tick(old(active).value, now, x, y, old(angle)), path)
    {
      var m := active.value;
      var p := Progress(now - m.startTime, m.duration);
      angle := TurnHeading(m.startAngle, m.delta, p);
      if p >= 1.0 {
        angle := m.targetAngle;
        executing := false;
        active := None;
      }
    }
  }
}
