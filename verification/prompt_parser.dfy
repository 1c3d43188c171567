/**
 * `parse_prompt` of the robot-control tool: the anchored pattern
 * `^(?:move\s+)?(\w+)\s+(\d*\.?\d*)\s*(?:seconds)?$` applied to the
 * lower-cased, stripped prompt, then `float` and a positivity check.
 *
 * The pattern is matched by hand. `TailShape` and `MoveShape` say, without
 * reference to the matcher, which decompositions the pattern admits; the
 * lemma `MatchSpec` shows that `Match` returns the groups Python's
 * backtracking matcher returns: those of the `move` branch when that branch
 * matches at all, otherwise those of the branch without it.
 */
module PromptParser {
  import opened Results
  import opened Ascii
  import opened Decimal

  /** The three ways `parse_prompt` raises `ValueError`. */
  datatype ParseError =
    | NoMatch                 // the pattern does not match
    | NotAFloat(text: string) // `float` rejects the duration group
    | NotPositive             // the duration is zero

  /**
   * How the message for a duration `float` rejects starts: the rejected text
   * follows it, quoted. The literal is written in two parts so that the
   * verifier sees its first character, which it does not read off a long literal.
   */
  const FloatLead: string := "Invalid" + " duration: could not convert string to float: '"

  /**
   * The `ValueError` message `parse_prompt` raises for each error. Only the
   * format error starts with `P`; the message for a rejected duration quotes it.
   */
  function Message(e: ParseError): (r: string)
    ensures r != [] && (r[0] == 'P' <==> e.NoMatch?)
    ensures e.NotAFloat? ==> |r| == |FloatLead| + |e.text| + 1
    ensures e.NotAFloat? ==> r[|FloatLead|..|FloatLead| + |e.text|] == e.text && r[|r| - 1] == '\''
  {
    match e
    case NoMatch =>
      var lead := "Prompt";
      assert lead[0] == 'P';
      lead + " must be in format '<command> <duration> [seconds]', e.g., 'move forward 2' or 'turn left 1.5'"
    case NotAFloat(text) =>
      assert "Invalid"[0] == 'I';
      FloatLead + text + "'"
    case NotPositive =>
      var lead := "Invalid";
      assert lead[0] == 'I';
      lead + " duration: Duration must be positive"
  }

  predicate IsWord(s: string) {
    |s| > 0 && forall i :: 0 <= i < |s| ==> IsWordChar(s[i])
  }

  /** The optional suffix `(?:seconds)?` followed by the end of the text. */
  predicate IsSuffix(s: string) {
    s == "" || s == "seconds"
  }

  /**
   * `(\w+)\s+(\d*\.?\d*)\s*(?:seconds)?$` matches `s` with groups `cmd` and `dur`,
   * the four cut points being the ends of the word, of the blank run, of the
   * duration and of the second blank run.
   */
  predicate TailSplit(s: string, cmd: string, dur: string, i: int, j: int, k: int, l: int) {
    && 0 < i < j <= k <= l <= |s|
    && s[..i] == cmd && IsWord(cmd)
    && AllSpace(s[i..j])
    && s[j..k] == dur && IsDecimalShape(dur)
    && AllSpace(s[k..l])
    && IsSuffix(s[l..])
  }

  ghost predicate TailShape(s: string, cmd: string, dur: string) {
    exists i, j, k, l :: TailSplit(s, cmd, dur, i, j, k, l)
  }

  /** The branch that starts with `move\s+`, its blank run ending at `n`. */
  ghost predicate MoveSplit(t: string, cmd: string, dur: string, n: int) {
    && 4 < n <= |t|
    && t[..4] == "move"
    && AllSpace(t[4..n])
    && TailShape(t[n..], cmd, dur)
  }

  ghost predicate MoveShape(t: string, cmd: string, dur: string) {
    exists n :: MoveSplit(t, cmd, dur, n)
  }

  /** The pattern matches `t` with some groups in its `move` branch. */
  ghost predicate MoveBranchMatches(t: string) {
    exists cmd, dur :: MoveShape(t, cmd, dur)
  }

  /**
   * The end of the longest run matched by `\d*\.?\d*` from `from`: greedy digits,
   * a point if one follows, greedy digits again.
   */
  function DecimalEnd(s: string, from: nat): (n: nat)
    requires from <= |s|
    ensures from <= n <= |s|
    ensures IsDecimalShape(s[from..n])
  {
    var d := SpanFrom(s, from, IsDigit);
    if d < |s| && s[d] == '.' then
      var n := SpanFrom(s, d + 1, IsDigit);
      assert forall x :: from <= x < n && x != d ==> IsDigit(s[x]);
      n
    else
      d
  }

  /** A decimal from `from` to `n` followed by neither a digit nor a point is what `DecimalEnd` takes. */
  lemma DecimalEndIs(s: string, from: nat, n: nat)
    requires from <= n <= |s| && IsDecimalShape(s[from..n])
    requires n < |s| ==> !IsDigit(s[n]) && s[n] != '.'
    ensures DecimalEnd(s, from) == n
  {
    assert forall x :: from <= x < n ==> IsDigit(s[x]) || s[x] == '.' by {
      forall x | from <= x < n ensures IsDigit(s[x]) || s[x] == '.' { assert s[from..n][x - from] == s[x]; }
    }
    assert forall x, y :: from <= x < y < n && s[x] == '.' ==> s[y] != '.' by {
      forall x, y | from <= x < y < n && s[x] == '.' ensures s[y] != '.' {
        assert s[from..n][x - from] == s[x] && s[from..n][y - from] == s[y];
      }
    }
    var d := SpanFrom(s, from, IsDigit);
    if d < n {
      assert s[d] == '.';
      SpanFromIs(s, d + 1, IsDigit, n);
    } else {
      SpanFromIs(s, from, IsDigit, n);
    }
  }

  /** The cut points of the greedy tail match: ends of the word, the blanks, the duration and the last blanks. */
  function TailCuts(s: string): (c: (nat, nat, nat, nat))
    ensures c.0 <= c.1 <= c.2 <= c.3 <= |s|
  {
    var i := SpanFrom(s, 0, IsWordChar);
    var j := SpanFrom(s, i, IsSpace);
    var k := DecimalEnd(s, j);
    var l := SpanFrom(s, k, IsSpace);
    (i, j, k, l)
  }

  /** `(\w+)\s+(\d*\.?\d*)\s*(?:seconds)?$` at the start of `s`, taking each run greedily. */
  function MatchTail(s: string): (r: Option<(string, string)>)
    ensures r.Some? ==> IsWord(r.value.0) && IsDecimalShape(r.value.1)
  {
    var (i, j, k, l) := TailCuts(s);
    if 0 < i < j && IsSuffix(s[l..]) then Some((s[..i], s[j..k])) else None
  }

  /** The end of the blank run after a leading `move`, or 0 when the text does not start with `move` and a blank. */
  function MoveCut(t: string): (n: nat)
    ensures n == 0 || (4 < n <= |t| && t[..4] == "move" && AllSpace(t[4..n]) && (n < |t| ==> !IsSpace(t[n])))
  {
    if |t| >= 4 && t[..4] == "move" then
      var n := SpanFrom(t, 4, IsSpace);
      if n > 4 then n else 0
    else 0
  }

  /** The whole pattern, trying the `move\s+` branch first as the backtracking matcher does. */
  function Match(t: string): (r: Option<(string, string)>)
    ensures r.Some? ==> IsWord(r.value.0) && IsDecimalShape(r.value.1)
  {
    var n := MoveCut(t);
    var viaMove := if n > 0 then MatchTail(t[n..]) else None;
    if viaMove.Some? then viaMove else MatchTail(t)
  }

  lemma MatchTailSound(s: string)
    requires MatchTail(s).Some?
    ensures TailShape(s, MatchTail(s).value.0, MatchTail(s).value.1)
  {
    var (i, j, k, l) := TailCuts(s);
    assert TailSplit(s, s[..i], s[j..k], i, j, k, l);
  }

  /** Every decomposition the tail pattern admits has the groups `MatchTail` returns. */
  lemma MatchTailComplete(s: string, cmd: string, dur: string, i: int, j: int, k: int, l: int)
    requires TailSplit(s, cmd, dur, i, j, k, l)
    ensures MatchTail(s) == Some((cmd, dur))
  {
    assert forall x :: 0 <= x < i ==> IsWordChar(s[x]) by {
      forall x | 0 <= x < i ensures IsWordChar(s[x]) { assert s[..i][x] == s[x]; }
    }
    SpacesAt(s, i, j);
    SpacesAt(s, k, l);
    assert IsSpace(s[i..j][0]);
    assert l < |s| ==> s[l] == 's' by {
      if l < |s| { assert s[l..][0] == s[l]; }
    }
    if j < k {
      assert !IsSpace(s[j]) by { assert s[j..k][0] == s[j]; }
      TailCutsAre(s, i, j, k, l);
    } else {
      SpacesAt(s, i, l);
      TailCutsAre(s, i, l, l, l);
      assert s[l..l] == [];
    }
  }

  lemma SpacesAt(s: string, a: int, b: int)
    requires 0 <= a <= b <= |s| && AllSpace(s[a..b])
    ensures forall x :: a <= x < b ==> IsSpace(s[x])
  {
    forall x | a <= x < b ensures IsSpace(s[x]) { assert s[a..b][x - a] == s[x]; }
  }


  lemma MoveBranchComplete(t: string, cmd: string, dur: string, n: int)
    requires MoveSplit(t, cmd, dur, n)
    ensures Match(t) == Some((cmd, dur))
  {
    var i, j, k, l :| TailSplit(t[n..], cmd, dur, i, j, k, l);
    assert !IsSpace(t[n]) by { assert t[n..][..i][0] == t[n]; }
    assert forall x :: 4 <= x < n ==> IsSpace(t[x]) by {
      forall x | 4 <= x < n ensures IsSpace(t[x]) { assert t[4..n][x - 4] == t[x]; }
    }
    SpanFromIs(t, 4, IsSpace, n);
    MatchTailComplete(t[n..], cmd, dur, i, j, k, l);
  }

  /** When the `move` branch's greedy match succeeds, the `move` branch matches. */
  lemma MoveCutSound(t: string)
    requires MoveCut(t) > 0 && MatchTail(t[MoveCut(t)..]).Some?
    ensures MoveShape(t, MatchTail(t[MoveCut(t)..]).value.0, MatchTail(t[MoveCut(t)..]).value.1)
  {
    var n := MoveCut(t);
    MatchTailSound(t[n..]);
    assert MoveSplit(t, MatchTail(t[n..]).value.0, MatchTail(t[n..]).value.1, n);
  }

  /**
   * `Match` returns exactly the groups the pattern yields: those of the `move`
   * branch whenever that branch matches, otherwise those of the plain branch,
   * and nothing when neither matches.
   */
  lemma MatchSpec(t: string, cmd: string, dur: string)
    ensures Match(t) == Some((cmd, dur)) <==>
              MoveShape(t, cmd, dur) || (!MoveBranchMatches(t) && TailShape(t, cmd, dur))
  {
    var n := MoveCut(t);
    var viaMove := n > 0 && MatchTail(t[n..]).Some?;
    if viaMove {
      MoveCutSound(t);
    }
    if MoveShape(t, cmd, dur) {
      var m :| MoveSplit(t, cmd, dur, m);
      MoveBranchComplete(t, cmd, dur, m);
    } else if !MoveBranchMatches(t) && TailShape(t, cmd, dur) {
      var i, j, k, l :| TailSplit(t, cmd, dur, i, j, k, l);
      MatchTailComplete(t, cmd, dur, i, j, k, l);
    } else if Match(t) == Some((cmd, dur)) {
      if !viaMove {
        MatchTailSound(t);
        if MoveBranchMatches(t) {
          var c', d' :| MoveShape(t, c', d');
          var m :| MoveSplit(t, c', d', m);
          MoveBranchComplete(t, c', d', m);
        }
      }
    }
  }

  /** The text the pattern is applied to: `prompt.lower().strip()`. */
  function Normalize(prompt: string): string {
    Strip(Lower(prompt))
  }

  /**
   * `parse_prompt`: the command word and the duration, or the error it raises.
   * A successful parse always carries a positive duration.
   */
  function ParsePrompt(prompt: string): (r: Result<(string, real), ParseError>)
    ensures r.Ok? ==> r.value.1 > 0.0 && IsWord(r.value.0)
    ensures r == Err(NoMatch) <==> Match(Normalize(prompt)).None?
  {
    match Match(Normalize(prompt))
    case None => Err(NoMatch)
    case Some((cmd, dur)) =>
      match FloatOfDecimal(dur)
      case None => Err(NotAFloat(dur))
      case Some(v) => if v <= 0.0 then Err(NotPositive) else Ok((cmd, v))
  }

  /** The outcome of `parse_prompt` once the pattern has produced its two groups. */
  lemma ParseOfMatch(prompt: string, cmd: string, dur: string)
    requires Match(Normalize(prompt)) == Some((cmd, dur))
    ensures IsDecimalShape(dur)
    ensures !HasDigit(dur) ==> ParsePrompt(prompt) == Err(NotAFloat(dur))
    ensures HasDigit(dur) && !HasNonZeroDigit(dur) ==> ParsePrompt(prompt) == Err(NotPositive)
    ensures HasNonZeroDigit(dur) ==> ParsePrompt(prompt) == Ok((cmd, FloatOfDecimal(dur).value))
  {
  }

  /** The groups Python's matcher reports for `t` (the `move` branch has priority). */
  ghost predicate Groups(t: string, cmd: string, dur: string) {
    MoveShape(t, cmd, dur) || (!MoveBranchMatches(t) && TailShape(t, cmd, dur))
  }

  /**
   * The outcome of `parse_prompt`, stated against the pattern's groups rather
   * than the matcher: a duration group without digits cannot be converted, a
   * zero duration is not positive, and anything else parses to the command
   * group and the duration's value.
   */
  lemma ParsePromptSpec(prompt: string, cmd: string, dur: string)
    requires Groups(Normalize(prompt), cmd, dur)
    ensures IsDecimalShape(dur)
    ensures !HasDigit(dur) ==> ParsePrompt(prompt) == Err(NotAFloat(dur))
    ensures HasDigit(dur) && !HasNonZeroDigit(dur) ==> ParsePrompt(prompt) == Err(NotPositive)
    ensures HasNonZeroDigit(dur) ==> ParsePrompt(prompt) == Ok((cmd, FloatOfDecimal(dur).value))
  {
    MatchSpec(Normalize(prompt), cmd, dur);
    ParseOfMatch(prompt, cmd, dur);
  }

  /** When the pattern yields no groups at all, the format error is raised. */
  lemma ParsePromptNoMatch(prompt: string)
    requires forall cmd, dur :: !Groups(Normalize(prompt), cmd, dur)
    ensures ParsePrompt(prompt) == Err(NoMatch)
  {
    var t := Normalize(prompt);
    var m := Match(t);
    if m.Some? {
      MatchSpec(t, m.value.0, m.value.1);
      assert Groups(t, m.value.0, m.value.1);
      assert false;
    }
  }

  predicate NoUpper(s: string) {
    forall i :: 0 <= i < |s| ==> !('A' <= s[i] <= 'Z')
  }

  lemma NoUpperConcat(a: string, b: string)
    requires NoUpper(a) && NoUpper(b)
    ensures NoUpper(a + b)
  {
    assert forall i :: 0 <= i < |a + b| ==> (a + b)[i] == if i < |a| then a[i] else b[i - |a|];
  }

  predicate IsLowerWord(w: string) {
    IsWord(w) && NoUpper(w)
  }

  /** A prompt with no upper-case letter and no blank at either end is its own normal form. */
  lemma NormalizeIdentity(prompt: string)
    requires Clean(prompt)
    ensures Normalize(prompt) == prompt
  {
    LowerOfLower(prompt);
    StripUnpadded(prompt);
  }

  /** The endings the planner and the tool's own examples put after the number. */
  predicate IsUnit(unit: string) {
    unit == "" || unit == " seconds" || unit == "seconds"
  }

  /** `<word> <n><unit>` is matched by the tail pattern with the word and the number as groups. */
  lemma TailFormSplit(dir: string, n: string, unit: string) returns (i: int, j: int, k: int, l: int)
    requires IsLowerWord(dir) && IsDecimalShape(n) && IsUnit(unit)
    ensures TailSplit(dir + " " + n + unit, dir, n, i, j, k, l)
  {
    var t := dir + " " + n + unit;
    i, j, k := |dir|, |dir| + 1, |dir| + 1 + |n|;
    l := if unit == " seconds" then k + 1 else k;
    assert t[..i] == dir && t[i..j] == " " && t[j..k] == n;
    assert t[l..] == (if unit == "" then "" else "seconds");
    assert AllSpace(t[k..l]);
  }

  /** Text with no upper-case letter and no blank at either end. */
  predicate Clean(t: string) {
    NoUpper(t) && t != [] && !IsSpace(t[0]) && !IsSpace(t[|t| - 1])
  }

  /** `<word> <n><unit>` with a non-empty number is clean, with or without `move ` before it. */
  lemma FormClean(dir: string, n: string, unit: string)
    requires IsLowerWord(dir) && IsDecimalShape(n) && n != ""
    requires NoUpper(unit) && (unit == "" || !IsSpace(unit[|unit| - 1]))
    ensures Clean(dir + " " + n + unit)
  {
    var t := dir + " " + n + unit;
    NoUpperConcat(dir, " ");
    NoUpperConcat(dir + " ", n);
    NoUpperConcat(dir + " " + n, unit);
    var last := if unit == "" then n[|n| - 1] else unit[|unit| - 1];
    assert t[|t| - 1] == last;
    assert !IsSpace(last) by {
      if unit == "" { assert n[|n| - 1] == '.' || IsDigit(n[|n| - 1]); }
    }
  }

  /** A clean text behind `move ` or `turn ` stays clean. */
  lemma PrefixedClean(prompt: string, prefix: string, dir: string, n: string, unit: string)
    requires prefix == "move " || prefix == "turn "
    requires prompt == prefix + dir + " " + n + unit
    requires Clean(dir + " " + n + unit)
    ensures Clean(prompt)
  {
    var t := dir + " " + n + unit;
    assert prompt == prefix + t;
    NoUpperConcat(prefix, t);
  }

  /** `move <dir> <n><unit>` is matched by the `move` branch with the direction and the number as groups. */
  lemma MoveFormMatch(t: string, dir: string, n: string, unit: string)
    requires t == "move " + dir + " " + n + unit
    requires IsLowerWord(dir) && IsDecimalShape(n) && IsUnit(unit)
    ensures Match(t) == Some((dir, n))
  {
    var i, j, k, l := TailFormSplit(dir, n, unit);
    PrefixPieces(t, "move ", dir, n, unit);
    assert t[..4] == "move" && AllSpace(t[4..5]);
    assert TailSplit(t[5..], dir, n, i, j, k, l);
    MoveBranchComplete(t, dir, n, 5);
  }

  /** A text whose first word is not `move` is not split by the `move` branch. */
  lemma NoMoveCut(t: string, m: nat)
    requires m < |t| && IsWord(t[..m]) && t[..m] != "move" && IsSpace(t[m])
    ensures MoveCut(t) == 0
  {
  }

  /** `<dir> <n><unit>` is matched by the plain branch when `dir` is not `move`. */
  lemma PlainFormMatch(dir: string, n: string, unit: string)
    requires IsLowerWord(dir) && dir != "move" && IsDecimalShape(n) && IsUnit(unit)
    ensures Match(dir + " " + n + unit) == Some((dir, n))
  {
    var t := dir + " " + n + unit;
    var i, j, k, l := TailFormSplit(dir, n, unit);
    MatchTailComplete(t, dir, n, i, j, k, l);
    assert IsSpace(t[i]) by { assert t[i..j][0] == t[i]; }
    NoMoveCut(t, i);
  }

  /**
   * The planner's move form `move <dir> <n>[ seconds]`, also with the unit glued
   * to the number: the direction and the number when the number is not zero,
   * and otherwise the duration errors.
   */
  lemma MoveForm(prompt: string, dir: string, n: string, unit: string)
    requires prompt == "move " + dir + " " + n + unit
    requires IsLowerWord(dir) && IsDecimalShape(n) && n != "" && IsUnit(unit)
    ensures n == "." ==> ParsePrompt(prompt) == Err(NotAFloat("."))
    ensures HasDigit(n) && !HasNonZeroDigit(n) ==> ParsePrompt(prompt) == Err(NotPositive)
    ensures HasNonZeroDigit(n) ==> ParsePrompt(prompt) == Ok((dir, FloatOfDecimal(n).value))
  {
    FormClean(dir, n, unit);
    PrefixedClean(prompt, "move ", dir, n, unit);
    NormalizeIdentity(prompt);
    MoveFormMatch(prompt, dir, n, unit);
    ParseOfMatch(prompt, dir, n);
    DigitLessParts(n);
  }

  /** The same without the leading `move`, for any first word other than `move` itself. */
  lemma PlainForm(prompt: string, dir: string, n: string, unit: string)
    requires prompt == dir + " " + n + unit
    requires IsLowerWord(dir) && dir != "move" && IsDecimalShape(n) && n != "" && IsUnit(unit)
    ensures n == "." ==> ParsePrompt(prompt) == Err(NotAFloat("."))
    ensures HasDigit(n) && !HasNonZeroDigit(n) ==> ParsePrompt(prompt) == Err(NotPositive)
    ensures HasNonZeroDigit(n) ==> ParsePrompt(prompt) == Ok((dir, FloatOfDecimal(n).value))
  {
    FormClean(dir, n, unit);
    NormalizeIdentity(prompt);
    PlainFormMatch(dir, n, unit);
    ParseOfMatch(prompt, dir, n);
    DigitLessParts(n);
  }

  lemma DecimalExamples()
    ensures IsDecimalShape("2") && HasNonZeroDigit("2") && FloatOfDecimal("2") == Some(2.0)
    ensures IsDecimalShape("2.5") && HasNonZeroDigit("2.5") && FloatOfDecimal("2.5") == Some(2.5)
    ensures IsDecimalShape("0.0") && HasDigit("0.0") && !HasNonZeroDigit("0.0")
  {
    DecimalTwo();
    DecimalTwoAndAHalf();
    assert "0.0"[0] == '0';
  }

  lemma DecimalTwo()
    ensures IsDecimalShape("2") && HasNonZeroDigit("2") && FloatOfDecimal("2") == Some(2.0)
  {
    assert "2"[0] == '2';
    SpanIs("2", IsDigit, 1);
  }

  lemma DecimalTwoAndAHalf()
    ensures IsDecimalShape("2.5") && HasNonZeroDigit("2.5") && FloatOfDecimal("2.5") == Some(2.5)
  {
    assert "2.5"[0] == '2';
    SpanIs("2.5", IsDigit, 1);
    assert WholePart("2.5") == "2" && FractionPart("2.5") == "5";
  }

  lemma ForwardTwo()
    ensures ParsePrompt("forward 2") == Ok(("forward", 2.0))
  {
    assert IsLowerWord("forward");
    assert "forward 2" == "forward" + " " + "2" + "";
    DecimalTwo();
    PlainForm("forward 2", "forward", "2", "");
  }

  lemma MoveForwardTwoSeconds()
    ensures ParsePrompt("move forward 2 seconds") == Ok(("forward", 2.0))
  {
    DecimalTwo();
    assert IsLowerWord("forward");
    assert "move forward 2 seconds" == "move " + "forward" + " " + "2" + " seconds";
    MoveForm("move forward 2 seconds", "forward", "2", " seconds");
  }

  lemma ForwardGluedUnit()
    ensures ParsePrompt("forward 2.5seconds") == Ok(("forward", 2.5))
  {
    assert IsLowerWord("forward");
    assert "forward 2.5seconds" == "forward" + " " + "2.5" + "seconds";
    DecimalTwoAndAHalf();
    PlainForm("forward 2.5seconds", "forward", "2.5", "seconds");
  }

  lemma ZeroDuration()
    ensures ParsePrompt("backward 0.0 seconds") == Err(NotPositive)
  {
    assert IsLowerWord("backward");
    assert "backward 0.0 seconds" == "backward" + " " + "0.0" + " seconds";
    DecimalExamples();
    PlainForm("backward 0.0 seconds", "backward", "0.0", " seconds");
  }

  lemma PointDuration()
    ensures ParsePrompt("left .") == Err(NotAFloat("."))
  {
    assert IsLowerWord("left");
    assert "left ." == "left" + " " + "." + "";
    PlainForm("left .", "left", ".", "");
  }

  /** The four cut points of the greedy tail match, from the characters around them. */
  lemma TailCutsAre(s: string, i: nat, j: nat, k: nat, l: nat)
    requires i <= j <= k <= l <= |s|
    requires forall x :: 0 <= x < i ==> IsWordChar(s[x])
    requires i < |s| ==> !IsWordChar(s[i])
    requires forall x :: i <= x < j ==> IsSpace(s[x])
    requires j < |s| ==> !IsSpace(s[j])
    requires IsDecimalShape(s[j..k]) && (k < |s| ==> !IsDigit(s[k]) && s[k] != '.')
    requires forall x :: k <= x < l ==> IsSpace(s[x])
    requires l < |s| ==> !IsSpace(s[l])
    ensures TailCuts(s) == (i, j, k, l)
  {
    SpanFromIs(s, 0, IsWordChar, i);
    SpanFromIs(s, i, IsSpace, j);
    DecimalEndIs(s, j, k);
    SpanFromIs(s, k, IsSpace, l);
  }

  /**
   * The planner's turn form `turn <left|right> <n>[ seconds]`, and the tool's own
   * example `turn left 1.5`, do not match the pattern: `turn` is taken as the
   * command and the direction where the duration should be.
   */
  lemma TurnFormRejected(prompt: string, w: string, n: string, unit: string)
    requires prompt == "turn " + w + " " + n + unit
    requires w == "left" || w == "right"
    requires IsDecimalShape(n) && n != ""
    requires unit == "" || unit == " seconds"
    ensures ParsePrompt(prompt) == Err(NoMatch)
  {
    assert Normalize(prompt) == prompt by {
      assert IsLowerWord(w);
      FormClean(w, n, unit);
      PrefixedClean(prompt, "turn ", w, n, unit);
      NormalizeIdentity(prompt);
    }
    assert Match(prompt).None? by {
      PrefixPieces(prompt, "turn ", w, n, unit);
      TurnFormNoMatch(prompt);
    }
  }

  /** The tool's own example of the prompt format is rejected. */
  lemma TurnLeftExample()
    ensures ParsePrompt("turn left 1.5") == Err(NoMatch)
  {
    assert IsDecimalShape("1.5");
    TurnFormRejected("turn left 1.5", "left", "1.5", "");
  }

  lemma TurnFormNoMatch(t: string)
    requires |t| > 5 && t[..4] == "turn" && t[4] == ' ' && (t[5] == 'l' || t[5] == 'r')
    ensures Match(t).None?
  {
    NoMoveCut(t, 4);
    assert t[5..][0] == t[5];
    WordWhereNumberExpected(t, 4);
  }

  /**
   * One word, one blank, then a letter where the number should start: the
   * number is empty, so only a text ending in `seconds` right there could match.
   */
  lemma WordWhereNumberExpected(t: string, m: nat)
    requires 0 < m && m + 1 < |t| && t[m] == ' '
    requires forall x :: 0 <= x < m ==> IsWordChar(t[x])
    requires IsWordChar(t[m + 1]) && !IsDigit(t[m + 1])
    requires t[m + 1..] != "seconds"
    ensures MatchTail(t).None?
  {
    TailCutsAre(t, m, m + 1, m + 1, m + 1);
  }

  /** The singular unit is not accepted: `move <dir> <n> second` matches neither branch. */
  lemma SingularSecondRejected(prompt: string, dir: string, n: string)
    requires prompt == "move " + dir + " " + n + " second"
    requires IsLowerWord(dir) && !IsDigit(dir[0])
    requires IsDecimalShape(n) && n != ""
    ensures ParsePrompt(prompt) == Err(NoMatch)
  {
    assert Normalize(prompt) == prompt by {
      FormClean(dir, n, " second");
      PrefixedClean(prompt, "move ", dir, n, " second");
      NormalizeIdentity(prompt);
    }
    SingularNoMatch(prompt, dir, n);
  }

  lemma SingularNoMatch(prompt: string, dir: string, n: string)
    requires prompt == "move " + dir + " " + n + " second"
    requires IsWord(dir) && !IsDigit(dir[0]) && IsDecimalShape(n) && n != ""
    ensures Match(prompt).None?
  {
    var tail := dir + " " + n + " second";
    SingularTail(dir, n);
    PrefixPieces(prompt, "move ", dir, n, " second");
    MoveThenWordNoMatch(prompt);
  }

  /** Where `<prefix><dir> <n><unit>` puts its pieces, for a five-character prefix. */
  lemma PrefixPieces(prompt: string, prefix: string, dir: string, n: string, unit: string)
    requires prompt == prefix + dir + " " + n + unit && |prefix| == 5 && dir != ""
    ensures prompt[..5] == prefix && prompt[..4] == prefix[..4] && prompt[4] == prefix[4]
    ensures prompt[5..] == dir + " " + n + unit && prompt[5] == dir[0]
    ensures |prompt| == 6 + |dir| + |n| + |unit|
  {
    assert prompt == prefix + (dir + " " + n + unit);
  }


  lemma SingularTail(dir: string, n: string)
    requires IsWord(dir) && IsDecimalShape(n) && n != ""
    ensures MatchTail(dir + " " + n + " second").None?
  {
    var tail := dir + " " + n + " second";
    var k := |dir| + 1 + |n|;
    assert tail[..|dir|] == dir && tail[|dir|] == ' ' && tail[|dir| + 1..k] == n && tail[k..] == " second";
    assert forall x :: 0 <= x < |dir| ==> IsWordChar(tail[x]) by {
      forall x | 0 <= x < |dir| ensures IsWordChar(tail[x]) { assert tail[x] == dir[x]; }
    }
    SingularTailNoMatch(tail, |dir|, k);
  }

  /** The pieces of a text that starts with `move `. */
  lemma MoveStart(t: string)
    requires |t| >= 5 && t[..5] == "move "
    ensures t[..4] == "move" && t[4] == ' '
  {
    assert t[..4] == t[..5][..4];
  }

  lemma MovePrefix(t: string, rest: string)
    requires t == "move " + rest
    ensures |t| == |rest| + 5 && t[..4] == "move" && t[4] == ' ' && t[5..] == rest
  {
    assert t[..5] == "move ";
    MoveStart(t);
  }

  /** `move `, then a text the tail pattern rejects and that starts with a letter, matches neither branch. */
  lemma MoveThenWordNoMatch(t: string)
    requires |t| > 12 && t[..5] == "move " && MatchTail(t[5..]).None?
    requires IsWordChar(t[5]) && !IsDigit(t[5])
    ensures Match(t).None?
  {
    MoveStart(t);
    SpanFromIs(t, 4, IsSpace, 5);
    WordWhereNumberExpected(t, 4);
  }

  /** A word, one blank, a non-empty number, one blank and `second` is rejected by the tail pattern. */
  lemma SingularTailNoMatch(s: string, m: nat, k: nat)
    requires 0 < m && m + 1 < k && k + 7 == |s|
    requires forall x :: 0 <= x < m ==> IsWordChar(s[x])
    requires s[m] == ' ' && IsDecimalShape(s[m + 1..k])
    requires s[k..] == " second"
    ensures MatchTail(s).None?
  {
    assert s[m + 1..k][0] == s[m + 1];
    assert s[k..][0] == s[k] && s[k..][1] == s[k + 1];
    TailCutsAre(s, m, m + 1, k, k + 1);
    assert s[k + 1..] == s[k..][1..];
  }

  /**
   * A bare `move <n>` is read by the plain branch as the command `move`, while
   * `move <n> seconds` is read by the `move` branch as the command `<n>` with an
   * empty duration, which `float` rejects.
   */
  lemma BareMove(prompt: string, n: string)
    requires prompt == "move " + n && AllDigits(n) && HasNonZeroDigit(n)
    ensures ParsePrompt(prompt) == Ok(("move", FloatOfDecimal(n).value))
  {
    BareMoveGroups(prompt, n);
    ParseOfMatch(prompt, "move", n);
  }

  /** `move <n>` is already normalised, and the pattern reads `move` as the word and `n` as the duration. */
  lemma BareMoveGroups(prompt: string, n: string)
    requires prompt == "move " + n && AllDigits(n) && n != ""
    ensures Match(Normalize(prompt)) == Some(("move", n))
  {
    assert Normalize(prompt) == prompt by {
      BareMoveClean(prompt, n, "");
    }
    BareMoveMatch(prompt, n);
  }

  lemma MoveNumberSeconds(prompt: string, n: string)
    requires prompt == "move " + n + " seconds" && AllDigits(n) && n != ""
    ensures ParsePrompt(prompt) == Err(NotAFloat(""))
  {
    assert Normalize(prompt) == prompt by {
      BareMoveClean(prompt, n, " seconds");
    }
    assert Match(prompt) == Some((n, "")) by {
      MoveNumberSecondsMatch(prompt, n);
    }
    ParseOfMatch(prompt, n, "");
  }

  lemma BareMoveClean(prompt: string, n: string, unit: string)
    requires prompt == "move " + n + unit && AllDigits(n) && n != ""
    requires unit == "" || unit == " seconds"
    ensures Clean(prompt)
  {
    assert prompt[|prompt| - 1] == if unit == "" then n[|n| - 1] else 's';
  }

  lemma BareMoveMatch(t: string, n: string)
    requires t == "move " + n && AllDigits(n) && n != ""
    ensures Match(t) == Some(("move", n))
  {
    MovePrefix(t, n);
    assert t[5..|t|] == n;
    SpanFromIs(t, 4, IsSpace, 5);
    assert MoveCut(t) == 5;
    SpanFromIs(n, 0, IsWordChar, |n|);
    assert TailCuts(n).1 == |n|;
    assert MatchTail(n).None?;
    TailCutsAre(t, 4, 5, |t|, |t|);
    assert t[|t|..] == "";
  }

  lemma MoveNumberSecondsMatch(t: string, n: string)
    requires t == "move " + n + " seconds" && AllDigits(n) && n != ""
    ensures Match(t) == Some((n, ""))
  {
    var tail := n + " seconds";
    assert t == "move " + tail;
    MovePrefix(t, tail);
    SpanFromIs(t, 4, IsSpace, 5);
    assert MoveCut(t) == 5;
    NumberSecondsTail(tail, n);
  }

  /** A number, a blank and `seconds` match the tail pattern with the number as the word and no duration. */
  lemma NumberSecondsTail(tail: string, n: string)
    requires tail == n + " seconds" && AllDigits(n) && n != ""
    ensures MatchTail(tail) == Some((n, ""))
  {
    var m := |n|;
    SecondsAfter(tail, n);
    TailCutsAre(tail, m, m + 1, m + 1, m + 1);
  }

  /** The pieces of a number followed by ` seconds`. */
  lemma SecondsAfter(tail: string, n: string)
    requires tail == n + " seconds"
    ensures |tail| == |n| + 8
    ensures tail[..|n|] == n && tail[|n|] == ' ' && tail[|n| + 1..|n| + 1] == "" && tail[|n| + 1..] == "seconds"
  {
    assert tail[|n|..] == " seconds";
  }
  lemma BareMoveExample()
    ensures ParsePrompt("move 2") == Ok(("move", 2.0))
  {
    DecimalTwo();
    assert AllDigits("2");
    BareMove("move 2", "2");
  }

  lemma MoveNumberSecondsExample()
    ensures ParsePrompt("move 2 seconds") == Err(NotAFloat(""))
  {
    assert AllDigits("2");
    MoveNumberSeconds("move 2 seconds", "2");
  }

  lemma SingularSecondExample()
    ensures ParsePrompt("move forward 1 second") == Err(NoMatch)
  {
    assert IsLowerWord("forward") && IsDecimalShape("1");
    SingularSecondRejected("move forward 1 second", "forward", "1");
  }
}
