/**
 * How the coordinators read the planner's answer: split it at every comma,
 * strip each piece and drop the pieces that are left empty
 * (`[cmd.strip() for cmd in response.split(",") if cmd.strip()]`).
 */
module PlannerOutput {
  import opened Ascii

  /** `sep.join(parts)`. */
  function Join(parts: seq<string>, sep: char): string {
    if |parts| == 0 then []
    else if |parts| == 1 then parts[0]
    else parts[0] + [sep] + Join(parts[1..], sep)
  }

  /**
   * `s.split(sep)`: the text between consecutive separators, in order; there
   * is always at least one piece and no piece holds a separator.
   */
  function Split(s: string, sep: char): (r: seq<string>)
    ensures |r| >= 1
    ensures forall k :: 0 <= k < |r| ==> sep !in r[k]
  {
    if s == [] then [[]]
    else
      var rest := Split(s[1..], sep);
      if s[0] == sep then [[]] + rest
      else [[s[0]] + rest[0]] + rest[1..]
  }

  /** Joining the pieces gives the text back. */
  lemma {:induction false} JoinSplit(s: string, sep: char)
    ensures Join(Split(s, sep), sep) == s
  {
    if s != [] {
      var rest := Split(s[1..], sep);
      JoinSplit(s[1..], sep);
      if s[0] != sep && |rest| > 1 {
        JoinCons(s[0], rest, sep);
      }
      assert s == [s[0]] + s[1..];
    }
  }

  /** Prepending a character to the first piece prepends it to the joined text. */
  lemma {:induction false} JoinCons(c: char, parts: seq<string>, sep: char)
    requires |parts| > 1
    ensures Join([[c] + parts[0]] + parts[1..], sep) == [c] + Join(parts, sep)
  {
    var q := [[c] + parts[0]] + parts[1..];
    assert q[1..] == parts[1..];
  }

  /** There is one more piece than there are separators. */
  lemma {:induction false} SplitCount(s: string, sep: char)
    ensures |Split(s, sep)| == multiset(s)[sep] + 1
  {
    if s != [] {
      SplitCount(s[1..], sep);
      assert s == [s[0]] + s[1..];
    }
  }

  /** Splitting a text that starts with an ordinary character extends the first piece. */
  lemma SplitCons(s: string, sep: char)
    requires s != [] && s[0] != sep
    ensures Split(s, sep) == [[s[0]] + Split(s[1..], sep)[0]] + Split(s[1..], sep)[1..]
  {
  }

  /** Splitting a text that starts with the separator opens with an empty piece. */
  lemma SplitSep(s: string, sep: char)
    requires s != [] && s[0] == sep
    ensures Split(s, sep) == [[]] + Split(s[1..], sep)
  {
  }

  /** Extending the first piece of `x + y` extends the first piece of `x`. */
  lemma ConsPiece(c: char, x: seq<string>, y: seq<string>)
    requires |x| >= 1
    ensures [[c] + (x + y)[0]] + (x + y)[1..] == ([[c] + x[0]] + x[1..]) + y
  {
    assert (x + y)[0] == x[0];
    assert (x + y)[1..] == x[1..] + y;
  }

  /** Splitting distributes over a separator: the pieces of `a`, then those of `b`. */
  lemma {:induction false} SplitConcat(a: string, b: string, sep: char)
    ensures Split(a + [sep] + b, sep) == Split(a, sep) + Split(b, sep)
  {
    var s := a + [sep] + b;
    if a == [] {
      assert s[0] == sep && s[1..] == b;
      SplitSep(s, sep);
    } else {
      assert s[0] == a[0] && s[1..] == a[1..] + [sep] + b;
      SplitConcat(a[1..], b, sep);
      var x, y := Split(a[1..], sep), Split(b, sep);
      if a[0] == sep {
        SplitSep(s, sep);
        SplitSep(a, sep);
      } else {
        SplitCons(s, sep);
        SplitCons(a, sep);
        ConsPiece(a[0], x, y);
      }
    }
  }

  /** A text without the separator is a single piece. */
  lemma {:induction false} SplitWhole(s: string, sep: char)
    requires sep !in s
    ensures Split(s, sep) == [s]
  {
    if s != [] {
      SplitWhole(s[1..], sep);
      assert s == [s[0]] + s[1..];
    }
  }

  /** Splitting undoes joining, for pieces without the separator. */
  lemma {:induction false} SplitJoin(parts: seq<string>, sep: char)
    requires |parts| >= 1
    requires forall k :: 0 <= k < |parts| ==> sep !in parts[k]
    ensures Split(Join(parts, sep), sep) == parts
  {
    SplitWhole(parts[0], sep);
    if |parts| > 1 {
      SplitJoin(parts[1..], sep);
      SplitConcat(parts[0], Join(parts[1..], sep), sep);
      assert parts == [parts[0]] + parts[1..];
    }
  }

  /** A command as the coordinators keep it: non-empty and already stripped. */
  predicate IsCommand(c: string) {
    c != [] && Strip(c) == c
  }

  /** One piece's contribution: the piece stripped, or nothing when that leaves it empty. */
  function Kept(piece: string): (r: seq<string>)
    ensures |r| <= 1
    ensures r == [] <==> Strip(piece) == []
    ensures r != [] ==> r[0] == Strip(piece) && IsCommand(r[0])
  {
    StripIdempotent(piece);
    if Strip(piece) != [] then [Strip(piece)] else []
  }

  /** Strip every piece and keep the non-empty results, in order. */
  function KeepCommands(pieces: seq<string>): (r: seq<string>)
    ensures |r| <= |pieces|
  {
    if pieces == [] then [] else Kept(pieces[0]) + KeepCommands(pieces[1..])
  }

  /** What is kept is a list of commands, and comma-free pieces give comma-free commands. */
  lemma {:induction false} KeepWellFormed(pieces: seq<string>)
    requires forall k :: 0 <= k < |pieces| ==> ',' !in pieces[k]
    ensures forall k :: 0 <= k < |KeepCommands(pieces)| ==> IsCommand(KeepCommands(pieces)[k]) && ',' !in KeepCommands(pieces)[k]
  {
    if pieces != [] {
      KeepWellFormed(pieces[1..]);
      StripChars(pieces[0], ',');
      var h, t := Kept(pieces[0]), KeepCommands(pieces[1..]);
      assert KeepCommands(pieces) == h + t;
      assert forall k :: 0 <= k < |t| ==> (h + t)[|h| + k] == t[k];
    }
  }

  lemma {:induction false} KeepConcat(a: seq<string>, b: seq<string>)
    ensures KeepCommands(a + b) == KeepCommands(a) + KeepCommands(b)
  {
    if a == [] {
      assert a + b == b;
    } else {
      var ab := a + b;
      assert ab[0] == a[0] && ab[1..] == a[1..] + b;
      KeepConcat(a[1..], b);
      KeepUnfold(ab);
      KeepUnfold(a);
      Assoc(Kept(a[0]), KeepCommands(a[1..]), KeepCommands(b));
    }
  }

  lemma KeepUnfold(p: seq<string>)
    requires p != []
    ensures KeepCommands(p) == Kept(p[0]) + KeepCommands(p[1..])
  {
  }

  lemma Assoc<T>(x: seq<T>, y: seq<T>, z: seq<T>)
    ensures x + (y + z) == (x + y) + z
  {
  }

  /** Pieces that are already stripped and non-empty are kept as they are. */
  lemma {:induction false} KeepClean(pieces: seq<string>)
    requires forall k :: 0 <= k < |pieces| ==> IsCommand(pieces[k])
    ensures KeepCommands(pieces) == pieces
  {
    if pieces != [] {
      KeepClean(pieces[1..]);
      assert pieces == [pieces[0]] + pieces[1..];
    }
  }

  /** A piece stripped by `Strip` holds no character the piece did not. */
  lemma {:induction false} StripChars(s: string, c: char)
    requires c !in s
    ensures c !in Strip(s)
  {
  }

  /** The commands in a planner answer: at most as many as there are comma-separated pieces. */
  function ParseCommands(response: string): (r: seq<string>)
    ensures |r| <= multiset(response)[','] + 1
  {
    SplitCount(response, ',');
    KeepCommands(Split(response, ','))
  }

  /** Every command is non-empty, already stripped and free of commas. */
  lemma {:induction false} ParseCommandsWellFormed(response: string)
    ensures forall k :: 0 <= k < |ParseCommands(response)| ==>
      var c := ParseCommands(response)[k]; c != [] && Strip(c) == c && ',' !in c
  {
    KeepWellFormed(Split(response, ','));
  }

  /** Two answers joined by a comma give the commands of the first, then those of the second. */
  lemma {:induction false} ParseCommandsConcat(a: string, b: string)
    ensures ParseCommands(a + "," + b) == ParseCommands(a) + ParseCommands(b)
  {
    SplitConcat(a, b, ',');
    KeepConcat(Split(a, ','), Split(b, ','));
  }

  /** Re-joining the commands with commas and parsing again gives the same commands. */
  lemma {:induction false} ParseCommandsRejoin(response: string)
    ensures ParseCommands(Join(ParseCommands(response), ',')) == ParseCommands(response)
  {
    var cmds := ParseCommands(response);
    ParseCommandsWellFormed(response);
    if cmds == [] {
      assert ParseCommands(Join(cmds, ',')) == cmds by {
        assert Split([], ',') == [[]];
        StripBlank([]);
      }
    } else {
      assert ParseCommands(Join(cmds, ',')) == cmds by {
        SplitJoin(cmds, ',');
        KeepClean(cmds);
      }
    }
  }

  /** A text without commas is one command: itself stripped, unless that is empty. */
  lemma {:induction false} SingleCommand(s: string)
    requires ',' !in s
    ensures ParseCommands(s) == if Strip(s) == [] then [] else [Strip(s)]
  {
    SplitWhole(s, ',');
  }

  /** An answer made only of blanks and commas holds no command. */
  lemma {:induction false} BlankAnswer(s: string)
    requires forall k :: 0 <= k < |s| ==> IsSpace(s[k]) || s[k] == ','
    ensures ParseCommands(s) == []
  {
    BlankPieces(s);
    NoCommands(Split(s, ','));
  }

  lemma {:induction false} BlankPieces(s: string)
    requires forall k :: 0 <= k < |s| ==> IsSpace(s[k]) || s[k] == ','
    ensures forall k :: 0 <= k < |Split(s, ',')| ==> AllSpace(Split(s, ',')[k])
  {
    if s != [] {
      BlankPieces(s[1..]);
    }
  }

  lemma {:induction false} NoCommands(pieces: seq<string>)
    requires forall k :: 0 <= k < |pieces| ==> AllSpace(pieces[k])
    ensures KeepCommands(pieces) == []
  {
    if pieces != [] {
      StripBlank(pieces[0]);
      NoCommands(pieces[1..]);
    }
  }

  /** One blank before a stripped text is all that stripping removes. */
  lemma {:induction false} StripLeadingBlank(t: string)
    requires t != [] && !IsSpace(t[0]) && !IsSpace(t[|t| - 1])
    ensures Strip([' '] + t) == t
  {
    var s := [' '] + t;
    SpanIs(s, IsSpace, 1);
    assert s[1..] == t;
    TrailingSpanIs(t, IsSpace, 0);
  }

  /** Each piece of the answer with a blank after its comma reads as one command. */
  lemma {:induction false} BlankThenCommand(t: string)
    requires Written(t)
    ensures ParseCommands([' '] + t) == [t]
  {
    StripLeadingBlank(t);
    SingleCommand([' '] + t);
  }

  /** A command as the planner writes it: non-empty, without commas, no blank at either end. */
  predicate Written(t: string) {
    t != [] && !IsSpace(t[0]) && !IsSpace(t[|t| - 1]) && ',' !in t
  }

  /** A written command after `, ` adds exactly that command. */
  lemma {:induction false} AppendCommand(prefix: string, t: string)
    requires Written(t)
    ensures ParseCommands(prefix + "," + [' '] + t) == ParseCommands(prefix) + [t]
  {
    var rest := [' '] + t;
    assert prefix + "," + [' '] + t == prefix + "," + rest by {
      assert (prefix + ",") + [' '] + t == (prefix + ",") + ([' '] + t);
    }
    ParseCommandsConcat(prefix, rest);
    BlankThenCommand(t);
  }

  /** A written command alone is read back unchanged. */
  lemma {:induction false} OneCommand(t: string)
    requires Written(t)
    ensures ParseCommands(t) == [t]
  {
    StripUnpadded(t);
    SingleCommand(t);
  }

  /** Two written commands separated by `, ` come back as those two commands, in order. */
  lemma {:induction false} TwoCommands(first: string, second: string)
    requires Written(first) && Written(second)
    ensures ParseCommands(first + "," + [' '] + second) == [first, second]
  {
    OneCommand(first);
    AppendCommand(first, second);
  }

  /** A third written command after `, ` comes back after the first two. */
  lemma {:induction false} ThirdCommand(two: string, third: string, first: string, second: string)
    requires ParseCommands(two) == [first, second] && Written(third)
    ensures ParseCommands(two + "," + [' '] + third) == [first, second, third]
  {
    AppendCommand(two, third);
  }

  lemma ExampleWritten()
    ensures Written("move forward 2 seconds") && Written("turn left 1.5 seconds") && Written("move forward 1 second")
  {
  }

  /** The example answer in the agent's comment gives its three commands, in order. */
  lemma {:induction false} ExampleAnswer(response: string)
    requires response == "move forward 2 seconds" + "," + [' '] + "turn left 1.5 seconds" + "," + [' '] + "move forward 1 second"
    ensures ParseCommands(response) == ["move forward 2 seconds", "turn left 1.5 seconds", "move forward 1 second"]
  {
    ExampleWritten();
    TwoCommands("move forward 2 seconds", "turn left 1.5 seconds");
    ThirdCommand("move forward 2 seconds" + "," + [' '] + "turn left 1.5 seconds", "move forward 1 second",
      "move forward 2 seconds", "turn left 1.5 seconds");
  }
}
