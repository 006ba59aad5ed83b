/**
 What a connection of lmserver/lmserver.c makes of the bytes it receives: the commands are
 the newline-terminated lines, and the replies follow in command order.
 */
module Lines {

  const DATA_BUFFER_SIZE := 2048

  type Text = seq<char>

  predicate HasLine(s: Text) {
    '\n' in s
  }

  function FirstNewline(s: Text): (k: nat)
    requires HasLine(s)
    ensures k < |s| && s[k] == '\n' && !HasLine(s[..(k)])
  {
    if s[0] == '\n' then 0
    else
      var k := 1 + FirstNewline(s[1..]);
      assert s[..k] == [s[0]] + s[1..][..k - 1];
      k
  }

  /** A carriage return before the newline goes, unless it is all there is. */
  function Trim(line: Text): Text {
    if |line| > 1 && line[|line| - 1] == '\r' then line[..|line| - 1] else line
  }

  /** The commands in the complete lines of `s`. */
  function Commands(s: Text): seq<Text>
    decreases |s|
  {
    if !HasLine(s) then []
    else
      var k := FirstNewline(s);
      [Trim(s[..k])] + Commands(s[k + 1..])
  }

  predicate Complete(s: Text) {
    s == [] || s[|s| - 1] == '\n'
  }

  lemma {:induction false} FirstIs(s: Text, n: nat)
    requires n < |s| && s[n] == '\n' && !HasLine(s[..n])
    ensures HasLine(s) && FirstNewline(s) == n
    decreases n
  {
    if n > 0 {
      assert s[0] == s[..n][0];
      assert s[1..][..n - 1] == s[..n][1..];
      FirstIs(s[1..], n - 1);
    }
  }

  lemma {:induction false} FirstOfLine(line: Text, rest: Text)
    requires !HasLine(line)
    ensures HasLine(line + "\n" + rest) && FirstNewline(line + "\n" + rest) == |line|
    ensures Commands(line + "\n" + rest) == [Trim(line)] + Commands(rest)
  {
    var s := line + "\n" + rest;
    assert s[..|line|] == line && s[|line| + 1..] == rest;
    FirstIs(s, |line|);
  }

  /** Complete lines are unaffected by what follows. */
  lemma {:induction false} CommandsAppend(a: Text, b: Text)
    requires Complete(a)
    ensures Commands(a + b) == Commands(a) + Commands(b)
    decreases |a|
  {
    if a == [] {
      assert a + b == b && Commands(a) + Commands(b) == Commands(b);
      return;
    }
    var line, rest := Peel(a);
    CommandsAppend(rest, b);
    LineAppend(a, line, rest, b);
  }

  lemma {:induction false} Peel(a: Text) returns (line: Text, rest: Text)
    requires Complete(a) && a != []
    ensures a == line + "\n" + rest && !HasLine(line) && Complete(rest)
  {
    var k := FirstNewline(a);
    line, rest := a[..k], a[k + 1..];
    assert rest != [] ==> rest[|rest| - 1] == a[|a| - 1];
  }

  lemma {:induction false} LineAppend(a: Text, line: Text, rest: Text, b: Text)
    requires a == line + "\n" + rest && !HasLine(line) && Commands(rest + b) == Commands(rest) + Commands(b)
    ensures Commands(a + b) == Commands(a) + Commands(b)
  {
    FirstOfLine(line, rest);
    FirstOfLine(line, rest + b);
    Assoc(line + "\n", rest, b);
    Assoc([Trim(line)], Commands(rest), Commands(b));
  }

  lemma {:induction false} Assoc<T>(x: seq<T>, y: seq<T>, z: seq<T>)
    ensures x + y + z == x + (y + z)
  {
  }

  /** A line taken off the front becomes the next command. */
  lemma {:induction false} OneMore(consumed: Text, line: Text)
    requires Complete(consumed) && !HasLine(line)
    ensures Complete(consumed + line + "\n") && Commands(consumed + line + "\n") == Commands(consumed) + [Trim(line)]
  {
    FirstOfLine(line, []);
    CommandsAppend(consumed, line + "\n");
    assert line + "\n" + [] == line + "\n";
    assert consumed + (line + "\n") == consumed + line + "\n";
  }

  function Encode(commands: seq<Text>): Text {
    if commands == [] then [] else commands[0] + "\r\n" + Encode(commands[1..])
  }

  /** Commands sent with carriage return and newline arrive as they are; only an empty one does not. */
  lemma {:induction false} EncodedArrive(commands: seq<Text>)
    requires forall k {:trigger commands[k]} :: 0 <= k < |commands| ==> !HasLine(commands[k])
    ensures Commands(Encode(commands)) == commands <==> [] !in commands
    decreases |commands|
  {
    if commands != [] {
      var first, rest := commands[0], Encode(commands[1..]);
      assert Encode(commands) == (first + "\r") + "\n" + rest;
      FirstOfLine(first + "\r", rest);
      EncodedArrive(commands[1..]);
      assert commands == [first] + commands[1..];
      assert (first + "\r")[..|first|] == first;
      assert Commands(Encode(commands)) == [Trim(first + "\r")] + Commands(rest);
      assert Commands(Encode(commands))[1..] == Commands(rest);
    }
  }

  /** An empty command arrives as its carriage return. */
  lemma {:induction false} EmptyCommandArrives()
    ensures Commands(Encode([[]])) == ["\r"]
  {
    FirstOfLine("\r", []);
    assert Encode([[]]) == "\r" + "\n" + [];
  }

  // ---------------------------------------------------------------- replies

  datatype Response = Reply(text: Text) | Quit

  /** What a command leads to; the language model behind it is left open. */
  type Answer = Text -> Response

  /** out_string, with its bound on the length of a line. */
  function Wire(text: Text): (w: Text)
    ensures |w| >= 2
  {
    (if |text| + 2 > DATA_BUFFER_SIZE then "SERVER_ERROR output line too long" else text) + "\r\n"
  }

  function Replies(answer: Answer, commands: seq<Text>): Text {
    if commands == [] then []
    else
      var k := |commands| - 1;
      Replies(answer, commands[..k]) + match answer(commands[k])
                                       case Reply(text) => Wire(text)
                                       case Quit => []
  }

  /** Nothing is processed behind a quit. */
  predicate QuitIsLast(answer: Answer, commands: seq<Text>) {
    forall k {:trigger commands[k]} :: 0 <= k < |commands| - 1 ==> answer(commands[k]).Reply?
  }

  /** A reply of one line arrives at the client as that line, or as the error if it is too long. */
  function Arrives(text: Text): (line: Text)
    ensures |line| <= 2046 && (|text| <= 2046 ==> line == text)
  {
    if |text| <= 2046 then text else "SERVER_ERROR output line too long"
  }

  lemma {:induction false} WireArrives(text: Text)
    requires text != [] && !HasLine(text)
    ensures Commands(Wire(text)) == [Arrives(text)] && Complete(Wire(text)) && |Wire(text)| <= 2048
  {
    var line := Arrives(text);
    assert Wire(text) == (line + "\r") + "\n" + [];
    FirstOfLine(line + "\r", []);
    assert (line + "\r")[..|line|] == line;
  }

  predicate RepliesLine(answer: Answer, command: Text) {
    match answer(command)
    case Reply(text) => text != [] && !HasLine(text)
    case Quit => false
  }

  /** The line that answers a command. */
  function AnswerLine(answer: Answer, command: Text): Text {
    match answer(command)
    case Reply(text) => Arrives(text)
    case Quit => []
  }

  function AnswerLines(answer: Answer, commands: seq<Text>): (lines: seq<Text>)
    ensures |lines| == |commands| && forall k {:trigger lines[k]} :: 0 <= k < |lines| ==>
              lines[k] == AnswerLine(answer, commands[k])
  {
    if commands == [] then []
    else AnswerLines(answer, commands[..|commands| - 1]) + [AnswerLine(answer, commands[|commands| - 1])]
  }

  /** A client that reads lines finds one for each command, in their order. */
  lemma {:induction false} RepliesArrive(answer: Answer, commands: seq<Text>)
    requires forall c {:trigger c in commands} :: c in commands ==> RepliesLine(answer, c)
    ensures Complete(Replies(answer, commands))
    ensures Commands(Replies(answer, commands)) == AnswerLines(answer, commands)
  {
    if commands != [] {
      var last := |commands| - 1;
      var before, c := commands[..last], commands[last];
      assert c in commands && forall d {:trigger d in before} :: d in before ==> d in commands;
      RepliesArrive(answer, before);
      assert Replies(answer, commands) == Replies(answer, before) + Wire(answer(c).text);
      OneMoreReply(Replies(answer, before), answer(c).text);
    }
  }

  lemma {:induction false} OneMoreReply(before: Text, text: Text)
    requires Complete(before) && text != [] && !HasLine(text)
    ensures Complete(before + Wire(text)) && Commands(before + Wire(text)) == Commands(before) + [Arrives(text)]
  {
    WireArrives(text);
    CommandsAppend(before, Wire(text));
    assert (before + Wire(text))[|before + Wire(text)| - 1] == Wire(text)[|Wire(text)| - 1];
  }
}
