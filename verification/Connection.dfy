/**
 A TCP connection of lmserver/lmserver.c: reading with any chunking, sending with any pattern
 of partial writes.  Allocations succeed.  What the socket will do is a script: an arrival
 larger than the space left in the buffer is delivered in parts, and an empty one is the end
 of the stream; where a script is used up, the socket would block.
 */
module Connection {
  import opened Lines
  import opened Outgoing

  const READ_BUFFER_HIGHWAT := 8192

  datatype Arrival = Bytes(data: Text) | WouldBlock | Failure

  function Delivered(arrivals: seq<Arrival>): Text {
    if arrivals == [] then []
    else (if arrivals[0].Bytes? then arrivals[0].data else []) + Delivered(arrivals[1..])
  }

  function Length(arrivals: seq<Arrival>): nat {
    if arrivals == [] then 0
    else (if arrivals[0].Bytes? then |arrivals[0].data| + 1 else 1) + Length(arrivals[1..])
  }

  /** The end of the stream, and an error that is not handled. */
  predicate Ends(a: Arrival) {
    a == Failure || a == Bytes([])
  }

  /** How often the stream ends or fails, and how often a read would block, in what is still to come. */
  function EndsIn(arrivals: seq<Arrival>): nat {
    if arrivals == [] then 0 else (if Ends(arrivals[0]) then 1 else 0) + EndsIn(arrivals[1..])
  }

  function BlocksIn(arrivals: seq<Arrival>): nat {
    if arrivals == [] then 0 else (if arrivals[0].WouldBlock? then 1 else 0) + BlocksIn(arrivals[1..])
  }

  /** The script is used up, or a read has blocked. */
  predicate HasWaited(before: seq<Arrival>, after: seq<Arrival>) {
    after == [] || BlocksIn(after) < BlocksIn(before)
  }

  /** What is left of a script that has been read from. */
  predicate LaterThan(before: seq<Arrival>, after: seq<Arrival>) {
    EndsIn(after) <= EndsIn(before) && BlocksIn(after) <= BlocksIn(before)
  }

  lemma {:induction false} CountsAppend(a: seq<Arrival>, b: seq<Arrival>)
    ensures EndsIn(a + b) == EndsIn(a) + EndsIn(b) && BlocksIn(a + b) == BlocksIn(a) + BlocksIn(b)
    decreases |a|
  {
    if a == [] {
      assert a + b == b;
    } else {
      assert (a + b)[1..] == a[1..] + b;
      CountsAppend(a[1..], b);
    }
  }

  /** What the socket will do from one event on. */
  datatype Wake = Wake(arrivals: seq<Arrival>, rooms: seq<Room>)

  function AllDelivered(wakes: seq<Wake>): Text {
    if wakes == [] then [] else AllDelivered(wakes[..|wakes| - 1]) + Delivered(wakes[|wakes| - 1].arrivals)
  }

  lemma {:induction false} DeliveredAppend(a: seq<Arrival>, b: seq<Arrival>)
    ensures Delivered(a + b) == Delivered(a) + Delivered(b)
    decreases |a|
  {
    if a == [] {
      assert a + b == b;
      return;
    }
    assert (a + b)[1..] == a[1..] + b;
    DeliveredAppend(a[1..], b);
    Assoc(if a[0].Bytes? then a[0].data else [], Delivered(a[1..]), Delivered(b));
  }

  lemma {:induction false} AllDeliveredStep(before: Text, wakes: seq<Wake>, k: nat)
    requires k < |wakes|
    ensures before + AllDelivered(wakes[..k + 1]) == before + AllDelivered(wakes[..k]) + Delivered(wakes[k].arrivals)
  {
    assert wakes[..k + 1][..k] == wakes[..k];
    Assoc(before, AllDelivered(wakes[..k]), Delivered(wakes[k].arrivals));
  }

  /** The bytes read so far and those to come. */
  function OnWire(received: Text, arrivals: seq<Arrival>): Text {
    received + Delivered(arrivals)
  }

  lemma {:induction false} OnWireAppend(received: Text, a: seq<Arrival>, b: seq<Arrival>)
    ensures OnWire(received, a + b) == OnWire(received, a) + Delivered(b)
  {
    DeliveredAppend(a, b);
    Assoc(received, Delivered(a), Delivered(b));
  }

  /** read(). */
  method Read(arrivals: seq<Arrival>, avail: nat) returns (a: Arrival, left: seq<Arrival>)
    requires avail > 0
    ensures a.Bytes? ==> |a.data| <= avail
    ensures Delivered(arrivals) == (if a.Bytes? then a.data else []) + Delivered(left)
    ensures if arrivals == [] then a.WouldBlock? && left == arrivals else Length(left) < Length(arrivals)
    ensures EndsIn(arrivals) == (if Ends(a) then 1 else 0) + EndsIn(left)
    ensures LaterThan(arrivals, left) && (a.WouldBlock? ==> HasWaited(arrivals, left))
  {
    if arrivals == [] {
      return WouldBlock, arrivals;
    }
    a, left := arrivals[0], arrivals[1..];
    if a.Bytes? && |a.data| > avail {
      left := [Bytes(a.data[avail..])] + left;
      a := Bytes(a.data[..avail]);
    }
  }

  // ---------------------------------------------------------------- the read buffer

  ghost predicate Taken(before: Text, line: Text, rest: Text) {
    before == line + "\n" + rest
  }

  lemma {:induction false} SplitAt(s: Text, k: nat)
    requires k < |s| && s[k] == '\n'
    ensures Taken(s, s[..k], s[k + 1..])
  {
  }

  lemma {:induction false} TrimmedIs(s: Text, line: Text, raw: Text)
    requires raw <= s && line == if |raw| > 1 && s[|raw| - 1] == '\r' then s[..|raw| - 1] else s[..|raw|]
    ensures line == Trim(raw)
  {
  }

  class Input {
    var rbuf: array<char>
    var rcurr: nat
    var rbytes: nat

    ghost predicate Valid()
      reads this
    {
      rbuf.Length > 0 && rcurr + rbytes <= rbuf.Length
    }

    /** Received but not parsed. */
    function Unparsed(): Text
      reads this, rbuf
      requires Valid()
    {
      rbuf[rcurr..rcurr + rbytes]
    }

    constructor ()
      ensures Valid() && fresh(rbuf) && Unparsed() == []
    {
      rbuf := new char[DATA_BUFFER_SIZE];
      rcurr, rbytes := 0, 0;
    }

    /** memchr. */
    method FindNewline() returns (el: int)
      requires Valid()
      ensures el == if HasLine(Unparsed()) then FirstNewline(Unparsed()) else -1
    {
      el := 0;
      while el < rbytes && rbuf[rcurr + el] != '\n'
        invariant 0 <= el <= rbytes && !HasLine(Unparsed()[..el])
      {
        assert Unparsed()[..el + 1] == Unparsed()[..el] + [rbuf[rcurr + el]];
        el := el + 1;
      }
      if el == rbytes {
        assert Unparsed()[..el] == Unparsed();
        el := -1;
      } else {
        FirstIs(Unparsed(), el);
      }
    }

    /** Takes the first line out, if there is one; the newline in the buffer is overwritten. */
    method TakeLine() returns (found: bool, line: Text, ghost raw: Text)
      requires Valid()
      modifies this, rbuf
      ensures Valid() && rbuf == old(rbuf) && found == HasLine(old(Unparsed())) && rbytes <= old(rbytes)
      ensures !found ==> Unparsed() == old(Unparsed())
      ensures found ==>
                rbytes < old(rbytes) && !HasLine(raw) && line == Trim(raw) && Taken(old(Unparsed()), raw, Unparsed())
    {
      found, line, raw := false, [], [];
      var el := FindNewline();
      if el < 0 {
        return;
      }
      found, raw := true, Unparsed()[..el];
      SplitAt(Unparsed(), el);
      var end;
      line, end := LineAt(el);
      Skip(end, el + 1);
    }

    /** The line that ends at the newline `el`, without the carriage return before it. */
    method LineAt(el: nat) returns (line: Text, end: nat)
      requires Valid() && el < rbytes
      ensures line == Trim(Unparsed()[..el]) && end <= el
    {
      end := if el > 1 && rbuf[rcurr + el - 1] == '\r' then el - 1 else el;
      line := rbuf[rcurr..rcurr + end];
      TrimmedIs(Unparsed(), line, Unparsed()[..el]);
    }

    /** Ends the line at `el` and goes on at `cont`. */
    method Skip(el: nat, cont: nat)
      requires Valid() && el < cont <= rbytes
      modifies this, rbuf
      ensures Valid() && rbuf == old(rbuf) && rbytes == old(rbytes) - cont && Unparsed() == old(Unparsed())[cont..]
    {
      rbuf[rcurr + el] := '\0';
      rbytes := rbytes - cont;
      rcurr := rcurr + cont;
    }

    /** Moves the unparsed bytes to the front. */
    method Rewind()
      requires Valid()
      modifies this, rbuf
      ensures Valid() && rbuf == old(rbuf) && rcurr == 0 && rbytes == old(rbytes) && Unparsed() == old(Unparsed())
    {
      if rcurr != 0 {
        ghost var before := Unparsed();
        forall k | 0 <= k < rbytes {
          rbuf[k] := rbuf[rcurr + k];
        }
        rcurr := 0;
        assert Unparsed() == before;
      }
    }

    /** realloc: a buffer of another size with the same bytes at the front. */
    method Resize(size: nat)
      requires Valid() && rcurr == 0 && rbytes <= size && size > 0
      modifies this
      ensures Valid() && fresh(rbuf) && rbuf.Length == size && rcurr == 0 && rbytes == old(rbytes)
      ensures Unparsed() == old(Unparsed())
    {
      var bytes := Unparsed();
      rbuf := new char[size](k => if 0 <= k < |bytes| then bytes[k] else '\0');
      assert Unparsed() == bytes;
    }

    /** What read() puts behind the unparsed bytes. */
    method Receive(data: Text)
      requires Valid() && rcurr == 0 && rbytes + |data| <= rbuf.Length
      modifies this, rbuf
      ensures Valid() && rbuf == old(rbuf) && rcurr == 0 && Unparsed() == old(Unparsed()) + data
    {
      ghost var before := Unparsed();
      forall k | 0 <= k < |data| {
        rbuf[rbytes + k] := data[k];
      }
      rbytes := rbytes + |data|;
      assert Unparsed()[..|before|] == before;
      assert Unparsed()[|before|..] == data;
      assert Unparsed() == Unparsed()[..|before|] + Unparsed()[|before|..];
    }

    /** conn_shrink: a large buffer that holds little is given up. */
    method Shrink()
      requires Valid()
      modifies this, rbuf
      ensures rbuf.Length == if old(rbuf.Length) > 8192 && rbytes < 2048 then 2048 else old(rbuf.Length)
      ensures Valid() && (rbuf == old(rbuf) || fresh(rbuf)) && rbytes == old(rbytes) && Unparsed() == old(Unparsed())
    {
      if rbuf.Length > READ_BUFFER_HIGHWAT && rbytes < DATA_BUFFER_SIZE {
        Rewind();
        Resize(DATA_BUFFER_SIZE);
      }
    }
  }

  // ---------------------------------------------------------------- what every step keeps

  datatype State = Reading | Writing | Closing

  /** The commands are those of the bytes parsed so far. */
  ghost predicate ReadOk(received: Text, consumed: Text, unparsed: Text, commands: seq<Text>) {
    received == consumed + unparsed && Complete(consumed) && commands == Commands(consumed)
  }

  predicate NoQuit(answer: Answer, commands: seq<Text>) {
    forall k {:trigger commands[k]} :: 0 <= k < |commands| ==> answer(commands[k]).Reply?
  }

  /** The last command asked to end the connection. */
  predicate HasQuit(answer: Answer, commands: seq<Text>) {
    commands != [] && answer(commands[|commands| - 1]).Quit?
  }

  lemma {:induction false} NoQuitYet(answer: Answer, commands: seq<Text>)
    requires NoQuit(answer, commands)
    ensures !HasQuit(answer, commands)
  {
  }

  /** What is still to be sent of the last reply. */
  function Owed(state: State, wbuf: Text, out: Messages): Text
    requires out.msgcurr <= |out.msgs|
  {
    if !state.Writing? then [] else if out.iovused == 0 then wbuf else Unsent(out)
  }

  /** The replies of all commands have been sent, but for what is still owed. */
  ghost predicate WriteOk(answer: Answer, state: State, wbuf: Text, out: Messages, commands: seq<Text>, sent: Text) {
    && out.msgcurr <= |out.msgs| && Filled(out)
    && (state.Writing? && out.iovused == 0 ==> wbuf != [] && out == Messages([[]], 0, 0, 0))
    && if state.Closing? then QuitIsLast(answer, commands) && sent <= Replies(answer, commands)
       else NoQuit(answer, commands) && sent + Owed(state, wbuf, out) == Replies(answer, commands)
  }

  /** The state after a command: a reply to write, or the end. */
  lemma {:induction false} Answered(answer: Answer, state: State, wbuf: Text, out: Messages, commands: seq<Text>,
                                    sent: Text, line: Text)
    requires WriteOk(answer, state, wbuf, out, commands, sent) && state.Reading?
    ensures match answer(line)
            case Reply(text) => WriteOk(answer, Writing, Wire(text), Messages([[]], 0, 0, 0), commands + [line], sent)
            case Quit => WriteOk(answer, Closing, wbuf, Messages([[]], 0, 0, 0), commands + [line], sent)
  {
    assert (commands + [line])[..|commands|] == commands;
    assert sent + [] == sent;
  }

  lemma {:induction false} StopsEarly(answer: Answer, state: State, wbuf: Text, out: Messages, commands: seq<Text>,
                                      sent: Text)
    requires WriteOk(answer, state, wbuf, out, commands, sent)
    ensures WriteOk(answer, Closing, wbuf, out, commands, sent)
  {
  }

  /** What a line taken from the front does to what has been read. */
  lemma {:induction false} LineRead(received: Text, consumed: Text, unparsed: Text, commands: seq<Text>, raw: Text,
                                    rest: Text)
    requires ReadOk(received, consumed, unparsed, commands) && Taken(unparsed, raw, rest) && !HasLine(raw)
    ensures ReadOk(received, consumed + raw + "\n", rest, commands + [Trim(raw)])
  {
    OneMore(consumed, raw);
    Assoc(consumed, raw + "\n", rest);
    Assoc(consumed, raw, "\n");
  }

  lemma {:induction false} BytesRead(received: Text, consumed: Text, unparsed: Text, commands: seq<Text>, data: Text,
                                     later: Text)
    requires ReadOk(received, consumed, unparsed, commands)
    ensures ReadOk(received + data, consumed, unparsed + data, commands)
            && received + data + later == received + (data + later)
  {
    Assoc(consumed, unparsed, data);
    Assoc(received, data, later);
  }

  /** The commands processed are the first of the lines received, and all of them once no line is left. */
  lemma {:induction false} CommandsSoFar(received: Text, consumed: Text, unparsed: Text, commands: seq<Text>)
    requires ReadOk(received, consumed, unparsed, commands)
    ensures commands <= Commands(received) && (!HasLine(unparsed) ==> commands == Commands(received))
  {
    CommandsAppend(consumed, unparsed);
  }

  lemma {:induction false} Transmitted(answer: Answer, wbuf: Text, out: Messages, commands: seq<Text>, sent: Text,
                                       r: Messages, part: Text)
    requires WriteOk(answer, Writing, wbuf, out, commands, sent) && out.iovused > 0
    requires r.msgcurr <= |r.msgs| && Filled(r) && r.iovused == out.iovused && Unsent(out) == part + Unsent(r)
    ensures WriteOk(answer, Writing, wbuf, r, commands, sent + part)
    ensures Unsent(r) == [] ==> WriteOk(answer, Reading, wbuf, r, commands, sent + part)
  {
    Assoc(sent, part, Unsent(r));
    assert Unsent(r) == [] ==> sent + part + [] == sent + part;
  }

  /** The reply as messages. */
  method Assemble(wbuf: Text, out: Messages) returns (r: Messages)
    requires out.msgcurr <= |out.msgs| && Filled(out)
             && (out.iovused == 0 ==> wbuf != [] && out == Messages([[]], 0, 0, 0))
    ensures r.msgcurr <= |r.msgs| && Filled(r) && r.iovused > 0
    ensures Owed(Writing, wbuf, r) == Owed(Writing, wbuf, out)
  {
    r := out;
    if out.iovused == 0 {
      assert out.msgs[0..] == [[]] && JoinAll([[]]) == [];
      r := AddIov(out, wbuf);
      assert [] + wbuf == wbuf;
    }
  }

  method SendMore(answer: Answer, wbuf: Text, out: Messages, rooms: seq<Room>, ghost commands: seq<Text>,
                  ghost sent: Text)
    returns (r: Messages, part: Text, outcome: Outcome, left: seq<Room>)
    requires WriteOk(answer, Writing, wbuf, out, commands, sent)
    ensures WriteOk(answer, Writing, wbuf, r, commands, sent + part)
    ensures outcome.TransmitComplete? ==> WriteOk(answer, Reading, wbuf, r, commands, sent + part)
    ensures outcome.TransmitIncomplete? ==> |Owed(Writing, wbuf, r)| < |Owed(Writing, wbuf, out)|
    ensures LaterRooms(rooms, left) && (outcome.TransmitHardError? <==> BreaksIn(left) < BreaksIn(rooms))
    ensures outcome.TransmitSoftError? ==> HasBlocked(rooms, left)
  {
    var assembled := Assemble(wbuf, out);
    r, part, outcome, left := Transmit(assembled, rooms);
    Transmitted(answer, wbuf, assembled, commands, sent, r, part);
  }

  /** What the connection has made of its scripts. */
  datatype Progress = Progress(state: State, commands: seq<Text>, arrivals: seq<Arrival>, rooms: seq<Room>)

  predicate Later(p: Progress, q: Progress) {
    LaterThan(p.arrivals, q.arrivals) && LaterRooms(p.rooms, q.rooms)
  }

  /** It closes exactly if the stream has ended, a send has failed, or the last command says so. */
  predicate ClosesRightly(answer: Answer, p: Progress, q: Progress) {
    if p.state.Closing? then q == p
    else q.state.Closing? <==> || EndsIn(q.arrivals) < EndsIn(p.arrivals) || BreaksIn(q.rooms) < BreaksIn(p.rooms)
                               || HasQuit(answer, q.commands)
  }

  /** It waits only for what the socket would block on. */
  predicate WaitsRightly(p: Progress, q: Progress) {
    && (q.state.Reading? ==> HasWaited(p.arrivals, q.arrivals))
    && (q.state.Writing? ==> HasBlocked(p.rooms, q.rooms))
  }

  lemma {:induction false} ProgressJoins(answer: Answer, p: Progress, q: Progress, r: Progress)
    requires Later(p, q) && Later(q, r) && ClosesRightly(answer, p, q) && ClosesRightly(answer, q, r)
    ensures Later(p, r) && ClosesRightly(answer, p, r) && (WaitsRightly(q, r) ==> WaitsRightly(p, r))
  {
  }

  /** The scripts grow at each event. */
  function Woken(p: Progress, wake: Wake): Progress {
    p.(arrivals := p.arrivals + wake.arrivals, rooms := p.rooms + wake.rooms)
  }

  function AllWoken(p: Progress, wakes: seq<Wake>): Progress {
    if wakes == [] then p else Woken(AllWoken(p, wakes[..|wakes| - 1]), wakes[|wakes| - 1])
  }

  /** What holds of a part of the scripts holds of the scripts. */
  lemma {:induction false} WokenBoth(answer: Answer, p: Progress, q: Progress, wake: Wake)
    requires Later(p, q) && ClosesRightly(answer, p, q)
    ensures Later(Woken(p, wake), Woken(q, wake)) && ClosesRightly(answer, Woken(p, wake), Woken(q, wake))
  {
    CountsAppend(p.arrivals, wake.arrivals);
    CountsAppend(q.arrivals, wake.arrivals);
    RoomsAppend(p.rooms, wake.rooms);
    RoomsAppend(q.rooms, wake.rooms);
  }

  function Rank(state: State, wbuf: Text, out: Messages): nat
    requires out.msgcurr <= |out.msgs|
  {
    if state.Writing? then 1 + |Owed(state, wbuf, out)| else 0
  }

  class TcpConnection {
    const answer: Answer
    const input: Input
    var state: State
    var wbuf: Text
    var out: Messages
    // What the socket will do.
    var arrivals: seq<Arrival>
    var rooms: seq<Room>
    // What has gone over the wire, what of it was parsed, and into which commands.
    ghost var received: Text
    ghost var consumed: Text
    ghost var commands: seq<Text>
    ghost var sent: Text

    ghost predicate Valid()
      reads this, input, input.rbuf
    {
      InputOk() && OutputOk()
    }

    ghost predicate InputOk()
      reads this`received, this`consumed, this`commands, input, input.rbuf
    {
      input.Valid() && ReadOk(received, consumed, input.Unparsed(), commands)
    }

    ghost predicate OutputOk()
      reads this`state, this`wbuf, this`out, this`commands, this`sent
    {
      WriteOk(answer, state, wbuf, out, commands, sent)
    }

    /** conn_new for a TCP connection. */
    constructor (answer: Answer)
      ensures Valid() && state.Reading? && received == sent == [] && commands == [] && this.answer == answer
              && fresh(input) && fresh(input.rbuf)
    {
      this.answer := answer;
      input := new Input();
      state, wbuf, out, arrivals, rooms := Reading, [], NoMessages, [], [];
      received, consumed, commands, sent := [], [], [], [];
    }

    ghost function Seen(): Progress
      reads this
    {
      Progress(state, commands, arrivals, rooms)
    }

    /** process_command. */
    method Process(line: Text)
      requires WriteOk(answer, state, wbuf, out, commands, sent) && state.Reading?
      modifies this`state, this`wbuf, this`out, this`commands
      ensures WriteOk(answer, state, wbuf, out, commands, sent) && commands == old(commands) + [line]
      ensures state == if answer(line).Quit? then Closing else Writing
      ensures state.Closing? <==> HasQuit(answer, commands)
    {
      Answered(answer, state, wbuf, out, commands, sent, line);
      out := Messages([[]], 0, 0, 0);
      commands := commands + [line];
      match answer(line) {
        case Reply(text) => wbuf, state := Wire(text), Writing;
        case Quit => state := Closing;
      }
    }

    /** try_read_command. */
    method TryReadCommand() returns (done: bool)
      requires Valid() && state.Reading?
      modifies this`state, this`wbuf, this`out, this`commands, this`consumed, input, input.rbuf
      ensures Valid() && input.rbuf == old(input.rbuf)
      ensures done == HasLine(old(input.Unparsed()))
      ensures done ==> input.rbytes < old(input.rbytes) && !state.Reading?
      ensures state.Closing? <==> HasQuit(answer, commands)
      ensures !done ==> state.Reading? && !HasLine(input.Unparsed())
    {
      var line;
      done, line := NextLine();
      if done {
        Process(line);
      } else {
        NoQuitYet(answer, commands);
      }
    }

    method NextLine() returns (done: bool, line: Text)
      requires InputOk()
      modifies this`consumed, input, input.rbuf
      ensures input.Valid() && input.rbuf == old(input.rbuf) && done == HasLine(old(input.Unparsed()))
      ensures done ==>
                input.rbytes < old(input.rbytes) && ReadOk(received, consumed, input.Unparsed(), commands + [line])
      ensures !done ==> consumed == old(consumed) && input.Unparsed() == old(input.Unparsed())
    {
      ghost var before := input.Unparsed();
      ghost var raw;
      done, line, raw := input.TakeLine();
      if done {
        LineRead(received, consumed, before, commands, raw, input.Unparsed());
        consumed := consumed + raw + "\n";
      }
    }

    /** try_read_network: reads until the socket has no more for now. */
    method TryReadNetwork() returns (got: bool)
      requires Valid() && state.Reading?
      modifies this`state, this`arrivals, this`received, input, input.rbuf
      ensures Valid() && (input.rbuf == old(input.rbuf) || fresh(input.rbuf))
      ensures OnWire(received, arrivals) == OnWire(old(received), old(arrivals))
      ensures !got ==> state.Reading? && input.Unparsed() == old(input.Unparsed())
      ensures Length(arrivals) <= Length(old(arrivals)) && (got ==> Length(arrivals) < Length(old(arrivals)))
      ensures LaterThan(old(arrivals), arrivals) && state in {Reading, Closing}
      ensures state.Closing? <==> EndsIn(arrivals) < EndsIn(old(arrivals))
      ensures !got ==> HasWaited(old(arrivals), arrivals)
    {
      var stop;
      got, stop := ReadAll();
      if stop {
        StopsEarly(answer, state, wbuf, out, commands, sent);
        state := Closing;
      }
    }

    method ReadAll() returns (got: bool, stop: bool)
      requires InputOk()
      modifies this`arrivals, this`received, input, input.rbuf
      ensures InputOk() && (input.rbuf == old(input.rbuf) || fresh(input.rbuf)) && (stop ==> got)
      ensures OnWire(received, arrivals) == OnWire(old(received), old(arrivals))
      ensures !got ==> input.Unparsed() == old(input.Unparsed())
      ensures Length(arrivals) <= Length(old(arrivals)) && (got ==> Length(arrivals) < Length(old(arrivals)))
      ensures LaterThan(old(arrivals), arrivals) && (stop <==> EndsIn(arrivals) < EndsIn(old(arrivals)))
      ensures !got ==> HasWaited(old(arrivals), arrivals)
    {
      got, stop := false, false;
      input.Rewind();
      while true
        invariant InputOk() && !stop && input.rcurr == 0 && (input.rbuf == old(input.rbuf) || fresh(input.rbuf))
        invariant OnWire(received, arrivals) == OnWire(old(received), old(arrivals))
        invariant !got ==> input.Unparsed() == old(input.Unparsed()) && Length(arrivals) <= Length(old(arrivals))
        invariant got ==> Length(arrivals) < Length(old(arrivals))
        invariant LaterThan(old(arrivals), arrivals) && EndsIn(arrivals) == EndsIn(old(arrivals))
        decreases Length(arrivals)
      {
        if input.rbytes >= input.rbuf.Length {
          input.Resize(input.rbuf.Length * 2);
        }
        var avail := input.rbuf.Length - input.rbytes;
        var more;
        more, stop := ReadOnce(avail);
        got := got || more > 0 || stop;
        if more != avail {
          break;
        }
      }
    }

    /** One read into the buffer: the number of bytes read, or the end of the connection. */
    method ReadOnce(avail: nat) returns (more: nat, stop: bool)
      requires InputOk() && input.rcurr == 0 && avail == input.rbuf.Length - input.rbytes && avail > 0
      modifies this`arrivals, this`received, input, input.rbuf
      ensures InputOk() && input.rbuf == old(input.rbuf) && input.rcurr == 0 && more <= avail && (stop ==> more == 0)
      ensures OnWire(received, arrivals) == OnWire(old(received), old(arrivals))
      ensures more == 0 ==> input.Unparsed() == old(input.Unparsed())
      ensures Length(arrivals) <= Length(old(arrivals))
              && (more > 0 || stop ==> Length(arrivals) < Length(old(arrivals)))
      ensures LaterThan(old(arrivals), arrivals) && (stop <==> EndsIn(arrivals) < EndsIn(old(arrivals)))
      ensures more == 0 && !stop ==> HasWaited(old(arrivals), arrivals)
    {
      more, stop := 0, false;
      var a;
      a, arrivals := Read(arrivals, avail);
      if a == Failure || a == Bytes([]) {
        stop := true;
      } else if a.Bytes? {
        BytesRead(received, consumed, input.Unparsed(), commands, a.data, Delivered(arrivals));
        more := |a.data|;
        received := received + a.data;
        input.Receive(a.data);
      }
    }

    /** conn_write: assembles the reply if that is still to do, and sends what the socket takes. */
    method Write() returns (stop: bool)
      requires OutputOk() && state.Writing?
      modifies this`state, this`out, this`rooms, this`sent
      ensures OutputOk() && (stop ==> state.Writing? && HasBlocked(old(rooms), rooms))
      ensures !stop ==> Rank(state, wbuf, out) < Rank(old(state), wbuf, old(out))
      ensures LaterRooms(old(rooms), rooms) && (state.Closing? <==> BreaksIn(rooms) < BreaksIn(old(rooms)))
    {
      stop := false;
      var part, outcome;
      out, part, outcome, rooms := SendMore(answer, wbuf, out, rooms, commands, sent);
      sent := sent + part;
      match outcome {
        case TransmitComplete => state := Reading;
        case TransmitIncomplete =>
        case TransmitSoftError => stop := true;
        case TransmitHardError =>
          StopsEarly(answer, state, wbuf, out, commands, sent);
          state := Closing;
      }
    }

    /**
     drive_machine.  When it waits for input, every complete line received has been processed
     and answered in full; when it waits for room to write, the lines processed are answered
     but for the end of the last reply.
     */
    method DriveMachine()
      requires Valid()
      modifies this`state, this`wbuf, this`out, this`arrivals, this`rooms, this`received, this`consumed, this`commands,
               this`sent, input, input.rbuf
      ensures Valid() && (input.rbuf == old(input.rbuf) || fresh(input.rbuf))
      ensures OnWire(received, arrivals) == OnWire(old(received), old(arrivals))
      ensures commands <= Commands(received) && sent <= Replies(answer, commands)
      ensures state.Reading? ==> commands == Commands(received) && sent == Replies(answer, Commands(received))
      ensures Later(old(Seen()), Seen()) && ClosesRightly(answer, old(Seen()), Seen())
      ensures WaitsRightly(old(Seen()), Seen())
    {
      var stop := false;
      while !stop
        invariant Valid() && (input.rbuf == old(input.rbuf) || fresh(input.rbuf))
        invariant OnWire(received, arrivals) == OnWire(old(received), old(arrivals))
        invariant stop && state.Reading? ==> !HasLine(input.Unparsed())
        invariant Later(old(Seen()), Seen()) && ClosesRightly(answer, old(Seen()), Seen())
        invariant stop ==> WaitsRightly(old(Seen()), Seen())
        decreases !stop, Length(arrivals), input.rbytes, Rank(state, wbuf, out)
      {
        ghost var before := Seen();
        stop := Turn();
        ProgressJoins(answer, old(Seen()), before, Seen());
      }
      CommandsSoFar(received, consumed, input.Unparsed(), commands);
    }

    /** One turn of the loop. */
    method Turn() returns (stop: bool)
      requires Valid()
      modifies this`state, this`wbuf, this`out, this`arrivals, this`rooms, this`received, this`consumed, this`commands,
               this`sent, input, input.rbuf
      ensures Valid() && (input.rbuf == old(input.rbuf) || fresh(input.rbuf))
      ensures OnWire(received, arrivals) == OnWire(old(received), old(arrivals))
      ensures stop && state.Reading? ==> !HasLine(input.Unparsed())
      ensures Later(old(Seen()), Seen()) && ClosesRightly(answer, old(Seen()), Seen())
      ensures stop ==> WaitsRightly(old(Seen()), Seen())
      ensures !stop ==> || Length(arrivals) < Length(old(arrivals))
                        || (Length(arrivals) == Length(old(arrivals)) && input.rbytes < old(input.rbytes))
                        || (Length(arrivals) == Length(old(arrivals)) && input.rbytes == old(input.rbytes)
                            && Rank(state, wbuf, out) < Rank(old(state), old(wbuf), old(out)))
    {
      if state.Reading? {
        stop := ReadTurn();
        return;
      }
      stop := true;
      if state.Writing? {
        stop := WriteTurn();
      }
    }

    /** Writes, and shrinks the buffer when going back to reading. */
    method WriteTurn() returns (stop: bool)
      requires Valid() && state.Writing?
      modifies this`state, this`out, this`rooms, this`sent, input, input.rbuf
      ensures Valid() && (input.rbuf == old(input.rbuf) || fresh(input.rbuf)) && input.rbytes == old(input.rbytes)
      ensures stop ==> state.Writing? && HasBlocked(old(rooms), rooms)
      ensures state.Reading? ==> input.rbuf.Length <= 8192 || input.rbytes >= 2048
      ensures !stop ==> Rank(state, wbuf, out) < Rank(old(state), wbuf, old(out))
      ensures LaterRooms(old(rooms), rooms) && (state.Closing? <==> BreaksIn(rooms) < BreaksIn(old(rooms)))
    {
      stop := Write();
      if state.Reading? {
        input.Shrink();
      }
    }

    /** Parses a command, or else reads. */
    method ReadTurn() returns (stop: bool)
      requires Valid() && state.Reading?
      modifies this`state, this`wbuf, this`out, this`arrivals, this`received, this`consumed, this`commands, input,
               input.rbuf
      ensures Valid() && (input.rbuf == old(input.rbuf) || fresh(input.rbuf))
      ensures OnWire(received, arrivals) == OnWire(old(received), old(arrivals))
      ensures stop && state.Reading? ==> !HasLine(input.Unparsed())
      ensures !stop ==> || Length(arrivals) < Length(old(arrivals))
                        || (Length(arrivals) == Length(old(arrivals)) && input.rbytes < old(input.rbytes))
      ensures LaterThan(old(arrivals), arrivals)
      ensures state.Closing? <==> EndsIn(arrivals) < EndsIn(old(arrivals)) || HasQuit(answer, commands)
      ensures stop ==> state.Reading? && HasWaited(old(arrivals), arrivals)
    {
      var done := TryReadCommand();
      if done {
        return false;
      }
      var got := TryReadNetwork();
      return !got;
    }

    /** One event. */
    method WakeUp(wake: Wake)
      requires Valid()
      modifies this`state, this`wbuf, this`out, this`arrivals, this`rooms, this`received, this`consumed, this`commands,
               this`sent, input, input.rbuf
      ensures Valid() && (input.rbuf == old(input.rbuf) || fresh(input.rbuf))
      ensures OnWire(received, arrivals) == OnWire(old(received), old(arrivals)) + Delivered(wake.arrivals)
      ensures commands <= Commands(received) && sent <= Replies(answer, commands)
      ensures state.Reading? ==> sent == Replies(answer, Commands(received))
      ensures Later(Woken(old(Seen()), wake), Seen()) && ClosesRightly(answer, Woken(old(Seen()), wake), Seen())
      ensures WaitsRightly(Woken(old(Seen()), wake), Seen())
    {
      OnWireAppend(received, arrivals, wake.arrivals);
      arrivals, rooms := arrivals + wake.arrivals, rooms + wake.rooms;
      DriveMachine();
    }

    /**
     The event loop of the connection: the socket is woken up again and again.  It closes
     exactly if the stream ends, a send fails or a command says so; if no read blocks before
     the end of its script, waiting for input means that everything has been read and answered.
     */
    method Serve(wakes: seq<Wake>)
      requires Valid()
      modifies this`state, this`wbuf, this`out, this`arrivals, this`rooms, this`received, this`consumed, this`commands,
               this`sent, input, input.rbuf
      ensures Valid()
      ensures OnWire(received, arrivals) == OnWire(old(received), old(arrivals)) + AllDelivered(wakes)
      ensures commands <= Commands(received) && sent <= Replies(answer, commands)
      ensures state.Reading? && wakes != [] ==> sent == Replies(answer, Commands(received))
      ensures ClosesRightly(answer, AllWoken(old(Seen()), wakes), Seen())
      ensures wakes != [] ==> WaitsRightly(AllWoken(old(Seen()), wakes), Seen())
      ensures state.Reading? && wakes != [] && BlocksIn(AllWoken(old(Seen()), wakes).arrivals) == 0 ==>
                received == OnWire(old(received), old(arrivals)) + AllDelivered(wakes)
    {
      CommandsSoFar(received, consumed, input.Unparsed(), commands);
      ServeAll(OnWire(received, arrivals), Seen(), wakes);
      assert wakes[..|wakes|] == wakes;
    }

    method ServeAll(ghost before: Text, ghost start: Progress, wakes: seq<Wake>)
      requires Valid() && Served(before, start, wakes, 0)
      modifies this`state, this`wbuf, this`out, this`arrivals, this`rooms, this`received, this`consumed, this`commands,
               this`sent, input, input.rbuf
      ensures Valid() && Served(before, start, wakes, |wakes|)
    {
      var k := 0;
      while k < |wakes|
        invariant 0 <= k <= |wakes| && Valid() && (input.rbuf == old(input.rbuf) || fresh(input.rbuf))
        invariant Served(before, start, wakes, k)
      {
        ServeOne(before, start, wakes, k);
        k := k + 1;
      }
    }

    /** What holds after `n` events. */
    ghost predicate Served(before: Text, start: Progress, wakes: seq<Wake>, n: nat)
      requires n <= |wakes|
      reads this
    {
      && OnWire(received, arrivals) == before + AllDelivered(wakes[..n])
      && commands <= Commands(received) && sent <= Replies(answer, commands)
      && (state.Reading? && n > 0 ==> sent == Replies(answer, Commands(received)))
      && Later(AllWoken(start, wakes[..n]), Seen()) && ClosesRightly(answer, AllWoken(start, wakes[..n]), Seen())
      && (n > 0 ==> WaitsRightly(AllWoken(start, wakes[..n]), Seen()))
    }

    method ServeOne(ghost before: Text, ghost start: Progress, wakes: seq<Wake>, k: nat)
      requires k < |wakes| && Valid() && Served(before, start, wakes, k)
      modifies this`state, this`wbuf, this`out, this`arrivals, this`rooms, this`received, this`consumed, this`commands,
               this`sent, input, input.rbuf
      ensures Valid() && (input.rbuf == old(input.rbuf) || fresh(input.rbuf)) && Served(before, start, wakes, k + 1)
    {
      AllDeliveredStep(before, wakes, k);
      ghost var all, seen := AllWoken(start, wakes[..k]), Seen();
      assert wakes[..k + 1][..k] == wakes[..k];
      WokenBoth(answer, all, seen, wakes[k]);
      WakeUp(wakes[k]);
      ProgressJoins(answer, Woken(all, wakes[k]), Woken(seen, wakes[k]), Seen());
    }
  }
}
