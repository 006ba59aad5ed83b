/** The messages a reply is sent in: add_msghdr, add_iov and transmit of lmserver/lmserver.c, for TCP. */
module Outgoing {
  import opened Lines

  const IOV_MAX := 1024
  const UDP_MAX_PAYLOAD_SIZE := 1400

  /** Each message is a list of pieces; `msgcurr` is the one being sent. */
  datatype Messages = Messages(msgs: seq<seq<Text>>, msgcurr: nat, msgbytes: nat, iovused: nat)

  const NoMessages := Messages([], 0, 0, 0)

  function Join(pieces: seq<Text>): Text {
    if pieces == [] then [] else Join(pieces[..|pieces| - 1]) + pieces[|pieces| - 1]
  }

  function JoinAll(msgs: seq<seq<Text>>): Text {
    if msgs == [] then [] else JoinAll(msgs[..|msgs| - 1]) + Join(msgs[|msgs| - 1])
  }

  /** What is still to be sent. */
  function Unsent(m: Messages): Text
    requires m.msgcurr <= |m.msgs|
  {
    JoinAll(m.msgs[m.msgcurr..])
  }

  predicate NoEmptyPiece(pieces: seq<Text>) {
    forall k {:trigger pieces[k]} :: 0 <= k < |pieces| ==> pieces[k] != []
  }

  /** No piece is empty, and no message but the current one. */
  predicate Filled(m: Messages) {
    && (forall i {:trigger m.msgs[i]} :: 0 <= i < |m.msgs| ==> NoEmptyPiece(m.msgs[i]))
    && (forall i {:trigger m.msgs[i]} :: m.msgcurr < i < |m.msgs| ==> m.msgs[i] != [])
  }

  /** The last message may still be empty. */
  predicate FilledButLast(m: Messages) {
    && (forall i {:trigger m.msgs[i]} :: 0 <= i < |m.msgs| ==> NoEmptyPiece(m.msgs[i]))
    && (forall i {:trigger m.msgs[i]} :: m.msgcurr < i < |m.msgs| - 1 ==> m.msgs[i] != [])
  }

  lemma {:induction false} JoinFirst(pieces: seq<Text>)
    requires pieces != []
    ensures Join(pieces) == pieces[0] + Join(pieces[1..])
    decreases |pieces|
  {
    var k := |pieces| - 1;
    if k > 0 {
      JoinFirst(pieces[..k]);
      assert pieces[..k][1..] == pieces[1..][..k - 1];
    }
  }

  lemma {:induction false} JoinAllFirst(msgs: seq<seq<Text>>)
    requires msgs != []
    ensures JoinAll(msgs) == Join(msgs[0]) + JoinAll(msgs[1..])
    decreases |msgs|
  {
    var k := |msgs| - 1;
    if k > 0 {
      JoinAllFirst(msgs[..k]);
      assert msgs[..k][1..] == msgs[1..][..k - 1];
    }
  }

  /** add_msghdr. */
  function AddMsghdr(m: Messages): Messages {
    m.(msgs := m.msgs + [[]], msgbytes := 0)
  }

  lemma {:induction false} AddMsghdrUnsent(m: Messages)
    requires m.msgcurr <= |m.msgs|
    ensures Unsent(AddMsghdr(m)) == Unsent(m) && (Filled(m) ==> FilledButLast(AddMsghdr(m)))
  {
    assert AddMsghdr(m).msgs[m.msgcurr..] == m.msgs[m.msgcurr..] + [[]];
    assert (m.msgs[m.msgcurr..] + [[]])[..|m.msgs| - m.msgcurr] == m.msgs[m.msgcurr..];
  }

  /** Adds one piece to the last message. */
  function AddPiece(m: Messages, piece: Text): Messages
    requires m.msgs != []
  {
    var last := |m.msgs| - 1;
    Messages(m.msgs[last := m.msgs[last] + [piece]], m.msgcurr, m.msgbytes + |piece|, m.iovused + 1)
  }

  lemma {:induction false} AddPieceUnsent(m: Messages, piece: Text)
    requires m.msgcurr < |m.msgs|
    ensures Unsent(AddPiece(m, piece)) == Unsent(m) + piece
    ensures FilledButLast(m) && piece != [] ==> Filled(AddPiece(m, piece))
  {
    var was, now := m.msgs[m.msgcurr..], AddPiece(m, piece).msgs[m.msgcurr..];
    assert now[..|now| - 1] == was[..|was| - 1];
    assert now[|now| - 1] == was[|was| - 1] + [piece];
    assert (was[|was| - 1] + [piece])[..|was[|was| - 1]|] == was[|was| - 1];
  }

  /** No message has more than 1024 pieces, and the first one not more than 1400 bytes. */
  ghost predicate Packed(m: Messages) {
    && m.msgs != [] && m.msgbytes == |Join(m.msgs[|m.msgs| - 1])| && |Join(m.msgs[0])| <= 1400
    && forall i {:trigger m.msgs[i]} :: 0 <= i < |m.msgs| ==> |m.msgs[i]| <= 1024
  }

  lemma {:induction false} PieceFits(m: Messages, piece: Text)
    requires Packed(m) && |m.msgs[|m.msgs| - 1]| < 1024 && (|m.msgs| == 1 ==> m.msgbytes + |piece| <= 1400)
    ensures Packed(AddPiece(m, piece))
  {
    var last := m.msgs[|m.msgs| - 1];
    assert (last + [piece])[..|last|] == last;
  }

  /** Queues `buf` behind what is there, split so that the first message stays within a packet. */
  method AddIov(m: Messages, buf: Text) returns (r: Messages)
    requires 0 < |m.msgs| && m.msgcurr < |m.msgs|
    ensures r.msgcurr == m.msgcurr && |r.msgs| >= |m.msgs| && r.iovused > m.iovused
    ensures Unsent(r) == Unsent(m) + buf
    ensures buf != [] && Filled(m) ==> Filled(r)
    ensures Packed(m) ==> Packed(r)
  {
    var rest;
    r, rest := AddFirst(m, buf);
    while rest != []
      invariant r.msgcurr == m.msgcurr && |r.msgs| >= |m.msgs| && r.iovused > m.iovused
      invariant Unsent(r) + rest == Unsent(m) + buf
      invariant buf != [] && Filled(m) ==> Filled(r)
      invariant Packed(m) ==> Packed(r)
      decreases |rest|
    {
      r, rest := AddFirst(r, rest);
    }
    assert Unsent(r) + [] == Unsent(r);
  }

  /** One round: as much of `buf` as the message may take. */
  method AddFirst(m: Messages, buf: Text) returns (r: Messages, rest: Text)
    requires 0 < |m.msgs| && m.msgcurr < |m.msgs|
    ensures r.msgcurr == m.msgcurr && |r.msgs| >= |m.msgs| && r.iovused == m.iovused + 1
    ensures Unsent(r) + rest == Unsent(m) + buf && (if buf == [] then rest == [] else |rest| < |buf|)
    ensures buf != [] && Filled(m) ==> Filled(r)
    ensures Packed(m) ==> Packed(r)
  {
    var len;
    r, len := MakeRoom(m, |buf|);
    var piece := buf[..len];
    rest := buf[len..];
    assert buf == piece + rest;
    Assoc(Unsent(r), piece, rest);
    AddPieceUnsent(r, piece);
    if Packed(m) {
      PieceFits(r, piece);
    }
    r := AddPiece(r, piece);
  }

  /** Starts a new message if the last one is full; of `n` bytes the last one takes `len`. */
  method MakeRoom(m: Messages, n: nat) returns (r: Messages, len: nat)
    requires 0 < |m.msgs| && m.msgcurr < |m.msgs|
    ensures r.msgcurr == m.msgcurr && |r.msgs| >= |m.msgs| && r.iovused == m.iovused && Unsent(r) == Unsent(m)
    ensures len <= n && (n > 0 ==> len > 0) && (Filled(m) ==> FilledButLast(r))
    ensures Packed(m) ==>
              Packed(r) && |r.msgs[|r.msgs| - 1]| < 1024 && (|r.msgs| == 1 ==> r.msgbytes + len <= 1400)
  {
    r := m;
    var limit := |r.msgs| == 1;
    if |r.msgs[|r.msgs| - 1]| == IOV_MAX || (limit && r.msgbytes >= UDP_MAX_PAYLOAD_SIZE) {
      AddMsghdrUnsent(r);
      r := AddMsghdr(r);
    }
    len := n;
    if limit && len + r.msgbytes > UDP_MAX_PAYLOAD_SIZE {
      len := UDP_MAX_PAYLOAD_SIZE - r.msgbytes;
    }
  }

  // ---------------------------------------------------------------- transmit

  /** What the socket will do with the next sendmsg: take up to `n` bytes, block, or fail. */
  datatype Room = Accept(n: nat) | Full | Broken

  /** A send that fails for good, or takes nothing. */
  predicate Breaks(r: Room) {
    r == Broken || r == Accept(0)
  }

  /** How often a send fails for good, and how often it would block, in what is still to come. */
  function BreaksIn(rooms: seq<Room>): nat {
    if rooms == [] then 0 else (if Breaks(rooms[0]) then 1 else 0) + BreaksIn(rooms[1..])
  }

  function FullIn(rooms: seq<Room>): nat {
    if rooms == [] then 0 else (if rooms[0].Full? then 1 else 0) + FullIn(rooms[1..])
  }

  /** The script is used up, or a send has blocked. */
  predicate HasBlocked(before: seq<Room>, after: seq<Room>) {
    after == [] || FullIn(after) < FullIn(before)
  }

  /** What is left of a script that has been sent by. */
  predicate LaterRooms(before: seq<Room>, after: seq<Room>) {
    BreaksIn(after) <= BreaksIn(before) && FullIn(after) <= FullIn(before)
  }

  lemma {:induction false} RoomsAppend(a: seq<Room>, b: seq<Room>)
    ensures BreaksIn(a + b) == BreaksIn(a) + BreaksIn(b) && FullIn(a + b) == FullIn(a) + FullIn(b)
    decreases |a|
  {
    if a == [] {
      assert a + b == b;
    } else {
      assert (a + b)[1..] == a[1..] + b;
      RoomsAppend(a[1..], b);
    }
  }

  datatype Outcome = TransmitComplete | TransmitIncomplete | TransmitSoftError | TransmitHardError

  /** Removes `sent` bytes from the front: whole pieces first, then part of the next. */
  method Remove(pieces: seq<Text>, sent: nat) returns (left: seq<Text>)
    requires sent <= |Join(pieces)| && NoEmptyPiece(pieces)
    ensures Join(left) == Join(pieces)[sent..] && NoEmptyPiece(left)
  {
    left := pieces;
    var res := sent;
    while left != [] && res >= |left[0]|
      invariant 0 <= res <= |Join(left)| && Join(left)[res..] == Join(pieces)[sent..] && NoEmptyPiece(left)
      decreases |left|
    {
      JoinFirst(left);
      res := res - |left[0]|;
      left := left[1..];
    }
    if res > 0 {
      JoinFirst(left);
      var cut := [left[0][res..]] + left[1..];
      JoinFirst(cut);
      assert cut[1..] == left[1..];
      left := cut;
    }
  }

  /** sendmsg of the current message. */
  method Send(m: Messages, n: nat) returns (r: Messages, sent: Text)
    requires m.msgcurr < |m.msgs| && m.msgs[m.msgcurr] != [] && Filled(m) && n > 0
    ensures r.msgcurr == m.msgcurr && |r.msgs| == |m.msgs| && r.iovused == m.iovused && Filled(r)
    ensures sent != [] && Unsent(m) == sent + Unsent(r)
  {
    var pieces := m.msgs[m.msgcurr];
    JoinFirst(pieces);
    var total := Join(pieces);
    var k := if n <= |total| then n else |total|;
    var left := Remove(pieces, k);
    sent := total[..k];
    assert total == sent + Join(left);
    r := m.(msgs := m.msgs[m.msgcurr := left]);
    Replaced(m, left, sent);
  }

  lemma {:induction false} Replaced(m: Messages, left: seq<Text>, sent: Text)
    requires m.msgcurr < |m.msgs| && Filled(m) && NoEmptyPiece(left) && Join(m.msgs[m.msgcurr]) == sent + Join(left)
    ensures var r := m.(msgs := m.msgs[m.msgcurr := left]);
            Filled(r) && Unsent(m) == sent + Unsent(r)
  {
    var r := m.(msgs := m.msgs[m.msgcurr := left]);
    var rest := m.msgs[m.msgcurr + 1..];
    assert m.msgs[m.msgcurr..][1..] == rest && r.msgs[m.msgcurr..][1..] == rest;
    JoinAllFirst(m.msgs[m.msgcurr..]);
    JoinAllFirst(r.msgs[m.msgcurr..]);
    Assoc(sent, Join(left), JoinAll(rest));
  }

  /** Steps over the current message if it has been sent. */
  method Advance(m: Messages) returns (r: Messages)
    requires m.msgcurr <= |m.msgs| && Filled(m)
    ensures r.msgcurr <= |r.msgs| && Filled(r) && r.iovused == m.iovused && Unsent(r) == Unsent(m)
    ensures r.msgcurr == |r.msgs| <==> Unsent(m) == []
    ensures r.msgcurr < |r.msgs| ==> r.msgs[r.msgcurr] != []
  {
    r := m;
    if r.msgcurr < |r.msgs| && r.msgs[r.msgcurr] == [] {
      JoinAllFirst(r.msgs[r.msgcurr..]);
      assert r.msgs[r.msgcurr..][1..] == r.msgs[r.msgcurr + 1..];
      r := r.(msgcurr := r.msgcurr + 1);
    }
    if r.msgcurr < |r.msgs| {
      JoinAllFirst(r.msgs[r.msgcurr..]);
      JoinFirst(r.msgs[r.msgcurr]);
    }
  }

  method Transmit(m: Messages, rooms: seq<Room>) returns (r: Messages, sent: Text, outcome: Outcome, left: seq<Room>)
    requires m.msgcurr <= |m.msgs| && Filled(m)
    ensures r.msgcurr <= |r.msgs| && Filled(r) && r.iovused == m.iovused
    ensures Unsent(m) == sent + Unsent(r)
    ensures outcome.TransmitIncomplete? <==> sent != []
    ensures outcome.TransmitComplete? <==> Unsent(m) == []
    ensures outcome.TransmitSoftError? ==> rooms == [] || rooms[0].Full?
    ensures left == if rooms == [] || outcome.TransmitComplete? then rooms else rooms[1..]
    ensures LaterRooms(rooms, left) && (outcome.TransmitHardError? <==> BreaksIn(left) < BreaksIn(rooms))
    ensures outcome.TransmitSoftError? ==> HasBlocked(rooms, left)
  {
    sent, left := [], rooms;
    r := Advance(m);
    if r.msgcurr == |r.msgs| {
      outcome := TransmitComplete;
      return;
    }
    if rooms == [] {
      outcome := TransmitSoftError;
      return;
    }
    left := rooms[1..];
    match rooms[0] {
      case Accept(n) =>
        if n > 0 {
          r, sent := Send(r, n);
          outcome := TransmitIncomplete;
        } else {
          outcome := TransmitHardError;
        }
      case Full => outcome := TransmitSoftError;
      case Broken => outcome := TransmitHardError;
    }
  }
}
