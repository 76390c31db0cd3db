/**
 Cutting a byte stream into messages: a 24-byte header, then as many bytes of
 payload as the header says.  First what one byte does, then the receiver that
 takes whole chunks.
 */
module MessageFraming {

  const HEADER_SIZE := 24
  const MAX_SIZE := 0x0200_0000
  const MAX_PROTOCOL_MESSAGE_LENGTH := 4 * 36 * 1000 * 1000

  type Byte = nat

  datatype Option<T> = None | Some(value: T)

  datatype Header = Header(command: nat, size: nat)

  /** Reads 24 bytes as a header; none stands for an exception. */
  type Parser = seq<Byte> -> Option<Header>

  datatype Message =
    | Opening(header: seq<Byte>)
    | Body(hdr: Header, data: seq<Byte>)

  predicate Complete(m: Message)
  {
    m.Body? && m.hdr.size == |m.data|
  }

  /** Messages so far, bytes per command, and whether the stream was accepted. */
  datatype Stream = Stream(messages: seq<Message>, totals: map<nat, nat>, ok: bool)

  /** Commands without an entry of their own are counted under `other`. */
  function Counted(totals: map<nat, nat>, other: nat, hdr: Header): map<nat, nat>
  {
    var key := if hdr.command in totals then hdr.command else other;
    if key in totals then totals[key := totals[key] + hdr.size + HEADER_SIZE] else totals
  }

  function WithLast(ms: seq<Message>, m: Message): seq<Message>
    requires |ms| > 0
  {
    ms[|ms| - 1 := m]
  }

  /** The current incomplete message, or a new one. */
  function Opened(ms: seq<Message>): (r: seq<Message>)
    ensures |r| > 0 && !Complete(r[|r| - 1])
  {
    if ms == [] || Complete(ms[|ms| - 1]) then ms + [Opening([])] else ms
  }

  /** How many messages are complete; only the last one may not be. */
  function Finished(ms: seq<Message>): nat
  {
    if ms == [] then 0 else if Complete(ms[|ms| - 1]) then |ms| else |ms| - 1
  }

  /** The last message becomes m; it is counted if that completes it. */
  function Updated(s: Stream, other: nat, m: Message): Stream
    requires |s.messages| > 0
  {
    s.(messages := WithLast(s.messages, m), totals := if Complete(m) then Counted(s.totals, other, m.hdr) else s.totals)
  }

  /** A header of 24 bytes: refused, or the start of a payload. */
  function HeaderRead(p: Parser, other: nat, s: Stream, header: seq<Byte>): Stream
    requires |s.messages| > 0
  {
    match p(header)
    case None => s.(messages := WithLast(s.messages, Opening(header)), ok := false)
    case Some(h) => if h.size > MAX_SIZE then s.(messages := WithLast(s.messages, Opening(header)), ok := false)
                    else Updated(s, other, Body(h, []))
  }

  function Step(p: Parser, other: nat, s: Stream, b: Byte): Stream
  {
    if !s.ok then s
    else
      var t := s.(messages := Opened(s.messages));
      match t.messages[|t.messages| - 1]
      case Opening(header) =>
        if |header| + 1 < HEADER_SIZE then Updated(t, other, Opening(header + [b]))
        else HeaderRead(p, other, t, header + [b])
      case Body(h, data) => Updated(t, other, Body(h, data + [b]))
  }

  function Feed(p: Parser, other: nat, s: Stream, bytes: seq<Byte>): Stream
    decreases |bytes|
  {
    if bytes == [] then s else Feed(p, other, Step(p, other, s, bytes[0]), bytes[1..])
  }

  lemma {:induction false} FeedJoin(p: Parser, other: nat, s: Stream, a: seq<Byte>, b: seq<Byte>)
    ensures Feed(p, other, s, a + b) == Feed(p, other, Feed(p, other, s, a), b)
    decreases |a|
  {
    if a == [] {
      assert a + b == b;
    } else {
      assert (a + b)[0] == a[0] && (a + b)[1..] == a[1..] + b;
      FeedJoin(p, other, Step(p, other, s, a[0]), a[1..], b);
    }
  }

  lemma {:induction false} FeedRejected(p: Parser, other: nat, s: Stream, bytes: seq<Byte>)
    requires !s.ok
    ensures Feed(p, other, s, bytes) == s
    decreases |bytes|
  {
    if bytes != [] {
      FeedRejected(p, other, s, bytes[1..]);
    }
  }

  /** Chunk after chunk, until one is refused. */
  function FeedChunks(p: Parser, other: nat, s: Stream, chunks: seq<seq<Byte>>): Stream
    decreases |chunks|
  {
    if chunks == [] || !s.ok then s else FeedChunks(p, other, Feed(p, other, s, chunks[0]), chunks[1..])
  }

  function Flat(chunks: seq<seq<Byte>>): seq<Byte>
  {
    if chunks == [] then [] else chunks[0] + Flat(chunks[1..])
  }

  /** Messages, totals and verdict do not depend on how the stream is cut. */
  lemma {:induction false} ChunkingIndependent(p: Parser, other: nat, s: Stream, chunks: seq<seq<Byte>>)
    ensures FeedChunks(p, other, s, chunks) == Feed(p, other, s, Flat(chunks))
    decreases |chunks|
  {
    if !s.ok {
      FeedRejected(p, other, s, Flat(chunks));
    } else if chunks != [] {
      FeedJoin(p, other, s, chunks[0], Flat(chunks[1..]));
      ChunkingIndependent(p, other, Feed(p, other, s, chunks[0]), chunks[1..]);
    }
  }

  // ----- Several bytes of one message

  lemma {:induction false} FeedHeader(p: Parser, other: nat, s: Stream, header: seq<Byte>, bytes: seq<Byte>)
    requires s.ok && |s.messages| > 0 && s.messages[|s.messages| - 1] == Opening(header)
    requires |header| + |bytes| <= HEADER_SIZE && |header| < HEADER_SIZE
    ensures Feed(p, other, s, bytes) ==
            if |header| + |bytes| < HEADER_SIZE then Updated(s, other, Opening(header + bytes))
            else HeaderRead(p, other, s, header + bytes)
    decreases |bytes|
  {
    if bytes == [] {
      assert header + bytes == header;
      assert WithLast(s.messages, Opening(header)) == s.messages;
    } else {
      assert header + bytes == header + [bytes[0]] + bytes[1..];
      var t := Step(p, other, s, bytes[0]);
      if |header| + 1 < HEADER_SIZE {
        FeedHeader(p, other, t, header + [bytes[0]], bytes[1..]);
        HeaderReadLater(p, other, s, t, Opening(header + [bytes[0]]), header + bytes);
      } else {
        assert bytes[1..] == [] && header + bytes == header + [bytes[0]];
      }
    }
  }

  lemma HeaderReadLater(p: Parser, other: nat, s: Stream, t: Stream, m: Message, header: seq<Byte>)
    requires |s.messages| > 0 && !Complete(m) && t == Updated(s, other, m)
    ensures HeaderRead(p, other, t, header) == HeaderRead(p, other, s, header)
    ensures Updated(t, other, Opening(header)) == Updated(s, other, Opening(header))
  {
    assert forall x: Message :: WithLast(t.messages, x) == WithLast(s.messages, x);
  }

  lemma {:induction false} FeedData(p: Parser, other: nat, s: Stream, h: Header, data: seq<Byte>, bytes: seq<Byte>)
    requires s.ok && |s.messages| > 0 && s.messages[|s.messages| - 1] == Body(h, data)
    requires |data| < h.size && |data| + |bytes| <= h.size
    ensures Feed(p, other, s, bytes) == Updated(s, other, Body(h, data + bytes))
    decreases |bytes|
  {
    if bytes == [] {
      assert data + bytes == data;
      assert WithLast(s.messages, Body(h, data)) == s.messages;
    } else {
      assert data + bytes == data + [bytes[0]] + bytes[1..];
      var t := Step(p, other, s, bytes[0]);
      assert t == Updated(s, other, Body(h, data + [bytes[0]]));
      if |data| + 1 < h.size {
        FeedData(p, other, t, h, data + [bytes[0]], bytes[1..]);
        assert WithLast(t.messages, Body(h, data + bytes)) == WithLast(s.messages, Body(h, data + bytes));
      } else {
        assert bytes[1..] == [] && data + bytes == data + [bytes[0]];
      }
    }
  }

  // ----- A stream of whole messages

  datatype Frame = Frame(header: seq<Byte>, payload: seq<Byte>)

  predicate FrameOk(p: Parser, f: Frame)
  {
    |f.header| == HEADER_SIZE && p(f.header).Some? && p(f.header).value.size == |f.payload| <= MAX_SIZE
  }

  function Wire(frames: seq<Frame>): seq<Byte>
  {
    if frames == [] then [] else frames[0].header + frames[0].payload + Wire(frames[1..])
  }

  function Delivered(p: Parser, other: nat, s: Stream, frames: seq<Frame>): Stream
    requires forall i :: 0 <= i < |frames| ==> FrameOk(p, frames[i])
    decreases |frames|
  {
    if frames == [] then s
    else
      assert FrameOk(p, frames[0]);
      var h := p(frames[0].header).value;
      Delivered(p, other, s.(messages := s.messages + [Body(h, frames[0].payload)], totals := Counted(s.totals, other, h)), frames[1..])
  }

  /** What was sent as messages arrives as those messages, each with exactly its payload. */
  lemma {:induction false} FramesArrive(p: Parser, other: nat, s: Stream, frames: seq<Frame>)
    requires s.ok && (s.messages == [] || Complete(s.messages[|s.messages| - 1]))
    requires forall i :: 0 <= i < |frames| ==> FrameOk(p, frames[i])
    ensures Feed(p, other, s, Wire(frames)) == Delivered(p, other, s, frames)
    decreases |frames|
  {
    if frames != [] {
      var f, rest := frames[0], Wire(frames[1..]);
      FrameArrives(p, other, s, f);
      FeedJoin(p, other, s, f.header + f.payload, rest);
      var h := p(f.header).value;
      FramesArrive(p, other, s.(messages := s.messages + [Body(h, f.payload)], totals := Counted(s.totals, other, h)), frames[1..]);
    }
  }

  lemma FrameArrives(p: Parser, other: nat, s: Stream, f: Frame)
    requires s.ok && (s.messages == [] || Complete(s.messages[|s.messages| - 1])) && FrameOk(p, f)
    ensures var h := p(f.header).value;
            Feed(p, other, s, f.header + f.payload) ==
            s.(messages := s.messages + [Body(h, f.payload)], totals := Counted(s.totals, other, h))
  {
    hide Feed;
    var h := p(f.header).value;
    var open := s.(messages := s.messages + [Opening([])]);
    SameStart(p, other, s, f.header);
    FeedHeader(p, other, open, [], f.header);
    assert [] + f.header == f.header;
    FeedJoin(p, other, s, f.header, f.payload);
    assert WithLast(open.messages, Body(h, [])) == s.messages + [Body(h, [])];
    PayloadArrives(p, other, s, h, f.payload);
  }

  lemma PayloadArrives(p: Parser, other: nat, s: Stream, h: Header, payload: seq<Byte>)
    requires s.ok && h.size == |payload|
    ensures var body := s.(messages := s.messages + [Body(h, [])],
                           totals := if h.size == 0 then Counted(s.totals, other, h) else s.totals);
            Feed(p, other, body, payload) == s.(messages := s.messages + [Body(h, payload)], totals := Counted(s.totals, other, h))
  {
    if h.size > 0 {
      hide Feed;
      var body := s.(messages := s.messages + [Body(h, [])]);
      FeedData(p, other, body, h, [], payload);
      assert [] + payload == payload;
      assert WithLast(body.messages, Body(h, payload)) == s.messages + [Body(h, payload)];
    }
  }

  /** Opening the next message beforehand makes no difference. */
  lemma SameStart(p: Parser, other: nat, s: Stream, bytes: seq<Byte>)
    requires s.ok && bytes != []
    ensures Feed(p, other, s, bytes) == Feed(p, other, s.(messages := Opened(s.messages)), bytes)
  {
    assert Opened(Opened(s.messages)) == Opened(s.messages);
  }

  // ----- As many bytes as a message wants

  datatype Taking = Taking(handled: int, m: Message)

  predicate Wants(m: Message)
  {
    if m.Opening? then |m.header| < HEADER_SIZE else |m.data| < m.hdr.size
  }

  function Least(a: nat, b: nat): nat
  {
    if a <= b then a else b
  }

  /** An open message after it took what it wants of the bytes; -1 if its header is refused. */
  function Taken(p: Parser, m: Message, bytes: seq<Byte>): Taking
    requires Wants(m)
  {
    match m
    case Opening(header) =>
      var n := Least(HEADER_SIZE - |header|, |bytes|);
      var got := header + bytes[..n];
      if |got| < HEADER_SIZE then Taking(n, Opening(got))
      else (match p(got)
            case None => Taking(-1, Opening(got))
            case Some(h) => if h.size > MAX_SIZE then Taking(-1, Opening(got)) else Taking(n, Body(h, [])))
    case Body(h, data) =>
      var n := Least(h.size - |data|, |bytes|);
      Taking(n, Body(h, data + bytes[..n]))
  }

  /** Taking many bytes at once is taking them one by one. */
  lemma TakenFeeds(p: Parser, other: nat, s: Stream, bytes: seq<Byte>)
    requires s.ok && |s.messages| > 0 && Wants(s.messages[|s.messages| - 1]) && bytes != []
    ensures var t := Taken(p, s.messages[|s.messages| - 1], bytes);
            if t.handled < 0 then Feed(p, other, s, bytes) == s.(messages := WithLast(s.messages, t.m), ok := false)
            else 1 <= t.handled <= |bytes| && Feed(p, other, s, bytes[..t.handled]) == Updated(s, other, t.m)
  {
    hide Feed;
    match s.messages[|s.messages| - 1]
    case Opening(header) => AbsorbHeader(p, other, s, header, bytes);
    case Body(h, data) => AbsorbData(p, other, s, h, data, bytes);
  }

  lemma AbsorbHeader(p: Parser, other: nat, s: Stream, header: seq<Byte>, bytes: seq<Byte>)
    requires s.ok && |s.messages| > 0 && s.messages[|s.messages| - 1] == Opening(header) && |header| < HEADER_SIZE
    ensures var n := Least(HEADER_SIZE - |header|, |bytes|);
            var got := header + bytes[..n];
            && Feed(p, other, s, bytes[..n]) ==
               (if |got| < HEADER_SIZE then Updated(s, other, Opening(got)) else HeaderRead(p, other, s, got))
            && (|got| == HEADER_SIZE && !HeaderRead(p, other, s, got).ok ==>
                  Feed(p, other, s, bytes) == HeaderRead(p, other, s, got))
  {
    var n := Least(HEADER_SIZE - |header|, |bytes|);
    var got := header + bytes[..n];
    FeedHeader(p, other, s, header, bytes[..n]);
    if |got| == HEADER_SIZE && !HeaderRead(p, other, s, got).ok {
      assert bytes == bytes[..n] + bytes[n..];
      FeedJoin(p, other, s, bytes[..n], bytes[n..]);
      FeedRejected(p, other, HeaderRead(p, other, s, got), bytes[n..]);
    }
  }

  lemma AbsorbData(p: Parser, other: nat, s: Stream, h: Header, data: seq<Byte>, bytes: seq<Byte>)
    requires s.ok && |s.messages| > 0 && s.messages[|s.messages| - 1] == Body(h, data) && |data| < h.size
    ensures var n := Least(h.size - |data|, |bytes|);
            Feed(p, other, s, bytes[..n]) == Updated(s, other, Body(h, data + bytes[..n]))
  {
    var n := Least(h.size - |data|, |bytes|);
    FeedData(p, other, s, h, data, bytes[..n]);
  }

  // ----- The receiver

  /** One message as it is being received. */
  class NetMessage {
    var in_data: bool
    var hdrbuf: seq<Byte>
    var nHdrPos: nat
    var hdr: Header
    var vRecv: seq<Byte>
    var nDataPos: nat
    var hashed: seq<Byte>  // what the payload's hasher was given

    ghost predicate Valid()
      reads this
    {
      && |hdrbuf| == HEADER_SIZE && nHdrPos <= HEADER_SIZE
      && (in_data ==> hdr.size <= MAX_SIZE && nDataPos <= |vRecv| <= hdr.size && hashed == vRecv[..nDataPos])
      && (!in_data ==> vRecv == [] && nDataPos == 0 && hashed == [])
    }

    ghost function View(): Message
      requires Valid()
      reads this
    {
      if in_data then Body(hdr, vRecv[..nDataPos]) else Opening(hdrbuf[..nHdrPos])
    }

    constructor ()
      ensures Valid() && View() == Opening([]) && !in_data && nHdrPos == 0
    {
      in_data := false;
      hdrbuf := seq(HEADER_SIZE, _ => 0);
      nHdrPos := 0;
      hdr := Header(0, 0);
      vRecv := [];
      nDataPos := 0;
      hashed := [];
    }

    /** All data has arrived: the buffer and the hasher hold the payload and nothing else. */
    predicate IsComplete()
      requires Valid()
      reads this
      ensures IsComplete() == Complete(View())
      ensures IsComplete() ==> View() == Body(hdr, vRecv) && hashed == vRecv
    {
      in_data && hdr.size == nDataPos
    }

    /** Takes bytes of the header; -1 refuses it. */
    method ReadHeader(p: Parser, bytes: seq<Byte>) returns (handled: int)
      requires Valid() && !in_data && nHdrPos < HEADER_SIZE && bytes != []
      modifies this
      ensures Valid() && Taking(handled, View()) == Taken(p, old(View()), bytes)
    {
      var n := Least(HEADER_SIZE - nHdrPos, |bytes|);
      ghost var header := hdrbuf[..nHdrPos];
      hdrbuf := hdrbuf[..nHdrPos] + bytes[..n] + hdrbuf[nHdrPos + n..];
      nHdrPos := nHdrPos + n;
      assert hdrbuf[..nHdrPos] == header + bytes[..n];
      if nHdrPos < HEADER_SIZE {
        return n;
      }
      assert hdrbuf == header + bytes[..n];
      match p(hdrbuf) {
        case None => return -1;
        case Some(h) =>
          if h.size > MAX_SIZE {
            return -1;
          }
          hdr := h;
          in_data := true;
          return n;
      }
    }

    /** Takes bytes of the payload; the buffer grows ahead of them, but never past the message. */
    method ReadData(ghost p: Parser, bytes: seq<Byte>) returns (handled: int)
      requires Valid() && in_data && nDataPos < hdr.size && bytes != []
      modifies this
      ensures Valid() && Taking(handled, View()) == Taken(p, old(View()), bytes)
    {
      var n := Least(hdr.size - nDataPos, |bytes|);
      ghost var data := vRecv[..nDataPos];
      if |vRecv| < nDataPos + n {
        vRecv := vRecv + seq(Least(hdr.size, nDataPos + n + 256 * 1024) - |vRecv|, _ => 0);
        assert vRecv[..nDataPos] == data;
      }
      hashed := hashed + bytes[..n];
      vRecv := vRecv[..nDataPos] + bytes[..n] + vRecv[nDataPos + n..];
      nDataPos := nDataPos + n;
      assert vRecv[..nDataPos] == data + bytes[..n];
      return n;
    }
  }

  ghost predicate AllValid(ms: seq<NetMessage>)
    reads ms
  {
    && (forall i :: 0 <= i < |ms| ==> ms[i].Valid())
    && (forall i, j :: 0 <= i < j < |ms| ==> ms[i] != ms[j])
  }

  ghost function Views(ms: seq<NetMessage>): (v: seq<Message>)
    requires AllValid(ms)
    reads ms
    ensures |v| == |ms| && forall i :: 0 <= i < |ms| ==> v[i] == ms[i].View()
  {
    seq(|ms|, i requires 0 <= i < |ms| && AllValid(ms) reads ms => ms[i].View())
  }

  /** The receiving side of a connection. */
  class Node {
    const parse: Parser
    const other: nat
    var vRecvMsg: seq<NetMessage>
    var mapRecvBytesPerMsgCmd: map<nat, nat>

    /** No header has been refused, and there is an entry for unknown commands. */
    ghost predicate Live()
      reads this, vRecvMsg
    {
      && AllValid(vRecvMsg) && other in mapRecvBytesPerMsgCmd
      && (|vRecvMsg| > 0 ==> var last := vRecvMsg[|vRecvMsg| - 1]; last.in_data || last.nHdrPos < HEADER_SIZE)
    }

    ghost function Repr(): set<NetMessage>
      reads this
    {
      set m | m in vRecvMsg
    }

    ghost function View(): Stream
      requires AllValid(vRecvMsg)
      reads this, vRecvMsg
    {
      Stream(Views(vRecvMsg), mapRecvBytesPerMsgCmd, true)
    }

    constructor (parse: Parser, other: nat, commands: set<nat>)
      ensures Live() && View() == Stream([], map c | c in commands + {other} :: 0, true)
      ensures this.parse == parse && this.other == other
    {
      this.parse := parse;
      this.other := other;
      vRecvMsg := [];
      mapRecvBytesPerMsgCmd := map c | c in commands + {other} :: 0;
    }

    /** Starts a new message if the last one is complete. */
    method Open()
      requires Live()
      modifies this`vRecvMsg
      ensures Live() && |vRecvMsg| > 0 && !vRecvMsg[|vRecvMsg| - 1].IsComplete()
      ensures Views(vRecvMsg) == Opened(old(Views(vRecvMsg)))
      ensures fresh(Repr() - old(Repr()))
    {
      hide NetMessage.Valid, NetMessage.View;
      if vRecvMsg == [] || vRecvMsg[|vRecvMsg| - 1].IsComplete() {
        ghost var before := Views(vRecvMsg);
        var m := new NetMessage();
        vRecvMsg := vRecvMsg + [m];
        assert Views(vRecvMsg) == before + [Opening([])];
      }
    }

    /** Takes as many bytes as the open message still wants; at least one. */
    method Absorb(bytes: seq<Byte>) returns (handled: int)
      requires Live() && bytes != []
      requires |vRecvMsg| > 0 && !vRecvMsg[|vRecvMsg| - 1].IsComplete()
      modifies this`mapRecvBytesPerMsgCmd, vRecvMsg[|vRecvMsg| - 1]
      ensures AllValid(vRecvMsg) && vRecvMsg[|vRecvMsg| - 1].Valid()
      ensures handled < 0 ==> !vRecvMsg[|vRecvMsg| - 1].IsComplete()
      ensures Views(vRecvMsg) == WithLast(old(Views(vRecvMsg)), vRecvMsg[|vRecvMsg| - 1].View())
      ensures handled < 0 ==> View().(ok := false) == Feed(parse, other, old(View()), bytes)
      ensures handled >= 0 ==> 1 <= handled <= |bytes| && Live() && View() == Feed(parse, other, old(View()), bytes[..handled])
    {
      hide Feed, Counted, Taken;
      ghost var s := View();
      var msg := vRecvMsg[|vRecvMsg| - 1];
      TakenFeeds(parse, other, s, bytes);
      TakenStates(parse, msg.View(), bytes);
      if !msg.in_data {
        handled := msg.ReadHeader(parse, bytes);
      } else {
        handled := msg.ReadData(parse, bytes);
      }
      ViewsLast(s.messages, Views(vRecvMsg));
      if handled < 0 {
        return;
      }
      // The larger limit of the protocol cannot be exceeded here.
      assert !(msg.in_data && msg.hdr.size > MAX_PROTOCOL_MESSAGE_LENGTH);
      if msg.IsComplete() {
        Count(msg.hdr);
      }
    }

    /** Adds a message to the bytes of its command. */
    method Count(hdr: Header)
      requires other in mapRecvBytesPerMsgCmd
      modifies this`mapRecvBytesPerMsgCmd
      ensures mapRecvBytesPerMsgCmd == Counted(old(mapRecvBytesPerMsgCmd), other, hdr) && other in mapRecvBytesPerMsgCmd
    {
      var key := if hdr.command in mapRecvBytesPerMsgCmd then hdr.command else other;
      mapRecvBytesPerMsgCmd := mapRecvBytesPerMsgCmd[key := mapRecvBytesPerMsgCmd[key] + hdr.size + HEADER_SIZE];
    }

    /** One round of the receive loop; `done` if it completed a message. */
    method Take(bytes: seq<Byte>) returns (handled: int, done: bool)
      requires Live() && bytes != []
      modifies this, Repr()
      ensures AllValid(vRecvMsg)
      ensures handled < 0 ==> View().(ok := false) == Feed(parse, other, old(View()), bytes) && !done
      ensures handled >= 0 ==> 1 <= handled <= |bytes| && Live() && View() == Feed(parse, other, old(View()), bytes[..handled])
      ensures Finished(Views(vRecvMsg)) == Finished(old(Views(vRecvMsg))) + if done then 1 else 0
      ensures fresh(Repr() - old(Repr()))
    {
      hide Feed, AllValid, Views, Opened, Finished, WithLast, NetMessage.View, NetMessage.Valid, NetMessage.IsComplete;
      ghost var before := View();
      Open();
      var last := vRecvMsg[|vRecvMsg| - 1];
      assert last in Repr();
      SameStart(parse, other, before, bytes);
      handled := Absorb(bytes);
      done := false;
      if handled >= 0 {
        SameStart(parse, other, before, bytes[..handled]);
        done := last.IsComplete();
      }
      FinishedStep(before.messages, last.View());
    }

    /** Takes a chunk of the stream; `complete` if it completed a message. */
    method ReceiveMsgBytes(chunk: seq<Byte>) returns (ok: bool, complete: bool)
      requires Live()
      modifies this, Repr()
      ensures AllValid(vRecvMsg) && View().(ok := ok) == Feed(parse, other, old(View()), chunk)
      ensures ok ==> Live()
      ensures complete <==> Finished(Views(vRecvMsg)) > Finished(old(Views(vRecvMsg)))
    {
      hide Feed, Opened, AllValid, Finished, Views, NetMessage.Valid, NetMessage.View, Complete;
      complete := false;
      ghost var start := View();
      var pos := 0;
      NothingFed(parse, other, start, chunk);
      while pos < |chunk|
        invariant 0 <= pos <= |chunk| && Live()
        invariant fresh(Repr() - old(Repr()))
        invariant View() == Feed(parse, other, start, chunk[..pos])
        invariant if complete then Finished(Views(vRecvMsg)) > Finished(start.messages)
                  else Finished(Views(vRecvMsg)) == Finished(start.messages)
      {
        var handled, done := Take(chunk[pos..]);
        FedSoFar(parse, other, start, chunk, pos, if handled < 0 then |chunk| else pos + handled);
        if handled < 0 {
          return false, complete;
        }
        pos := pos + handled;
        if done {
          complete := true;
        }
      }
      assert chunk[..pos] == chunk;
      ok := true;
    }
  }

  lemma FinishedStep(ms: seq<Message>, m: Message)
    ensures Finished(WithLast(Opened(ms), m)) == Finished(ms) + if Complete(m) then 1 else 0
  {
  }

  lemma NothingFed(p: Parser, other: nat, s: Stream, chunk: seq<Byte>)
    ensures Feed(p, other, s, chunk[..0]) == s
  {
  }

  lemma FedSoFar(p: Parser, other: nat, s: Stream, chunk: seq<Byte>, from: nat, to: nat)
    requires from <= to <= |chunk|
    ensures Feed(p, other, s, chunk[..to]) == Feed(p, other, Feed(p, other, s, chunk[..from]), chunk[from..][..to - from])
    ensures to == |chunk| ==> chunk[..to] == chunk && chunk[from..][..to - from] == chunk[from..]
  {
    assert chunk[..to] == chunk[..from] + chunk[from..][..to - from];
    FeedJoin(p, other, s, chunk[..from], chunk[from..][..to - from]);
  }

  lemma TakenStates(p: Parser, m: Message, bytes: seq<Byte>)
    requires Wants(m)
    ensures var t := Taken(p, m, bytes);
            && (t.handled >= 0 && t.m.Opening? ==> |t.m.header| < HEADER_SIZE)
            && (t.handled < 0 ==> t.m.Opening?)
  {
  }

  /** Only the last message changed. */
  lemma ViewsLast(before: seq<Message>, after: seq<Message>)
    requires |before| == |after| > 0 && forall i :: 0 <= i < |after| - 1 ==> after[i] == before[i]
    ensures after == WithLast(before, after[|after| - 1])
  {
  }
}
