/**
 What a whole byte stream comes to: how it is cut into messages, when it is
 refused, and where its bytes are counted.
 */
module MessageStreams {
  import opened MessageFraming

  // ----- The sum of the totals

  ghost function Sum(m: map<nat, nat>): nat
    decreases |m|
  {
    if m == map[] then 0
    else
      var k :| k in m;
      m[k] + Sum(m - {k})
  }

  /** The sum does not depend on the order of the entries. */
  lemma {:induction false} SumAny(m: map<nat, nat>, k: nat)
    requires k in m
    ensures Sum(m) == m[k] + Sum(m - {k})
    decreases |m|
  {
    var j :| j in m && Sum(m) == m[j] + Sum(m - {j});
    if j != k {
      SumAny(m - {j}, k);
      SumAny(m - {k}, j);
      assert m - {j} - {k} == m - {k} - {j};
    }
  }

  lemma SumUpdate(m: map<nat, nat>, k: nat, v: nat)
    requires k in m
    ensures Sum(m[k := v]) + m[k] == Sum(m) + v
  {
    SumAny(m, k);
    SumAny(m[k := v], k);
    assert m[k := v] - {k} == m - {k};
  }

  // ----- Where bytes are counted

  function Length(f: Frame): nat { |f.header| + |f.payload| }

  /** The length on the wire of the frames of one command. */
  function OwnLength(p: Parser, frames: seq<Frame>, command: nat): nat
    requires forall i :: 0 <= i < |frames| ==> FrameOk(p, frames[i])
  {
    if frames == [] then 0
    else
      assert FrameOk(p, frames[0]);
      (if p(frames[0].header).value.command == command then Length(frames[0]) else 0) + OwnLength(p, frames[1..], command)
  }

  /** The length on the wire of the frames whose command is not among those listed. */
  function StrayLength(p: Parser, frames: seq<Frame>, listed: set<nat>): nat
    requires forall i :: 0 <= i < |frames| ==> FrameOk(p, frames[i])
  {
    if frames == [] then 0
    else
      assert FrameOk(p, frames[0]);
      (if p(frames[0].header).value.command in listed then 0 else Length(frames[0])) + StrayLength(p, frames[1..], listed)
  }

  /** Every byte of whole messages is counted once, headers included: under its own command if that is listed, else under `other`. */
  predicate CountedOn(p: Parser, other: nat, before: map<nat, nat>, after: map<nat, nat>, frames: seq<Frame>)
    requires forall i :: 0 <= i < |frames| ==> FrameOk(p, frames[i])
  {
    && after.Keys == before.Keys
    && (forall c :: c in before ==>
          after[c] == before[c] + OwnLength(p, frames, c) + (if c == other then StrayLength(p, frames, before.Keys) else 0))
  }

  lemma TotalsGrow(p: Parser, other: nat, s: Stream, frames: seq<Frame>)
    requires s.ok && (s.messages == [] || Complete(s.messages[|s.messages| - 1])) && other in s.totals
    requires forall i :: 0 <= i < |frames| ==> FrameOk(p, frames[i])
    ensures var t := Feed(p, other, s, Wire(frames)).totals;
            CountedOn(p, other, s.totals, t, frames) && Sum(t) == Sum(s.totals) + |Wire(frames)|
  {
    hide Feed, Wire, CountedOn, Sum;
    FramesArrive(p, other, s, frames);
    DeliveredCounted(p, other, s, frames);
  }

  lemma {:induction false} DeliveredCounted(p: Parser, other: nat, s: Stream, frames: seq<Frame>)
    requires other in s.totals
    requires forall i :: 0 <= i < |frames| ==> FrameOk(p, frames[i])
    ensures var t := Delivered(p, other, s, frames).totals;
            CountedOn(p, other, s.totals, t, frames) && Sum(t) == Sum(s.totals) + |Wire(frames)|
    decreases |frames|
  {
    if frames != [] {
      hide Sum, Counted, CountedOn;
      assert FrameOk(p, frames[0]);
      var h := p(frames[0].header).value;
      var u := s.(messages := s.messages + [Body(h, frames[0].payload)], totals := Counted(s.totals, other, h));
      FrameCounted(p, other, s.totals, frames[0]);
      DeliveredCounted(p, other, u, frames[1..]);
      CountedMore(p, other, s.totals, u.totals, Delivered(p, other, s, frames).totals, frames);
    }
  }

  lemma CountedMore(p: Parser, other: nat, before: map<nat, nat>, next: map<nat, nat>, after: map<nat, nat>, frames: seq<Frame>)
    requires frames != [] && forall i :: 0 <= i < |frames| ==> FrameOk(p, frames[i])
    requires other in before && CountedOn(p, other, next, after, frames[1..])
    requires FrameOk(p, frames[0]) && next == Moved(before, other, p(frames[0].header).value.command, Length(frames[0]))
    ensures CountedOn(p, other, before, after, frames)
  {
    hide Length;
    assert next.Keys == before.Keys;
  }

  /** The totals with a length added under its own command if that is listed, else under `other`. */
  function Moved(totals: map<nat, nat>, other: nat, command: nat, length: nat): map<nat, nat>
    requires other in totals
  {
    if command in totals then totals[command := totals[command] + length] else totals[other := totals[other] + length]
  }

  lemma FrameCounted(p: Parser, other: nat, totals: map<nat, nat>, f: Frame)
    requires FrameOk(p, f) && other in totals
    ensures var c := p(f.header).value.command;
            var t := Counted(totals, other, p(f.header).value);
            && t == Moved(totals, other, c, Length(f)) && other in t
            && Sum(t) == Sum(totals) + Length(f)
  {
    hide Sum;
    var c := p(f.header).value.command;
    var k := if c in totals then c else other;
    SumUpdate(totals, k, totals[k] + Length(f));
  }

  // ----- Any stream of bytes

  /** A complete header that cannot be read, or that announces more than 32 MiB. */
  predicate BadHeader(p: Parser, rest: seq<Byte>)
  {
    |rest| >= 24 && (p(rest[..24]).None? || p(rest[..24]).value.size > 32 * 1024 * 1024)
  }

  /** The beginning of a frame, but not the whole of it. */
  predicate Unfinished(p: Parser, rest: seq<Byte>)
  {
    || |rest| < 24
    || (p(rest[..24]).Some? && p(rest[..24]).value.size <= 32 * 1024 * 1024 && |rest| < 24 + p(rest[..24]).value.size)
  }

  /** The messages that whole frames are. */
  function Bodies(p: Parser, frames: seq<Frame>): seq<Message>
    requires forall i :: 0 <= i < |frames| ==> FrameOk(p, frames[i])
  {
    seq(|frames|, i requires 0 <= i < |frames| => assert FrameOk(p, frames[i]); Body(p(frames[i].header).value, frames[i].payload))
  }

  /** The message that is being received at the end of a stream, if any. */
  function Rest(p: Parser, rest: seq<Byte>): seq<Message>
    requires BadHeader(p, rest) || Unfinished(p, rest)
  {
    if rest == [] then []
    else if |rest| < 24 then [Opening(rest)]
    else if BadHeader(p, rest) then [Opening(rest[..24])]
    else [Body(p(rest[..24]).value, rest[24..])]
  }

  /** Less than a header. */
  lemma PartialHeader(p: Parser, other: nat, s: Stream, bytes: seq<Byte>)
    requires s.ok && (s.messages == [] || Complete(s.messages[|s.messages| - 1])) && |bytes| < 24
    ensures Feed(p, other, s, bytes) == s.(messages := s.messages + Rest(p, bytes))
  {
    hide Feed;
    if bytes == [] {
      NothingFed(p, other, s, bytes);
      assert bytes[..0] == [] && s.messages + [] == s.messages;
    } else {
      SameStart(p, other, s, bytes);
      var open := s.(messages := s.messages + [Opening([])]);
      FeedHeader(p, other, open, [], bytes);
      assert [] + bytes == bytes;
      assert WithLast(open.messages, Opening(bytes)) == s.messages + [Opening(bytes)];
    }
  }

  /** A whole header and something after it. */
  lemma AfterHeader(p: Parser, other: nat, s: Stream, bytes: seq<Byte>)
    requires s.ok && (s.messages == [] || Complete(s.messages[|s.messages| - 1])) && |bytes| >= 24
    ensures var open := s.(messages := s.messages + [Opening([])]);
            Feed(p, other, s, bytes) == Feed(p, other, HeaderRead(p, other, open, bytes[..24]), bytes[24..])
  {
    hide Feed;
    var header := bytes[..24];
    var open := s.(messages := s.messages + [Opening([])]);
    assert bytes == header + bytes[24..];
    FeedJoin(p, other, s, header, bytes[24..]);
    SameStart(p, other, s, header);
    FeedHeader(p, other, open, [], header);
    assert [] + header == header;
  }

  /** A header that is refused ends the stream. */
  lemma RefusedHeader(p: Parser, other: nat, s: Stream, bytes: seq<Byte>)
    requires s.ok && (s.messages == [] || Complete(s.messages[|s.messages| - 1])) && BadHeader(p, bytes)
    ensures Feed(p, other, s, bytes) == s.(messages := s.messages + Rest(p, bytes), ok := false)
  {
    hide Feed;
    var open := s.(messages := s.messages + [Opening([])]);
    AfterHeader(p, other, s, bytes);
    FeedRejected(p, other, HeaderRead(p, other, open, bytes[..24]), bytes[24..]);
    assert WithLast(open.messages, Opening(bytes[..24])) == s.messages + [Opening(bytes[..24])];
  }

  lemma PartialBody(p: Parser, other: nat, s: Stream, bytes: seq<Byte>)
    requires s.ok && (s.messages == [] || Complete(s.messages[|s.messages| - 1])) && |bytes| >= 24 && Unfinished(p, bytes)
    ensures Feed(p, other, s, bytes) == s.(messages := s.messages + Rest(p, bytes))
  {
    hide Feed;
    var h := p(bytes[..24]).value;
    var open := s.(messages := s.messages + [Opening([])]);
    AfterHeader(p, other, s, bytes);
    assert WithLast(open.messages, Body(h, [])) == s.messages + [Body(h, [])];
    var body := s.(messages := s.messages + [Body(h, [])]);
    FeedData(p, other, body, h, [], bytes[24..]);
    assert [] + bytes[24..] == bytes[24..];
    assert WithLast(body.messages, Body(h, bytes[24..])) == s.messages + [Body(h, bytes[24..])];
  }

  /** The end of a stream, after its whole frames. */
  lemma RestArrives(p: Parser, other: nat, s: Stream, rest: seq<Byte>)
    requires s.ok && (s.messages == [] || Complete(s.messages[|s.messages| - 1])) && (BadHeader(p, rest) || Unfinished(p, rest))
    ensures Feed(p, other, s, rest) == s.(messages := s.messages + Rest(p, rest), ok := !BadHeader(p, rest))
  {
    hide Feed;
    if |rest| < 24 {
      PartialHeader(p, other, s, rest);
    } else if BadHeader(p, rest) {
      RefusedHeader(p, other, s, rest);
    } else {
      PartialBody(p, other, s, rest);
    }
  }

  /** Every stream of bytes is whole frames, and then a header that is refused or a frame that is not finished. */
  lemma {:induction false} Cut(p: Parser, bytes: seq<Byte>) returns (frames: seq<Frame>, rest: seq<Byte>)
    ensures forall i :: 0 <= i < |frames| ==> FrameOk(p, frames[i])
    ensures bytes == Wire(frames) + rest && (BadHeader(p, rest) || Unfinished(p, rest))
    decreases |bytes|
  {
    if BadHeader(p, bytes) || Unfinished(p, bytes) {
      frames, rest := [], bytes;
      assert Wire(frames) + rest == bytes;
    } else {
      var n := p(bytes[..24]).value.size;
      var f := Frame(bytes[..24], bytes[24..24 + n]);
      var more;
      more, rest := Cut(p, bytes[24 + n..]);
      frames := [f] + more;
      assert frames[1..] == more;
      assert bytes == f.header + f.payload + bytes[24 + n..];
    }
  }

  lemma {:induction false} DeliveredBodies(p: Parser, other: nat, s: Stream, frames: seq<Frame>)
    requires s.ok && (s.messages == [] || Complete(s.messages[|s.messages| - 1]))
    requires forall i :: 0 <= i < |frames| ==> FrameOk(p, frames[i])
    ensures var t := Delivered(p, other, s, frames);
            && t.ok && t.messages == s.messages + Bodies(p, frames)
            && (t.messages == [] || Complete(t.messages[|t.messages| - 1]))
    decreases |frames|
  {
    if frames == [] {
      assert s.messages + Bodies(p, frames) == s.messages;
    } else {
      assert FrameOk(p, frames[0]);
      var h := p(frames[0].header).value;
      var u := s.(messages := s.messages + [Body(h, frames[0].payload)], totals := Counted(s.totals, other, h));
      DeliveredBodies(p, other, u, frames[1..]);
      assert Bodies(p, frames) == [Body(h, frames[0].payload)] + Bodies(p, frames[1..]);
      assert u.messages + Bodies(p, frames[1..]) == s.messages + Bodies(p, frames);
    }
  }

  /**
   What any stream of bytes comes to: its whole frames arrive as messages with
   exactly their payloads and are counted byte for byte, what is left is the
   message being received, and the stream is refused exactly when that begins
   with a header that cannot be read or announces too much.
   */
  lemma StreamArrives(p: Parser, other: nat, s: Stream, bytes: seq<Byte>) returns (frames: seq<Frame>, rest: seq<Byte>)
    requires s.ok && (s.messages == [] || Complete(s.messages[|s.messages| - 1])) && other in s.totals
    ensures forall i :: 0 <= i < |frames| ==> FrameOk(p, frames[i])
    ensures bytes == Wire(frames) + rest && (BadHeader(p, rest) || Unfinished(p, rest))
    ensures var t := Feed(p, other, s, bytes);
            && t.messages == s.messages + Bodies(p, frames) + Rest(p, rest)
            && t.ok == !BadHeader(p, rest)
            && CountedOn(p, other, s.totals, t.totals, frames)
            && Sum(t.totals) == Sum(s.totals) + |bytes| - |rest|
  {
    hide Feed, Bodies, Rest, Sum, CountedOn, BadHeader, Unfinished, Wire, Delivered;
    frames, rest := Cut(p, bytes);
    FeedJoin(p, other, s, Wire(frames), rest);
    FramesArrive(p, other, s, frames);
    DeliveredBodies(p, other, s, frames);
    TotalsGrow(p, other, s, frames);
    RestArrives(p, other, Delivered(p, other, s, frames), rest);
  }
}
