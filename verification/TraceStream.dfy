/** The trace reader of azext_edge/edge/providers/stats.py: length-prefixed messages read from a
    socket that may split its bytes in any way. */
module TraceStream {
  import opened Json

  type Byte = b: int | 0 <= b < 256 witness 0

  type Bytes = seq<Byte>

  function Min(a: nat, b: nat): (m: nat)
    ensures m <= a && m <= b && m in {a, b}
  {
    if a < b then a else b
  }

  // ---------- reads ----------

  /** A connected socket: the bytes still to come, and how many each `recv` will hand out. */
  class Socket {
    var pending: Bytes
    var cuts: seq<nat>

    constructor (pending: Bytes, cuts: seq<nat>)
      ensures this.pending == pending && this.cuts == cuts
    {
      this.pending := pending;
      this.cuts := cuts;
    }

    /** `recv(size)`: some of the next bytes, none only at the end or when none were asked for. */
    method Recv(size: nat) returns (chunk: Bytes)
      modifies this
      ensures chunk + pending == old(pending) && |chunk| <= size
      ensures chunk == [] <==> size == 0 || old(pending) == []
    {
      var most := Min(size, |pending|);
      var take := if cuts != [] && 0 < cuts[0] < most then cuts[0] else most;
      if cuts != [] { cuts := cuts[1..]; }
      chunk := pending[..take];
      pending := pending[take..];
    }

    /** `_fetch_bytes`. */
    method FetchBytes(size: nat) returns (result: Bytes)
      modifies this
      ensures result == old(pending)[..Min(size, |old(pending)|)]
      ensures pending == old(pending)[Min(size, |old(pending)|)..]
    {
      result := Recv(size);
      if result == [] {
        return;
      }
      while |result| < size
        invariant result + pending == old(pending) && |result| <= size
        decreases size - |result|
      {
        var more := Recv(size - |result|);
        if more == [] {
          break;
        }
        result := result + more;
      }
      assert old(pending)[..|result|] == result;
    }

    /** A length header, then that many bytes. */
    method FetchMessage(wire: Wire) returns (body: Bytes)
      modifies this
      ensures (body, pending) == NextBody(old(pending), wire)
    {
      var header := FetchBytes(wire.width);
      body := FetchBytes(wire.len(header));
    }
  }

  // ---------- frames ----------

  /** `int.from_bytes(bs, byteorder="big")`. */
  function FromBytes(bs: Bytes): nat {
    FromFirst(bs, |bs|)
  }

  function FromFirst(bs: Bytes, k: nat): nat
    requires k <= |bs|
  {
    if k == 0 then 0 else FromFirst(bs, k - 1) * 256 + bs[k - 1]
  }

  function Power(width: nat): nat {
    if width == 0 then 1 else 256 * Power(width - 1)
  }

  /** `n.to_bytes(width, byteorder="big")`. */
  function ToBytes(n: nat, width: nat): (bs: Bytes)
    ensures |bs| == width
  {
    if width == 0 then [] else ToBytes(n / 256, width - 1) + [n % 256]
  }

  lemma {:induction false} HeaderRoundTrip(n: nat, width: nat)
    requires n < Power(width)
    ensures FromBytes(ToBytes(n, width)) == n
  {
    if width > 0 {
      HeaderRoundTrip(n / 256, width - 1);
      FromFirstPrefix(ToBytes(n / 256, width - 1), ToBytes(n, width), width - 1);
    }
  }

  lemma {:induction false} FromFirstPrefix(a: Bytes, b: Bytes, k: nat)
    requires k <= |a| && a <= b
    ensures FromFirst(a, k) == FromFirst(b, k)
  {
    if k > 0 { FromFirstPrefix(a, b, k - 1); }
  }

  /** Main theorem: the four header bytes are read with the first as the most significant one, and written
      the same way. */
  lemma {:induction false} FourBytes(a: Byte, b: Byte, c: Byte, d: Byte, n: nat)
    ensures FromBytes([a, b, c, d]) == a as int * 16_777_216 + b as int * 65_536 + c as int * 256 + d
    ensures n < 0x1_0000_0000 ==>
              ToBytes(n, 4) == [n / 16_777_216, n / 65_536 % 256, n / 256 % 256, n % 256]
  {
    FourRead([a, b, c, d]);
    if n < 0x1_0000_0000 { FourWritten(n); }
  }

  lemma FourRead(bs: Bytes)
    requires |bs| == 4
    ensures FromBytes(bs) == bs[0] as int * 16_777_216 + bs[1] as int * 65_536 + bs[2] as int * 256 + bs[3]
  {
    assert FromFirst(bs, 1) == bs[0];
    assert FromFirst(bs, 2) == FromFirst(bs, 1) * 256 + bs[1];
    assert FromFirst(bs, 3) == FromFirst(bs, 2) * 256 + bs[2];
  }

  lemma {:induction false} FourWritten(n: nat)
    requires n < 0x1_0000_0000
    ensures ToBytes(n, 4) == [n / 16_777_216, n / 65_536 % 256, n / 256 % 256, n % 256]
  {
    var a, b, c := n / 256, n / 256 / 256, n / 256 / 256 / 256;
    assert b == n / 65_536 && c == n / 16_777_216 && c / 256 == 0;
    assert ToBytes(c / 256, 0) == [];
    assert ToBytes(c, 1) == [c % 256];
    assert ToBytes(b, 2) == [c % 256, b % 256];
    assert ToBytes(a, 3) == [c % 256, b % 256, a % 256];
  }

  /** A cut header is read by the bytes that are there; one byte more counts as the least significant. */
  lemma ReadSnoc(bs: Bytes, last: Byte)
    ensures FromBytes([]) == 0 && FromBytes(bs + [last]) == FromBytes(bs) * 256 + last
  {
    FromFirstPrefix(bs, bs + [last], |bs|);
  }

  /** How messages travel: the header width, the length a (possibly cut) header reads as, the
      header written for a length, and the total a message announces, if it parses. */
  datatype Wire = Wire(width: nat, len: Bytes -> nat, header: nat -> Bytes, decode: Bytes -> Option<nat>)

  /** The source's wire: four bytes, big-endian. */
  function BigEndian(decode: Bytes -> Option<nat>): Wire {
    Wire(4, (bs: Bytes) => FromBytes(bs), (n: nat) => ToBytes(n, 4), decode)
  }

  /** The header of this message reads back as its length. */
  predicate Framed(m: Bytes, wire: Wire) {
    var h := wire.header(|m|);
    m != [] && |h| == wire.width && wire.len(h) == |m|
  }

  /** Messages that frames can carry and that parse. */
  predicate Sendable(ms: seq<Bytes>, wire: Wire) {
    ms == [] || (Framed(ms[0], wire) && wire.decode(ms[0]).Some? && Sendable(ms[1..], wire))
  }

  function Frames(ms: seq<Bytes>, wire: Wire): Bytes {
    if ms == [] then [] else wire.header(|ms[0]|) + ms[0] + Frames(ms[1..], wire)
  }

  /** Four big-endian bytes carry every non-empty message shorter than 2^32. */
  lemma BigEndianFrames(m: Bytes, decode: Bytes -> Option<nat>)
    requires 0 < |m| < 0x1_0000_0000
    ensures Framed(m, BigEndian(decode))
  {
    assert Power(4) == 0x1_0000_0000;
    HeaderRoundTrip(|m|, 4);
  }

  // ---------- the read loop ----------

  datatype Ending = Complete | NoTraces | Aborted | Undecodable

  /** Messages taken off the stream, why the loop stopped, and the bytes left unread. */
  datatype Reading = Reading(messages: seq<Bytes>, ending: Ending, rest: Bytes)

  /** One length-prefixed read: the body obtained and the bytes after it. */
  function NextBody(stream: Bytes, wire: Wire): (r: (Bytes, Bytes))
    ensures |r.0| + |r.1| <= |stream|
  {
    var h := Min(wire.width, |stream|);
    var after := stream[h..];
    var b := Min(wire.len(stream[..h]), |after|);
    (after[..b], after[b..])
  }

  /** The loop from a state with `current` messages counted out of `total`. */
  function Drain(stream: Bytes, current: nat, total: nat, wire: Wire): Reading
    decreases |stream|
  {
    if current > 0 && current >= total then Reading([], Complete, stream)
    else
      var (body, rest) := NextBody(stream, wire);
      if body == [] then Reading([], Aborted, rest)
      else
        match wire.decode(body)
        case None => Reading([], Undecodable, rest)
        case Some(announced) =>
          var newTotal := if total == 0 then announced else total;
          if newTotal == 0 then Reading([body], NoTraces, rest)
          else
            var r := Drain(rest, current + 1, newTotal, wire);
            Reading([body] + r.messages, r.ending, r.rest)
  }

  /** A reading after some messages already taken. */
  function Prepend(ms: seq<Bytes>, r: Reading): Reading {
    Reading(ms + r.messages, r.ending, r.rest)
  }

  lemma {:induction false} DrainAborts(ms: seq<Bytes>, stream: Bytes, current: nat, total: nat, wire: Wire)
    requires (current == 0 || current < total) && NextBody(stream, wire).0 == []
    ensures Prepend(ms, Drain(stream, current, total, wire)) == Reading(ms, Aborted, NextBody(stream, wire).1)
  {
    assert ms + [] == ms;
  }

  lemma {:induction false} DrainFails(ms: seq<Bytes>, stream: Bytes, current: nat, total: nat, wire: Wire)
    requires (current == 0 || current < total) && NextBody(stream, wire).0 != []
    requires wire.decode(NextBody(stream, wire).0) == None
    ensures Prepend(ms, Drain(stream, current, total, wire)) == Reading(ms, Undecodable, NextBody(stream, wire).1)
  {
    assert ms + [] == ms;
  }

  lemma DrainGoesOn(ms: seq<Bytes>, stream: Bytes, current: nat, total: nat, newTotal: nat, wire: Wire)
    requires (current == 0 || current < total) && NextBody(stream, wire).0 != []
    requires wire.decode(NextBody(stream, wire).0).Some?
    requires newTotal == if total == 0 then wire.decode(NextBody(stream, wire).0).value else total
    ensures var (body, rest) := NextBody(stream, wire);
            && (newTotal == 0 ==>
                  Prepend(ms, Drain(stream, current, total, wire)) == Reading(ms + [body], NoTraces, rest))
            && (newTotal > 0 ==>
                  Prepend(ms, Drain(stream, current, total, wire))
                  == Prepend(ms + [body], Drain(rest, current + 1, newTotal, wire)))
  {
    if newTotal != 0 {
      var (body, rest) := NextBody(stream, wire);
      PrependConcat(ms, [body], Drain(rest, current + 1, newTotal, wire));
    }
  }

  lemma {:induction false} DrainDone(ms: seq<Bytes>, stream: Bytes, current: nat, total: nat, wire: Wire)
    requires current > 0 && current >= total
    ensures Prepend(ms, Drain(stream, current, total, wire)) == Reading(ms, Complete, stream)
  {
    assert ms + [] == ms;
  }

  function Kept(ms: seq<Bytes>, usable: Bytes -> bool): seq<Bytes> {
    if ms == [] then []
    else
      var n := |ms| - 1;
      Kept(ms[..n], usable) + if usable(ms[n]) then [ms[n]] else []
  }

  lemma {:induction false} KeptSnoc(ms: seq<Bytes>, m: Bytes, usable: Bytes -> bool)
    ensures Kept(ms + [m], usable) == Kept(ms, usable) + if usable(m) then [m] else []
  {
    assert (ms + [m])[..|ms|] == ms;
  }

  /** The usable messages, each where it stood among them. */
  lemma {:induction false} KeptIs(a: seq<Bytes>, b: seq<Bytes>, m: Bytes, usable: Bytes -> bool)
    ensures Kept([], usable) == [] && Kept([m], usable) == if usable(m) then [m] else []
    ensures Kept(a + b, usable) == Kept(a, usable) + Kept(b, usable)
  {
    assert [m][..0] == [];
    if b == [] {
      assert a + b == a;
    } else {
      var n := |b| - 1;
      assert (a + b)[..|a + b| - 1] == a + b[..n];
      KeptIs(a, b[..n], m, usable);
    }
  }

  /** The loop with what has been read so far in hand. */
  ghost function DrainAfter(taken: seq<Bytes>, stream: Bytes, current: nat, total: nat, wire: Wire): Reading
    decreases |stream|
  {
    if current > 0 && current >= total then Reading(taken, Complete, stream)
    else
      var (body, rest) := NextBody(stream, wire);
      if body == [] then Reading(taken, Aborted, rest)
      else
        match wire.decode(body)
        case None => Reading(taken, Undecodable, rest)
        case Some(announced) =>
          var newTotal := if total == 0 then announced else total;
          if newTotal == 0 then Reading(taken + [body], NoTraces, rest)
          else DrainAfter(taken + [body], rest, current + 1, newTotal, wire)
  }

  lemma {:induction false} DrainAfterIs(taken: seq<Bytes>, stream: Bytes, current: nat, total: nat, wire: Wire)
    ensures DrainAfter(taken, stream, current, total, wire) == Prepend(taken, Drain(stream, current, total, wire))
    decreases |stream|
  {
    if current > 0 && current >= total {
      DrainDone(taken, stream, current, total, wire);
    } else {
      var (body, rest) := NextBody(stream, wire);
      if body == [] {
        DrainAborts(taken, stream, current, total, wire);
      } else if wire.decode(body).None? {
        DrainFails(taken, stream, current, total, wire);
      } else {
        var newTotal := if total == 0 then wire.decode(body).value else total;
        DrainGoesOn(taken, stream, current, total, newTotal, wire);
        if newTotal > 0 { DrainAfterIs(taken + [body], rest, current + 1, newTotal, wire); }
      }
    }
  }

  /** `get_traces` after the request is sent: every fragmentation of the same bytes gives the same
      messages. `usable` says whether a message's root span can be determined. */
  method ReadTraces(socket: Socket, wire: Wire, usable: Bytes -> bool)
    returns (messages: seq<Bytes>, traces: seq<Bytes>, ending: Ending)
    modifies socket
    ensures Drain(old(socket.pending), 0, 0, wire) == Reading(messages, ending, socket.pending)
    ensures traces == if ending == Complete then Kept(messages, usable) else []
  {
    messages, traces := [], [];
    var total, current: nat := 0, 0;
    ghost var whole := DrainAfter([], socket.pending, 0, 0, wire);
    DrainAfterIs([], socket.pending, 0, 0, wire);
    PrependConcat([], [], Drain(socket.pending, 0, 0, wire));
    while true
      invariant whole == DrainAfter(messages, socket.pending, current, total, wire)
      invariant traces == Kept(messages, usable)
      decreases |socket.pending|
    {
      if current > 0 && current >= total {
        ending := Complete;
        return;
      }
      var body := socket.FetchMessage(wire);
      if body == [] {
        traces, ending := [], Aborted;
        return;
      }
      var announced := wire.decode(body);
      if announced.None? {
        traces, ending := [], Undecodable;
        return;
      }
      KeptSnoc(messages, body, usable);
      messages, current := messages + [body], current + 1;
      if total == 0 {
        total := announced.value;
        if total == 0 {
          traces, ending := [], NoTraces;
          return;
        }
      }
      if usable(body) {
        traces := traces + [body];
      }
    }
  }

  method GetTraces(socket: Socket, decode: Bytes -> Option<nat>, usable: Bytes -> bool)
    returns (messages: seq<Bytes>, traces: seq<Bytes>, ending: Ending)
    modifies socket
    ensures Drain(old(socket.pending), 0, 0, BigEndian(decode)) == Reading(messages, ending, socket.pending)
    ensures traces == if ending == Complete then Kept(messages, usable) else []
  {
    messages, traces, ending := ReadTraces(socket, BigEndian(decode), usable);
  }

  // ---------- what the loop recovers ----------

  lemma {:induction false} NextFrame(ms: seq<Bytes>, rest: Bytes, wire: Wire)
    requires ms != [] && Framed(ms[0], wire)
    ensures NextBody(Frames(ms, wire) + rest, wire) == (ms[0], Frames(ms[1..], wire) + rest)
  {
    var m, h := ms[0], wire.header(|ms[0]|);
    var tail: Bytes := Frames(ms[1..], wire) + rest;
    var stream := Frames(ms, wire) + rest;
    assert stream == h + (m + tail);
    assert stream[..wire.width] == h && stream[wire.width..] == m + tail;
    assert (m + tail)[..|m|] == m && (m + tail)[|m|..] == tail;
  }

  lemma PrependConcat(a: seq<Bytes>, b: seq<Bytes>, r: Reading)
    ensures Prepend([], r) == r && Prepend(a, Prepend(b, r)) == Prepend(a + b, r)
  {
    assert [] + r.messages == r.messages;
    assert a + (b + r.messages) == (a + b) + r.messages;
  }

  lemma DrainFrame(ms: seq<Bytes>, rest: Bytes, current: nat, total: nat, newTotal: nat, wire: Wire)
    requires ms != [] && Framed(ms[0], wire) && wire.decode(ms[0]).Some?
    requires current == 0 || current < total
    requires newTotal == (if total == 0 then wire.decode(ms[0]).value else total) && newTotal > 0
    ensures Drain(Frames(ms, wire) + rest, current, total, wire)
            == Prepend([ms[0]], Drain(Frames(ms[1..], wire) + rest, current + 1, newTotal, wire))
  {
    NextFrame(ms, rest, wire);
  }

  lemma DrainCons(
    ms: seq<Bytes>, rest: Bytes, current: nat, total: nat, newTotal: nat, end: Reading, wire: Wire)
    requires ms != [] && Framed(ms[0], wire) && wire.decode(ms[0]).Some?
    requires current == 0 || current < total
    requires newTotal == (if total == 0 then wire.decode(ms[0]).value else total) && newTotal > 0
    requires Drain(Frames(ms[1..], wire) + rest, current + 1, newTotal, wire) == Prepend(ms[1..], end)
    ensures Drain(Frames(ms, wire) + rest, current, total, wire) == Prepend(ms, end)
  {
    DrainFrame(ms, rest, current, total, newTotal, wire);
    PrependConcat([ms[0]], ms[1..], end);
    assert [ms[0]] + ms[1..] == ms;
  }

  lemma {:induction false} DrainFrames(ms: seq<Bytes>, rest: Bytes, current: nat, total: nat, wire: Wire)
    requires Sendable(ms, wire) && current + |ms| <= total && total > 0
    ensures Drain(Frames(ms, wire) + rest, current, total, wire)
            == Prepend(ms, Drain(rest, current + |ms|, total, wire))
    decreases |ms|
  {
    var end := Drain(rest, current + |ms|, total, wire);
    if ms == [] {
      assert Frames(ms, wire) + rest == rest;
      PrependConcat([], [], end);
    } else {
      DrainFrames(ms[1..], rest, current + 1, total, wire);
      DrainCons(ms, rest, current, total, total, end, wire);
    }
  }

  /** The first message fixes the total; the rest are then read against it. */
  lemma {:induction false} DrainFirst(ms: seq<Bytes>, rest: Bytes, total: nat, wire: Wire)
    requires Sendable(ms, wire) && ms != [] && wire.decode(ms[0]) == Some(total) && |ms| <= total
    ensures Drain(Frames(ms, wire) + rest, 0, 0, wire) == Prepend(ms, Drain(rest, |ms|, total, wire))
  {
    DrainFrames(ms[1..], rest, 1, total, wire);
    DrainCons(ms, rest, 0, 0, total, Drain(rest, |ms|, total, wire), wire);
  }

  lemma {:induction false} FramesConcat(a: seq<Bytes>, b: seq<Bytes>, wire: Wire)
    ensures Frames(a + b, wire) == Frames(a, wire) + Frames(b, wire)
  {
    if a == [] {
      assert a + b == b;
    } else {
      assert (a + b)[1..] == a[1..] + b;
      FramesConcat(a[1..], b, wire);
    }
  }

  /** Main theorem: when the first message announces N > 0 and the stream holds N messages, exactly
      those are read, whole and in order, and nothing after them is consumed. */
  lemma {:induction false} ReadsAnnounced(ms: seq<Bytes>, tail: Bytes, total: nat, wire: Wire)
    requires 0 < total <= |ms| && wire.decode(ms[0]) == Some(total)
    requires Sendable(ms[..total], wire)
    ensures Drain(Frames(ms, wire) + tail, 0, 0, wire)
            == Reading(ms[..total], Complete, Frames(ms[total..], wire) + tail)
  {
    assert ms == ms[..total] + ms[total..];
    FramesConcat(ms[..total], ms[total..], wire);
    var rest: Bytes := Frames(ms[total..], wire) + tail;
    assert Frames(ms, wire) + tail == Frames(ms[..total], wire) + rest;
    DrainFirst(ms[..total], rest, total, wire);
    assert ms[..total] + [] == ms[..total];
  }

  /** A stream that ends at or inside a header before the announced number of messages aborts,
      having read every whole message. */
  lemma {:induction false} AbortsAtHeader(ms: seq<Bytes>, partial: Bytes, wire: Wire)
    requires |partial| <= wire.width && Sendable(ms, wire)
    requires ms != [] ==> wire.decode(ms[0]).value > |ms|
    ensures Drain(Frames(ms, wire) + partial, 0, 0, wire) == Reading(ms, Aborted, [])
  {
    if ms == [] {
      assert Frames(ms, wire) + partial == partial;
    } else {
      DrainFirst(ms, partial, wire.decode(ms[0]).value, wire);
      assert ms + [] == ms;
    }
  }

  /** A first message announcing no traces ends the loop after it. */
  lemma {:induction false} StopsOnZero(m: Bytes, rest: Bytes, wire: Wire)
    requires Framed(m, wire) && wire.decode(m) == Some(0)
    ensures Drain(Frames([m], wire) + rest, 0, 0, wire) == Reading([m], NoTraces, rest)
  {
    NextFrame([m], rest, wire);
    assert Frames([], wire) + rest == rest;
  }

  /** A whole message that does not parse ends the loop, with everything before it read and everything
      behind it left. */
  lemma {:induction false} UndecodableStops(ms: seq<Bytes>, m: Bytes, rest: Bytes, wire: Wire)
    requires Sendable(ms, wire) && Framed(m, wire) && wire.decode(m) == None
    requires ms != [] ==> |ms| < wire.decode(ms[0]).value
    ensures Drain(Frames(ms, wire) + (Frames([m], wire) + rest), 0, 0, wire) == Reading(ms, Undecodable, rest)
  {
    var bad: Bytes := Frames([m], wire) + rest;
    NextFrame([m], rest, wire);
    assert Frames([], wire) + rest == rest;
    if ms == [] {
      assert Frames(ms, wire) + bad == bad;
    } else {
      DrainFirst(ms, bad, wire.decode(ms[0]).value, wire);
      assert ms + [] == ms;
    }
  }

  lemma CutFrame(m: Bytes, cut: nat, wire: Wire)
    requires Framed(m, wire) && cut < |m|
    ensures NextBody(wire.header(|m|) + m[..cut], wire) == (m[..cut], [])
  {
    var h, part := wire.header(|m|), m[..cut];
    HeaderSplits(h, part);
    assert part[..cut] == part && part[cut..] == [];
  }

  lemma HeaderSplits(h: Bytes, body: Bytes)
    ensures (h + body)[..|h|] == h && (h + body)[|h|..] == body
  {
  }

  /** Nothing is left to read. */
  lemma {:induction false} DrainNothing(current: nat, total: nat, wire: Wire)
    ensures Drain([], current, total, wire)
            == Reading([], if current > 0 && current >= total then Complete else Aborted, [])
  {
  }

  /** What is read from a cut body, with `current` messages counted out of `total`. */
  lemma {:induction false} CutBody(m: Bytes, cut: nat, current: nat, total: nat, wire: Wire)
    requires Framed(m, wire) && 0 < cut < |m| && (if total == 0 then current == 0 else current < total)
    ensures Drain(wire.header(|m|) + m[..cut], current, total, wire)
            == match wire.decode(m[..cut])
               case None => Reading([], Undecodable, [])
               case Some(n) => Reading([m[..cut]], CutEnding(current, if total == 0 then n else total), [])
  {
    CutFrame(m, cut, wire);
    CutRead(wire.header(|m|) + m[..cut], m[..cut], current, total, wire);
  }

  lemma {:induction false} CutRead(stream: Bytes, part: Bytes, current: nat, total: nat, wire: Wire)
    requires NextBody(stream, wire) == (part, []) && part != []
    requires if total == 0 then current == 0 else current < total
    ensures Drain(stream, current, total, wire)
            == match wire.decode(part)
               case None => Reading([], Undecodable, [])
               case Some(n) => Reading([part], CutEnding(current, if total == 0 then n else total), [])
  {
    match wire.decode(part)
    case None =>
    case Some(n) =>
      var all := if total == 0 then n else total;
      DrainNothing(current + 1, all, wire);
      assert [part] + [] == [part];
  }

  /** How the loop ends after one more message and nothing behind it. */
  function CutEnding(current: nat, total: nat): Ending {
    if total == 0 then NoTraces else if current + 1 >= total then Complete else Aborted
  }

  /** A stream cut inside a body, after any whole messages, does not abort there: the part received is
      decoded and counted as if it were whole. */
  lemma {:induction false} TruncatedBodyIsDecoded(ms: seq<Bytes>, m: Bytes, cut: nat, wire: Wire)
    requires Sendable(ms, wire) && Framed(m, wire) && 0 < cut < |m|
    requires ms != [] ==> |ms| < wire.decode(ms[0]).value
    ensures Drain(Frames(ms, wire) + (wire.header(|m|) + m[..cut]), 0, 0, wire)
            == match wire.decode(m[..cut])
               case None => Reading(ms, Undecodable, [])
               case Some(n) =>
                 Reading(ms + [m[..cut]], CutEnding(|ms|, if ms == [] then n else wire.decode(ms[0]).value), [])
  {
    var rest := wire.header(|m|) + m[..cut];
    if ms == [] {
      CutBody(m, cut, 0, 0, wire);
      assert Frames(ms, wire) + rest == rest && ms + [m[..cut]] == [m[..cut]];
    } else {
      var total := wire.decode(ms[0]).value;
      DrainFirst(ms, rest, total, wire);
      CutBody(m, cut, |ms|, total, wire);
      assert ms + [] == ms;
    }
  }

  /** The guarantees hold on the source's own wire. */
  lemma {:induction false} BigEndianSendable(ms: seq<Bytes>, decode: Bytes -> Option<nat>)
    requires forall m | m in ms :: 0 < |m| < 0x1_0000_0000 && decode(m).Some?
    ensures Sendable(ms, BigEndian(decode))
  {
    if ms != [] {
      assert ms[0] in ms && forall m | m in ms[1..] :: m in ms;
      BigEndianFrames(ms[0], decode);
      BigEndianSendable(ms[1..], decode);
    }
  }
}
