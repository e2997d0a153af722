/** Incremental framing of the client byte stream: length-prefixed frames mixed with
    plain-text pings, and resynchronisation one byte at a time. */
module StreamFramer {

  import opened Bytes

  const MAX_MESSAGE_SIZE: nat := 262144
  const MAX_CONSECUTIVE_ERRORS: nat := 3

  datatype Event = Pong | Payload(bytes: seq<byte>)

  /** What one pass over the buffer does: the events in order, the bytes it leaves, the
      running error count, and false when it gives up on the connection. */
  datatype Pass = Pass(events: seq<Event>, rest: seq<byte>, errors: nat, ok: bool)

  predicate IsPlainPing(buf: seq<byte>) {
    4 <= |buf|
    && (buf[0] == 0x70 || buf[0] == 0x50)
    && (buf[1] == 0x69 || buf[1] == 0x49)
    && (buf[2] == 0x6E || buf[2] == 0x4E)
    && (buf[3] == 0x67 || buf[3] == 0x47)
  }

  function Le32(buf: seq<byte>): nat
    requires 4 <= |buf|
  {
    buf[0] as int + 256 * (buf[1] as int) + 65536 * (buf[2] as int) + 16777216 * (buf[3] as int)
  }

  function ToLe32(n: nat): (h: seq<byte>)
    requires n < 0x1_0000_0000
    ensures |h| == 4 && Le32(h) == n
    ensures h[0] as int == n % 256 && h[1] as int == n / 256 % 256
    ensures h[2] as int == n / 65536 % 256 && h[3] as int == n / 16777216 % 256
  {
    var n1 := n / 256;
    var n2 := n1 / 256;
    var n3 := n2 / 256;
    [(n % 256) as byte, (n1 % 256) as byte, (n2 % 256) as byte, n3 as byte]
  }

  predicate InRange(n: nat) {
    4 <= n <= MAX_MESSAGE_SIZE
  }

  /** The reference parser: what `process_message_buffer` does to `buf`. */
  function Drain(buf: seq<byte>, errors: nat): (p: Pass)
    decreases |buf|
  {
    if |buf| < 4 then Pass([], buf, errors, true)
    else if IsPlainPing(buf) then Emit(Pong, Drain(buf[4..], errors))
    else
      var total := Le32(buf);
      if !InRange(total) then
        if errors + 1 >= MAX_CONSECUTIVE_ERRORS then Pass([], [], errors + 1, false)
        else Drain(buf[1..], errors + 1)
      else if |buf| < total then Pass([], buf, errors, true)
      else Emit(Payload(buf[4..total]), Drain(buf[total..], 0))
  }

  function Emit(e: Event, p: Pass): Pass {
    p.(events := [e] + p.events)
  }

  // -------------------------------------------------------- in plain numbers

  /** Four letters that spell "ping" in any case. */
  predicate SpellsPing(b: seq<byte>) {
    |b| == 4 && b[0] in {80, 112} && b[1] in {73, 105} && b[2] in {78, 110} && b[3] in {71, 103}
  }

  /** The header, lowest byte first, counts itself. */
  predicate IsHeader(b: seq<byte>, total: int) {
    |b| == 4 && total == b[0] as int + 256 * b[1] as int + 65536 * b[2] as int + 16777216 * b[3] as int
  }

  /** A frame of 4 to 262144 bytes is taken off the front and resets the error count. */
  lemma FrameIsTaken(header: seq<byte>, payload: seq<byte>, tail: seq<byte>, errors: nat)
    requires IsHeader(header, |payload| + 4) && |payload| + 4 <= 262144
    ensures var p, q := Drain(header + payload + tail, errors), Drain(tail, 0);
            p == Pass([Payload(payload)] + q.events, q.rest, q.errors, q.ok)
  {
    var buf := header + payload + tail;
    assert buf[..4] == header && buf[4..|payload| + 4] == payload && buf[|payload| + 4..] == tail;
    assert Le32(buf) == |payload| + 4;
    HeaderIsNoPing(buf);
  }

  /** A frame that is not complete stays in the buffer. */
  lemma PartOfFrameWaits(header: seq<byte>, part: seq<byte>, total: int, errors: nat)
    requires IsHeader(header, total) && |part| + 4 < total <= 262144
    ensures Drain(header + part, errors) == Pass([], header + part, errors, true)
  {
    var buf := header + part;
    assert buf[..4] == header && Le32(buf) == total;
    HeaderIsNoPing(buf);
  }

  /** A ping is taken off the front, whatever follows. */
  lemma PingIsTaken(letters: seq<byte>, tail: seq<byte>, errors: nat)
    requires SpellsPing(letters)
    ensures var p, q := Drain(letters + tail, errors), Drain(tail, errors);
            p == Pass([Pong] + q.events, q.rest, q.errors, q.ok)
  {
    assert (letters + tail)[4..] == tail;
  }

  /** Any other header costs one byte, and the third in a row the connection. */
  lemma BadHeaderIsSkipped(header: seq<byte>, total: int, tail: seq<byte>, errors: nat)
    requires IsHeader(header, total) && !SpellsPing(header) && !(4 <= total <= 262144)
    ensures Drain(header + tail, errors) ==
            if errors < 2 then Drain(header[1..] + tail, errors + 1) else Pass([], [], errors + 1, false)
  {
    var buf := header + tail;
    assert buf[..4] == header && buf[1..] == header[1..] + tail && Le32(buf) == total;
  }

  /** The bytes a successful pass may leave: fewer than four, or the beginning of a
      frame whose header is in range and which is not complete yet. */
  predicate Residue(buf: seq<byte>) {
    |buf| < 4 || (!IsPlainPing(buf) && InRange(Le32(buf)) && |buf| < Le32(buf))
  }

  predicate IsSuffix(rest: seq<byte>, buf: seq<byte>) {
    |rest| <= |buf| && rest == buf[|buf| - |rest|..]
  }

  lemma SuffixOfTail(rest: seq<byte>, buf: seq<byte>, m: nat)
    requires m <= |buf| && IsSuffix(rest, buf[m..])
    ensures IsSuffix(rest, buf)
  {
  }

  lemma {:induction false} RestIsSuffix(buf: seq<byte>, errors: nat)
    ensures IsSuffix(Drain(buf, errors).rest, buf)
    decreases |buf|
  {
    if |buf| >= 4 {
      if IsPlainPing(buf) {
        RestIsSuffix(buf[4..], errors);
        SuffixOfTail(Drain(buf[4..], errors).rest, buf, 4);
      } else if !InRange(Le32(buf)) {
        if errors + 1 < MAX_CONSECUTIVE_ERRORS {
          RestIsSuffix(buf[1..], errors + 1);
          SuffixOfTail(Drain(buf[1..], errors + 1).rest, buf, 1);
        }
      } else if |buf| >= Le32(buf) {
        RestIsSuffix(buf[Le32(buf)..], 0);
        SuffixOfTail(Drain(buf[Le32(buf)..], 0).rest, buf, Le32(buf));
      }
    }
  }

  lemma {:induction false} RestIsResidue(buf: seq<byte>, errors: nat)
    ensures var p := Drain(buf, errors); if p.ok then Residue(p.rest) else p.rest == []
    decreases |buf|
  {
    if |buf| >= 4 {
      if IsPlainPing(buf) {
        RestIsResidue(buf[4..], errors);
      } else if !InRange(Le32(buf)) {
        if errors + 1 < MAX_CONSECUTIVE_ERRORS {
          RestIsResidue(buf[1..], errors + 1);
        }
      } else if |buf| >= Le32(buf) {
        RestIsResidue(buf[Le32(buf)..], 0);
      }
    }
  }

  lemma DrainLeavesResidue(buf: seq<byte>, errors: nat)
    ensures var p := Drain(buf, errors);
            IsSuffix(p.rest, buf) && if p.ok then Residue(p.rest) else p.rest == []
  {
    RestIsSuffix(buf, errors);
    RestIsResidue(buf, errors);
  }

  /** A residue drains to itself: the extra pass before each read changes nothing. */
  lemma ResidueIsStable(buf: seq<byte>, errors: nat)
    requires Residue(buf)
    ensures Drain(buf, errors) == Pass([], buf, errors, true)
  {
  }

  // -------------------------------------------------------- chunked reading

  function Concat(chunks: seq<seq<byte>>): seq<byte> {
    if chunks == [] then [] else chunks[0] + Concat(chunks[1..])
  }

  /** Reads arrive one by one; each pass starts with the error count at zero. */
  function Feed(buf: seq<byte>, chunks: seq<seq<byte>>): Pass
    decreases |chunks|
  {
    if chunks == [] then Pass([], buf, 0, true)
    else
      var p := Drain(buf + chunks[0], 0);
      if !p.ok then p
      else
        var q := Feed(p.rest, chunks[1..]);
        q.(events := p.events + q.events)
  }

  /** Two passes that nobody outside can tell apart. */
  predicate SameEffect(p: Pass, q: Pass) {
    p.events == q.events && p.rest == q.rest && p.ok == q.ok
  }

  /** Parsing `a + b` is parsing `a` and then, from its residue and with the error
      count carried over, the rest. */
  lemma {:induction false} DrainAppend(a: seq<byte>, b: seq<byte>, errors: nat)
    ensures var p := Drain(a, errors);
            Drain(a + b, errors) ==
              if p.ok then Drain(p.rest + b, p.errors).(events := p.events + Drain(p.rest + b, p.errors).events)
              else p
    decreases |a|
  {
    if |a| < 4 {
      var q := Drain(a + b, errors);
      assert q == q.(events := [] + q.events);
    } else {
      assert Le32(a + b) == Le32(a) && IsPlainPing(a + b) == IsPlainPing(a);
      if IsPlainPing(a) {
        assert (a + b)[4..] == a[4..] + b;
        DrainAppend(a[4..], b, errors);
        EmitAppend(Pong, a[4..], b, errors);
      } else if !InRange(Le32(a)) {
        if errors + 1 < MAX_CONSECUTIVE_ERRORS {
          assert (a + b)[1..] == a[1..] + b;
          DrainAppend(a[1..], b, errors + 1);
        }
      } else if |a| < Le32(a) {
        var q := Drain(a + b, errors);
        assert q == q.(events := [] + q.events);
      } else {
        var n := Le32(a);
        assert (a + b)[n..] == a[n..] + b && (a + b)[4..n] == a[4..n];
        DrainAppend(a[n..], b, 0);
        EmitAppend(Payload(a[4..n]), a[n..], b, 0);
      }
    }
  }

  lemma EmitAppend(e: Event, a: seq<byte>, b: seq<byte>, errors: nat)
    ensures var p := Drain(a, errors);
            p.ok ==> [e] + (p.events + Drain(p.rest + b, p.errors).events)
                     == ([e] + p.events) + Drain(p.rest + b, p.errors).events
  {
  }

  /** Starting with fewer errors never hurts a pass that succeeds. */
  lemma {:induction false} FewerErrors(buf: seq<byte>, fewer: nat, errors: nat)
    requires fewer <= errors && Drain(buf, errors).ok
    ensures SameEffect(Drain(buf, fewer), Drain(buf, errors))
    decreases |buf|
  {
    if |buf| >= 4 {
      if IsPlainPing(buf) {
        FewerErrors(buf[4..], fewer, errors);
      } else if !InRange(Le32(buf)) {
        FewerErrors(buf[1..], fewer + 1, errors + 1);
      }
    }
  }

  /** If the whole stream parses in one pass, then every way of cutting it into reads
      gives the same events and the same residue, and no pass gives up. */
  lemma {:induction false} FeedAgrees(buf: seq<byte>, chunks: seq<seq<byte>>)
    requires Drain(buf + Concat(chunks), 0).ok && Residue(buf)
    ensures SameEffect(Feed(buf, chunks), Drain(buf + Concat(chunks), 0))
    decreases |chunks|
  {
    if chunks == [] {
      assert buf + Concat(chunks) == buf;
      ResidueIsStable(buf, 0);
    } else {
      var a, b := buf + chunks[0], Concat(chunks[1..]);
      assert buf + Concat(chunks) == a + b;
      DrainAppend(a, b, 0);
      DrainLeavesResidue(a, 0);
      var p := Drain(a, 0);
      FewerErrors(p.rest + b, 0, p.errors);
      FeedAgrees(p.rest, chunks[1..]);
    }
  }

  function Singles(buf: seq<byte>): (chunks: seq<seq<byte>>)
    ensures Concat(chunks) == buf
  {
    if buf == [] then [] else [[buf[0]]] + Singles(buf[1..])
  }

  /** A residue with one more byte costs at most one error. */
  lemma OneByteNeverFails(buf: seq<byte>, b: byte)
    requires Residue(buf)
    ensures Drain(buf + [b], 0).ok && Residue(Drain(buf + [b], 0).rest)
  {
  }

  lemma {:induction false} ByteWiseNeverFails(buf: seq<byte>, bytes: seq<byte>)
    requires Residue(buf)
    ensures Feed(buf, Singles(bytes)).ok
    decreases |bytes|
  {
    if bytes != [] {
      OneByteNeverFails(buf, bytes[0]);
      var chunks := Singles(bytes);
      assert chunks[0] == [bytes[0]] && chunks[1..] == Singles(bytes[1..]);
      ByteWiseNeverFails(Drain(buf + [bytes[0]], 0).rest, bytes[1..]);
    }
  }

  ghost predicate ChunkingIndependent(bytes: seq<byte>) {
    forall chunks :: Concat(chunks) == bytes ==> SameEffect(Feed([], chunks), Drain(bytes, 0))
  }

  /** Exactly when reads may be cut anywhere: for arbitrary bytes, the outcome does not
      depend on the reads if and only if one single read would not hit the error limit. */
  lemma ChunkingIndependentIff(bytes: seq<byte>)
    ensures ChunkingIndependent(bytes) <==> Drain(bytes, 0).ok
  {
    assert [] + bytes == bytes;
    if Drain(bytes, 0).ok {
      forall chunks | Concat(chunks) == bytes ensures SameEffect(Feed([], chunks), Drain(bytes, 0)) {
        FeedAgrees([], chunks);
      }
    } else {
      ByteWiseNeverFails([], bytes);
      assert Concat(Singles(bytes)) == bytes;
      assert !SameEffect(Feed([], Singles(bytes)), Drain(bytes, 0));
    }
  }

  const ZEROS: seq<byte> := [0, 0, 0, 0, 0, 0]

  lemma ZerosDrain(errors: nat, n: nat)
    requires 4 <= n <= 6
    ensures Drain(ZEROS[..n], errors) ==
            if errors + 1 >= MAX_CONSECUTIVE_ERRORS then Pass([], [], errors + 1, false)
            else Drain(ZEROS[..n - 1], errors + 1)
  {
    assert ZEROS[..n][1..] == ZEROS[..n - 1];
    assert Le32(ZEROS[..n]) == 0;
  }

  /** Six zero bytes are given up in one read and not in six. */
  lemma ZerosDependOnReads()
    ensures !Drain(ZEROS, 0).ok && Feed([], Singles(ZEROS)).ok && !ChunkingIndependent(ZEROS)
  {
    assert ZEROS[..6] == ZEROS;
    ZerosDrain(0, 6);
    ZerosDrain(1, 5);
    ZerosDrain(2, 4);
    ByteWiseNeverFails([], ZEROS);
    ChunkingIndependentIff(ZEROS);
  }

  // -------------------------------------------------------- well-formed streams

  datatype Item = Ping(letters: seq<byte>) | Frame(payload: seq<byte>)

  predicate ValidItem(it: Item) {
    match it
    case Ping(l) => |l| == 4 && IsPlainPing(l)
    case Frame(p) => |p| + 4 <= MAX_MESSAGE_SIZE
  }

  /** `wrap_encrypted_reply`: total length, cut to 32 bits, lowest byte first, then the
      encrypted bytes. */
  function WrapEncryptedReply(encrypted: seq<byte>): (out: seq<byte>)
    ensures |out| == |encrypted| + 4 && out[4..] == encrypted
    ensures Le32(out) == |out| % 0x1_0000_0000
    ensures var n := |out| % 0x1_0000_0000;
            && out[0] as int == n % 256 && out[1] as int == n / 256 % 256
            && out[2] as int == n / 65536 % 256 && out[3] as int == n / 16777216 % 256
  {
    ToLe32((|encrypted| + 4) % 0x1_0000_0000) + encrypted
  }

  function Encode(it: Item): seq<byte>
    requires ValidItem(it)
  {
    match it
    case Ping(l) => l
    case Frame(p) => WrapEncryptedReply(p)
  }

  function EncodeAll(items: seq<Item>): seq<byte>
    requires forall it :: it in items ==> ValidItem(it)
  {
    if items == [] then [] else Encode(items[0]) + EncodeAll(items[1..])
  }

  function EventOf(it: Item): Event {
    match it
    case Ping(_) => Pong
    case Frame(p) => Payload(p)
  }

  function EventsOf(items: seq<Item>): seq<Event> {
    if items == [] then [] else [EventOf(items[0])] + EventsOf(items[1..])
  }

  /** No in-range header reads as "ping" in any letter case: its top byte is zero. */
  lemma HeaderIsNoPing(buf: seq<byte>)
    requires 4 <= |buf| && InRange(Le32(buf))
    ensures !IsPlainPing(buf)
  {
  }

  lemma DrainItem(it: Item, tail: seq<byte>)
    requires ValidItem(it)
    ensures Drain(Encode(it) + tail, 0) == Emit(EventOf(it), Drain(tail, 0))
  {
    var head := Encode(it);
    var buf := head + tail;
    assert buf[|head|..] == tail;
    match it
    case Ping(_) =>
      assert IsPlainPing(buf);
    case Frame(p) =>
      assert Le32(buf) == Le32(head) == |head|;
      HeaderIsNoPing(buf);
      assert buf[4..|head|] == head[4..] == p;
  }

  lemma {:induction false} DrainEncoded(items: seq<Item>)
    requires forall it :: it in items ==> ValidItem(it)
    ensures Drain(EncodeAll(items), 0) == Pass(EventsOf(items), [], 0, true)
    decreases |items|
  {
    if items != [] {
      DrainEncoded(items[1..]);
      DrainItem(items[0], EncodeAll(items[1..]));
    }
  }

  /** Chunking independence: however the encoded items are cut into reads, exactly
      their payloads and pongs come out, in order, and nothing is left over. */
  lemma ValidStreamRoundTrip(items: seq<Item>, chunks: seq<seq<byte>>)
    requires forall it :: it in items ==> ValidItem(it)
    requires Concat(chunks) == EncodeAll(items)
    ensures var p := Feed([], chunks); p.events == EventsOf(items) && p.rest == [] && p.ok
  {
    DrainEncoded(items);
    assert [] + Concat(chunks) == EncodeAll(items);
    FeedAgrees([], chunks);
  }

  // -------------------------------------------------------- before authentication

  /** The loop before the key lookup: after each read it answers one ping at most and
      reads again; the first other read ends it.  Then the main loop takes over. */
  function Serve(buf: seq<byte>, chunks: seq<seq<byte>>): (r: (Pass, bool))
    decreases |chunks|
  {
    if chunks == [] then (Pass([], buf, 0, true), false)
    else
      var x := buf + chunks[0];
      if IsPlainPing(x) then
        var (q, main) := Serve(x[4..], chunks[1..]);
        (Emit(Pong, q), main)
      else (Feed(x, [[]] + chunks[1..]), true)
  }

  /** `r` is what the loop answered of a stream that parses as `whole`. */
  predicate ServesPart(whole: Pass, r: (Pass, bool)) {
    var (p, main) := r;
    p.ok && whole.events == p.events + Drain(p.rest, 0).events && (main ==> SameEffect(p, whole))
  }

  lemma ServeMain(x: seq<byte>, chunks: seq<seq<byte>>)
    requires Drain(x + Concat(chunks), 0).ok
    ensures ServesPart(Drain(x + Concat(chunks), 0), (Feed(x, [[]] + chunks), true))
  {
    FeedAgreesFrom(x, chunks);
    DrainLeavesResidue(x + Concat(chunks), 0);
    ResidueIsStable(Drain(x + Concat(chunks), 0).rest, 0);
  }

  lemma ServePing(x: seq<byte>, rest: seq<byte>, r: (Pass, bool))
    requires IsPlainPing(x) && ServesPart(Drain(x[4..] + rest, 0), r)
    ensures ServesPart(Drain(x + rest, 0), (Emit(Pong, r.0), r.1))
  {
    assert IsPlainPing(x + rest) && (x + rest)[4..] == x[4..] + rest;
    assert [Pong] + (r.0.events + Drain(r.0.rest, 0).events) == ([Pong] + r.0.events) + Drain(r.0.rest, 0).events;
  }

  /** Nothing is lost or reordered before authentication, but pings sent back to back
      may wait: the answered events and those still in the buffer make up the stream. */
  lemma {:induction false} ServeAgrees(buf: seq<byte>, chunks: seq<seq<byte>>)
    requires Drain(buf + Concat(chunks), 0).ok
    ensures ServesPart(Drain(buf + Concat(chunks), 0), Serve(buf, chunks))
    decreases |chunks|
  {
    if chunks == [] {
      assert buf + Concat(chunks) == buf;
    } else {
      var x, rest := buf + chunks[0], Concat(chunks[1..]);
      assert buf + Concat(chunks) == x + rest;
      if IsPlainPing(x) {
        assert (x + rest)[4..] == x[4..] + rest;
        ServeAgrees(x[4..], chunks[1..]);
        ServePing(x, rest, Serve(x[4..], chunks[1..]));
      } else {
        ServeMain(x, chunks[1..]);
      }
    }
  }

  lemma FeedAgreesFrom(x: seq<byte>, chunks: seq<seq<byte>>)
    requires Drain(x + Concat(chunks), 0).ok
    ensures SameEffect(Feed(x, [[]] + chunks), Drain(x + Concat(chunks), 0))
  {
    var rest := [[]] + chunks;
    assert rest[0] == [] && rest[1..] == chunks && x + [] == x;
    DrainAppend(x, Concat(chunks), 0);
    DrainLeavesResidue(x, 0);
    var p := Drain(x, 0);
    FewerErrors(p.rest + Concat(chunks), 0, p.errors);
    FeedAgrees(p.rest, chunks);
  }

  const PING: seq<byte> := [0x70, 0x69, 0x6E, 0x67]

  lemma OnePing(buf: seq<byte>, chunk: seq<byte>, chunks: seq<seq<byte>>)
    requires 4 <= |buf + chunk| && buf + chunk == PING + (buf + chunk)[4..]
    ensures Serve(buf, [chunk] + chunks).0.events == [Pong] + Serve((buf + chunk)[4..], chunks).0.events
  {
  }

  /** "pingping" in one read gets one pong before authentication, in two reads two. */
  lemma BackToBackPingsWait()
    ensures Serve([], [PING + PING]).0.events == [Pong]
    ensures Serve([], [PING, PING]).0.events == [Pong, Pong]
  {
    assert ([] + (PING + PING))[4..] == PING && ([] + PING)[4..] == [];
    assert [PING + PING] + [] == [PING + PING] && [PING] + [PING] == [PING, PING] && [PING] + [] == [PING];
    OnePing([], PING + PING, []);
    OnePing([], PING, [PING]);
    OnePing([], PING, []);
  }
}
