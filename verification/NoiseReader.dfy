/**
 The reading half of a Noise stream: decoder windows are reassembled from whatever pieces the socket
 delivers, by a blocking and a non-blocking reader that may be mixed and dropped at any await.

 The decoder is a parameter: how many bytes it wants next, what a filled window makes of it, and
 what one decoding step yields.
 */
module NoiseReader {
  import opened Bytes
  import opened Options

  datatype Decoded<D, F> = Frame(frame: F, next: D) | Incomplete(next: D) | Broken(next: D)

  datatype Codec<!D, !F> = Codec(writableLen: D -> nat, fill: (D, seq<byte>) -> D, step: D -> Decoded<D, F>)

  // ---------------------------------------------------------------- the reference

  /** Decoder state, bytes consumed, frames produced, and whether the transport state is lost. */
  datatype Ref<D, F> = Ref(dec: D, consumed: nat, frames: seq<F>, poisoned: bool)

  /** One window handed to the decoder; once the transport state is lost nothing is decoded any more. */
  function Feed<D, F>(c: Codec<D, F>, r: Ref<D, F>, window: seq<byte>): Ref<D, F> {
    var filled := c.fill(r.dec, window);
    var consumed := r.consumed + |window|;
    if r.poisoned then Ref(filled, consumed, r.frames, true)
    else
      match c.step(filled)
      case Frame(f, d) => Ref(d, consumed, r.frames + [f], false)
      case Incomplete(d) => Ref(d, consumed, r.frames, false)
      case Broken(d) => Ref(d, consumed, r.frames, true)
  }

  /** The reference: `n` windows cut from the byte stream one after the other, if it is long enough. */
  function Decode<D, F>(c: Codec<D, F>, d0: D, stream: seq<byte>, n: nat): Option<Ref<D, F>> {
    if n == 0 then Some(Ref(d0, 0, [], false))
    else
      var before := Decode(c, d0, stream, n - 1);
      if before.None? then None
      else
        var r := before.value;
        var len := c.writableLen(r.dec);
        if r.consumed + len <= |stream| then Some(Feed(c, r, stream[r.consumed..r.consumed + len])) else None
  }

  lemma {:induction false} DecodeBound<D, F>(c: Codec<D, F>, d0: D, stream: seq<byte>, n: nat)
    requires Decode(c, d0, stream, n).Some?
    ensures Decode(c, d0, stream, n).value.consumed <= |stream|
  {
    if n > 0 {
      DecodeBound(c, d0, stream, n - 1);
    }
  }

  /** Bytes that arrive later do not change what was decoded. */
  lemma {:induction false} DecodeExtends<D, F>(c: Codec<D, F>, d0: D, stream: seq<byte>, more: seq<byte>, n: nat)
    requires Decode(c, d0, stream, n).Some?
    ensures Decode(c, d0, stream + more, n) == Decode(c, d0, stream, n)
  {
    if n > 0 {
      DecodeExtends(c, d0, stream, more, n - 1);
      var r := Decode(c, d0, stream, n - 1).value;
      var end := r.consumed + c.writableLen(r.dec);
      assert (stream + more)[r.consumed..end] == stream[r.consumed..end];
    }
  }

  /** Further windows only append frames, and none once a step has failed. */
  lemma {:induction false} FramesGrow<D, F>(c: Codec<D, F>, d0: D, stream: seq<byte>, m: nat, n: nat)
    requires m <= n && Decode(c, d0, stream, n).Some?
    ensures Decode(c, d0, stream, m).Some?
    ensures Decode(c, d0, stream, m).value.frames <= Decode(c, d0, stream, n).value.frames
    ensures Decode(c, d0, stream, m).value.poisoned ==>
              Decode(c, d0, stream, n).value.poisoned
              && Decode(c, d0, stream, n).value.frames == Decode(c, d0, stream, m).value.frames
  {
    if m < n {
      FramesGrow(c, d0, stream, m, n - 1);
    }
  }

  // ---------------------------------------------------------------- what a sender's bytes decode to

  /** From `d` on the decoder asks for these windows one after the other, and the last one completes `f`. */
  ghost predicate Yields<D, F>(c: Codec<D, F>, d: D, windows: seq<seq<byte>>, f: F, d': D) {
    && windows != [] && |windows[0]| == c.writableLen(d)
    && match c.step(c.fill(d, windows[0]))
       case Frame(g, e) => |windows| == 1 && g == f && e == d'
       case Incomplete(e) => |windows| > 1 && Yields(c, e, windows[1..], f, d')
       case Broken(_) => false
  }

  /** A frame as sent, with the windows the receiver's decoder will ask for. */
  datatype Message<F> = Message(windows: seq<seq<byte>>, frame: F)

  ghost predicate Carries<D(!new), F>(c: Codec<D, F>, d: D, messages: seq<Message<F>>, d': D) {
    if messages == [] then d == d'
    else
      var last := messages[|messages| - 1];
      exists e :: Carries(c, d, messages[..|messages| - 1], e) && Yields(c, e, last.windows, last.frame, d')
  }

  function Joined(windows: seq<seq<byte>>): seq<byte> {
    if windows == [] then [] else windows[0] + Joined(windows[1..])
  }

  function Bytestream<F>(messages: seq<Message<F>>): seq<byte> {
    if messages == [] then []
    else Bytestream(messages[..|messages| - 1]) + Joined(messages[|messages| - 1].windows)
  }

  function WindowCount<F>(messages: seq<Message<F>>): nat {
    if messages == [] then 0 else WindowCount(messages[..|messages| - 1]) + |messages[|messages| - 1].windows|
  }

  function FramesOf<F>(messages: seq<Message<F>>): seq<F> {
    seq(|messages|, i requires 0 <= i < |messages| => messages[i].frame)
  }

  /** Everything received has been decoded, the decoder stands at `d`, and nothing has failed. */
  ghost predicate DecodedAll<D, F>(c: Codec<D, F>, d0: D, stream: seq<byte>, n: nat, d: D, frames: seq<F>) {
    Decode(c, d0, stream, n) == Some(Ref(d, |stream|, frames, false))
  }

  lemma NextWindow<D, F>(c: Codec<D, F>, d0: D, stream: seq<byte>, n: nat, d: D, frames: seq<F>, window: seq<byte>)
    requires DecodedAll(c, d0, stream, n, d, frames) && |window| == c.writableLen(d)
    ensures Decode(c, d0, stream + window, n + 1) == Some(Feed(c, Ref(d, |stream|, frames, false), window))
  {
    StillDecoded(c, d0, stream, n, d, frames, window);
    EndOf(stream, window);
    DecodeStep(c, d0, stream + window, n, Ref(d, |stream|, frames, false), window);
  }

  lemma StillDecoded<D, F>(c: Codec<D, F>, d0: D, stream: seq<byte>, n: nat, d: D, frames: seq<F>, more: seq<byte>)
    requires DecodedAll(c, d0, stream, n, d, frames)
    ensures Decode(c, d0, stream + more, n) == Some(Ref(d, |stream|, frames, false))
  {
    DecodeExtends(c, d0, stream, more, n);
  }

  lemma DecodeStep<D, F>(c: Codec<D, F>, d0: D, stream: seq<byte>, n: nat, r: Ref<D, F>, window: seq<byte>)
    requires Decode(c, d0, stream, n) == Some(r) && |window| == c.writableLen(r.dec)
    requires r.consumed + |window| <= |stream| && stream[r.consumed..r.consumed + |window|] == window
    ensures Decode(c, d0, stream, n + 1) == Some(Feed(c, r, window))
  {
  }

  lemma EndOf(s: seq<byte>, t: seq<byte>)
    ensures (s + t)[|s|..|s| + |t|] == t
  {
  }

  /** A message decodes to its frame, at its last window and no earlier. */
  lemma {:induction false} MessageDecodes<D, F>(c: Codec<D, F>, d0: D, stream: seq<byte>, n: nat, d: D, frames: seq<F>,
                                               windows: seq<seq<byte>>, f: F, d': D)
    requires DecodedAll(c, d0, stream, n, d, frames) && Yields(c, d, windows, f, d')
    ensures FrameAt(c, d0, stream + Joined(windows), n + |windows|, frames, f, d')
    decreases |windows|
  {
    JoinedFirst(stream, windows);
    if |windows| == 1 {
      LastOfMessage(c, d0, stream, n, d, frames, windows[0]);
    } else {
      IncompleteWindow(c, d0, stream, n, d, frames, windows[0]);
      var e := c.step(c.fill(d, windows[0])).next;
      MessageDecodes(c, d0, stream + windows[0], n + 1, e, frames, windows[1..], f, d');
    }
  }

  /** The `n`-th window, the last one of the stream, has brought `f` after these frames. */
  ghost predicate FrameAt<D, F>(c: Codec<D, F>, d0: D, stream: seq<byte>, n: nat, frames: seq<F>, f: F, d: D) {
    && n > 0 && Decode(c, d0, stream, n - 1).Some? && Decode(c, d0, stream, n - 1).value.frames == frames
    && DecodedAll(c, d0, stream, n, d, frames + [f])
  }

  lemma LastOfMessage<D, F>(c: Codec<D, F>, d0: D, stream: seq<byte>, n: nat, d: D, frames: seq<F>, window: seq<byte>)
    requires DecodedAll(c, d0, stream, n, d, frames) && |window| == c.writableLen(d)
    requires c.step(c.fill(d, window)).Frame?
    ensures var last := c.step(c.fill(d, window));
            FrameAt(c, d0, stream + window, n + 1, frames, last.frame, last.next)
  {
    FrameWindow(c, d0, stream, n, d, frames, window);
    StillDecoded(c, d0, stream, n, d, frames, window);
  }

  lemma FrameWindow<D, F>(c: Codec<D, F>, d0: D, stream: seq<byte>, n: nat, d: D, frames: seq<F>, window: seq<byte>)
    requires DecodedAll(c, d0, stream, n, d, frames) && |window| == c.writableLen(d)
    requires c.step(c.fill(d, window)).Frame?
    ensures var last := c.step(c.fill(d, window));
            DecodedAll(c, d0, stream + window, n + 1, last.next, frames + [last.frame])
  {
    NextWindow(c, d0, stream, n, d, frames, window);
    FrameFed(c, Ref(d, |stream|, frames, false), window);
  }

  lemma FrameFed<D, F>(c: Codec<D, F>, r: Ref<D, F>, window: seq<byte>)
    requires !r.poisoned && c.step(c.fill(r.dec, window)).Frame?
    ensures var last := c.step(c.fill(r.dec, window));
            Feed(c, r, window) == Ref(last.next, r.consumed + |window|, r.frames + [last.frame], false)
  {
  }

  lemma IncompleteWindow<D, F>(c: Codec<D, F>, d0: D, stream: seq<byte>, n: nat, d: D, frames: seq<F>,
                               window: seq<byte>)
    requires DecodedAll(c, d0, stream, n, d, frames) && |window| == c.writableLen(d)
    requires c.step(c.fill(d, window)).Incomplete?
    ensures DecodedAll(c, d0, stream + window, n + 1, c.step(c.fill(d, window)).next, frames)
  {
    NextWindow(c, d0, stream, n, d, frames, window);
  }

  lemma {:induction false} JoinedFirst(stream: seq<byte>, windows: seq<seq<byte>>)
    requires windows != []
    ensures stream + Joined(windows) == stream + windows[0] + Joined(windows[1..])
    ensures |windows| == 1 ==> stream + Joined(windows) == stream + windows[0]
  {
    var first, rest := windows[0], Joined(windows[1..]);
    assert stream + (first + rest) == stream + first + rest;
    if |windows| == 1 {
      assert rest == [];
    }
  }

  /** Round trip: what the sender's messages carry is what the reference decodes, frame by frame and in order. */
  lemma {:induction false} MessagesDecode<D(!new), F>(c: Codec<D, F>, d0: D, messages: seq<Message<F>>, d: D)
    requires Carries(c, d0, messages, d)
    ensures DecodedAll(c, d0, Bytestream(messages), WindowCount(messages), d, FramesOf(messages))
  {
    if messages == [] {
      assert FramesOf(messages) == [];
    } else {
      var init, last := messages[..|messages| - 1], messages[|messages| - 1];
      var e :| Carries(c, d0, init, e) && Yields(c, e, last.windows, last.frame, d);
      MessagesDecode(c, d0, init, e);
      MessageDecodes(c, d0, Bytestream(init), WindowCount(init), e, FramesOf(init), last.windows, last.frame, d);
      MessagesSnoc(messages);
    }
  }

  lemma MessagesSnoc<F>(messages: seq<Message<F>>)
    requires messages != []
    ensures var init, last := messages[..|messages| - 1], messages[|messages| - 1];
            && Bytestream(messages) == Bytestream(init) + Joined(last.windows)
            && WindowCount(messages) == WindowCount(init) + |last.windows|
            && FramesOf(messages) == FramesOf(init) + [last.frame]
  {
  }

  /** A window the decoder rejects ends all decoding. */
  lemma RejectedWindow<D, F>(c: Codec<D, F>, d0: D, stream: seq<byte>, n: nat, d: D, frames: seq<F>, window: seq<byte>,
                             m: nat, more: seq<byte>)
    requires DecodedAll(c, d0, stream, n, d, frames)
    requires |window| == c.writableLen(d) && c.step(c.fill(d, window)).Broken?
    requires n < m && Decode(c, d0, stream + window + more, m).Some?
    ensures var r := Decode(c, d0, stream + window + more, m).value; r.poisoned && r.frames == frames
  {
    NextWindow(c, d0, stream, n, d, frames, window);
    DecodeExtends(c, d0, stream + window, more, n + 1);
    FramesGrow(c, d0, stream + window + more, n + 1, m);
  }

  // ---------------------------------------------------------------- the reader's state

  /** The fields of the read half. */
  datatype Half<D> = Half(decoder: D, poisoned: bool, buf: seq<byte>, bytesRead: nat)

  /** Bytes received so far, windows handed to the decoder, frames returned to callers. */
  datatype Log<F> = Log(stream: seq<byte>, windows: nat, returned: seq<F>)

  /**
   The state is that of the reference after the bytes received and the windows fed, and the partial
   window holds exactly the bytes not consumed yet: no chunk boundary is visible in it.
   */
  ghost predicate Tracks<D, F>(c: Codec<D, F>, d0: D, h: Half<D>, log: Log<F>) {
    && h.bytesRead <= |h.buf| && h.bytesRead <= |log.stream|
    && log.stream[|log.stream| - h.bytesRead..] == h.buf[..h.bytesRead]
    && Decode(c, d0, log.stream, log.windows)
       == Some(Ref(h.decoder, |log.stream| - h.bytesRead, log.returned, h.poisoned))
  }

  /** The buffer has the size the decoder asks for. */
  predicate Sized<D, F>(c: Codec<D, F>, h: Half<D>) {
    |h.buf| == c.writableLen(h.decoder)
  }

  /** Between calls a partly filled window is of the right size and not full. */
  predicate Resting<D, F>(c: Codec<D, F>, h: Half<D>) {
    h.bytesRead > 0 ==> Sized(c, h) && h.bytesRead < |h.buf|
  }

  function Accepted<D>(h: Half<D>, bytes: seq<byte>): Half<D>
    requires h.bytesRead + |bytes| <= |h.buf|
  {
    h.(buf := h.buf[..h.bytesRead] + bytes + h.buf[h.bytesRead + |bytes|..], bytesRead := h.bytesRead + |bytes|)
  }

  lemma AcceptTracks<D, F>(c: Codec<D, F>, d0: D, h: Half<D>, log: Log<F>, bytes: seq<byte>)
    requires Tracks(c, d0, h, log) && h.bytesRead + |bytes| <= |h.buf|
    ensures Tracks(c, d0, Accepted(h, bytes), log.(stream := log.stream + bytes))
  {
    DecodeExtends(c, d0, log.stream, bytes, log.windows);
    var g := Accepted(h, bytes);
    var stream := log.stream + bytes;
    TailGrows(log.stream, |log.stream| - h.bytesRead, bytes);
    assert g.buf[..g.bytesRead] == h.buf[..h.bytesRead] + bytes;
  }

  lemma TailGrows(s: seq<byte>, i: nat, more: seq<byte>)
    requires i <= |s|
    ensures (s + more)[i..] == s[i..] + more
  {
  }

  lemma ResizeTracks<D, F>(c: Codec<D, F>, d0: D, h: Half<D>, log: Log<F>, buf: seq<byte>)
    requires Tracks(c, d0, h, log) && h.bytesRead == 0
    ensures Tracks(c, d0, h.(buf := buf), log)
  {
    assert h.buf[..0] == buf[..0];
  }

  /** A full window: the reference takes its next step on the same bytes. */
  lemma WindowTracks<D, F>(c: Codec<D, F>, d0: D, h: Half<D>, log: Log<F>)
    requires Tracks(c, d0, h, log) && Sized(c, h) && h.bytesRead == |h.buf|
    ensures Decode(c, d0, log.stream, log.windows + 1)
         == Some(Feed(c, Ref(h.decoder, |log.stream| - |h.buf|, log.returned, h.poisoned), h.buf))
  {
    var consumed := |log.stream| - |h.buf|;
    assert h.buf[..|h.buf|] == h.buf;
    assert log.stream[consumed..consumed + |h.buf|] == h.buf;
  }

  /** What one decoding step means for the caller of `next_frame`. */
  datatype ReadResult<F> = GotFrame(frame: F) | NotYet | Failed | Dropped

  function FedHalf<D, F>(c: Codec<D, F>, h: Half<D>): Half<D> {
    var filled := c.fill(h.decoder, h.buf);
    if h.poisoned then Half(filled, true, h.buf, 0)
    else
      match c.step(filled)
      case Frame(_, d) => Half(d, false, h.buf, 0)
      case Incomplete(d) => Half(d, false, h.buf, 0)
      case Broken(d) => Half(d, true, h.buf, 0)
  }

  function FedResult<D, F>(c: Codec<D, F>, h: Half<D>): ReadResult<F> {
    if h.poisoned then Failed
    else
      match c.step(c.fill(h.decoder, h.buf))
      case Frame(f, _) => GotFrame(f)
      case Incomplete(_) => NotYet
      case Broken(_) => Failed
  }

  function Delivered<F>(log: Log<F>, r: ReadResult<F>): Log<F> {
    log.(windows := log.windows + 1, returned := log.returned + if r.GotFrame? then [r.frame] else [])
  }

  lemma FedTracks<D, F>(c: Codec<D, F>, d0: D, h: Half<D>, log: Log<F>)
    requires Tracks(c, d0, h, log) && Sized(c, h) && h.bytesRead == |h.buf|
    ensures Tracks(c, d0, FedHalf(c, h), Delivered(log, FedResult(c, h)))
    ensures Resting(c, FedHalf(c, h))
  {
    WindowTracks(c, d0, h, log);
    assert log.returned + [] == log.returned;
    var g, log' := FedHalf(c, h), Delivered(log, FedResult(c, h));
    EmptyWindowTracks(c, d0, g, log');
  }

  /** With no byte held back, tracking is agreement with the reference. */
  lemma EmptyWindowTracks<D, F>(c: Codec<D, F>, d0: D, h: Half<D>, log: Log<F>)
    requires h.bytesRead == 0
    requires Decode(c, d0, log.stream, log.windows) == Some(Ref(h.decoder, |log.stream|, log.returned, h.poisoned))
    ensures Tracks(c, d0, h, log)
  {
    assert log.stream[|log.stream|..] == h.buf[..0];
  }

  /** What a caller may rely on across a call: progress only, and no frame after a failure. */
  ghost predicate Advances<D, F>(h: Half<D>, log: Log<F>, h': Half<D>, log': Log<F>, r: ReadResult<F>) {
    && log.stream <= log'.stream && log.windows <= log'.windows
    && log'.returned == log.returned + (if r.GotFrame? then [r.frame] else [])
    && (h.poisoned ==> h'.poisoned && !r.GotFrame?)
  }

  lemma AdvancesOn<D, F>(h: Half<D>, log: Log<F>, h': Half<D>, log': Log<F>, h'': Half<D>, log'': Log<F>,
                         r: ReadResult<F>)
    requires Advances(h, log, h', log', NotYet) && Advances(h', log', h'', log'', r)
    ensures Advances(h, log, h'', log'', r)
  {
    assert log'.returned == log.returned;
  }

  // ---------------------------------------------------------------- the socket

  datatype Event =
    | Chunk(bytes: seq<byte>)  // bytes arrive
    | Closed                   // end of stream or socket error

  /** What has arrived and was not read yet, and whether nothing more will come. */
  datatype Socket = Socket(ready: seq<byte>, closed: bool)

  function Arrive(s: Socket, e: Event): Socket {
    match e
    case Chunk(bytes) => if s.closed then s else s.(ready := s.ready + bytes)
    case Closed => s.(closed := true)
  }

  function Arrivals(s: Socket, events: seq<Event>): Socket {
    if events == [] then s else Arrive(Arrivals(s, events[..|events| - 1]), events[|events| - 1])
  }

  /** Reading from the front and arriving at the back do not disturb each other. */
  lemma ArriveBehind(taken: seq<byte>, s: Socket, e: Event)
    ensures Arrive(Socket(taken + s.ready, s.closed), e)
         == Socket(taken + Arrive(s, e).ready, Arrive(s, e).closed)
  {
    if e.Chunk? && !s.closed {
      assert taken + s.ready + e.bytes == taken + (s.ready + e.bytes);
    }
  }

  lemma {:induction false} ArrivalsGrow(s: Socket, events: seq<Event>, k: nat)
    requires k <= |events|
    ensures Arrivals(s, events[..k]).ready <= Arrivals(s, events).ready
    ensures Arrivals(s, events[..k]).closed ==> Arrivals(s, events).closed
    decreases |events|
  {
    if k == |events| {
      assert events[..k] == events;
    } else {
      var init := events[..|events| - 1];
      ArrivalsGrow(s, init, k);
      assert init[..k] == events[..k];
    }
  }

  // ---------------------------------------------------------------- what a read must come to

  /** The window still lacks bytes. */
  predicate Lacks<D, F>(c: Codec<D, F>, h: Half<D>) {
    h.bytesRead < c.writableLen(h.decoder)
  }

  /** The windows before the last one brought these frames. */
  ghost predicate FramesBeforeLast<D, F>(c: Codec<D, F>, d0: D, log: Log<F>, frames: seq<F>) {
    && log.windows > 0 && Decode(c, d0, log.stream, log.windows - 1).Some?
    && Decode(c, d0, log.stream, log.windows - 1).value.frames == frames
  }

  /**
   A `read_frame` that began after `w0` windows with `returned0`: windows before the last one brought no
   frame, a failure is the decoder's or an empty closed socket, and a call is left suspended only for want
   of bytes or after its last turn.
   */
  ghost predicate ReadSpec<D, F>(c: Codec<D, F>, d0: D, h: Half<D>, log: Log<F>, sock: Socket, w0: nat,
                                 returned0: seq<F>, turns: nat, exhausted: bool, r: ReadResult<F>) {
    && Tracks(c, d0, h, log) && w0 <= log.windows && !r.NotYet?
    && log.returned == returned0 + (if r.GotFrame? then [r.frame] else [])
    && (r.GotFrame? ==>
          w0 < log.windows && FramesBeforeLast(c, d0, log, returned0))
    && (r.Failed? ==> h.poisoned || (sock.closed && sock.ready == [] && Lacks(c, h)))
    && (r.Dropped? ==> || (exhausted && !sock.closed && sock.ready == [] && Lacks(c, h))
                       || log.windows == w0 + turns + 1)
  }

  /** In this stream the `m`-th window after `w0` completes the frame `f`, and none before it completes one. */
  ghost predicate CompletesAt<D, F>(c: Codec<D, F>, d0: D, stream: seq<byte>, w0: nat, returned0: seq<F>,
                                        m: nat, f: F) {
    && m >= 1 && Decode(c, d0, stream, w0 + m - 1).Some? && Decode(c, d0, stream, w0 + m).Some?
    && Decode(c, d0, stream, w0 + m - 1).value.frames == returned0
    && Decode(c, d0, stream, w0 + m).value.frames == returned0 + [f]
  }

  /** A sent message completes its frame for a reader that has returned all frames before it. */
  lemma MessageCompletes<D(!new), F>(c: Codec<D, F>, d0: D, messages: seq<Message<F>>, d: D, next: Message<F>,
                                     d': D, more: seq<byte>)
    requires Carries(c, d0, messages, d) && Yields(c, d, next.windows, next.frame, d')
    ensures CompletesAt(c, d0, Bytestream(messages) + Joined(next.windows) + more, WindowCount(messages),
                        FramesOf(messages), |next.windows|, next.frame)
  {
    MessagesDecode(c, d0, messages, d);
    var n, stream := WindowCount(messages), Bytestream(messages);
    MessageDecodes(c, d0, stream, n, d, FramesOf(messages), next.windows, next.frame, d');
    CompletesLater(c, d0, stream + Joined(next.windows), n, FramesOf(messages), |next.windows|, next.frame, more);
  }

  /** Bytes after a complete frame change nothing. */
  lemma CompletesLater<D, F>(c: Codec<D, F>, d0: D, stream: seq<byte>, w0: nat, returned0: seq<F>, m: nat, f: F,
                             more: seq<byte>)
    requires CompletesAt(c, d0, stream, w0, returned0, m, f)
    ensures CompletesAt(c, d0, stream + more, w0, returned0, m, f)
  {
    DecodeExtends(c, d0, stream, more, w0 + m);
    DecodeExtends(c, d0, stream, more, w0 + m - 1);
  }

  /** No further window fits when the one begun lacks bytes. */
  lemma NoMoreWindows<D, F>(c: Codec<D, F>, d0: D, h: Half<D>, log: Log<F>)
    requires Tracks(c, d0, h, log) && Lacks(c, h)
    ensures Decode(c, d0, log.stream, log.windows + 1).None?
  {
  }

  lemma SameDecode<D, F>(c: Codec<D, F>, d0: D, part: seq<byte>, stream: seq<byte>, n: nat)
    requires part <= stream && Decode(c, d0, part, n).Some?
    ensures Decode(c, d0, stream, n) == Decode(c, d0, part, n)
  {
    var rest := stream[|part|..];
    assert stream == part + rest;
    DecodeExtends(c, d0, part, rest, n);
  }

  /** Before the frame is complete there is no frame, no failure, and bytes enough for the next window. */
  lemma StillIncomplete<D, F>(c: Codec<D, F>, d0: D, stream: seq<byte>, w0: nat, returned0: seq<F>,
                              m: nat, f: F, n: nat)
    requires CompletesAt(c, d0, stream, w0, returned0, m, f) && n < w0 + m
    ensures Decode(c, d0, stream, n).Some? && Decode(c, d0, stream, n + 1).Some?
    ensures Decode(c, d0, stream, n).value.frames <= returned0 && !Decode(c, d0, stream, n).value.poisoned
  {
    FramesGrow(c, d0, stream, n, w0 + m - 1);
    FramesGrow(c, d0, stream, n, w0 + m);
    FramesGrow(c, d0, stream, n + 1, w0 + m);
    assert |returned0 + [f]| == |returned0| + 1;
  }

  /** From then on it is there. */
  lemma AlreadyComplete<D, F>(c: Codec<D, F>, d0: D, stream: seq<byte>, w0: nat, returned0: seq<F>,
                              m: nat, f: F, n: nat)
    requires CompletesAt(c, d0, stream, w0, returned0, m, f) && w0 + m <= n && Decode(c, d0, stream, n).Some?
    ensures |Decode(c, d0, stream, n).value.frames| > |returned0|
  {
    FramesGrow(c, d0, stream, w0 + m, n);
  }

  /** A read that has fed fewer windows has stopped for a reason that is not there. */
  lemma NotTooEarly<D, F>(c: Codec<D, F>, d0: D, h: Half<D>, log: Log<F>, sock: Socket, w0: nat, returned0: seq<F>,
                          turns: nat, r: ReadResult<F>, stream: seq<byte>, m: nat, f: F)
    requires ReadSpec(c, d0, h, log, sock, w0, returned0, turns, log.stream == stream, r) && !sock.closed
    requires CompletesAt(c, d0, stream, w0, returned0, m, f) && m <= turns + 1 && log.stream <= stream
    ensures w0 + m <= log.windows
  {
    if log.windows < w0 + m {
      SameDecode(c, d0, log.stream, stream, log.windows);
      StillIncomplete(c, d0, stream, w0, returned0, m, f, log.windows);
      if r.Dropped? {
        NoMoreWindows(c, d0, h, log);
      }
    }
  }

  /** Nor has it gone past it. */
  lemma NotTooLate<D, F>(c: Codec<D, F>, d0: D, h: Half<D>, log: Log<F>, sock: Socket, w0: nat, returned0: seq<F>,
                         turns: nat, r: ReadResult<F>, stream: seq<byte>, m: nat, f: F)
    requires ReadSpec(c, d0, h, log, sock, w0, returned0, turns, log.stream == stream, r)
    requires CompletesAt(c, d0, stream, w0, returned0, m, f) && log.stream <= stream
    ensures log.windows <= w0 + m
  {
    var n := SilentWindows(c, d0, h, log, sock, w0, returned0, turns, log.stream == stream, r);
    NotPast(c, d0, log.stream, n, w0, returned0, stream, m, f);
  }

  /** All windows but the one that completed the frame returned have brought nothing new. */
  lemma SilentWindows<D, F>(c: Codec<D, F>, d0: D, h: Half<D>, log: Log<F>, sock: Socket, w0: nat,
                            returned0: seq<F>, turns: nat, exhausted: bool, r: ReadResult<F>) returns (n: nat)
    requires ReadSpec(c, d0, h, log, sock, w0, returned0, turns, exhausted, r)
    ensures log.windows == n + if r.GotFrame? then 1 else 0
    ensures Decode(c, d0, log.stream, n).Some? && Decode(c, d0, log.stream, n).value.frames == returned0
  {
    n := if r.GotFrame? then log.windows - 1 else log.windows;
    assert returned0 + [] == returned0;
  }

  lemma NotPast<D, F>(c: Codec<D, F>, d0: D, part: seq<byte>, n: nat, w0: nat, returned0: seq<F>,
                      stream: seq<byte>, m: nat, f: F)
    requires part <= stream && Decode(c, d0, part, n).Some? && Decode(c, d0, part, n).value.frames == returned0
    requires CompletesAt(c, d0, stream, w0, returned0, m, f)
    ensures n < w0 + m
  {
    SameDecode(c, d0, part, stream, n);
    if w0 + m <= n {
      AlreadyComplete(c, d0, stream, w0, returned0, m, f, n);
    }
  }

  /**
   Completeness: when the bytes that arrive complete the next frame of the reference decode, the socket stays
   open and the call gets its turns, `read_frame` returns exactly that frame.
   */
  lemma ReadCompletes<D, F>(c: Codec<D, F>, d0: D, h: Half<D>, log: Log<F>, sock: Socket, w0: nat, returned0: seq<F>,
                            turns: nat, r: ReadResult<F>, stream: seq<byte>, m: nat, f: F)
    requires ReadSpec(c, d0, h, log, sock, w0, returned0, turns, log.stream == stream, r) && !sock.closed
    requires CompletesAt(c, d0, stream, w0, returned0, m, f) && m <= turns + 1 && log.stream <= stream
    ensures r == GotFrame(f) && log.windows == w0 + m
  {
    NotTooEarly(c, d0, h, log, sock, w0, returned0, turns, r, stream, m, f);
    NotTooLate(c, d0, h, log, sock, w0, returned0, turns, r, stream, m, f);
    SameDecode(c, d0, log.stream, stream, log.windows);
    LastFrame(returned0, f, r);
  }

  lemma LastFrame<F>(returned0: seq<F>, f: F, r: ReadResult<F>)
    requires returned0 + [f] == returned0 + if r.GotFrame? then [r.frame] else []
    ensures r == GotFrame(f)
  {
    assert (returned0 + [f])[|returned0|] == f && |returned0 + [f]| == |returned0| + 1;
    assert r.GotFrame? ==> (returned0 + [r.frame])[|returned0|] == r.frame;
  }

  /** What one window of `read_frame` came to: filled and fed, or not filled. */
  ghost predicate WindowDone<D, F>(c: Codec<D, F>, d0: D, h: Half<D>, log: Log<F>, sock: Socket, fed: bool,
                                   exhausted: bool, returned: seq<F>, r: ReadResult<F>) {
    if fed then !r.Dropped? && (r.Failed? <==> h.poisoned) && FramesBeforeLast(c, d0, log, returned)
    else
      && Lacks(c, h) && sock.ready == []
      && ((r.Failed? && sock.closed) || (r.Dropped? && !sock.closed && exhausted))
  }

  lemma DoneMeetsSpec<D, F>(c: Codec<D, F>, d0: D, h: Half<D>, log: Log<F>, sock: Socket, w0: nat, returned0: seq<F>,
                            turns: nat, fed: bool, exhausted: bool, r: ReadResult<F>)
    requires Tracks(c, d0, h, log) && WindowDone(c, d0, h, log, sock, fed, exhausted, returned0, r) && !r.NotYet?
    requires log.returned == returned0 + if r.GotFrame? then [r.frame] else []
    requires w0 + (if fed then 1 else 0) <= log.windows
    ensures ReadSpec(c, d0, h, log, sock, w0, returned0, turns, exhausted, r)
  {
  }

  // ---------------------------------------------------------------- the reader

  class ReadHalf<D(!new), F(!new)> {
    const codec: Codec<D, F>
    var half: Half<D>
    var sock: Socket
    ghost const start: D
    ghost var log: Log<F>
    ghost var arrived: seq<byte>

    ghost predicate Valid()
      reads this
    {
      Tracks(codec, start, half, log) && Resting(codec, half) && arrived == log.stream + sock.ready
    }

    constructor (codec: Codec<D, F>, d: D)
      ensures Valid() && this.codec == codec && start == d && log == Log([], 0, []) && !half.poisoned
      ensures sock == Socket([], false) && arrived == []
    {
      this.codec, half, sock := codec, Half(d, false, [], 0), Socket([], false);
      start, log, arrived := d, Log([], 0, []), [];
    }

    /** Something happens on the socket. */
    method Deliver(e: Event)
      requires arrived == log.stream + sock.ready
      modifies this`sock, this`arrived
      ensures sock == Arrive(old(sock), e) && arrived == log.stream + sock.ready
      ensures Socket(arrived, sock.closed) == Arrive(Socket(old(arrived), old(sock.closed)), e)
    {
      ArriveBehind(log.stream, sock, e);
      sock := Arrive(sock, e);
      arrived := log.stream + sock.ready;
    }

    /** Gives the window the size the decoder wants now. */
    method Resize()
      requires Valid()
      modifies this`half
      ensures Tracks(codec, start, half, log) && Sized(codec, half) && Resting(codec, half)
      ensures half == old(half).(buf := half.buf)
    {
      var expected := codec.writableLen(half.decoder);
      if |half.buf| != expected {
        var buf := seq(expected, _ => 0);
        ResizeTracks(codec, start, half, log, buf);
        half := half.(buf := buf, bytesRead := 0);
      }
    }

    /** Reads as much of what is there as the window has room for. */
    method Take() returns (n: nat)
      requires Tracks(codec, start, half, log) && Sized(codec, half) && arrived == log.stream + sock.ready
      modifies this`half, this`sock, this`log
      ensures Tracks(codec, start, half, log) && Sized(codec, half) && arrived == log.stream + sock.ready
      ensures var room := old(|half.buf| - half.bytesRead);
              n == if |old(sock.ready)| <= room then |old(sock.ready)| else room
      ensures half == old(half).(buf := half.buf, bytesRead := old(half.bytesRead) + n)
      ensures |half.buf| == old(|half.buf|) && sock == old(sock).(ready := old(sock.ready)[n..])
      ensures log == old(log).(stream := old(log.stream) + old(sock.ready)[..n])
    {
      n := if |sock.ready| <= |half.buf| - half.bytesRead then |sock.ready| else |half.buf| - half.bytesRead;
      var bytes, rest := sock.ready[..n], sock.ready[n..];
      assert bytes + rest == sock.ready;
      AcceptTracks(codec, start, half, log, bytes);
      half := Accepted(half, bytes);
      log := log.(stream := log.stream + bytes);
      sock := sock.(ready := rest);
    }

    /** The full window goes to the decoder, and one step is taken unless the transport state is lost. */
    method NextFrame() returns (r: ReadResult<F>)
      requires Tracks(codec, start, half, log) && Sized(codec, half) && half.bytesRead == |half.buf|
      modifies this`half, this`log
      ensures Tracks(codec, start, half, log) && Resting(codec, half)
      ensures Advances(old(half), old(log), half, log, r)
      ensures !r.Dropped? && (r.Failed? <==> half.poisoned)
      ensures log == old(log).(windows := old(log.windows) + 1, returned := log.returned)
      ensures FramesBeforeLast(codec, start, log, old(log.returned))
    {
      FedTracks(codec, start, half, log);
      r := FedResult(codec, half);
      log := Delivered(log, r);
      half := FedHalf(codec, half);
    }

    /**
     `try_read_frame`: takes what is there of the window, and when that completes it, takes one decoding
     step. Otherwise it says that nothing is complete yet, or that an empty socket is closed.
     */
    method TryReadFrame() returns (r: ReadResult<F>)
      requires Valid()
      modifies this`half, this`sock, this`log
      ensures Valid() && Advances(old(half), old(log), half, log, r) && !r.Dropped?
      ensures var room := old(codec.writableLen(half.decoder) - half.bytesRead);
              var n := old(if |sock.ready| <= room then |sock.ready| else room);
              && log.stream == old(log.stream) + old(sock.ready)[..n]
              && sock == old(sock).(ready := old(sock.ready)[n..])
              && log.windows == old(log.windows) + (if n == room then 1 else 0)
              && (n == room ==> (r.Failed? <==> half.poisoned))
              && (n < room ==> r == if n == 0 && sock.closed then Failed else NotYet)
    {
      Resize();
      if |half.buf| > 0 {
        if sock.ready == [] {
          assert log.returned + [] == log.returned && log.stream + [] == log.stream;
          r := if sock.closed then Failed else NotYet;
          return;
        }
        var n := Take();
        if half.bytesRead < |half.buf| {
          assert log.returned + [] == log.returned;
          return NotYet;
        }
      }
      assert log.stream + [] == log.stream;
      r := NextFrame();
    }

    /** From `base` on, the first `used` events have happened, and what was read came from the front. */
    ghost predicate Heard(base: Socket, events: seq<Event>, used: nat)
      reads this
    {
      && used <= |events| && arrived == log.stream + sock.ready
      && Socket(arrived, sock.closed) == Arrivals(base, events[..used])
    }

    /** The inner loop of `read_frame`: reads until the window is full, the socket is closed or no event is left. */
    method FillWindow(ghost base: Socket, events: seq<Event>, from: nat) returns (r: ReadResult<F>, used: nat)
      requires Tracks(codec, start, half, log) && Sized(codec, half) && Resting(codec, half)
      requires Heard(base, events, from)
      modifies this
      ensures Tracks(codec, start, half, log) && Sized(codec, half) && Heard(base, events, used)
      ensures half == old(half).(buf := half.buf, bytesRead := half.bytesRead)
      ensures log == old(log).(stream := log.stream) && old(log.stream) <= log.stream
      ensures r.NotYet? ==> half.bytesRead == |half.buf|
      ensures r.Failed? || r.Dropped? ==> Resting(codec, half) && Lacks(codec, half) && sock.ready == []
      ensures r.Failed? ==> sock.closed
      ensures r.Dropped? ==> !sock.closed && used == |events|
      ensures !r.GotFrame?
    {
      used := from;
      while half.bytesRead < |half.buf|
        invariant Tracks(codec, start, half, log) && Sized(codec, half) && Heard(base, events, used)
        invariant half == old(half).(buf := half.buf, bytesRead := half.bytesRead)
        invariant log == old(log).(stream := log.stream) && old(log.stream) <= log.stream
        decreases |events| - used, |half.buf| - half.bytesRead
      {
        if sock.ready != [] {
          var n := Take();
        } else if sock.closed {
          return Failed, used;
        } else if used == |events| {
          return Dropped, used;
        } else {
          Deliver(events[used]);
          assert events[..used + 1][..used] == events[..used];
          used := used + 1;
        }
      }
      r := NotYet;
    }

    /**
     `read_frame`: `events` is what happens on the socket while the call waits for bytes, and `turns` how
     often it is resumed after a yield; a call that runs out of either is left suspended, as if dropped there.
     When the bytes complete the next frame of the reference decode, that frame is returned.
     */
    method ReadFrame(events: seq<Event>, turns: nat) returns (r: ReadResult<F>, used: nat)
      requires Valid()
      modifies this
      ensures Valid() && Advances(old(half), old(log), half, log, r)
      ensures Heard(Socket(old(arrived), old(sock.closed)), events, used)
      ensures ReadSpec(codec, start, half, log, sock, old(log.windows), old(log.returned), turns, used == |events|, r)
      ensures var all := Arrivals(Socket(old(arrived), old(sock.closed)), events);
              !all.closed ==>
                forall m: nat, f ::
                  m <= turns + 1 && CompletesAt(codec, start, all.ready, old(log.windows), old(log.returned), m, f) ==>
                    r == GotFrame(f) && log.windows == old(log.windows) + m
    {
      ghost var base := Socket(arrived, sock.closed);
      assert events[..0] == [];
      r, used := ReadWindows(base, events, turns);
      ghost var all := Arrivals(base, events);
      ArrivalsGrow(base, events, used);
      assert events[..|events|] == events;
      assert log.stream <= arrived && (sock.ready == [] ==> log.stream == arrived);
      forall m: nat, f |
        && !all.closed && m <= turns + 1
        && CompletesAt(codec, start, all.ready, old(log.windows), old(log.returned), m, f)
        ensures r == GotFrame(f) && log.windows == old(log.windows) + m
      {
        ReadCompletes(codec, start, half, log, sock, old(log.windows), old(log.returned), turns, r, all.ready, m, f);
      }
    }

    method OneWindow(ghost base: Socket, events: seq<Event>, from: nat) returns (r: ReadResult<F>, used: nat, fed: bool)
      requires Valid() && Heard(base, events, from)
      modifies this
      ensures Valid() && Heard(base, events, used) && Advances(old(half), old(log), half, log, r)
      ensures log.windows == old(log.windows) + if fed then 1 else 0
      ensures WindowDone(codec, start, half, log, sock, fed, used == |events|, old(log.returned), r)
    {
      assert log.returned + [] == log.returned;
      Resize();
      r, used := FillWindow(base, events, from);
      fed := r.NotYet?;
      if fed {
        r := NextFrame();
      }
    }

    /** A window that is the last one of the call, or not; a yield after the last turn is as good as a drop. */
    method LastWindow(ghost base: Socket, events: seq<Event>, from: nat, left: nat, ghost w0: nat, ghost turns: nat)
      returns (r: ReadResult<F>, used: nat)
      requires Valid() && Heard(base, events, from) && left <= turns && log.windows == w0 + turns - left
      modifies this
      ensures Valid() && Heard(base, events, used) && Advances(old(half), old(log), half, log, r)
      ensures r.NotYet? ==> left > 0 && log.windows == old(log.windows) + 1
      ensures !r.NotYet? ==>
                ReadSpec(codec, start, half, log, sock, w0, old(log.returned), turns, used == |events|, r)
    {
      var fed;
      r, used, fed := OneWindow(base, events, from);
      if !r.NotYet? {
        DoneMeetsSpec(codec, start, half, log, sock, w0, old(log.returned), turns, fed, used == |events|, r);
      } else if left == 0 {
        r := Dropped;
      }
    }

    method ReadWindows(ghost base: Socket, events: seq<Event>, turns: nat) returns (r: ReadResult<F>, used: nat)
      requires Valid() && Heard(base, events, 0)
      modifies this
      ensures Valid() && Heard(base, events, used) && Advances(old(half), old(log), half, log, r)
      ensures ReadSpec(codec, start, half, log, sock, old(log.windows), old(log.returned), turns, used == |events|, r)
    {
      ghost var w0, h0, log0 := log.windows, half, log;
      var left := turns;
      r, used := LastWindow(base, events, 0, left, w0, turns);
      while r.NotYet?
        invariant Valid() && Heard(base, events, used) && Advances(h0, log0, half, log, r)
        invariant r.NotYet? ==> 0 < left <= turns && log.windows == w0 + turns - left + 1
        invariant !r.NotYet? ==>
                    ReadSpec(codec, start, half, log, sock, w0, log0.returned, turns, used == |events|, r)
        decreases r.NotYet?, left
      {
        left := left - 1;
        ghost var h, l := half, log;
        r, used := LastWindow(base, events, used, left, w0, turns);
        AdvancesOn(h0, log0, h, l, half, log, r);
        assert l.returned == log0.returned;
      }
    }
  }

  /**
   Two readers whose streams share a beginning, whatever the chunking and the calls: the one that has
   fed fewer windows has returned a prefix of the other's frames, and equal windows mean equal states.
   */
  lemma ChunkingIsInvisible<D, F>(c: Codec<D, F>, d0: D, h: Half<D>, log: Log<F>,
                                  h': Half<D>, log': Log<F>, rest: seq<byte>)
    requires Tracks(c, d0, h, log) && Tracks(c, d0, h', log') && log'.stream == log.stream + rest
    ensures log.windows <= log'.windows ==> log.returned <= log'.returned
    ensures log'.windows <= log.windows ==> log'.returned <= log.returned
    ensures log.windows == log'.windows ==>
              log.returned == log'.returned && h.decoder == h'.decoder && h.poisoned == h'.poisoned
  {
    DecodeExtends(c, d0, log.stream, rest, log.windows);
    if log.windows <= log'.windows {
      FramesGrow(c, d0, log'.stream, log.windows, log'.windows);
    }
    if log'.windows <= log.windows {
      FramesGrow(c, d0, log'.stream, log'.windows, log.windows);
    }
  }
}
