/** The wire format of client messages and the incremental reader that rebuilds them from
    arbitrary socket chunks (internal/proto/message.go, internal/cluster/client_message.go). */
module ClientMessages {
  import opened Wrappers

  type uint16 = x: int | 0 <= x < 0x1_0000

  const HEADER: nat := 6

  datatype Frame = Frame(content: seq<byte>, flags: uint16)

  /** A message is its frames; the reader's nil message is the empty list. */
  type Message = seq<Frame>

  /** Bit 13 of the flags. */
  predicate IsFinal(flags: uint16) {
    flags / 0x2000 % 2 == 1
  }

  /** Bits 15 and 14 of the flags. */
  predicate IsUnfragmented(flags: uint16) {
    flags / 0x4000 == 3
  }

  predicate Unfragmented(m: Message) {
    m != [] && IsUnfragmented(m[0].flags)
  }

  function WithFinal(flags: uint16): (r: uint16)
    ensures IsFinal(r) && (IsUnfragmented(r) <==> IsUnfragmented(flags))
  {
    if IsFinal(flags) then flags else flags + 0x2000
  }

  /** The flags bit by bit: bits 15 and 14 say that a message is unfragmented, bit 13 that a
      frame is final, and marking a frame as final sets that bit and no other. */
  lemma FlagBits(b15: nat, b14: nat, b13: nat, low: nat)
    requires b15 < 2 && b14 < 2 && b13 < 2 && low < 0x2000
    ensures
      var flags: uint16 := 0x8000 * b15 + 0x4000 * b14 + 0x2000 * b13 + low;
      && (IsUnfragmented(flags) <==> b15 == 1 && b14 == 1)
      && (IsFinal(flags) <==> b13 == 1)
      && WithFinal(flags) == 0x8000 * b15 + 0x4000 * b14 + 0x2000 + low
  {
  }

  // ---- little-endian integers ----

  /** The `k` low-order bytes of `n`, lowest first; the rest is cut off. */
  function PutUint(n: nat, k: nat): (b: seq<byte>)
    ensures |b| == k
    decreases k
  {
    if k == 0 then [] else [n % 0x100] + PutUint(n / 0x100, k - 1)
  }

  function Uint(b: seq<byte>): (n: nat)
    ensures |b| == 1 ==> n < 0x100
    ensures |b| == 2 ==> n < 0x1_0000
  {
    if b == [] then 0 else b[0] as int + 0x100 * Uint(b[1..])
  }

  ghost function Pow256(k: nat): nat {
    if k == 0 then 1 else 0x100 * Pow256(k - 1)
  }

  lemma {:induction false} PutThenGet(n: nat, k: nat)
    requires n < Pow256(k)
    ensures Uint(PutUint(n, k)) == n
    decreases k
  {
    if k > 0 {
      PutThenGet(n / 0x100, k - 1);
      assert PutUint(n, k)[1..] == PutUint(n / 0x100, k - 1);
    }
  }

  lemma {:induction false} GetThenPut(b: seq<byte>)
    ensures PutUint(Uint(b), |b|) == b
  {
    if b != [] {
      GetThenPut(b[1..]);
      assert Uint(b) % 0x100 == b[0] && Uint(b) / 0x100 == Uint(b[1..]);
    }
  }

  // ---- writing ----

  /** A frame whose length still fits the 32-bit length field. */
  predicate Fits(f: Frame) {
    |f.content| + HEADER < 0x1_0000_0000
  }

  /** The length field counts the header and has 32 bits. */
  function WriteFrame(f: Frame): (b: seq<byte>)
    ensures |b| == HEADER + |f.content|
  {
    PutUint(|f.content| + HEADER, 4) + PutUint(f.flags, 2) + f.content
  }

  /** The layout on the wire: the length, header included, in four bytes, the flags in two,
      each with the lowest byte first, and then the content. */
  lemma FrameLayout(f: Frame)
    requires Fits(f)
    ensures
      var b := WriteFrame(f);
      && b[0] as int + 0x100 * b[1] as int + 0x1_0000 * b[2] as int + 0x100_0000 * b[3] as int == |f.content| + 6
      && b[4] as int + 0x100 * b[5] as int == f.flags
      && b[6..] == f.content
  {
    var b, n := WriteFrame(f), |f.content| + HEADER;
    PutUintBytes(n);
    assert b[..4] == PutUint(n, 4) && b[4..6] == PutUint(f.flags, 2);
    assert forall i :: 0 <= i < 4 ==> b[i] == PutUint(n, 4)[i];
    assert b[4] == PutUint(f.flags, 2)[0] && b[5] == PutUint(f.flags, 2)[1];
  }

  lemma PutUintBytes(n: nat)
    ensures PutUint(n, 4) ==
        [n % 0x100, n / 0x100 % 0x100, n / 0x100 / 0x100 % 0x100, n / 0x100 / 0x100 / 0x100 % 0x100]
  {
    var a := n / 0x100;
    var b := a / 0x100;
    var c := b / 0x100;
    assert PutUint(c, 1) == [c % 0x100] + PutUint(c / 0x100, 0) == [c % 0x100];
    assert PutUint(b, 2) == [b % 0x100] + PutUint(c, 1);
    assert PutUint(a, 3) == [a % 0x100] + PutUint(b, 2);
  }

  function WriteFrames(fs: seq<Frame>): seq<byte> {
    if fs == [] then [] else WriteFrame(fs[0]) + WriteFrames(fs[1..])
  }

  // ---- one frame from the front of a byte stream ----

  datatype Next = NeedMore | Malformed | Got(frame: Frame, rest: seq<byte>)

  function NextFrame(b: seq<byte>): (r: Next)
    ensures r.Got? ==> |r.rest| < |b|
  {
    if |b| < HEADER then NeedMore
    else
      var length := Uint(b[..4]);
      if length < HEADER then Malformed
      else if |b| < length then NeedMore
      else Got(Frame(b[HEADER..length], Uint(b[4..6])), b[length..])
  }

  /** Reading a frame and writing it back gives the bytes that were consumed. */
  lemma NextFrameConsumes(b: seq<byte>)
    requires NextFrame(b).Got?
    ensures WriteFrame(NextFrame(b).frame) + NextFrame(b).rest == b
  {
    GetThenPut(b[..4]);
    GetThenPut(b[4..6]);
  }

  /** Reading what was written gives the frame back, whatever follows it. */
  lemma NextFrameOfWritten(f: Frame, tail: seq<byte>)
    requires Fits(f)
    ensures NextFrame(WriteFrame(f) + tail) == Got(f, tail)
  {
    var b := WriteFrame(f) + tail;
    var length := |f.content| + HEADER;
    assert b[..4] == PutUint(length, 4);
    assert b[4..6] == PutUint(f.flags, 2);
    assert Pow256(4) == 0x1_0000_0000 && Pow256(2) == 0x1_0000;
    PutThenGet(length, 4);
    PutThenGet(f.flags, 2);
    assert b[HEADER..length] == f.content;
    assert b[length..] == tail;
  }

  /** More bytes never change a frame or a malformed header already decided. */
  lemma NextFrameStable(a: seq<byte>, b: seq<byte>)
    ensures NextFrame(a).Got? ==> NextFrame(a + b) == Got(NextFrame(a).frame, NextFrame(a).rest + b)
    ensures NextFrame(a).Malformed? ==> NextFrame(a + b).Malformed?
  {
    if |a| >= HEADER {
      assert (a + b)[..4] == a[..4] && (a + b)[4..6] == a[4..6];
      var length := Uint(a[..4]);
      if HEADER <= length <= |a| {
        assert (a + b)[HEADER..length] == a[HEADER..length];
        assert (a + b)[length..] == a[length..] + b;
      }
    }
  }

  // ---- all frames of a byte stream ----

  /** The complete frames at the front, the bytes after them, and whether those begin with
      a malformed length. */
  datatype Parsed = Parsed(frames: seq<Frame>, rest: seq<byte>, malformed: bool)

  function Parse(b: seq<byte>): Parsed
    decreases |b|
  {
    match NextFrame(b)
    case NeedMore => Parsed([], b, false)
    case Malformed => Parsed([], b, true)
    case Got(f, rest) => var p := Parse(rest); p.(frames := [f] + p.frames)
  }

  /** Bytes that arrive later only continue what was parsed so far. */
  lemma {:induction false} ParseInTwo(a: seq<byte>, b: seq<byte>)
    ensures Parse(a).malformed ==> Parse(a + b).malformed && Parse(a + b).frames == Parse(a).frames
    ensures !Parse(a).malformed ==>
              var q := Parse(Parse(a).rest + b);
              Parse(a + b) == Parsed(Parse(a).frames + q.frames, q.rest, q.malformed)
    decreases |a|
  {
    NextFrameStable(a, b);
    match NextFrame(a)
    case NeedMore => assert [] + Parse(a + b).frames == Parse(a + b).frames;
    case Malformed =>
    case Got(f, rest) =>
      ParseInTwo(rest, b);
      ParseOneMore(a, f, rest);
      ParseOneMore(a + b, f, rest + b);
      var p := Parse(rest);
      AppendAssociates([f], p.frames, Parse(p.rest + b).frames);
  }

  lemma ParseOneMore(b: seq<byte>, f: Frame, rest: seq<byte>)
    requires NextFrame(b) == Got(f, rest)
    ensures Parse(b) == Parsed([f] + Parse(rest).frames, Parse(rest).rest, Parse(rest).malformed)
  {
  }

  /** Whatever the bytes, the frames written back and the rest are the bytes. */
  lemma {:induction false} ParseConsumes(b: seq<byte>)
    ensures WriteFrames(Parse(b).frames) + Parse(b).rest == b
    decreases |b|
  {
    if NextFrame(b).Got? {
      var f, rest := NextFrame(b).frame, NextFrame(b).rest;
      NextFrameConsumes(b);
      ParseConsumes(rest);
      ParseOneMore(b, f, rest);
      WriteOneMore(f, Parse(rest).frames);
      AppendAssociates(WriteFrame(f), WriteFrames(Parse(rest).frames), Parse(rest).rest);
    }
  }

  lemma WriteOneMore(f: Frame, fs: seq<Frame>)
    ensures WriteFrames([f] + fs) == WriteFrame(f) + WriteFrames(fs)
  {
    assert ([f] + fs)[1..] == fs;
  }

  lemma {:induction false} ParseOfWritten(fs: seq<Frame>)
    requires forall f :: f in fs ==> Fits(f)
    ensures Parse(WriteFrames(fs)) == Parsed(fs, [], false)
  {
    if fs != [] {
      NextFrameOfWritten(fs[0], WriteFrames(fs[1..]));
      ParseOfWritten(fs[1..]);
      assert [fs[0]] + fs[1..] == fs;
    }
  }

  lemma {:induction false} ParseLeavesNoFrame(b: seq<byte>)
    requires !Parse(b).malformed
    ensures Parse(Parse(b).rest) == Parsed([], Parse(b).rest, false)
    decreases |b|
  {
    if NextFrame(b).Got? {
      ParseLeavesNoFrame(NextFrame(b).rest);
    }
  }

  // ---- frames into messages ----

  datatype Grouped = Grouped(delivered: seq<Message>, current: Message)

  /** A message complete with its final frame is handed on only if its first frame is
      flagged unfragmented; otherwise frames keep being added to it. */
  function Group(current: Message, fs: seq<Frame>): Grouped
    decreases |fs|
  {
    if fs == [] then Grouped([], current)
    else
      var m := current + [fs[0]];
      if IsFinal(fs[0].flags) && Unfragmented(m) then
        var g := Group([], fs[1..]);
        g.(delivered := [m] + g.delivered)
      else Group(m, fs[1..])
  }

  lemma {:induction false} GroupInTwo(current: Message, fs: seq<Frame>, gs: seq<Frame>)
    ensures
      var p := Group(current, fs);
      var q := Group(p.current, gs);
      Group(current, fs + gs) == Grouped(p.delivered + q.delivered, q.current)
    decreases |fs|
  {
    if fs == [] {
      assert fs + gs == gs;
    } else {
      assert (fs + gs)[1..] == fs[1..] + gs;
      var m := current + [fs[0]];
      GroupInTwo(if IsFinal(fs[0].flags) && Unfragmented(m) then [] else m, fs[1..], gs);
    }
  }

  /** The frames of a list of messages, in order. */
  function Flatten(ms: seq<Message>): seq<Frame> {
    if ms == [] then [] else ms[0] + Flatten(ms[1..])
  }

  /** Grouping loses, adds and reorders no frame. */
  lemma {:induction false} GroupKeepsFrames(current: Message, fs: seq<Frame>)
    ensures Flatten(Group(current, fs).delivered) + Group(current, fs).current == current + fs
    decreases |fs|
  {
    if fs != [] {
      var m := current + [fs[0]];
      assert m + fs[1..] == current + fs;
      if IsFinal(fs[0].flags) && Unfragmented(m) {
        GroupKeepsFrames([], fs[1..]);
        assert Group(current, fs).delivered[1..] == Group([], fs[1..]).delivered;
        assert [] + fs[1..] == fs[1..];
      } else {
        GroupKeepsFrames(m, fs[1..]);
      }
    }
  }

  /** Frames that complete no unfragmented message pile up in the current one. */
  lemma {:induction false} FramesPileUp(current: Message, fs: seq<Frame>)
    requires forall i :: 0 <= i < |fs| && IsFinal(fs[i].flags) ==> !Unfragmented(current + fs)
    ensures Group(current, fs) == Grouped([], current + fs)
    decreases |fs|
  {
    if fs != [] {
      var m := current + [fs[0]];
      assert m + fs[1..] == current + fs;
      assert m[0] == (current + fs)[0];
      FramesPileUp(m, fs[1..]);
    }
  }

  // ---- what the connection's read loop makes of a byte stream ----

  /** The messages handed on, the message under construction, the bytes not yet turned
      into frames, and whether the reader panicked on a malformed length. */
  datatype Progress = Progress(delivered: seq<Message>, current: Message, rest: seq<byte>, panicked: bool)

  function Drain(current: Message, b: seq<byte>): Progress {
    var p := Parse(b);
    var g := Group(current, p.frames);
    Progress(g.delivered, g.current, p.rest, p.malformed)
  }

  /** The loop seen one frame at a time. */
  lemma DrainOneFrame(current: Message, b: seq<byte>)
    ensures Drain(current, b) ==
            match NextFrame(b)
            case NeedMore => Progress([], current, b, false)
            case Malformed => Progress([], current, b, true)
            case Got(f, rest) =>
              var m := current + [f];
              if IsFinal(f.flags) && Unfragmented(m) then
                var p := Drain([], rest);
                p.(delivered := [m] + p.delivered)
              else Drain(m, rest)
  {
    if NextFrame(b).Got? {
      assert Parse(b).frames[1..] == Parse(NextFrame(b).rest).frames;
    }
  }

  function Concat(chunks: seq<seq<byte>>): seq<byte> {
    if chunks == [] then [] else chunks[0] + Concat(chunks[1..])
  }

  /** Feeding the chunks one at a time, until a panic. */
  function DrainChunks(current: Message, pending: seq<byte>, chunks: seq<seq<byte>>): Progress
    decreases |chunks|
  {
    if chunks == [] then Progress([], current, pending, false)
    else
      var p := Drain(current, pending + chunks[0]);
      if p.panicked then p
      else
        var q := DrainChunks(p.current, p.rest, chunks[1..]);
        q.(delivered := p.delivered + q.delivered)
  }

  /** Where the stream is cut, even inside a header, cannot be seen in the result: what is
      delivered, and without a panic the whole state, is that of the uncut stream. */
  lemma {:induction false} ChunkingIsInvisible(current: Message, pending: seq<byte>, chunks: seq<seq<byte>>)
    requires Parse(pending) == Parsed([], pending, false)
    ensures
      var whole := Drain(current, pending + Concat(chunks));
      var p := DrainChunks(current, pending, chunks);
      p.delivered == whole.delivered && p.panicked == whole.panicked && (!p.panicked ==> p == whole)
    decreases |chunks|
  {
    if chunks == [] {
      assert pending + Concat(chunks) == pending;
    } else {
      var a, b := pending + chunks[0], Concat(chunks[1..]);
      assert pending + Concat(chunks) == a + b;
      ParseInTwo(a, b);
      if !Parse(a).malformed {
        ParseLeavesNoFrame(a);
        GroupInTwo(current, Parse(a).frames, Parse(Parse(a).rest + b).frames);
        ChunkingIsInvisible(Drain(current, a).current, Parse(a).rest, chunks[1..]);
      }
    }
  }

  /** Conservation, for arbitrary input bytes: the frames delivered or under construction,
      written back, followed by the bytes still pending, are exactly the bytes received. */
  lemma NoByteLost(b: seq<byte>)
    ensures
      var p := Drain([], b);
      WriteFrames(Flatten(p.delivered) + p.current) + p.rest == b
  {
    ParseConsumes(b);
    GroupKeepsFrames([], Parse(b).frames);
    assert [] + Parse(b).frames == Parse(b).frames;
  }

  // ---- round trip ----

  /** A message as `ClientMessage.Write` sends it: the last frame is flagged final. */
  function AsWritten(m: Message): (r: Message)
    ensures |r| == |m|
  {
    if m == [] then []
    else m[..|m| - 1] + [m[|m| - 1].(flags := WithFinal(m[|m| - 1].flags))]
  }

  /** Writing changes nothing but the final bit of the last frame. */
  lemma AsWrittenKeeps(m: Message, i: nat)
    requires i < |m|
    ensures
      var f := AsWritten(m)[i];
      f.content == m[i].content && f.flags == if i == |m| - 1 then WithFinal(m[i].flags) else m[i].flags
  {
  }

  function AllAsWritten(ms: seq<Message>): (r: seq<Message>)
    ensures |r| == |ms|
  {
    if ms == [] then [] else [AsWritten(ms[0])] + AllAsWritten(ms[1..])
  }

  /** The bytes of messages written one after another. */
  function WriteAll(ms: seq<Message>): seq<byte> {
    WriteFrames(Flatten(AllAsWritten(ms)))
  }

  /** A message with at least one frame, of which none but the last is flagged final. */
  predicate Sendable(m: Message) {
    && m != []
    && (forall i :: 0 <= i < |m| ==> Fits(m[i]))
    && (forall i :: 0 <= i < |m| - 1 ==> !IsFinal(m[i].flags))
  }

  lemma {:induction false} AllFit(ms: seq<Message>)
    requires forall m :: m in ms ==> Sendable(m)
    ensures forall f :: f in Flatten(AllAsWritten(ms)) ==> Fits(f)
  {
    if ms != [] {
      AllFit(ms[1..]);
      assert AllAsWritten(ms)[1..] == AllAsWritten(ms[1..]);
      assert ms[0] in ms;
      var w := AsWritten(ms[0]);
      assert forall i :: 0 <= i < |w| ==> w[i].content == ms[0][i].content;
      assert forall i :: 0 <= i < |w| ==> Fits(w[i]) by {
        assert forall i :: 0 <= i < |w| ==> Fits(ms[0][i]);
      }
    }
  }

  /** One unfragmented message arrives as one message. */
  lemma OneMessageArrives(m: Message)
    requires Sendable(m) && Unfragmented(m)
    ensures Group([], AsWritten(m)) == Grouped([AsWritten(m)], [])
  {
    var w := AsWritten(m);
    var init, last := w[..|w| - 1], w[|w| - 1];
    FramesPileUp([], init);
    assert [] + init == init;
    assert w == init + [last];
    GroupInTwo([], init, [last]);
    assert Unfragmented(w);
  }

  /** How many messages come before the first fragmented one. */
  function Leading(ms: seq<Message>): (n: nat)
    ensures n <= |ms|
    ensures n == |ms| <==> forall m :: m in ms ==> Unfragmented(m)
  {
    if ms == [] || !Unfragmented(ms[0]) then 0 else 1 + Leading(ms[1..])
  }

  lemma {:induction false} GroupOfMessages(ms: seq<Message>)
    requires forall m :: m in ms ==> Sendable(m)
    ensures
      var w, n := AllAsWritten(ms), Leading(ms);
      Group([], Flatten(w)) == Grouped(w[..n], Flatten(w[n..]))
    decreases |ms|
  {
    var w, n := AllAsWritten(ms), Leading(ms);
    if ms == [] {
    } else if Unfragmented(ms[0]) {
      var v := AllAsWritten(ms[1..]);
      assert w[1..] == v && w[..n] == [w[0]] + v[..n - 1] && w[n..] == v[n - 1..];
      OneMessageArrives(ms[0]);
      GroupInTwo([], w[0], Flatten(v));
      GroupOfMessages(ms[1..]);
    } else {
      assert w[0..] == w;
      assert ms[0] in ms && w[0] == AsWritten(ms[0]);
      assert ([] + Flatten(w))[0] == w[0][0];
      FramesPileUp([], Flatten(w));
      assert [] + Flatten(w) == Flatten(w);
    }
  }

  /** The round trip, and exactly how far it holds: of messages written one after another
      and cut into any chunks, the reader delivers those before the first fragmented one,
      in order, and keeps every frame from there on in the message under construction. */
  lemma ChunkedRoundTrip(ms: seq<Message>, chunks: seq<seq<byte>>)
    requires forall m :: m in ms ==> Sendable(m)
    requires Concat(chunks) == WriteAll(ms)
    ensures
      var w, n := AllAsWritten(ms), Leading(ms);
      DrainChunks([], [], chunks) == Progress(w[..n], Flatten(w[n..]), [], false)
  {
    ChunkingIsInvisible([], [], chunks);
    assert [] + Concat(chunks) == WriteAll(ms);
    AllFit(ms);
    ParseOfWritten(Flatten(AllAsWritten(ms)));
    GroupOfMessages(ms);
  }

  /** So the list comes out as sent if and only if all messages are unfragmented. */
  lemma RoundTripIffUnfragmented(ms: seq<Message>, chunks: seq<seq<byte>>)
    requires forall m :: m in ms ==> Sendable(m)
    requires Concat(chunks) == WriteAll(ms)
    ensures DrainChunks([], [], chunks).delivered == AllAsWritten(ms) <==> forall m :: m in ms ==> Unfragmented(m)
  {
    ChunkedRoundTrip(ms, chunks);
    assert AllAsWritten(ms)[..|ms|] == AllAsWritten(ms);
  }
}
