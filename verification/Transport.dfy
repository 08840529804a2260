/** Messages over an encrypted socket: framing with padding to the cipher's 16-byte blocks,
    chunked writes, and reads that arrive in fragments of any size. */
module Transport {
  import opened Wrappers
  import opened Bytes
  import opened Sequences

  const BLOCK := 16
  const BUFFER := 4096
  const HEADER := 8
  const LEFTOVER := 8
  const MAX_MESSAGE_SIZE := 1024 * 1024 * 2
  const UINT32: nat := 0x1_0000_0000

  // ---------- The block cipher ----------

  // A cipher that works block by block and carries a state along, one step each way.
  datatype Cipher<!S> = Cipher(encode: (S, seq<byte>) -> (seq<byte>, S), decode: (S, seq<byte>) -> (seq<byte>, S))

  // Decoding a block undoes encoding it and leaves the decoder in the encoder's state.
  ghost predicate Matching<S(!new)>(c: Cipher<S>) {
    && (forall s, b :: |b| == BLOCK ==> |c.encode(s, b).0| == BLOCK && |c.decode(s, b).0| == BLOCK)
    && (forall s, b :: |b| == BLOCK ==> c.decode(s, c.encode(s, b).0) == (b, c.encode(s, b).1))
  }

  predicate Aligned(d: seq<byte>) {
    |d| % BLOCK == 0
  }

  type StepFn<!S> = (S, seq<byte>) -> (seq<byte>, S)

  // The bytes that come out for the blocks of d, and the state they leave.
  ghost function Output<S>(step: StepFn<S>, s: S, d: seq<byte>): seq<byte>
    requires Aligned(d)
  {
    if d == [] then [] else step(s, d[..BLOCK]).0 + Output(step, step(s, d[..BLOCK]).1, d[BLOCK..])
  }

  ghost function After<S>(step: StepFn<S>, s: S, d: seq<byte>): S
    requires Aligned(d)
  {
    if d == [] then s else After(step, step(s, d[..BLOCK]).1, d[BLOCK..])
  }

  lemma {:induction false} RunAppend<S>(step: StepFn<S>, s: S, a: seq<byte>, b: seq<byte>)
    requires Aligned(a) && Aligned(b)
    ensures Aligned(a + b)
    ensures Output(step, s, a + b) == Output(step, s, a) + Output(step, After(step, s, a), b)
    ensures After(step, s, a + b) == After(step, After(step, s, a), b)
    decreases |a|
  {
    hide Output, After, Aligned;
    AlignedSum(a, b);
    if a == [] {
      assert a + b == b;
      RunNothing(step, s);
      assert [] + Output(step, s, b) == Output(step, s, b);
    } else {
      RunFirst(step, s, a);
      RunFirst(step, s, a + b);
      RunAppend(step, step(s, a[..BLOCK]).1, a[BLOCK..], b);
      assert (a + b)[..BLOCK] == a[..BLOCK] && (a + b)[BLOCK..] == a[BLOCK..] + b;
    }
  }

  lemma AlignedSum(a: seq<byte>, b: seq<byte>)
    requires Aligned(a) && Aligned(b)
    ensures Aligned(a + b)
  {
  }

  lemma RunNothing<S>(step: StepFn<S>, s: S)
    ensures Aligned([]) && Output(step, s, []) == [] && After(step, s, []) == s
  {
  }

  lemma RunFirst<S>(step: StepFn<S>, s: S, d: seq<byte>)
    requires Aligned(d) && d != []
    ensures |d| >= BLOCK && Aligned(d[BLOCK..])
    ensures Output(step, s, d) == step(s, d[..BLOCK]).0 + Output(step, step(s, d[..BLOCK]).1, d[BLOCK..])
    ensures After(step, s, d) == After(step, step(s, d[..BLOCK]).1, d[BLOCK..])
  {
  }

  lemma {:induction false} RunOne<S>(step: StepFn<S>, s: S, b: seq<byte>)
    requires |b| == BLOCK
    ensures Output(step, s, b) == step(s, b).0 && After(step, s, b) == step(s, b).1
  {
    assert b[..BLOCK] == b && b[BLOCK..] == [];
  }

  lemma {:induction false} RunLength<S(!new)>(c: Cipher<S>, s: S, d: seq<byte>)
    requires Matching(c) && Aligned(d)
    ensures |Output(c.encode, s, d)| == |d| && |Output(c.decode, s, d)| == |d|
    decreases |d|
  {
    if d != [] {
      RunLength(c, c.encode(s, d[..BLOCK]).1, d[BLOCK..]);
      RunLength(c, c.decode(s, d[..BLOCK]).1, d[BLOCK..]);
    }
  }

  lemma {:induction false} DecodeUndoesEncode<S(!new)>(c: Cipher<S>, s: S, d: seq<byte>)
    requires Matching(c) && Aligned(d)
    ensures var sent := Output(c.encode, s, d);
            && |sent| == |d|
            && Output(c.decode, s, sent) == d
            && After(c.decode, s, sent) == After(c.encode, s, d)
    decreases |d|
  {
    hide Output, After, Matching, Aligned;
    RunLength(c, s, d);
    if d == [] {
      RunNothing(c.encode, s);
      RunNothing(c.decode, s);
    } else {
      RunFirst(c.encode, s, d);
      var next := c.encode(s, d[..BLOCK]).1;
      RunLength(c, next, d[BLOCK..]);
      AlignedLength(d[BLOCK..], Output(c.encode, next, d[BLOCK..]));
      DecodeFirst(c, s, d[..BLOCK], Output(c.encode, next, d[BLOCK..]));
      DecodeUndoesEncode(c, next, d[BLOCK..]);
      assert d == d[..BLOCK] + d[BLOCK..];
    }
  }

  lemma AlignedLength(d: seq<byte>, e: seq<byte>)
    requires Aligned(d) && |d| == |e|
    ensures Aligned(e)
  {
  }

  // What was encoded from a block decodes to it and leaves the state the encoder is in.
  lemma DecodeFirst<S(!new)>(c: Cipher<S>, s: S, b: seq<byte>, rest: seq<byte>)
    requires Matching(c) && |b| == BLOCK && Aligned(rest)
    ensures var one := c.encode(s, b);
            && Aligned(one.0 + rest)
            && Output(c.decode, s, one.0 + rest) == b + Output(c.decode, one.1, rest)
            && After(c.decode, s, one.0 + rest) == After(c.decode, one.1, rest)
  {
    hide Output, After, Matching, Aligned;
    var one := c.encode(s, b);
    OneBlock(c, s, b);
    BlockBefore(one.0, rest);
    RunFirst(c.decode, s, one.0 + rest);
  }

  lemma OneBlock<S(!new)>(c: Cipher<S>, s: S, b: seq<byte>)
    requires Matching(c) && |b| == BLOCK
    ensures |c.encode(s, b).0| == BLOCK && c.decode(s, c.encode(s, b).0) == (b, c.encode(s, b).1)
  {
  }

  lemma BlockBefore(b: seq<byte>, rest: seq<byte>)
    requires |b| == BLOCK && Aligned(rest)
    ensures Aligned(b + rest) && b + rest != []
    ensures (b + rest)[..BLOCK] == b && (b + rest)[BLOCK..] == rest
  {
  }

  // ---------- The socket ----------

  class StcpSocket<S(!new)> {
    const cipher: Cipher<S>
    var sendState: S
    var recvState: S
    // Bytes handed to TCP, and bytes TCP has for us.
    var outgoing: seq<byte>
    var incoming: seq<byte>

    constructor (cipher: Cipher<S>, state: S, incoming: seq<byte>)
      ensures this.cipher == cipher && sendState == recvState == state
      ensures outgoing == [] && this.incoming == incoming
    {
      this.cipher := cipher;
      sendState, recvState := state, state;
      outgoing, this.incoming := [], incoming;
    }

    // The AES coder: all whole blocks of the buffer.
    static method RunBlocks(step: StepFn<S>, s: S, buffer: seq<byte>) returns (result: seq<byte>, state: S)
      requires Aligned(buffer)
      ensures result == Output(step, s, buffer) && state == After(step, s, buffer)
    {
      result, state := [], s;
      var i := 0;
      while i < |buffer|
        invariant i <= |buffer| && Aligned(buffer[..i])
        invariant result == Output(step, s, buffer[..i]) && state == After(step, s, buffer[..i])
      {
        ghost var b := buffer[i..i + BLOCK];
        RunOne(step, state, b);
        RunAppend(step, s, buffer[..i], b);
        assert buffer[..i] + b == buffer[..i + BLOCK];
        var one := step(state, buffer[i..i + BLOCK]);
        result, state := result + one.0, one.1;
        i := i + BLOCK;
      }
      assert buffer[..i] == buffer;
    }

    // stcp_socket::writesome: at most one buffer's worth is encoded and written.
    method WriteSome(buffer: seq<byte>) returns (n: nat)
      requires buffer != [] && Aligned(buffer)
      modifies this`sendState, this`outgoing
      ensures 0 < n <= |buffer| && Aligned(buffer[..n])
      ensures outgoing == old(outgoing) + Output(cipher.encode, old(sendState), buffer[..n])
      ensures sendState == After(cipher.encode, old(sendState), buffer[..n])
    {
      n := if BUFFER < |buffer| then BUFFER else |buffer|;
      var encoded, state := RunBlocks(cipher.encode, sendState, buffer[..n]);
      sendState := state;
      outgoing := outgoing + encoded;
    }

    // Writing a whole buffer: writesome until everything is out.
    method Write(buffer: seq<byte>)
      requires Aligned(buffer)
      modifies this`sendState, this`outgoing
      ensures outgoing == old(outgoing) + Output(cipher.encode, old(sendState), buffer)
      ensures sendState == After(cipher.encode, old(sendState), buffer)
    {
      hide Output, After;
      ghost var s0, out0 := sendState, outgoing;
      NothingDone(cipher.encode, s0);
      var done := 0;
      while done < |buffer|
        invariant done <= |buffer| && Aligned(buffer[..done])
        invariant outgoing == out0 + Output(cipher.encode, s0, buffer[..done])
        invariant sendState == After(cipher.encode, s0, buffer[..done])
      {
        ghost var before := buffer[..done];
        var n := WriteSome(buffer[done..]);
        ghost var part := buffer[done..][..n];
        RunAppend(cipher.encode, s0, before, part);
        assert before + part == buffer[..done + n];
        done := done + n;
      }
      assert buffer[..done] == buffer;
    }

    // One TCP read: any non-empty part of what is there, up to len. None: end of stream.
    method TcpReadSome(len: nat) returns (r: Option<seq<byte>>)
      requires len > 0
      modifies this`incoming
      ensures r.None? ==> old(incoming) == [] == incoming
      ensures r.Some? ==> 0 < |r.value| <= len && old(incoming) == r.value + incoming
    {
      if incoming == [] {
        return None;
      }
      var n :| 0 < n <= len && n <= |incoming|;
      r := Some(incoming[..n]);
      incoming := incoming[n..];
    }

    // TCP reads until len bytes are there.
    method TcpRead(len: nat) returns (r: Option<seq<byte>>)
      modifies this`incoming
      ensures r.Some? <==> |old(incoming)| >= len
      ensures r.Some? ==> |r.value| == len && old(incoming) == r.value + incoming
    {
      var got: seq<byte> := [];
      while |got| < len
        invariant |got| <= len && old(incoming) == got + incoming
        decreases len - |got|
      {
        var some := TcpReadSome(len - |got|);
        if some.None? {
          return None;
        }
        got := got + some.value;
      }
      r := Some(got);
    }

    // stcp_socket::readsome: what arrived is completed to whole blocks and decoded. The
    // completion never goes past the requested length.
    method ReadSome(len: nat) returns (r: Option<seq<byte>>)
      requires Matching(cipher) && len > 0 && len % BLOCK == 0
      modifies this`incoming, this`recvState
      ensures r.None? ==> |old(incoming)| < len
      ensures r.Some? ==>
                && 0 < |r.value| <= len && |r.value| <= |old(incoming)|
                && Aligned(old(incoming)[..|r.value|])
                && r.value == Output(cipher.decode, old(recvState), old(incoming)[..|r.value|])
                && recvState == After(cipher.decode, old(recvState), old(incoming)[..|r.value|])
                && incoming == old(incoming)[|r.value|..]
    {
      hide Output, After, Matching;
      var want := if BUFFER < len then BUFFER else len;
      var first := TcpReadSome(want);
      if first.None? {
        return None;
      }
      var buffer := first.value;
      if |buffer| % BLOCK != 0 {
        CompletionFits(|buffer|, len);
        var more := TcpRead(BLOCK - |buffer| % BLOCK);
        if more.None? {
          return None;
        }
        buffer := buffer + more.value;
      }
      assert old(incoming) == buffer + incoming;
      assert buffer == old(incoming)[..|buffer|];
      RunLength(cipher, recvState, buffer);
      var decoded, state := RunBlocks(cipher.decode, recvState, buffer);
      recvState := state;
      r := Some(decoded);
    }

    // Reading exactly len bytes, whatever the fragments.
    method Read(len: nat) returns (r: Option<seq<byte>>)
      requires Matching(cipher) && len % BLOCK == 0
      modifies this`incoming, this`recvState
      ensures r.Some? <==> |old(incoming)| >= len
      ensures r.Some? ==>
                && Aligned(old(incoming)[..len])
                && r.value == Output(cipher.decode, old(recvState), old(incoming)[..len])
                && recvState == After(cipher.decode, old(recvState), old(incoming)[..len])
                && incoming == old(incoming)[len..]
    {
      hide Output, After;
      ghost var all, s0 := incoming, recvState;
      NothingDone(cipher.decode, s0);
      var got: seq<byte> := [];
      while |got| < len
        invariant |got| <= len && |got| <= |all| && incoming == all[|got|..] && Aligned(all[..|got|])
        invariant got == Output(cipher.decode, s0, all[..|got|]) && recvState == After(cipher.decode, s0, all[..|got|])
        decreases len - |got|
      {
        ghost var before := all[..|got|];
        var some := ReadSome(len - |got|);
        if some.None? {
          return None;
        }
        ghost var part := all[|got|..][..|some.value|];
        RunAppend(cipher.decode, s0, before, part);
        assert before + part == all[..|got| + |some.value|];
        got := got + some.value;
      }
      r := Some(got);
    }
  }

  // Completing a fragment to whole blocks never asks for more than whole blocks hold.
  lemma CompletionFits(n: nat, len: nat)
    requires n <= len && len % BLOCK == 0 && n % BLOCK != 0
    ensures (n + (BLOCK - n % BLOCK)) % BLOCK == 0
    ensures n + (BLOCK - n % BLOCK) <= len
  {
  }

  lemma NothingDone<S>(step: StepFn<S>, s: S)
    ensures Output(step, s, []) == [] && After(step, s, []) == s
  {
  }

  // ---------- Messages ----------

  datatype Message = Message(msgType: nat, data: seq<byte>)

  // Sizes and types are 32-bit fields of the header.
  predicate Fits32(m: Message) {
    |m.data| < UINT32 && m.msgType < UINT32
  }

  function Header(m: Message): (h: seq<byte>)
    ensures |h| == HEADER
  {
    LittleEndian(|m.data|, 4) + LittleEndian(m.msgType, 4)
  }

  // The size send_message pads to.
  function FrameSize(size: nat): nat {
    16 * ((HEADER + size + 15) / 16)
  }

  // What read_loop reads after the first block: the subtraction is done in 32-bit unsigned
  // arithmetic.
  function RemainingBytes(size: nat): nat {
    16 * ((size + UINT32 - LEFTOVER + 15) % UINT32 / 16)
  }

  // Both sides agree on where a frame ends; sizes below LEFTOVER wrap around to no extra bytes.
  lemma FrameSizesAgree(size: nat)
    requires size <= MAX_MESSAGE_SIZE
    ensures BLOCK + RemainingBytes(size) == FrameSize(size)
    ensures FrameSize(size) % BLOCK == 0 && HEADER + size <= FrameSize(size)
    ensures size <= LEFTOVER ==> RemainingBytes(size) == 0
  {
    if size < LEFTOVER {
      assert (size + UINT32 - LEFTOVER + 15) % UINT32 / 16 == 0;
    } else {
      assert (size + UINT32 - LEFTOVER + 15) % UINT32 == size - LEFTOVER + 15;
    }
  }

  // The message, whatever the padding holds.
  ghost predicate IsFrame(m: Message, f: seq<byte>) {
    && |f| == FrameSize(|m.data|)
    && HEADER + |m.data| <= |f|
    && f[..HEADER] == Header(m)
    && f[HEADER..HEADER + |m.data|] == m.data
  }

  // plain is the frames of ms one after the other.
  ghost predicate Carries(ms: seq<Message>, plain: seq<byte>)
    decreases |ms|
  {
    if ms == [] then plain == []
    else
      var n := FrameSize(|ms[0].data|);
      n <= |plain| && IsFrame(ms[0], plain[..n]) && Carries(ms[1..], plain[n..])
  }

  lemma {:induction false} CarriesAppend(ms: seq<Message>, plain: seq<byte>, m: Message, f: seq<byte>)
    requires Carries(ms, plain) && IsFrame(m, f)
    ensures Carries(ms + [m], plain + f)
    decreases |ms|
  {
    hide IsFrame, FrameSize;
    if ms == [] {
      assert plain + f == f;
      OneFrame(m, f);
      assert [] + [m] == [m];
    } else {
      var n := FrameSize(|ms[0].data|);
      CarriesAppend(ms[1..], plain[n..], m, f);
      assert (ms + [m])[1..] == ms[1..] + [m];
      CutAppended(plain, f, n);
    }
  }

  lemma OneFrame(m: Message, f: seq<byte>)
    requires IsFrame(m, f)
    ensures Carries([m], f)
  {
    assert f[..|f|] == f && f[|f|..] == [] && [m][1..] == [];
  }

  lemma CutAppended(plain: seq<byte>, f: seq<byte>, n: nat)
    requires n <= |plain|
    ensures (plain + f)[..n] == plain[..n] && (plain + f)[n..] == plain[n..] + f
  {
  }

  lemma {:induction false} CarriesAligned(ms: seq<Message>, plain: seq<byte>)
    requires Carries(ms, plain)
    ensures Aligned(plain)
    decreases |ms|
  {
    hide FrameSize, IsFrame;
    if ms != [] {
      var n := FrameSize(|ms[0].data|);
      CarriesAligned(ms[1..], plain[n..]);
      FrameSizeAligned(|ms[0].data|);
      assert |plain| == n + |plain[n..]|;
    }
  }

  lemma FrameSizeAligned(size: nat)
    ensures FrameSize(size) % BLOCK == 0
  {
  }

  // send_message. The padding is whatever the allocated buffer held.
  method SendMessage<S(!new)>(sock: StcpSocket<S>, m: Message) returns (ghost frame: seq<byte>)
    modifies sock`sendState, sock`outgoing
    ensures IsFrame(m, frame) && Aligned(frame)
    ensures sock.outgoing == old(sock.outgoing) + Output(sock.cipher.encode, old(sock.sendState), frame)
    ensures sock.sendState == After(sock.cipher.encode, old(sock.sendState), frame)
  {
    hide Output, After, LittleEndian;
    var size := HEADER + |m.data|;
    var sizeWithPadding := 16 * ((size + 15) / 16);
    assert |seq(sizeWithPadding - size, _ => 0 as byte)| == sizeWithPadding - size;
    var padding: seq<byte> :| |padding| == sizeWithPadding - size;
    var padded := Header(m) + m.data + padding;
    sock.Write(padded);
    frame := padded;
  }

  // Sending a list of messages.
  method SendAll<S(!new)>(sock: StcpSocket<S>, ms: seq<Message>) returns (ghost plain: seq<byte>)
    modifies sock`sendState, sock`outgoing
    ensures Carries(ms, plain) && Aligned(plain)
    ensures sock.outgoing == old(sock.outgoing) + Output(sock.cipher.encode, old(sock.sendState), plain)
  {
    hide Output, After, IsFrame;
    ghost var s0, out0 := sock.sendState, sock.outgoing;
    plain := [];
    NothingDone(sock.cipher.encode, s0);
    var i := 0;
    while i < |ms|
      invariant i <= |ms| && Carries(ms[..i], plain) && Aligned(plain)
      invariant sock.outgoing == out0 + Output(sock.cipher.encode, s0, plain)
      invariant sock.sendState == After(sock.cipher.encode, s0, plain)
    {
      ghost var frame := SendMessage(sock, ms[i]);
      RunAppend(sock.cipher.encode, s0, plain, frame);
      CarriesAppend(ms[..i], plain, ms[i], frame);
      assert ms[..i] + [ms[i]] == ms[..i + 1];
      plain := plain + frame;
      i := i + 1;
    }
    assert ms[..i] == ms;
  }

  // ---------- Receiving ----------

  datatype ReadOutcome = Received(m: Message) | EndOfStream | TooLarge

  // What is still to be read is the encoding of plain, the two ciphers being in step.
  ghost predicate InStep<S(!new)>(sock: StcpSocket<S>, plain: seq<byte>)
    reads sock
  {
    Matching(sock.cipher) && Aligned(plain) && sock.incoming == Output(sock.cipher.encode, sock.recvState, plain)
  }

  // Reading from an honest peer gives the plain bytes back, in any fragments.
  method ReadPlain<S(!new)>(sock: StcpSocket<S>, len: nat, ghost plain: seq<byte>) returns (r: Option<seq<byte>>)
    requires InStep(sock, plain) && len % BLOCK == 0
    modifies sock`incoming, sock`recvState
    ensures r.Some? <==> |plain| >= len
    ensures r.Some? ==> r.value == plain[..len] && InStep(sock, plain[len..])
  {
    hide Output, After;
    ghost var c, s0, all := sock.cipher, sock.recvState, sock.incoming;
    RunLength(c, s0, plain);
    r := sock.Read(len);
    if r.Some? {
      ghost var a, b := plain[..len], plain[len..];
      assert a + b == plain;
      RunAppend(c.encode, s0, a, b);
      DecodeUndoesEncode(c, s0, a);
      assert all[..len] == Output(c.encode, s0, a) && all[len..] == Output(c.encode, After(c.encode, s0, a), b);
    }
  }

  // What one round of read_loop makes of the plain bytes left.
  function ReadOutcomeOf(plain: seq<byte>): ReadOutcome {
    if |plain| < BLOCK then EndOfStream
    else
      var size := FromLittleEndian(plain[..4]);
      if size > MAX_MESSAGE_SIZE then TooLarge
      else if |plain| < BLOCK + RemainingBytes(size) then EndOfStream
      else
        FrameSizesAgree(size);
        Received(Message(FromLittleEndian(plain[4..HEADER]), plain[HEADER..HEADER + size]))
  }

  // One round of read_loop.
  method ReadMessage<S(!new)>(sock: StcpSocket<S>, ghost plain: seq<byte>) returns (r: ReadOutcome)
    requires InStep(sock, plain)
    modifies sock`incoming, sock`recvState
    ensures r == ReadOutcomeOf(plain)
    ensures r.Received? ==> FrameSize(|r.m.data|) <= |plain| && InStep(sock, plain[FrameSize(|r.m.data|)..])
  {
    hide InStep, FromLittleEndian;
    var buffer := ReadPlain(sock, BLOCK, plain);
    if buffer.None? {
      return EndOfStream;
    }
    var first := buffer.value;
    assert first[..4] == plain[..4] && first[4..HEADER] == plain[4..HEADER];
    var size := FromLittleEndian(first[..4]);
    if size > MAX_MESSAGE_SIZE {
      return TooLarge;
    }
    FrameSizesAgree(size);
    var remaining := 16 * ((size + UINT32 - LEFTOVER + 15) % UINT32 / 16);
    var data := first[HEADER..];
    if remaining != 0 {
      var rest := ReadPlain(sock, remaining, plain[BLOCK..]);
      if rest.None? {
        return EndOfStream;
      }
      data := data + rest.value;
    }
    assert plain[BLOCK..][remaining..] == plain[BLOCK + remaining..];
    assert data == plain[HEADER..BLOCK + remaining];
    assert data[..size] == plain[HEADER..HEADER + size];
    r := Received(Message(FromLittleEndian(first[4..HEADER]), data[..size]));
  }

  // A frame at the front is read back as its message, unless the message is too large.
  lemma FrameReadsBack(m: Message, plain: seq<byte>)
    requires Fits32(m) && FrameSize(|m.data|) <= |plain| && IsFrame(m, plain[..FrameSize(|m.data|)])
    ensures ReadOutcomeOf(plain) == if |m.data| <= MAX_MESSAGE_SIZE then Received(m) else TooLarge
  {
    hide FromLittleEndian, Header, FrameSize, RemainingBytes;
    var f := plain[..FrameSize(|m.data|)];
    HeaderReadsBack(m);
    assert plain[..4] == f[..HEADER][..4] == Header(m)[..4];
    assert plain[4..HEADER] == f[..HEADER][4..] == Header(m)[4..];
    FrameIsABlock(|m.data|);
    if |m.data| <= MAX_MESSAGE_SIZE {
      FrameSizesAgree(|m.data|);
      assert plain[HEADER..HEADER + |m.data|] == f[HEADER..HEADER + |m.data|];
    }
  }

  lemma FrameIsABlock(size: nat)
    ensures FrameSize(size) >= BLOCK
  {
  }

  lemma HeaderReadsBack(m: Message)
    requires Fits32(m)
    ensures FromLittleEndian(Header(m)[..4]) == |m.data|
    ensures FromLittleEndian(Header(m)[4..]) == m.msgType
  {
    assert Pow256(2) == 0x1_0000 && Pow256(4) == UINT32;
    hide LittleEndian, FromLittleEndian, Pow256;
    LittleEndianRoundTrip(|m.data|, 4);
    LittleEndianRoundTrip(m.msgType, 4);
    assert Header(m)[..4] == LittleEndian(|m.data|, 4) && Header(m)[4..] == LittleEndian(m.msgType, 4);
  }

  lemma NothingToRead()
    ensures ReadOutcomeOf([]) == EndOfStream
  {
  }

  // The messages before the first one that is too large.
  function Deliverable(ms: seq<Message>): seq<Message> {
    if ms == [] || |ms[0].data| > MAX_MESSAGE_SIZE then [] else [ms[0]] + Deliverable(ms[1..])
  }

  // read_loop: hands messages on until the stream ends or a header is refused. What arrives
  // is exactly what was sent, up to the first message over the limit.
  method ReadLoop<S(!new)>(sock: StcpSocket<S>, ghost plain: seq<byte>, ghost ms: seq<Message>)
    returns (delivered: seq<Message>, refused: bool)
    requires InStep(sock, plain) && Carries(ms, plain) && forall m :: m in ms ==> Fits32(m)
    modifies sock`incoming, sock`recvState
    ensures delivered == Deliverable(ms)
    ensures refused <==> delivered != ms
  {
    hide IsFrame, InStep, ReadOutcomeOf, FrameSize, Deliverable;
    NothingToRead();
    delivered := [];
    ghost var left, todo := plain, ms;
    var open := true;
    refused := false;
    assert [] + ms == ms && [] + Deliverable(ms) == Deliverable(ms);
    while open
      invariant open ==> InStep(sock, left) && Carries(todo, left) && delivered + todo == ms && !refused
      invariant forall m :: m in todo ==> Fits32(m)
      invariant Deliverable(ms) == if open then delivered + Deliverable(todo) else delivered
      invariant !open ==> (refused <==> delivered != ms)
      decreases open, |todo|
    {
      var r := ReadMessage(sock, left);
      if todo != [] {
        FrameReadsBack(todo[0], left);
      }
      DeliverNext(delivered, todo);
      match r
      case Received(m) =>
        delivered := delivered + [m];
        left, todo := left[FrameSize(|m.data|)..], todo[1..];
      case EndOfStream =>
        open := false;
      case TooLarge =>
        open, refused := false, true;
    }
  }

  lemma DeliverNext(delivered: seq<Message>, todo: seq<Message>)
    ensures todo == [] || |todo[0].data| > MAX_MESSAGE_SIZE ==> delivered + Deliverable(todo) == delivered
    ensures todo != [] && |todo[0].data| <= MAX_MESSAGE_SIZE ==>
              delivered + Deliverable(todo) == (delivered + [todo[0]]) + Deliverable(todo[1..])
    ensures todo != [] ==> delivered + todo == (delivered + [todo[0]]) + todo[1..] && delivered != delivered + todo
    ensures delivered + [] == delivered
  {
    if todo != [] {
      var m, rest := todo[0], todo[1..];
      assert todo == [m] + rest && |delivered + todo| > |delivered|;
      Associate(delivered, [m], rest);
      Associate(delivered, [m], Deliverable(rest));
    }
  }

  // Round trip: whatever the fragmentation on the way, the receiver delivers exactly the
  // sent messages, and all of them exactly when none is over the limit.
  method SendAndReceive<S(!new)>(c: Cipher<S>, state: S, ms: seq<Message>) returns (delivered: seq<Message>, refused: bool)
    requires Matching(c) && forall m :: m in ms ==> Fits32(m)
    ensures delivered == Deliverable(ms)
    ensures delivered == ms <==> forall m :: m in ms ==> |m.data| <= MAX_MESSAGE_SIZE
    ensures refused <==> delivered != ms
  {
    var sender := new StcpSocket(c, state, []);
    ghost var plain := SendAll(sender, ms);
    var receiver := new StcpSocket(c, state, sender.outgoing);
    assert [] + Output(c.encode, state, plain) == Output(c.encode, state, plain);
    delivered, refused := ReadLoop(receiver, plain, ms);
    DeliverableAll(ms);
  }

  lemma {:induction false} DeliverableAll(ms: seq<Message>)
    ensures Deliverable(ms) == ms <==> forall m :: m in ms ==> |m.data| <= MAX_MESSAGE_SIZE
  {
    if ms != [] {
      DeliverableAll(ms[1..]);
      assert ms == [ms[0]] + ms[1..];
      if |ms[0].data| <= MAX_MESSAGE_SIZE {
        assert Deliverable(ms) == ms <==> Deliverable(ms)[1..] == ms[1..];
      }
    }
  }
}
