/** The header cipher of a World Session and the readers of its packet stream. */
module WorldWire {

  import opened Options

  type Bytes = seq<bv8>

  // ----- the cipher, one byte at a time

  /** Position in the key, and the last cipher byte. */
  datatype CipherState = CipherState(index: nat, previous: bv8)

  const START := CipherState(0, 0)

  ghost predicate Ready(key: Bytes, st: CipherState) {
    st.index < |key|
  }

  function Advance(key: Bytes, st: CipherState, last: bv8): CipherState
    requires Ready(key, st)
  {
    CipherState(if st.index + 1 == |key| then 0 else st.index + 1, last)
  }

  lemma WrapIsModulo(index: nat, size: nat)
    requires index < size
    ensures (index + 1) % size == if index + 1 == size then 0 else index + 1
  {
    if index + 1 < size {
      assert (index + 1) / size == 0;
    }
  }

  function Mixed(value: bv8, part: bv8, previous: bv8): bv8 { (value ^ part) + previous }

  function Unmixed(value: bv8, part: bv8, previous: bv8): bv8 { (value - previous) ^ part }

  function EncryptByte(key: Bytes, st: CipherState, value: bv8): bv8
    requires Ready(key, st)
  {
    Mixed(value, key[st.index], st.previous)
  }

  function DecryptByte(key: Bytes, st: CipherState, value: bv8): bv8
    requires Ready(key, st)
  {
    Unmixed(value, key[st.index], st.previous)
  }

  function Encrypted(key: Bytes, st: CipherState, data: Bytes): (r: (Bytes, CipherState))
    requires Ready(key, st)
    ensures |r.0| == |data| && Ready(key, r.1)
  {
    if data == [] then ([], st)
    else
      var n := |data| - 1;
      var (out, mid) := Encrypted(key, st, data[..n]);
      var value := EncryptByte(key, mid, data[n]);
      (out + [value], Advance(key, mid, value))
  }

  function Decrypted(key: Bytes, st: CipherState, data: Bytes): (r: (Bytes, CipherState))
    requires Ready(key, st)
    ensures |r.0| == |data| && Ready(key, r.1)
  {
    if data == [] then ([], st)
    else
      var n := |data| - 1;
      var (out, mid) := Decrypted(key, st, data[..n]);
      (out + [DecryptByte(key, mid, data[n])], Advance(key, mid, data[n]))
  }

  lemma PreviousTaken(value: bv8, mixed: bv8, part: bv8, previous: bv8)
    requires value - previous == mixed
    ensures Unmixed(value, part, previous) == mixed ^ part
  {
  }

  lemma PreviousAdded(value: bv8, part: bv8, previous: bv8)
    ensures Mixed(value, part, previous) - previous == value ^ part
  {
  }

  lemma XorTwice(value: bv8, part: bv8)
    ensures (value ^ part) ^ part == value
  {
  }

  lemma MixedTwice(value: bv8, part: bv8, previous: bv8)
    ensures Unmixed(Mixed(value, part, previous), part, previous) == value
  {
    PreviousAdded(value, part, previous);
    PreviousTaken(Mixed(value, part, previous), value ^ part, part, previous);
    XorTwice(value, part);
  }

  lemma ByteRoundTrip(key: Bytes, st: CipherState, value: bv8)
    requires Ready(key, st)
    ensures DecryptByte(key, st, EncryptByte(key, st, value)) == value
  {
    MixedTwice(value, key[st.index], st.previous);
  }

  lemma DecryptedSnoc(key: Bytes, st: CipherState, data: Bytes, value: bv8)
    requires Ready(key, st)
    ensures var (out, mid) := Decrypted(key, st, data);
      Decrypted(key, st, data + [value]) == (out + [DecryptByte(key, mid, value)], Advance(key, mid, value))
  {
    assert (data + [value])[..|data|] == data;
  }

  /** Deciphering what was enciphered from the same state gives the data back and the same next state. */
  lemma {:induction false} DecryptUndoesEncrypt(key: Bytes, st: CipherState, data: Bytes)
    requires Ready(key, st)
    ensures Decrypted(key, st, Encrypted(key, st, data).0) == (data, Encrypted(key, st, data).1)
  {
    if data != [] {
      var n := |data| - 1;
      DecryptUndoesEncrypt(key, st, data[..n]);
      var (out, mid) := Encrypted(key, st, data[..n]);
      var value := EncryptByte(key, mid, data[n]);
      DecryptedSnoc(key, st, out, value);
      ByteRoundTrip(key, mid, data[n]);
      assert Encrypted(key, st, data) == (out + [value], Advance(key, mid, value));
      assert Decrypted(key, st, out) == (data[..n], mid);
      assert data[..n] + [data[n]] == data;
    }
  }

  lemma {:induction false} DecryptedConcat(key: Bytes, st: CipherState, a: Bytes, b: Bytes)
    requires Ready(key, st)
    ensures var first := Decrypted(key, st, a); var second := Decrypted(key, first.1, b);
      Decrypted(key, st, a + b) == (first.0 + second.0, second.1)
  {
    var (out, mid) := Decrypted(key, st, a);
    if b == [] {
      assert a + b == a && out + [] == out;
    } else {
      var n := |b| - 1;
      var (more, last) := Decrypted(key, mid, b[..n]);
      DecryptedConcat(key, st, a, b[..n]);
      assert a + b == (a + b[..n]) + [b[n]];
      DecryptedSnoc(key, st, a + b[..n], b[n]);
      assert out + (more + [DecryptByte(key, last, b[n])]) == (out + more) + [DecryptByte(key, last, b[n])];
    }
  }

  class Cipher {
    const key: Bytes
    var index: nat
    var previous: bv8

    ghost predicate Valid()
      reads this
    {
      Ready(key, State())
    }

    function State(): CipherState
      reads this
    {
      CipherState(index, previous)
    }

    constructor (key: Bytes)
      requires key != []
      ensures Valid() && this.key == key && State() == START
    {
      this.key := key;
      index, previous := 0, 0;
    }

    method Encrypt(data: Bytes) returns (out: Bytes)
      requires Valid()
      modifies this`index, this`previous
      ensures Valid() && (out, State()) == Encrypted(key, old(State()), data)
    {
      out := [];
      for i := 0 to |data|
        invariant Valid()
        invariant (out, State()) == Encrypted(key, old(State()), data[..i])
      {
        assert data[..i + 1][..i] == data[..i];
        var value := EncryptByte(key, State(), data[i]);
        out := out + [value];
        previous := value;
        WrapIsModulo(index, |key|);
        index := (index + 1) % |key|;
      }
      assert data[..|data|] == data;
    }

    method Decrypt(data: Bytes) returns (out: Bytes)
      requires Valid()
      modifies this`index, this`previous
      ensures Valid() && (out, State()) == Decrypted(key, old(State()), data)
    {
      out := [];
      for i := 0 to |data|
        invariant Valid()
        invariant (out, State()) == Decrypted(key, old(State()), data[..i])
      {
        assert data[..i + 1][..i] == data[..i];
        out := out + [DecryptByte(key, State(), data[i])];
        previous := data[i];
        WrapIsModulo(index, |key|);
        index := (index + 1) % |key|;
      }
      assert data[..|data|] == data;
    }
  }

  // ----- headers

  datatype Packet = Packet(opcode: nat, body: Bytes)

  /** What a header says: the size of the body that follows, and the opcode. */
  datatype Frame = Frame(size: nat, opcode: nat)

  /** The body size and opcode of a decrypted server header; None is the ValueError of a size below 2. */
  function ReplyHeader(header: Bytes): Option<Frame>
    requires |header| == 4
  {
    var size := 256 * (header[0] as int) + header[1] as int;
    if size < 2 then None else Some(Frame(size - 2, header[2] as int + 256 * (header[3] as int)))
  }

  ghost predicate Sendable(packet: Packet) {
    packet.opcode < 0x1_0000 && |packet.body| + 2 < 0x1_0000
  }

  /** The byte with value n. Counting up to it keeps conversions out of the solver's way. */
  function ByteOf(n: nat): bv8 {
    if n == 0 then 0 else ByteOf(n - 1) + 1
  }

  lemma NextByte(b: bv8)
    requires b as int < 255
    ensures (b + 1) as int == b as int + 1
  {
    assert b != 255;
  }

  lemma {:induction false} ByteValue(n: nat)
    requires n < 256
    ensures ByteOf(n) as int == n
  {
    if n > 0 {
      ByteValue(n - 1);
      NextByte(ByteOf(n - 1));
    }
  }

  /** The header a server puts in front of a packet. */
  function HeaderOf(packet: Packet): (header: Bytes)
    requires Sendable(packet)
    ensures |header| == 4
  {
    var size := |packet.body| + 2;
    [ByteOf(size / 256), ByteOf(size % 256), ByteOf(packet.opcode % 256), ByteOf(packet.opcode / 256)]
  }

  lemma TwoBytes(n: nat)
    requires n < 0x1_0000
    ensures 256 * (ByteOf(n / 256) as int) + ByteOf(n % 256) as int == n
  {
    ByteValue(n / 256);
    ByteValue(n % 256);
  }

  lemma HeaderRoundTrip(packet: Packet)
    requires Sendable(packet)
    ensures ReplyHeader(HeaderOf(packet)) == Some(Frame(|packet.body|, packet.opcode))
  {
    TwoBytes(|packet.body| + 2);
    TwoBytes(packet.opcode);
  }

  // ----- reading packet by packet

  /** One header and one body taken from the front of a stream, as far as the stream goes. */
  datatype OneRead =
    | Read(packet: Packet, rest: Bytes, after: CipherState)
    | NeedHeader
    | NeedBody(frame: Frame, rest: Bytes, after: CipherState)
    | BadSize(after: CipherState)

  function ReadOne(key: Bytes, st: CipherState, stream: Bytes): (r: OneRead)
    requires Ready(key, st)
    ensures r.Read? ==> |r.rest| < |stream| && Ready(key, r.after)
    ensures r.NeedBody? ==> Ready(key, r.after)
  {
    if |stream| < 4 then NeedHeader
    else
      var (header, after) := Decrypted(key, st, stream[..4]);
      var rest := stream[4..];
      match ReplyHeader(header)
      case None => BadSize(after)
      case Some(frame) =>
        if |rest| < frame.size then NeedBody(frame, rest, after)
        else Read(Packet(frame.opcode, rest[..frame.size]), rest[frame.size..], after)
  }

  /** What the handler says of a packet, given all it saw before; None lets the reading go on. */
  type Handler = (seq<Packet>, Packet) -> Option<string>

  /** Where a reader stands: the packets handed on, the cipher, a header already read, the bytes not used, why it closed. */
  datatype Reader = Reader(
    handed: seq<Packet>, cipher: CipherState, frame: Option<Frame>, unused: Bytes, closed: Option<string>)

  /** Reads a whole stream packet by packet. */
  function ReadAll(key: Bytes, handler: Handler, handed: seq<Packet>, st: CipherState, stream: Bytes): Reader
    requires Ready(key, st)
    decreases |stream|
  {
    match ReadOne(key, st, stream)
    case NeedHeader => Reader(handed, st, None, stream, None)
    case NeedBody(frame, rest, after) => Reader(handed, after, Some(frame), rest, None)
    case BadSize(after) => Reader(handed, after, None, [], Some("ValueError"))
    case Read(packet, rest, after) =>
      match handler(handed, packet)
      case Some(error) => Reader(handed + [packet], after, None, [], Some(error))
      case None => ReadAll(key, handler, handed + [packet], after, rest)
  }

  // ----- reading chunk by chunk

  /** Uses as much of the buffered bytes as makes whole headers and whole packets. */
  function Scan(key: Bytes, handler: Handler, r: Reader): (s: Reader)
    requires Ready(key, r.cipher)
    ensures Ready(key, s.cipher)
    decreases |r.unused|, if r.frame.None? then 1 else 2
  {
    if r.closed.Some? then r.(unused := [])
    else
      match r.frame
      case None =>
        if |r.unused| < 4 then r
        else
          var (header, after) := Decrypted(key, r.cipher, r.unused[..4]);
          (match ReplyHeader(header)
           case None => Reader(r.handed, after, None, [], Some("ValueError"))
           case Some(frame) => Scan(key, handler, Reader(r.handed, after, Some(frame), r.unused[4..], None)))
      case Some(frame) =>
        if |r.unused| < frame.size then r
        else
          var packet := Packet(frame.opcode, r.unused[..frame.size]);
          (match handler(r.handed, packet)
           case Some(error) => Reader(r.handed + [packet], r.cipher, None, [], Some(error))
           case None => Scan(key, handler, Reader(r.handed + [packet], r.cipher, None, r.unused[frame.size..], None)))
  }

  function Receive(key: Bytes, handler: Handler, r: Reader, chunk: Bytes): (s: Reader)
    requires Ready(key, r.cipher)
    ensures Ready(key, s.cipher)
  {
    Scan(key, handler, r.(unused := r.unused + chunk))
  }

  /** Bytes that arrive later change nothing about how the earlier ones were read. */
  lemma {:induction false} ScanInTwo(key: Bytes, handler: Handler, r: Reader, more: Bytes)
    requires Ready(key, r.cipher)
    ensures Receive(key, handler, Scan(key, handler, r), more) == Receive(key, handler, r, more)
    decreases |r.unused|, if r.frame.None? then 1 else 2
  {
    var both := r.unused + more;
    if r.closed.Some? {
    } else if r.frame.None? {
      if |r.unused| >= 4 {
        assert both[..4] == r.unused[..4] && both[4..] == r.unused[4..] + more;
        var (header, after) := Decrypted(key, r.cipher, r.unused[..4]);
        if ReplyHeader(header).Some? {
          ScanInTwo(key, handler, Reader(r.handed, after, ReplyHeader(header), r.unused[4..], None), more);
        }
      }
    } else {
      var size, opcode := r.frame.value.size, r.frame.value.opcode;
      if |r.unused| >= size {
        assert both[..size] == r.unused[..size] && both[size..] == r.unused[size..] + more;
        var packet := Packet(opcode, r.unused[..size]);
        if handler(r.handed, packet).None? {
          ScanInTwo(key, handler, Reader(r.handed + [packet], r.cipher, None, r.unused[size..], None), more);
        }
      }
    }
  }

  /** Scanning everything that has arrived is reading it packet by packet. */
  lemma {:induction false} ScanIsReadAll(key: Bytes, handler: Handler, handed: seq<Packet>, st: CipherState, stream: Bytes)
    requires Ready(key, st)
    ensures Scan(key, handler, Reader(handed, st, None, stream, None)) == ReadAll(key, handler, handed, st, stream)
    decreases |stream|
  {
    match ReadOne(key, st, stream)
    case Read(packet, rest, after) =>
      if handler(handed, packet).None? {
        ScanIsReadAll(key, handler, handed + [packet], after, rest);
      }
    case _ =>
  }

  function Concat(chunks: seq<Bytes>): Bytes {
    if chunks == [] then [] else Concat(chunks[..|chunks| - 1]) + chunks[|chunks| - 1]
  }

  lemma {:induction false} ConcatSplit(chunks: seq<Bytes>, k: nat)
    requires k <= |chunks|
    ensures Concat(chunks) == Concat(chunks[..k]) + Concat(chunks[k..])
  {
    if k == |chunks| {
      assert chunks[..k] == chunks && Concat(chunks[k..]) == [];
    } else {
      var n := |chunks| - 1;
      ConcatSplit(chunks[..n], k);
      assert chunks[..n][..k] == chunks[..k] && chunks[..n][k..] == chunks[k..][..n - k];
    }
  }

  /** One chunk after the other. */
  function ReadChunks(key: Bytes, handler: Handler, first: Reader, chunks: seq<Bytes>): (r: Reader)
    requires Ready(key, first.cipher)
    ensures Ready(key, r.cipher)
    decreases |chunks|
  {
    if |chunks| == 0 then first
    else Receive(key, handler, ReadChunks(key, handler, first, chunks[..|chunks| - 1]), chunks[|chunks| - 1])
  }

  lemma OneMoreChunk(key: Bytes, handler: Handler, first: Reader, chunks: seq<Bytes>, i: nat)
    requires Ready(key, first.cipher) && i < |chunks|
    ensures Receive(key, handler, ReadChunks(key, handler, first, chunks[..i]), chunks[i])
         == ReadChunks(key, handler, first, chunks[..i + 1])
  {
    assert chunks[..i + 1][..i] == chunks[..i];
  }

  /** A reader that has used what it can: reading chunk by chunk is receiving all the bytes at once. */
  lemma {:induction false} ChunksAreOne(key: Bytes, handler: Handler, first: Reader, chunks: seq<Bytes>)
    requires Ready(key, first.cipher) && Scan(key, handler, first) == first
    ensures ReadChunks(key, handler, first, chunks) == Receive(key, handler, first, Concat(chunks))
    decreases |chunks|
  {
    if |chunks| == 0 {
      assert first.unused + [] == first.unused;
    } else {
      var n := |chunks| - 1;
      var before := first.(unused := first.unused + Concat(chunks[..n]));
      ChunksAreOne(key, handler, first, chunks[..n]);
      ScanInTwo(key, handler, before, chunks[n]);
      assert (first.unused + Concat(chunks[..n])) + chunks[n] == first.unused + Concat(chunks);
    }
  }

  lemma ClosedBehind(key: Bytes, handler: Handler, before: Reader, more: Bytes, sofar: Reader)
    requires Ready(key, before.cipher) && sofar == Scan(key, handler, before) && sofar.closed.Some?
    ensures Receive(key, handler, before, more) == sofar.(unused := [])
  {
    ScanInTwo(key, handler, before, more);
  }

  /** Once the client is closed, what follows is not read. */
  lemma ClosedForGood(key: Bytes, handler: Handler, first: Reader, bytes: Bytes, more: Bytes, sofar: Reader)
    requires Ready(key, first.cipher)
    requires sofar == Receive(key, handler, first, bytes) && sofar.closed.Some?
    ensures Receive(key, handler, first, bytes + more) == sofar.(unused := [])
  {
    assert (first.unused + bytes) + more == first.unused + (bytes + more);
    ClosedBehind(key, handler, first.(unused := first.unused + bytes), more, sofar);
  }

  lemma SliceOfRest(data: Bytes, offset: nat, n: nat)
    requires offset + n <= |data|
    ensures data[offset..][..n] == data[offset..offset + n]
    ensures data[offset..][n..] == data[offset + n..]
  {
  }

  /** The load client's receiving side. */
  class Client {
    const handler: Handler
    var decrypt: Cipher
    var handed: seq<Packet>
    var closed: Option<string>

    constructor (key: Bytes, handler: Handler)
      requires key != []
      ensures fresh(decrypt) && decrypt.Valid() && decrypt.key == key && decrypt.State() == START
      ensures this.handler == handler && handed == [] && closed.None?
    {
      this.handler := handler;
      decrypt := new Cipher(key);
      handed, closed := [], None;
    }

    ghost function Now(frame: Option<Frame>, unused: Bytes): Reader
      reads this, decrypt
    {
      Reader(handed, decrypt.State(), frame, unused, closed)
    }

    /** Deciphers the four bytes of a header; an invalid size closes the client. */
    method TakeHeader(buffered: Bytes, offset: nat, ghost after: Reader) returns (frame: Option<Frame>)
      requires decrypt.Valid() && closed.None? && offset + 4 <= |buffered|
      requires Scan(decrypt.key, handler, Now(None, buffered[offset..])) == after
      modifies this`closed, decrypt`index, decrypt`previous
      ensures decrypt.Valid()
      ensures frame.None? <==> closed.Some?
      ensures after == if frame.None? then Now(None, []) else Scan(decrypt.key, handler, Now(frame, buffered[offset + 4..]))
    {
      SliceOfRest(buffered, offset, 4);
      var header := decrypt.Decrypt(buffered[offset..offset + 4]);
      frame := ReplyHeader(header);
      if frame.None? {
        closed := Some("ValueError");
      }
    }

    /** Hands a whole packet to the handler, which may close the client. */
    method HandOn(buffered: Bytes, offset: nat, size: nat, opcode: nat, ghost after: Reader)
      requires decrypt.Valid() && closed.None? && offset + size <= |buffered|
      requires Scan(decrypt.key, handler, Now(Some(Frame(size, opcode)), buffered[offset..])) == after
      modifies this`handed, this`closed
      ensures after == if closed.Some? then Now(None, []) else Scan(decrypt.key, handler, Now(None, buffered[offset + size..]))
    {
      SliceOfRest(buffered, offset, size);
      var packet := Packet(opcode, buffered[offset..offset + size]);
      closed := handler(handed, packet);
      handed := handed + [packet];
    }

    /** The body behind a header; false when bytes are missing or the client was closed. */
    method TakeBody(buffered: Bytes, offset: nat, pending: Frame, ghost after: Reader)
      returns (next: nat, frame: Option<Frame>, more: bool)
      requires closed.None? && decrypt.Valid() && offset <= |buffered|
      requires Scan(decrypt.key, handler, Now(Some(pending), buffered[offset..])) == after
      modifies this`handed, this`closed
      ensures offset <= next <= |buffered|
      ensures closed.Some? ==> !more && after == Now(None, [])
      ensures closed.None? && !more ==> after == Now(frame, buffered[next..])
      ensures more ==> closed.None? && Scan(decrypt.key, handler, Now(frame, buffered[next..])) == after
      ensures frame.None? || (next == offset && frame == Some(pending))
      ensures more ==> frame.None?
    {
      if |buffered| - offset < pending.size {
        return offset, Some(pending), false;
      }
      HandOn(buffered, offset, pending.size, pending.opcode, after);
      return offset + pending.size, None, closed.None?;
    }

    /** One round of the inner loop: a header unless one is pending, then its body; false when bytes are missing or the
        client was closed. */
    method Advance(buffered: Bytes, offset: nat, pending: Option<Frame>, ghost after: Reader)
      returns (next: nat, frame: Option<Frame>, more: bool)
      requires decrypt.Valid() && closed.None? && offset <= |buffered|
      requires Scan(decrypt.key, handler, Now(pending, buffered[offset..])) == after
      modifies this`handed, this`closed, decrypt`index, decrypt`previous
      ensures decrypt.Valid() && offset <= next <= |buffered|
      ensures closed.Some? ==> !more && after == Now(None, [])
      ensures closed.None? && !more ==> after == Now(frame, buffered[next..])
      ensures more ==> closed.None? && Scan(decrypt.key, handler, Now(frame, buffered[next..])) == after
      ensures more ==> frame.None? && (offset < next || pending.Some?)
      ensures offset < next || frame.None? || frame == pending
    {
      next, frame := offset, pending;
      if frame.None? {
        if |buffered| - next < 4 {
          return next, frame, false;
        }
        frame := TakeHeader(buffered, next, after);
        if frame.None? {
          return next, None, false;
        }
        next := next + 4;
      }
      next, frame, more := TakeBody(buffered, next, frame.value, after);
    }

    /** Hands on every whole packet in the buffer; what is left is returned with the header read last. */
    method Use(buffered: Bytes, pending: Option<Frame>) returns (rest: Bytes, frame: Option<Frame>)
      requires decrypt.Valid() && closed.None?
      modifies this`handed, this`closed, decrypt`index, decrypt`previous
      ensures decrypt.Valid()
      ensures old(Scan(decrypt.key, handler, Now(pending, buffered))) == Now(frame, rest)
    {
      frame := pending;
      var offset, more := 0, true;
      ghost var after := Scan(decrypt.key, handler, Now(pending, buffered));
      assert buffered[0..] == buffered;
      while more
        invariant 0 <= offset <= |buffered| && decrypt.Valid()
        invariant more ==> closed.None? && Scan(decrypt.key, handler, Now(frame, buffered[offset..])) == after
        invariant !more && closed.None? ==> after == Now(frame, buffered[offset..])
        invariant closed.Some? ==> !more && after == Now(None, [])
        decreases |buffered| - offset, if frame.None? then 1 else 2, more
      {
        offset, frame, more := Advance(buffered, offset, frame, after);
      }
      if closed.Some? {
        return [], None;
      }
      rest := buffered[offset..];
    }

    /** Reads the chunks as they arrive until the stream ends or something closes the client.
        What was handed on, the cipher and the reason depend on the bytes, not on how they were cut. */
    method Drain(chunks: seq<Bytes>)
      requires decrypt.Valid() && closed.None?
      modifies this`handed, this`closed, decrypt`index, decrypt`previous
      ensures decrypt.Valid()
      ensures var whole := ReadAll(decrypt.key, handler, old(handed), old(decrypt.State()), Concat(chunks));
        && handed == whole.handed
        && decrypt.State() == whole.cipher
        && closed == if whole.closed.Some? then whole.closed else Some("ConnectionError")
    {
      var buffered: Bytes, frame: Option<Frame> := [], None;
      ghost var key, first := decrypt.key, Now(None, []);
      ScanIsReadAll(key, handler, handed, decrypt.State(), Concat(chunks));
      assert [] + Concat(chunks) == Concat(chunks);
      for i := 0 to |chunks|
        invariant decrypt.Valid() && closed.None?
        invariant Now(frame, buffered) == ReadChunks(key, handler, first, chunks[..i])
      {
        OneMoreChunk(key, handler, first, chunks, i);
        buffered := buffered + chunks[i];
        buffered, frame := Use(buffered, frame);
        if closed.Some? {
          ChunksAreOne(key, handler, first, chunks[..i + 1]);
          ConcatSplit(chunks, i + 1);
          ClosedForGood(key, handler, first, Concat(chunks[..i + 1]), Concat(chunks[i + 1..]), Now(frame, buffered));
          return;
        }
      }
      assert chunks[..|chunks|] == chunks;
      ChunksAreOne(key, handler, first, chunks);
      closed := Some("ConnectionError");
    }
  }

  /** Reading chunk by chunk gives the same however the bytes are cut, and the same as reading header by header. */
  lemma CutsDoNotMatter(key: Bytes, handler: Handler, handed: seq<Packet>, st: CipherState, cut: seq<Bytes>, other: seq<Bytes>)
    requires Ready(key, st) && Concat(cut) == Concat(other)
    ensures var first := Reader(handed, st, None, [], None);
      && ReadChunks(key, handler, first, cut) == ReadChunks(key, handler, first, other)
      && ReadChunks(key, handler, first, cut) == ReadAll(key, handler, handed, st, Concat(cut))
  {
    var first := Reader(handed, st, None, [], None);
    ChunksAreOne(key, handler, first, cut);
    ChunksAreOne(key, handler, first, other);
    ScanIsReadAll(key, handler, handed, st, Concat(cut));
    assert [] + Concat(cut) == Concat(cut);
  }

  // ----- what a server framed

  /** Every header enciphered, every body in the clear. */
  function Send(key: Bytes, st: CipherState, packets: seq<Packet>): (r: (Bytes, CipherState))
    requires Ready(key, st) && forall p | p in packets :: Sendable(p)
    ensures Ready(key, r.1)
    decreases |packets|
  {
    if packets == [] then ([], st)
    else
      var (header, after) := Encrypted(key, st, HeaderOf(packets[0]));
      var (rest, end) := Send(key, after, packets[1..]);
      (header + packets[0].body + rest, end)
  }

  lemma CutFrame(header: Bytes, body: Bytes, rest: Bytes)
    requires |header| == 4
    ensures var stream := header + body + rest;
      && stream[..4] == header
      && stream[4..][..|body|] == body
      && stream[4..][|body|..] == rest
  {
    assert (header + body + rest)[4..] == body + rest;
  }

  lemma ReadOneSent(key: Bytes, st: CipherState, packet: Packet, rest: Bytes)
    requires Ready(key, st) && Sendable(packet)
    ensures var (header, after) := Encrypted(key, st, HeaderOf(packet));
      ReadOne(key, st, header + packet.body + rest) == Read(packet, rest, after)
  {
    DecryptUndoesEncrypt(key, st, HeaderOf(packet));
    HeaderRoundTrip(packet);
    CutFrame(Encrypted(key, st, HeaderOf(packet)).0, packet.body, rest);
  }

  lemma ReadSent(key: Bytes, handler: Handler, handed: seq<Packet>, st: CipherState, packet: Packet, rest: Bytes)
    requires Ready(key, st) && Sendable(packet) && handler(handed, packet).None?
    ensures var first := Encrypted(key, st, HeaderOf(packet));
      ReadAll(key, handler, handed, st, first.0 + packet.body + rest) == ReadAll(key, handler, handed + [packet], first.1, rest)
  {
    ReadOneSent(key, st, packet, rest);
  }

  lemma SendOnce(key: Bytes, st: CipherState, packets: seq<Packet>)
    requires Ready(key, st) && (forall p | p in packets :: Sendable(p)) && |packets| > 0
    ensures var first := Encrypted(key, st, HeaderOf(packets[0])); var more := Send(key, first.1, packets[1..]);
      Send(key, st, packets) == (first.0 + packets[0].body + more.0, more.1)
  {
  }

  /** Reads a stream after some packets, from a cipher state. */
  type StreamReader = (seq<Packet>, CipherState, Bytes) -> Reader

  function Whole(key: Bytes, handler: Handler): StreamReader {
    (handed: seq<Packet>, st: CipherState, stream: Bytes) =>
      if st.index < |key| then ReadAll(key, handler, handed, st, stream) else Reader(handed, st, None, stream, None)
  }

  /** The reader takes a framed packet off the stream. */
  ghost predicate TakesOff(read: StreamReader, key: Bytes, handed: seq<Packet>, st: CipherState, packet: Packet, rest: Bytes)
    requires Ready(key, st) && Sendable(packet)
  {
    var first := Encrypted(key, st, HeaderOf(packet));
    read(handed, st, first.0 + packet.body + rest) == read(handed + [packet], first.1, rest)
  }

  ghost predicate TakesAll(read: StreamReader, key: Bytes) {
    && (forall handed, st :: read(handed, st, []) == Reader(handed, st, None, [], None))
    && forall handed, st, packet, rest {:trigger TakesOff(read, key, handed, st, packet, rest)} |
         Ready(key, st) && Sendable(packet) :: TakesOff(read, key, handed, st, packet, rest)
  }

  lemma WholeTakesAll(key: Bytes, handler: Handler)
    requires forall h, p :: handler(h, p) == None
    ensures TakesAll(Whole(key, handler), key)
  {
    forall handed, st, packet, rest | Ready(key, st) && Sendable(packet)
      ensures TakesOff(Whole(key, handler), key, handed, st, packet, rest)
    {
      ReadSent(key, handler, handed, st, packet, rest);
    }
  }

  lemma {:induction false} AllTaken(read: StreamReader, key: Bytes, handed: seq<Packet>, st: CipherState, packets: seq<Packet>)
    requires Ready(key, st) && TakesAll(read, key) && forall p | p in packets :: Sendable(p)
    ensures var sent := Send(key, st, packets); read(handed, st, sent.0) == Reader(handed + packets, sent.1, None, [], None)
    decreases |packets|
  {
    if |packets| == 0 {
      assert packets == [] && handed + packets == handed;
    } else {
      var after := Encrypted(key, st, HeaderOf(packets[0])).1;
      SendOnce(key, st, packets);
      assert TakesOff(read, key, handed, st, packets[0], Send(key, after, packets[1..]).0);
      AllTaken(read, key, handed + [packets[0]], after, packets[1..]);
      assert handed + packets == (handed + [packets[0]]) + packets[1..];
    }
  }

  /** A reader with the same key recovers the packets and ends in the sender's cipher state. */
  lemma ReadUndoesSend(key: Bytes, handler: Handler, handed: seq<Packet>, st: CipherState, packets: seq<Packet>)
    requires Ready(key, st) && forall p | p in packets :: Sendable(p)
    requires forall h, p :: handler(h, p) == None
    ensures var (stream, end) := Send(key, st, packets);
      ReadAll(key, handler, handed, st, stream) == Reader(handed + packets, end, None, [], None)
  {
    WholeTakesAll(key, handler);
    AllTaken(Whole(key, handler), key, handed, st, packets);
  }

  // ----- what the cipher saw

  /** The header bytes a whole reading takes from the stream, in order. */
  function HeaderBytes(key: Bytes, handler: Handler, handed: seq<Packet>, st: CipherState, stream: Bytes): Bytes
    requires Ready(key, st)
    decreases |stream|
  {
    match ReadOne(key, st, stream)
    case NeedHeader => []
    case NeedBody(_, _, _) => stream[..4]
    case BadSize(_) => stream[..4]
    case Read(packet, rest, after) =>
      if handler(handed, packet).Some? then stream[..4]
      else stream[..4] + HeaderBytes(key, handler, handed + [packet], after, rest)
  }

  /** The cipher ends as if it had been given the header bytes and nothing else: four for every packet
      handed on, and four more when a header was read whose body has not come or whose size is invalid. */
  lemma {:induction false} OnlyHeadersAreDecrypted(key: Bytes, handler: Handler, handed: seq<Packet>, st: CipherState, stream: Bytes)
    requires Ready(key, st)
    ensures var r := ReadAll(key, handler, handed, st, stream);
      var headers := HeaderBytes(key, handler, handed, st, stream);
      && r.cipher == Decrypted(key, st, headers).1
      && 4 * (|r.handed| - |handed|) <= |headers| <= 4 * (|r.handed| - |handed|) + 4
      && (r.closed == None && r.frame == None ==> |headers| == 4 * (|r.handed| - |handed|))
    decreases |stream|
  {
    match ReadOne(key, st, stream)
    case Read(packet, rest, after) =>
      if handler(handed, packet).None? {
        OnlyHeadersAreDecrypted(key, handler, handed + [packet], after, rest);
        DecryptedConcat(key, st, stream[..4], HeaderBytes(key, handler, handed + [packet], after, rest));
      }
    case _ =>
  }
}
