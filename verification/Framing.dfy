/**
 Length-prefixed messages on a byte stream (protocol_server/varint.cc,
 parse_protocol_message.h and .cc, format_protocol_message.h and the input side
 of protocol_connection_impl.h). Lengths are variable-length integers as in the
 "Base 128 Varints" section of the Protocol Buffers Encoding specification:
 seven bits to a byte, least significant group first, the high bit set on all
 bytes but the last. Masks and shifts by seven bits are written as % 128, / 128
 and * 128. Message bodies are opaque.
 */
module Framing {

  const INT_MAX: nat := 0x7FFF_FFFF
  const TWO_32: nat := 0x1_0000_0000
  const TWO_57: nat := 0x200_0000_0000_0000
  const TWO_64: nat := 0x1_0000_0000_0000_0000

  /** The size of the receive buffer in SendAndReceive. */
  const RECEIVE_SIZE: nat := 1000

  type Byte = n: nat | n < 256
  type Bytes = seq<Byte>

  /** The encoding of n. */
  function Format(n: nat): (bs: Bytes)
    ensures |bs| >= 1
  {
    if n < 128 then [n] else [128 + n % 128] + Format(n / 128)
  }

  predicate Continues(b: Byte) {
    b >= 128
  }

  /** The number the low seven bits of the bytes spell, first byte least significant. */
  function ValueOf(bs: Bytes): nat {
    if bs == [] then 0 else bs[0] % 128 + 128 * ValueOf(bs[1..])
  }

  /** How many bytes up to and including the first one without the high bit; 0 if there is none. */
  function VarintSize(bs: Bytes): (k: nat)
    ensures k <= |bs|
    ensures k == 0 <==> forall i | 0 <= i < |bs| :: Continues(bs[i])
    ensures k > 0 ==> !Continues(bs[k - 1]) && forall i | 0 <= i < k - 1 :: Continues(bs[i])
  {
    if bs == [] then 0
    else if !Continues(bs[0]) then 1
    else
      var k := VarintSize(bs[1..]);
      if k == 0 then 0 else k + 1
  }

  /** The result of parsing: not enough bytes yet, a failed CHECK, or a value and the bytes it took. */
  datatype Parse<+T> = Incomplete | Failed | Parsed(value: T, size: nat)

  /** Parsing a varint fails exactly when the value needs more than 64 bits. */
  function ParsedVarint(bs: Bytes): Parse<nat> {
    var k := VarintSize(bs);
    if k == 0 then Incomplete
    else if ValueOf(bs[..k]) >= TWO_64 then Failed
    else Parsed(ValueOf(bs[..k]), k)
  }

  lemma {:induction false} FormatShape(n: nat, rest: Bytes)
    ensures VarintSize(Format(n) + rest) == |Format(n)|
    ensures ValueOf(Format(n)) == n
  {
    var bs := Format(n);
    if n < 128 {
      assert (bs + rest)[0] == n;
      assert ValueOf(bs[1..]) == 0;
    } else {
      FormatShape(n / 128, rest);
      assert (bs + rest)[1..] == Format(n / 128) + rest;
      assert bs[1..] == Format(n / 128);
    }
  }

  /** Round trip: whatever follows, a value is read back, with the bytes it took, exactly if it fits in 64 bits. */
  lemma VarintRoundTrip(n: nat, rest: Bytes)
    ensures ParsedVarint(Format(n) + rest) == if n < TWO_64 then Parsed(n, |Format(n)|) else Failed
  {
    FormatShape(n, rest);
    assert (Format(n) + rest)[..|Format(n)|] == Format(n);
  }

  lemma {:induction false} FormatContinues(n: nat, i: nat)
    requires i < |Format(n)| - 1
    ensures Continues(Format(n)[i])
  {
    if i > 0 {
      FormatContinues(n / 128, i - 1);
    }
  }

  /** A strict prefix of an encoding is incomplete. */
  lemma VarintPrefix(n: nat, k: nat)
    requires k < |Format(n)|
    ensures ParsedVarint(Format(n)[..k]) == Incomplete
  {
    forall i | 0 <= i < k
      ensures Continues(Format(n)[..k][i])
    {
      FormatContinues(n, i);
    }
  }

  function Pow128(k: nat): nat {
    if k == 0 then 1 else 128 * Pow128(k - 1)
  }

  /** A number takes at most k bytes exactly if it is below 128 to the power k. */
  lemma {:induction false} FormatLength(n: nat, k: nat)
    requires k >= 1
    ensures |Format(n)| <= k <==> n < Pow128(k)
  {
    if k > 1 {
      FormatLength(n / 128, k - 1);
      PowGrows(k);
    }
  }

  lemma {:induction false} PowGrows(k: nat)
    requires k >= 1
    ensures Pow128(k) >= 128
  {
    if k > 1 {
      PowGrows(k - 1);
    }
  }

  /** The ten bytes set aside for a varint are enough. */
  lemma TenBytesAreEnough(n: nat)
    requires n < TWO_64
    ensures |Format(n)| <= 10
  {
    assert Pow128(9) == 0x8000_0000_0000_0000;
    assert Pow128(10) == 128 * Pow128(9);
    FormatLength(n, 10);
  }

  // Messages.

  /** A conversion to a 32-bit signed integer. */
  function ToInt32(n: nat): int {
    var low := n % TWO_32;
    if low > INT_MAX then low - TWO_32 else low
  }

  function Frame(m: Bytes): Bytes {
    Format(|m|) + m
  }

  /** ParseProtocolMessage on the whole input string. */
  function ParsedMessage(input: Bytes): (p: Parse<Bytes>)
    ensures p.Parsed? ==> 0 < p.size <= |input|
  {
    var size := ToInt32(|input|);
    if size < 0 then Failed
    else
      match ParsedVarint(input[..size])
      case Incomplete => Incomplete
      case Failed => Failed
      case Parsed(n, k) =>
        var length := ToInt32(n);
        if length < 0 || k + length > INT_MAX then Failed
        else if k + length > size then Incomplete
        else Parsed(input[k..k + length], k + length)
  }

  /** What the connection has taken in: the bytes not parsed yet, and the messages handed to the handler. */
  datatype Stream = Broken | Stream(input: Bytes, delivered: seq<Bytes>)

  /** The loop of ParseMessages. */
  function ParsedAll(s: Stream): Stream
    decreases if s.Stream? then |s.input| else 0
  {
    if s.Broken? then Broken
    else
      match ParsedMessage(s.input)
      case Incomplete => s
      case Failed => Broken
      case Parsed(m, size) => ParsedAll(Stream(s.input[size..], s.delivered + [m]))
  }

  function Received(s: Stream, chunk: Bytes): Stream {
    if s.Broken? then Broken else ParsedAll(s.(input := s.input + chunk))
  }

  function AfterChunks(s: Stream, chunks: seq<Bytes>): Stream
    decreases |chunks|
  {
    if chunks == [] then s else Received(AfterChunks(s, chunks[..|chunks| - 1]), chunks[|chunks| - 1])
  }

  function Concat(parts: seq<Bytes>): Bytes {
    if parts == [] then [] else parts[0] + Concat(parts[1..])
  }

  function FramesOf(ms: seq<Bytes>): (fs: seq<Bytes>)
    ensures |fs| == |ms| && forall i | 0 <= i < |ms| :: fs[i] == Frame(ms[i])
  {
    seq(|ms|, i requires 0 <= i < |ms| => Frame(ms[i]))
  }

  /** A message that can be framed and found again: varint and body together fit in an int. */
  predicate Frameable(m: Bytes) {
    |Frame(m)| <= INT_MAX
  }

  /** ParseProtocolMessage when no number is too large for an int. */
  lemma ParsedMessageInRange(input: Bytes)
    requires |input| <= INT_MAX
    ensures var p := ParsedVarint(input);
            && (p.Incomplete? ==> ParsedMessage(input) == Incomplete)
            && (p.Failed? ==> ParsedMessage(input) == Failed)
            && (p.Parsed? && p.size + p.value <= INT_MAX ==>
                  ParsedMessage(input) == Cut(input, p.size, p.size, p.value))
  {
    LengthDecides(input);
    if ParsedVarint(input).Parsed? {
      ToInt32InRange(ParsedVarint(input).value);
    }
  }

  /** The conversion keeps the number modulo 2 to the 32; it is right exactly for what an int can say. */
  lemma ToInt32InRange(n: nat)
    ensures ToInt32(n) == n <==> n <= INT_MAX
    ensures 0 - INT_MAX - 1 <= ToInt32(n) <= INT_MAX && (n - ToInt32(n)) % TWO_32 == 0
  {
  }

  /** What becomes of any announced length, whatever follows it: the conversion to an int decides. */
  lemma AnnouncedLength(n: nat, rest: Bytes)
    requires |Format(n) + rest| <= INT_MAX
    ensures var k, length := |Format(n)|, ToInt32(n);
            ParsedMessage(Format(n) + rest) == if n < TWO_64 then Cut(rest, 0, k, length) else Failed
  {
    VarintRoundTrip(n, rest);
    LengthDecides(Format(n) + rest);
    CutAfter(Format(n), rest, ToInt32(n));
  }

  /** The message of that length at that place, where k bytes have been read before, if it fits and is all there. */
  function Cut(input: Bytes, place: nat, k: nat, length: int): Parse<Bytes>
    requires place <= |input|
  {
    if length < 0 || k + length > INT_MAX then Failed
    else if place + length > |input| then Incomplete
    else Parsed(input[place..place + length], k + length)
  }

  lemma CutAfter(v: Bytes, rest: Bytes, length: int)
    ensures Cut(v + rest, |v|, |v|, length) == Cut(rest, 0, |v|, length)
  {
    if 0 <= length <= |rest| {
      assert (v + rest)[|v|..|v| + length] == rest[0..length];
    }
  }

  lemma LengthDecides(input: Bytes)
    requires |input| <= INT_MAX
    ensures var p := ParsedVarint(input);
            && (p.Incomplete? ==> ParsedMessage(input) == Incomplete)
            && (p.Failed? ==> ParsedMessage(input) == Failed)
            && (p.Parsed? ==> ParsedMessage(input) == Cut(input, p.size, p.size, ToInt32(p.value)))
  {
    ToInt32InRange(|input|);
    assert input[..|input|] == input;
  }

  lemma MessageRoundTrip(m: Bytes, rest: Bytes)
    requires Frameable(m) && |Frame(m) + rest| <= INT_MAX
    ensures ParsedMessage(Frame(m) + rest) == Parsed(m, |Frame(m)|)
  {
    var v := Format(|m|);
    assert v + m + rest == v + (m + rest);
    VarintRoundTrip(|m|, m + rest);
    ParsedMessageInRange(v + m + rest);
    assert (v + m + rest)[|v|..|v| + |m|] == m;
  }

  /** A strict prefix of a frame yields nothing yet. */
  lemma MessagePrefix(m: Bytes, k: nat)
    requires Frameable(m) && k < |Frame(m)|
    ensures ParsedMessage(Frame(m)[..k]) == Incomplete
  {
    var v := Format(|m|);
    ParsedMessageInRange(Frame(m)[..k]);
    if k < |v| {
      assert (v + m)[..k] == v[..k];
      VarintPrefix(|m|, k);
    } else {
      assert (v + m)[..k] == v + m[..k - |v|];
      VarintRoundTrip(|m|, m[..k - |v|]);
    }
  }

  /** Bytes that begin a sequence of frames: the first k whole frames, and a strict prefix of the next. */
  predicate Splits(bytes: Bytes, frames: seq<Bytes>, k: nat, rest: Bytes) {
    && k <= |frames|
    && bytes == Concat(frames[..k]) + rest
    && (if k == |frames| then rest == [] else rest < frames[k])
  }

  lemma {:induction false} ConcatSplit(a: seq<Bytes>, b: seq<Bytes>)
    ensures Concat(a + b) == Concat(a) + Concat(b)
  {
    if a == [] {
      assert a + b == b;
    } else {
      assert (a + b)[1..] == a[1..] + b;
      ConcatSplit(a[1..], b);
    }
  }

  lemma ConcatTake(done: seq<Bytes>, frames: seq<Bytes>, k: nat)
    requires k <= |frames|
    ensures Concat((done + frames)[..|done| + k]) == Concat(done) + Concat(frames[..k])
  {
    assert (done + frames)[..|done| + k] == done + frames[..k];
    ConcatSplit(done, frames[..k]);
  }

  lemma Associative(a: Bytes, b: Bytes, c: Bytes)
    ensures a + (b + c) == a + b + c
  {
  }

  /** Frames that are done go in front. */
  lemma SplitsAfter(done: seq<Bytes>, bytes: Bytes, frames: seq<Bytes>, k: nat, rest: Bytes)
    requires Splits(bytes, frames, k, rest)
    ensures Splits(Concat(done) + bytes, done + frames, |done| + k, rest)
  {
    ConcatTake(done, frames, k);
    Associative(Concat(done), Concat(frames[..k]), rest);
    assert k < |frames| ==> (done + frames)[|done| + k] == frames[k];
  }

  lemma FirstFits(frames: seq<Bytes>)
    ensures frames != [] ==> |frames[0]| <= |Concat(frames)|
  {
  }

  lemma LengthAtLeast(frames: seq<Bytes>, k: nat)
    requires k <= |frames|
    ensures |Concat(frames)| >= |Concat(frames[..k])| + if k < |frames| then |frames[k]| else 0
  {
    assert frames[..k] + frames[k..] == frames;
    FirstFits(frames[k..]);
    ConcatSplit(frames[..k], frames[k..]);
  }

  /** All bytes of the frames split only as all frames. */
  lemma OnlyTheWholeSplits(frames: seq<Bytes>, k: nat, rest: Bytes)
    requires Splits(Concat(frames), frames, k, rest)
    ensures k == |frames| && rest == []
  {
    LengthAtLeast(frames, k);
  }

  lemma ParsesOn(m: Bytes, more: Bytes, delivered: seq<Bytes>)
    requires Frameable(m) && |Frame(m) + more| <= INT_MAX
    ensures ParsedAll(Stream(Frame(m) + more, delivered)) == ParsedAll(Stream(more, delivered + [m]))
  {
    MessageRoundTrip(m, more);
    assert (Frame(m) + more)[|Frame(m)|..] == more;
  }

  lemma StopsAt(m: Bytes, input: Bytes, delivered: seq<Bytes>)
    requires Frameable(m) && input < Frame(m)
    ensures ParsedAll(Stream(input, delivered)) == Stream(input, delivered)
  {
    assert input == Frame(m)[..|input|];
    MessagePrefix(m, |input|);
  }

  lemma StopsAtEnd(delivered: seq<Bytes>)
    ensures ParsedAll(Stream([], delivered)) == Stream([], delivered)
  {
    assert ParsedMessage([]) == Incomplete;
  }

  /** The result of parsing bytes that begin the frames of ms, in terms of how the bytes split. */
  ghost predicate ParsedAs(bytes: Bytes, ms: seq<Bytes>, delivered: seq<Bytes>, result: Stream) {
    exists k: nat, rest: Bytes ::
      k <= |ms| && Splits(bytes, FramesOf(ms), k, rest) && result == Stream(rest, delivered + ms[..k])
  }

  /**
   Parsing input that begins the frames of ms delivers exactly the messages
   whose frames are complete and keeps a strict prefix of the next frame.
   */
  lemma {:induction false} ParsedAllSplits(input: Bytes, delivered: seq<Bytes>, ms: seq<Bytes>)
    requires forall i | 0 <= i < |ms| :: Frameable(ms[i])
    requires input <= Concat(FramesOf(ms)) && |input| <= INT_MAX
    ensures ParsedAs(input, ms, delivered, ParsedAll(Stream(input, delivered)))
    decreases |ms|
  {
    if ms == [] {
      StopsAtEnd(delivered);
      ParsedNothing(input, ms, delivered);
    } else {
      FirstFrame(ms);
      if |input| < |Frame(ms[0])| {
        PrefixOfFirst(input, Frame(ms[0]), Concat(FramesOf(ms[1..])));
        StopsAt(ms[0], input, delivered);
        ParsedNothing(input, ms, delivered);
      } else {
        FirstArrives(input, delivered, ms);
        ParsedAllSplits(input[|Frame(ms[0])|..], delivered + [ms[0]], ms[1..]);
        FirstParsed(input, delivered, ms);
      }
    }
  }

  lemma FirstFrame(ms: seq<Bytes>)
    requires ms != []
    ensures FramesOf(ms)[0] == Frame(ms[0]) && [ms[0]] + ms[1..] == ms
    ensures Concat(FramesOf(ms)) == Frame(ms[0]) + Concat(FramesOf(ms[1..]))
  {
    assert FramesOf(ms)[1..] == FramesOf(ms[1..]);
  }

  lemma PrefixOfFirst(input: Bytes, first: Bytes, others: Bytes)
    requires input <= first + others && |input| < |first|
    ensures input < first && input == first[..|input|]
  {
    assert forall i | 0 <= i < |input| :: input[i] == (first + others)[i] == first[i];
  }

  lemma ParsedNothing(input: Bytes, ms: seq<Bytes>, delivered: seq<Bytes>)
    requires if ms == [] then input == [] else input < Frame(ms[0])
    ensures ParsedAs(input, ms, delivered, Stream(input, delivered))
  {
    assert FramesOf(ms)[..0] == [] && Concat([]) + input == input;
    assert Splits(input, FramesOf(ms), 0, input) && delivered + ms[..0] == delivered;
  }

  lemma FirstArrives(input: Bytes, delivered: seq<Bytes>, ms: seq<Bytes>)
    requires ms != [] && Frameable(ms[0]) && input <= Concat(FramesOf(ms)) && |Frame(ms[0])| <= |input| <= INT_MAX
    ensures var more := input[|Frame(ms[0])|..];
            && input == Frame(ms[0]) + more && more <= Concat(FramesOf(ms[1..]))
            && ParsedAll(Stream(input, delivered)) == ParsedAll(Stream(more, delivered + [ms[0]]))
  {
    var first, more, others := Frame(ms[0]), input[|Frame(ms[0])|..], Concat(FramesOf(ms[1..]));
    FirstFrame(ms);
    assert forall i | 0 <= i < |first| :: input[i] == (first + others)[i] == first[i];
    assert input == first + more;
    PrefixCancels(first, more, others);
    ParsesOn(ms[0], more, delivered);
  }

  lemma FirstParsed(input: Bytes, delivered: seq<Bytes>, ms: seq<Bytes>)
    requires ms != [] && Frameable(ms[0]) && input <= Concat(FramesOf(ms)) && |Frame(ms[0])| <= |input| <= INT_MAX
    requires var more := input[|Frame(ms[0])|..];
             ParsedAs(more, ms[1..], delivered + [ms[0]], ParsedAll(Stream(more, delivered + [ms[0]])))
    ensures ParsedAs(input, ms, delivered, ParsedAll(Stream(input, delivered)))
  {
    var more := input[|Frame(ms[0])|..];
    FirstArrives(input, delivered, ms);
    ParsedOneMore(ms[0], more, ms[1..], delivered, ParsedAll(Stream(more, delivered + [ms[0]])));
    FirstFrame(ms);
  }

  lemma FramesCons(m: Bytes, others: seq<Bytes>)
    ensures Concat([Frame(m)]) == Frame(m)
    ensures FramesOf([m] + others) == [Frame(m)] + FramesOf(others)
  {
    assert [Frame(m)][1..] == [] && Frame(m) + [] == Frame(m);
  }

  lemma ParsedOneMore(m: Bytes, more: Bytes, others: seq<Bytes>, delivered: seq<Bytes>, result: Stream)
    requires ParsedAs(more, others, delivered + [m], result)
    ensures ParsedAs(Frame(m) + more, [m] + others, delivered, result)
  {
    var k: nat, rest: Bytes :|
      k <= |others| && Splits(more, FramesOf(others), k, rest) && result == Stream(rest, delivered + [m] + others[..k]);
    SplitsAfter([Frame(m)], more, FramesOf(others), k, rest);
    FramesCons(m, others);
    assert delivered + ([m] + others)[..1 + k] == delivered + [m] + others[..k];
  }

  /** Input longer than an int can say, if not by 2 GB more, fails the CHECK on the buffer size. */
  lemma OversizedInputFails(s: Stream, chunk: Bytes)
    requires s.Stream? && INT_MAX < |s.input + chunk| < TWO_32
    ensures Received(s, chunk) == Broken
  {
  }

  /** At each arrival the bytes at hand are no more than an int can say. */
  predicate AlwaysFits(chunks: seq<Bytes>)
    decreases |chunks|
  {
    chunks == [] ||
    var shorter, chunk := chunks[..|chunks| - 1], chunks[|chunks| - 1];
    var before := AfterChunks(Stream([], []), shorter);
    AlwaysFits(shorter) && (before.Stream? ==> |before.input| + |chunk| <= INT_MAX)
  }

  predicate AllFrameable(ms: seq<Bytes>) {
    forall i | 0 <= i < |ms| :: Frameable(ms[i])
  }

  /**
   However the bytes of a sequence of frames are cut into chunks, after any
   number of chunks exactly the messages whose frames have arrived in full have
   been delivered, in order, and the bytes left are a strict prefix of the next.
   */
  lemma {:induction false} ChunkingDoesNotMatter(ms: seq<Bytes>, chunks: seq<Bytes>)
    requires Concat(chunks) <= Concat(FramesOf(ms)) && AllFrameable(ms) && AlwaysFits(chunks)
    ensures ParsedAs(Concat(chunks), ms, [], AfterChunks(Stream([], []), chunks))
    decreases |chunks|
  {
    if chunks == [] {
      assert Splits([], FramesOf(ms), 0, []) && [] + ms[..0] == [];
    } else {
      var shorter, chunk := chunks[..|chunks| - 1], chunks[|chunks| - 1];
      ChunksAppend(chunks);
      ChunkingDoesNotMatter(ms, shorter);
      ChunkArrives(ms, Concat(shorter), AfterChunks(Stream([], []), shorter), chunk);
    }
  }

  lemma {:induction false} ChunksAppend(chunks: seq<Bytes>)
    requires chunks != []
    ensures Concat(chunks) == Concat(chunks[..|chunks| - 1]) + chunks[|chunks| - 1]
  {
    var shorter, chunk := chunks[..|chunks| - 1], chunks[|chunks| - 1];
    assert chunks == shorter + [chunk];
    ConcatSplit(shorter, [chunk]);
    assert Concat([chunk]) == chunk + [];
  }

  lemma ChunkArrives(ms: seq<Bytes>, bytes: Bytes, before: Stream, chunk: Bytes)
    requires AllFrameable(ms) && bytes + chunk <= Concat(FramesOf(ms))
    requires ParsedAs(bytes, ms, [], before) && |before.input| + |chunk| <= INT_MAX
    ensures ParsedAs(bytes + chunk, ms, [], Received(before, chunk))
  {
    var j: nat, left: Bytes :|
      j <= |ms| && Splits(bytes, FramesOf(ms), j, left) && before == Stream(left, [] + ms[..j]);
    var done, others := ms[..j], ms[j..];
    FramesSplit(ms, j);
    assert done + others == ms && [] + done == done;
    Associative(Concat(FramesOf(done)), left, chunk);
    ArrivesAfter(done, others, left + chunk);
  }

  lemma ArrivesAfter(done: seq<Bytes>, others: seq<Bytes>, input: Bytes)
    requires AllFrameable(others) && |input| <= INT_MAX
    requires Concat(FramesOf(done)) + input <= Concat(FramesOf(done)) + Concat(FramesOf(others))
    ensures ParsedAs(Concat(FramesOf(done)) + input, done + others, [], ParsedAll(Stream(input, done)))
  {
    PrefixCancels(Concat(FramesOf(done)), input, Concat(FramesOf(others)));
    ParsedAllSplits(input, done, others);
    ParsedFurther(done, others, input, ParsedAll(Stream(input, done)));
  }

  /** For chunks of the size the connection reads, the stream breaks exactly when an arrival does not fit. */
  lemma {:induction false} BreaksExactlyWhen(ms: seq<Bytes>, chunks: seq<Bytes>)
    requires Concat(chunks) <= Concat(FramesOf(ms)) && AllFrameable(ms)
    requires forall i | 0 <= i < |chunks| :: |chunks[i]| <= RECEIVE_SIZE
    ensures AfterChunks(Stream([], []), chunks).Broken? <==> !AlwaysFits(chunks)
    decreases |chunks|
  {
    if chunks != [] {
      var shorter, chunk := chunks[..|chunks| - 1], chunks[|chunks| - 1];
      ChunksAppend(chunks);
      BreaksExactlyWhen(ms, shorter);
      if AlwaysFits(shorter) {
        ChunkingDoesNotMatter(ms, shorter);
        var before := AfterChunks(Stream([], []), shorter);
        LeftoverIsShort(ms, Concat(shorter), before, INT_MAX);
        if |before.input| + |chunk| <= INT_MAX {
          ChunkingDoesNotMatter(ms, chunks);
        } else {
          OversizedInputFails(before, chunk);
        }
      }
    }
  }

  /** Any bytes can arrive in chunks of the size the connection reads. */
  lemma {:induction false} Arriving(bytes: Bytes) returns (chunks: seq<Bytes>)
    ensures Concat(chunks) == bytes && forall i | 0 <= i < |chunks| :: |chunks[i]| <= RECEIVE_SIZE
    decreases |bytes|
  {
    if bytes == [] {
      chunks := [];
    } else {
      var size := if |bytes| < RECEIVE_SIZE then |bytes| else RECEIVE_SIZE;
      var others := Arriving(bytes[size..]);
      chunks := [bytes[..size]] + others;
      assert chunks[1..] == others;
      assert bytes[..size] + bytes[size..] == bytes;
    }
  }

  lemma NothingComplete(bytes: Bytes, frames: seq<Bytes>, k: nat, rest: Bytes)
    requires Splits(bytes, frames, k, rest) && frames != [] && |bytes| < |frames[0]|
    ensures k == 0 && rest == bytes
  {
    FirstIsIncluded(frames, k);
  }

  lemma FirstIsIncluded(frames: seq<Bytes>, k: nat)
    ensures 0 < k <= |frames| ==> |Concat(frames[..k])| >= |frames[0]|
  {
    if 0 < k <= |frames| {
      var whole := frames[..k];
      assert Concat(whole) == frames[0] + Concat(whole[1..]);
    }
  }

  /** One chunk that ends a frame as long as an int can say and begins the next does not fit. */
  lemma LastChunkDoesNotFit(m: Bytes, n: Bytes, shorter: seq<Bytes>, chunk: Bytes)
    requires |Frame(m)| == INT_MAX && Frameable(n) && Concat(shorter) == Frame(m)[..INT_MAX - 1] && |chunk| == 2
    ensures !AlwaysFits(shorter + [chunk])
  {
    var ms, chunks := [m, n], shorter + [chunk];
    assert chunks[..|chunks| - 1] == shorter && chunks[|chunks| - 1] == chunk;
    if AlwaysFits(shorter) {
      var frames := FramesOf(ms);
      assert frames == [Frame(m), Frame(n)] && frames[1..] == [Frame(n)];
      assert Concat(frames) == Frame(m) + Concat([Frame(n)]);
      ChunkingDoesNotMatter(ms, shorter);
      var before := AfterChunks(Stream([], []), shorter);
      var k: nat, rest: Bytes :|
        k <= |ms| && Splits(Concat(shorter), FramesOf(ms), k, rest) && before == Stream(rest, [] + ms[..k]);
      NothingComplete(Concat(shorter), FramesOf(ms), k, rest);
    }
  }

  /** The stream can break although every message can be framed: the chunk that completes a long frame is too much. */
  lemma OversizedInputBreaks() returns (ms: seq<Bytes>, chunks: seq<Bytes>)
    ensures AllFrameable(ms) && Concat(chunks) <= Concat(FramesOf(ms))
    ensures forall i | 0 <= i < |chunks| :: |chunks[i]| <= RECEIVE_SIZE
    ensures AfterChunks(Stream([], []), chunks) == Broken
  {
    var m, n: Bytes := seq(INT_MAX - 5, _ => 0), [];
    LongFrame(m);
    assert Frame(n) == [0];
    ms := [m, n];
    var frames := FramesOf(ms);
    assert frames == [Frame(m), [0]] && frames[1..] == [[0]];
    assert Concat([[0]]) == [0] + Concat([[0]][1..]) == [0];
    assert Concat(frames) == Frame(m) + [0];
    var shorter := Arriving(Frame(m)[..INT_MAX - 1]);
    var chunk := Frame(m)[INT_MAX - 1..] + [0];
    chunks := shorter + [chunk];
    ChunksAppend(chunks);
    assert chunks[..|shorter|] == shorter;
    assert Frame(m)[..INT_MAX - 1] + (Frame(m)[INT_MAX - 1..] + [0]) == Frame(m) + [0];
    LastChunkDoesNotFit(m, n, shorter, chunk);
    BreaksExactlyWhen(ms, chunks);
  }

  lemma LongFrame(m: Bytes)
    requires |m| == INT_MAX - 5
    ensures |Frame(m)| == INT_MAX
  {
    assert Pow128(2) == 128 * Pow128(1) == 0x4000;
    assert Pow128(4) == 128 * Pow128(3) == 128 * (128 * Pow128(2)) == 0x1000_0000;
    assert Pow128(5) == 128 * Pow128(4) == 0x8_0000_0000;
    FormatLength(|m|, 4);
    FormatLength(|m|, 5);
  }

  /** What is left is shorter than a frame. */
  lemma LeftoverIsShort(ms: seq<Bytes>, bytes: Bytes, result: Stream, bound: nat)
    requires ParsedAs(bytes, ms, [], result) && bound > 0
    requires forall i | 0 <= i < |ms| :: |Frame(ms[i])| <= bound
    ensures result.Stream? && |result.input| < bound
  {
  }

  /** Frames that leave room for one more chunk always fit. */
  lemma {:induction false} RoomIsEnough(ms: seq<Bytes>, chunks: seq<Bytes>)
    requires Concat(chunks) <= Concat(FramesOf(ms))
    requires forall i | 0 <= i < |ms| :: |Frame(ms[i])| <= INT_MAX + 1 - RECEIVE_SIZE
    requires forall i | 0 <= i < |chunks| :: |chunks[i]| <= RECEIVE_SIZE
    ensures AlwaysFits(chunks)
    decreases |chunks|
  {
    if chunks != [] {
      var shorter := chunks[..|chunks| - 1];
      ChunksAppend(chunks);
      RoomIsEnough(ms, shorter);
      ChunkingDoesNotMatter(ms, shorter);
      LeftoverIsShort(ms, Concat(shorter), AfterChunks(Stream([], []), shorter), INT_MAX + 1 - RECEIVE_SIZE);
    }
  }

  lemma FramesSplit(ms: seq<Bytes>, j: nat)
    requires j <= |ms|
    ensures FramesOf(ms)[..j] == FramesOf(ms[..j])
    ensures Concat(FramesOf(ms)) == Concat(FramesOf(ms[..j])) + Concat(FramesOf(ms[j..]))
  {
    assert FramesOf(ms) == FramesOf(ms[..j]) + FramesOf(ms[j..]);
    ConcatSplit(FramesOf(ms[..j]), FramesOf(ms[j..]));
  }

  lemma ParsedFurther(done: seq<Bytes>, others: seq<Bytes>, bytes: Bytes, result: Stream)
    requires ParsedAs(bytes, others, done, result)
    ensures ParsedAs(Concat(FramesOf(done)) + bytes, done + others, [], result)
  {
    var k: nat, rest: Bytes :|
      k <= |others| && Splits(bytes, FramesOf(others), k, rest) && result == Stream(rest, done + others[..k]);
    SplitsAfter(FramesOf(done), bytes, FramesOf(others), k, rest);
    FramesAppend(done, others);
    TakeAppend(done, others, k);
    assert Splits(Concat(FramesOf(done)) + bytes, FramesOf(done + others), |done| + k, rest);
    assert result == Stream(rest, [] + (done + others)[..|done| + k]);
  }

  lemma FramesAppend(done: seq<Bytes>, others: seq<Bytes>)
    ensures FramesOf(done) + FramesOf(others) == FramesOf(done + others)
  {
  }

  lemma TakeAppend<T>(done: seq<T>, others: seq<T>, k: nat)
    requires k <= |others|
    ensures [] + (done + others)[..|done| + k] == done + others[..k]
  {
  }

  lemma PrefixCancels(a: Bytes, b: Bytes, c: Bytes)
    requires a + b <= a + c
    ensures b <= c
  {
    assert forall i | 0 <= i < |b| :: b[i] == (a + b)[|a| + i] == (a + c)[|a| + i] == c[i];
  }

  /** In particular, once all bytes have arrived, all messages have been delivered and nothing is left. */
  lemma AllDelivered(ms: seq<Bytes>, chunks: seq<Bytes>)
    requires Concat(chunks) == Concat(FramesOf(ms)) && AllFrameable(ms) && AlwaysFits(chunks)
    ensures AfterChunks(Stream([], []), chunks) == Stream([], ms)
  {
    ChunkingDoesNotMatter(ms, chunks);
    WholeIsParsed(ms, AfterChunks(Stream([], []), chunks));
  }

  lemma WholeIsParsed(ms: seq<Bytes>, result: Stream)
    requires ParsedAs(Concat(FramesOf(ms)), ms, [], result)
    ensures result == Stream([], ms)
  {
    var k: nat, rest: Bytes :|
      k <= |ms| && Splits(Concat(FramesOf(ms)), FramesOf(ms), k, rest) && result == Stream(rest, [] + ms[..k]);
    OnlyTheWholeSplits(FramesOf(ms), k, rest);
    assert [] + ms[..|ms|] == ms;
  }

  // The procedures.

  method GetVarintLength(n: nat) returns (length: nat)
    requires n < TWO_64
    ensures length == |Format(n)| <= 10
  {
    TenBytesAreEnough(n);
    length := 1;
    var rest: nat := n / 128;
    while rest != 0
      invariant |Format(n)| == if rest == 0 then length else length + |Format(rest)|
    {
      assert rest >= 128 ==> |Format(rest)| == 1 + |Format(rest / 128)|;
      length := length + 1;
      rest := rest / 128;
    }
  }

  method FormatVarint(n: nat, buffer: array<Byte>) returns (length: nat)
    requires n < TWO_64 && |Format(n)| <= buffer.Length
    modifies buffer
    ensures length == |Format(n)| && buffer[..length] == Format(n)
    ensures buffer[length..] == old(buffer[length..])
  {
    length := GetVarintLength(n);
    var rest: nat, i: nat := n, 0;
    while i < length
      invariant i <= length
      invariant buffer[length..] == old(buffer[length..])
      invariant if i < length then buffer[..i] + Format(rest) == Format(n) else buffer[..i] == Format(n)
    {
      assert |Format(rest)| == length - i;
      assert i + 1 < length <==> rest >= 128;
      ghost var written := buffer[..i];
      buffer[i] := (if i != length - 1 then 128 else 0) + rest % 128;
      assert buffer[..i + 1] == written + [buffer[i]];
      rest := rest / 128;
      i := i + 1;
    }
  }

  /** FindVarintLastChar, as the number of bytes up to and including the last one. */
  method FindVarintLastChar(bs: Bytes) returns (size: nat)
    ensures size == VarintSize(bs)
  {
    var i := 0;
    while i < |bs|
      invariant i <= |bs|
      invariant forall j | 0 <= j < i :: Continues(bs[j])
    {
      if !Continues(bs[i]) {
        return i + 1;
      }
      i := i + 1;
    }
    size := 0;
  }

  /** The loop stops at its overflow CHECK exactly when the whole number does not fit in 64 bits. */
  method ParseVarint(bs: Bytes) returns (p: Parse<nat>)
    ensures p == ParsedVarint(bs)
  {
    var size := FindVarintLastChar(bs);
    if size == 0 {
      return Incomplete;
    }
    var result: nat, i: nat := 0, size;
    while i > 0
      invariant i <= size
      invariant result == ValueOf(bs[i..size]) < TWO_64
    {
      assert bs[i - 1..size][1..] == bs[i..size];
      if result >= TWO_57 {
        ValueGrows(bs[..size], i - 1);
        assert bs[..size][i - 1..] == bs[i - 1..size];
        return Failed;
      }
      i := i - 1;
      result := result * 128 + bs[i] % 128;
    }
    assert bs[0..size] == bs[..size];
    p := Parsed(result, size);
  }

  lemma {:induction false} ValueGrows(bs: Bytes, i: nat)
    requires i <= |bs|
    ensures ValueOf(bs[i..]) <= ValueOf(bs)
    decreases i
  {
    if i > 0 {
      ValueGrows(bs[1..], i - 1);
      assert bs[1..][i - 1..] == bs[i..];
    }
  }

  class ProtocolConnection {
    var inputData: Bytes
    var delivered: seq<Bytes>

    constructor ()
      ensures inputData == [] && delivered == []
    {
      inputData, delivered := [], [];
    }

    /** The receiving half of SendAndReceive; `ok` is false when a CHECK failed. */
    method ReceiveData(chunk: Bytes) returns (ok: bool)
      modifies this
      ensures Received(old(Stream(inputData, delivered)), chunk) == if ok then Stream(inputData, delivered) else Broken
    {
      inputData := inputData + chunk;
      ok := ParseMessages();
    }

    method ParseMessages() returns (ok: bool)
      modifies this
      ensures ParsedAll(old(Stream(inputData, delivered))) == if ok then Stream(inputData, delivered) else Broken
    {
      ghost var goal := ParsedAll(Stream(inputData, delivered));
      while true
        invariant goal == ParsedAll(Stream(inputData, delivered))
        decreases |inputData|
      {
        var message := ParseProtocolMessage(inputData);
        match message {
          case Incomplete => return true;
          case Failed => return false;
          case Parsed(m, size) =>
            delivered := delivered + [m];
            inputData := inputData[size..];
        }
      }
    }

    method ParseProtocolMessage(input: Bytes) returns (p: Parse<Bytes>)
      ensures p == ParsedMessage(input)
    {
      var size := ToInt32(|input|);
      if size < 0 {
        return Failed;
      }
      var varint := ParseVarint(input[..size]);
      match varint {
        case Incomplete => return Incomplete;
        case Failed => return Failed;
        case Parsed(n, k) =>
          var length := ToInt32(n);
          if length < 0 || k + length > INT_MAX {
            return Failed;
          }
          if k + length > size {
            return Incomplete;
          }
          return Parsed(input[k..k + length], k + length);
      }
    }
  }
}
