// Length-prefixed frames (crates/repomon-core/src/protocol.rs:119-156).
module Protocol {
  import opened Prelude
  import opened Arithmetic

  type Bytes = seq<byte>

  const MAX_FRAME_BYTES := 64 * 1024 * 1024
  const WIDTH := 0x1_0000_0000

  datatype ReadError = UnexpectedEof | TooLarge(size: nat)

  // What reading one frame yields. At the end of the stream there is none.
  datatype Frame = Frame(payload: Bytes, rest: Bytes) | End | Failed(error: ReadError)

  // ---------------------------------------------------------------- lengths

  // Four bytes, the lowest first.
  function LittleEndian(n: nat): (b: Bytes)
    requires n < WIDTH
    ensures |b| == 4
  {
    [(n % 256) as byte, (n / 256 % 256) as byte, (n / 65536 % 256) as byte, (n / 16777216) as byte]
  }

  function FromLittleEndian(b: Bytes): nat
    requires |b| == 4
  {
    b[0] as nat + 256 * b[1] as nat + 65536 * b[2] as nat + 16777216 * b[3] as nat
  }

  lemma LengthRoundTrip(n: nat)
    requires n < WIDTH
    ensures FromLittleEndian(LittleEndian(n)) == n
  {
    var a, b, c := n / 256, n / 65536, n / 16777216;
    assert n == 256 * a + n % 256;
    assert a == 256 * b + a % 256;
    assert b == 256 * c + b % 256;
  }

  // ---------------------------------------------------------------- frames

  // The length is cut to four bytes.
  function Encode(payload: Bytes): Bytes { LittleEndian(|payload| % WIDTH) + payload }

  // A stream that ends inside the length ends quietly; one that ends inside the payload fails.
  function Decode(s: Bytes): Frame {
    if |s| < 4 then End
    else
      var n := FromLittleEndian(s[..4]);
      if n > MAX_FRAME_BYTES then Failed(TooLarge(n))
      else if |s| - 4 < n then Failed(UnexpectedEof)
      else Frame(s[4..4 + n], s[4 + n..])
  }

  lemma DecodeEncoded(payload: Bytes, rest: Bytes)
    ensures
      var n := |payload| % WIDTH;
      Decode(Encode(payload) + rest)
      == if n > MAX_FRAME_BYTES then Failed(TooLarge(n)) else Frame(payload[..n], payload[n..] + rest)
  {
    var n := |payload| % WIDTH;
    var s := Encode(payload) + rest;
    LengthRoundTrip(n);
    assert s[..4] == LittleEndian(n);
    if n <= MAX_FRAME_BYTES {
      assert s[4..4 + n] == payload[..n];
      assert s[4 + n..] == payload[n..] + rest;
    }
  }

  // A written frame is read back, leaving what follows it, exactly when its payload is within
  // the limit; a longer one is refused, or, when its length does not fit four bytes, cut.
  lemma RoundTripExactly(payload: Bytes, rest: Bytes)
    ensures Decode(Encode(payload) + rest) == Frame(payload, rest) <==> |payload| <= 67_108_864
  {
    DecodeEncoded(payload, rest);
    if |payload| <= 67_108_864 {
      assert payload[..|payload|] == payload && payload[|payload|..] + rest == rest;
    }
  }

  // A written frame is the four bytes of the length, the lowest first, and the payload.
  lemma FrameIs(payload: Bytes)
    requires |payload| < WIDTH
    ensures
      var s, n := Encode(payload), |payload|;
      && |s| == 4 + n && s[4..] == payload
      && s[0] as int == n % 256 && s[1] as int == n / 256 % 256
      && s[2] as int == n / 65_536 % 256 && s[3] as int == n / 16_777_216
  {
    assert |payload| % WIDTH == |payload|;
  }

  lemma LengthIsWritten(b: Bytes)
    requires |b| == 4
    ensures FromLittleEndian(b) < WIDTH && LittleEndian(FromLittleEndian(b)) == b
  {
    var n := FromLittleEndian(b);
    Quotient(b[1] as nat + 256 * b[2] as nat + 65536 * b[3] as nat, b[0] as nat, 256);
    Quotient(b[2] as nat + 256 * b[3] as nat, b[0] as nat + 256 * b[1] as nat, 65536);
    Quotient(b[3] as nat, b[0] as nat + 256 * b[1] as nat + 65536 * b[2] as nat, 16777216);
    Quotient(b[2] as nat + 256 * b[3] as nat, b[1] as nat, 256);
    Quotient(b[3] as nat, b[2] as nat, 256);
  }

  // What is read is exactly what was written: a frame is read only from the bytes that writing its
  // payload gives, and only up to 64 MiB; the stream ends quietly exactly when fewer than four bytes
  // are left; and the rest fails, a length over the limit before anything else.
  lemma DecodesExactly(s: Bytes)
    ensures forall p, rest :: Decode(s) == Frame(p, rest) <==> s == Encode(p) + rest && |p| <= 67_108_864
    ensures Decode(s) == End <==> |s| < 4
    ensures |s| >= 4 ==>
              var n := s[0] as nat + 256 * s[1] as nat + 65_536 * s[2] as nat + 16_777_216 * s[3] as nat;
              && (Decode(s) == Failed(TooLarge(n)) <==> n > 67_108_864)
              && (Decode(s) == Failed(UnexpectedEof) <==> n <= 67_108_864 && |s| - 4 < n)
  {
    forall p, rest | s == Encode(p) + rest && |p| <= 67_108_864 ensures Decode(s) == Frame(p, rest) {
      RoundTripExactly(p, rest);
    }
    if Decode(s).Frame? {
      var n := FromLittleEndian(s[..4]);
      LengthIsWritten(s[..4]);
      assert s == s[..4] + s[4..4 + n] + s[4 + n..];
    }
  }

  // ---------------------------------------------------------------- streams

  function EncodeAll(payloads: seq<Bytes>): Bytes {
    if payloads == [] then [] else Encode(payloads[0]) + EncodeAll(payloads[1..])
  }

  // The frames read until there is none, and how it ended.
  datatype Stream = Stream(payloads: seq<Bytes>, error: Option<ReadError>)

  function DecodeAll(s: Bytes): Stream
    decreases |s|
  {
    match Decode(s)
    case End => Stream([], None)
    case Failed(e) => Stream([], Some(e))
    case Frame(payload, rest) => var more := DecodeAll(rest); Stream([payload] + more.payloads, more.error)
  }

  function Prepend(payloads: seq<Bytes>, s: Stream): Stream { Stream(payloads + s.payloads, s.error) }

  lemma ReadsOneMore(payloads: seq<Bytes>, s: Bytes)
    ensures
      Prepend(payloads, DecodeAll(s)) == match Decode(s)
        case End => Stream(payloads, None)
        case Failed(e) => Stream(payloads, Some(e))
        case Frame(p, rest) => Prepend(payloads + [p], DecodeAll(rest))
  {
    if Decode(s).Frame? {
      var p, more := Decode(s).payload, DecodeAll(Decode(s).rest);
      assert payloads + ([p] + more.payloads) == payloads + [p] + more.payloads;
    }
  }

  ghost predicate WithinLimit(payloads: seq<Bytes>) {
    forall i :: 0 <= i < |payloads| ==> |payloads[i]| <= MAX_FRAME_BYTES
  }

  // Where a cut falls: after `whole` complete frames and `into` bytes of the next one.
  function CutWhole(payloads: seq<Bytes>, k: nat): nat {
    if payloads == [] || k < |payloads[0]| + 4 then 0 else 1 + CutWhole(payloads[1..], k - |payloads[0]| - 4)
  }

  function CutInto(payloads: seq<Bytes>, k: nat): nat {
    if payloads == [] || k < |payloads[0]| + 4 then k else CutInto(payloads[1..], k - |payloads[0]| - 4)
  }

  // The first `k` bytes of a stream of frames yield exactly its complete frames; then the stream ends
  // quietly if it broke off between frames or inside a length, and fails if inside a payload.
  ghost predicate YieldsAPrefix(payloads: seq<Bytes>, k: nat)
    requires k <= |EncodeAll(payloads)|
  {
    && CutWhole(payloads, k) <= |payloads|
    && DecodeAll(EncodeAll(payloads)[..k])
       == Stream(
            payloads[..CutWhole(payloads, k)],
            if CutInto(payloads, k) < 4 then None else Some(UnexpectedEof))
  }

  lemma BreaksOffFirst(payloads: seq<Bytes>, k: nat)
    requires WithinLimit(payloads) && payloads != [] && k < |payloads[0]| + 4 && k <= |EncodeAll(payloads)|
    ensures YieldsAPrefix(payloads, k)
  {
    BrokenFrame(payloads[0], EncodeAll(payloads[1..]), k);
  }

  lemma CutsLater(p: Bytes, more: seq<Bytes>, k: nat)
    requires |p| + 4 <= k
    ensures
      var payloads, j := [p] + more, k - |p| - 4;
      && EncodeAll(payloads) == Encode(p) + EncodeAll(more)
      && CutWhole(payloads, k) == 1 + CutWhole(more, j) && CutInto(payloads, k) == CutInto(more, j)
  {
    assert ([p] + more)[1..] == more;
  }

  lemma BreaksOffLater(p: Bytes, more: seq<Bytes>, k: nat)
    requires |p| <= MAX_FRAME_BYTES && |p| + 4 <= k
    requires k - |p| - 4 <= |EncodeAll(more)| && k <= |EncodeAll([p] + more)|
    requires YieldsAPrefix(more, k - |p| - 4)
    ensures YieldsAPrefix([p] + more, k)
  {
    var n := CutWhole(more, k - |p| - 4);
    CutsLater(p, more, k);
    WholeFrame(p, EncodeAll(more), k);
    assert ([p] + more)[..1 + n] == [p] + more[..n];
  }

  lemma {:induction false} TruncationYieldsAPrefix(payloads: seq<Bytes>, k: nat)
    requires WithinLimit(payloads) && k <= |EncodeAll(payloads)|
    ensures YieldsAPrefix(payloads, k)
    decreases |payloads|
  {
    if payloads == [] {
      assert EncodeAll(payloads)[..k] == [];
    } else if k < |payloads[0]| + 4 {
      BreaksOffFirst(payloads, k);
    } else {
      TruncationYieldsAPrefix(payloads[1..], k - |payloads[0]| - 4);
      BreaksOffLater(payloads[0], payloads[1..], k);
      assert payloads == [payloads[0]] + payloads[1..];
    }
  }

  lemma WholeFrame(p: Bytes, rest: Bytes, k: nat)
    requires |p| <= MAX_FRAME_BYTES && |p| + 4 <= k <= |Encode(p) + rest|
    ensures
      var more := DecodeAll(rest[..k - |p| - 4]);
      DecodeAll((Encode(p) + rest)[..k]) == Stream([p] + more.payloads, more.error)
  {
    var left := rest[..k - |p| - 4];
    assert (Encode(p) + rest)[..k] == Encode(p) + left;
    RoundTripExactly(p, left);
  }

  lemma BrokenFrame(p: Bytes, rest: Bytes, k: nat)
    requires |p| <= MAX_FRAME_BYTES && k < |p| + 4
    ensures Decode((Encode(p) + rest)[..k]) == if k < 4 then End else Failed(UnexpectedEof)
  {
    var n := |p|;
    var s := (Encode(p) + rest)[..k];
    assert |Encode(p)| == n + 4;
    if k >= 4 {
      LengthRoundTrip(n);
      assert n % WIDTH == n;
      assert s[..4] == LittleEndian(n);
    }
  }

  // The frames written are the frames read, and then none.
  lemma StreamRoundTrip(payloads: seq<Bytes>)
    requires WithinLimit(payloads)
    ensures DecodeAll(EncodeAll(payloads)) == Stream(payloads, None)
  {
    var s := EncodeAll(payloads);
    TruncationYieldsAPrefix(payloads, |s|);
    WholeCut(payloads);
    assert s[..|s|] == s && payloads[..|payloads|] == payloads;
  }

  lemma {:induction false} WholeCut(payloads: seq<Bytes>)
    ensures CutWhole(payloads, |EncodeAll(payloads)|) == |payloads|
    ensures CutInto(payloads, |EncodeAll(payloads)|) == 0
  {
    if payloads != [] { WholeCut(payloads[1..]); }
  }

  // ---------------------------------------------------------------- the byte stream

  class Pipe {
    var data: Bytes

    constructor ()
      ensures data == []
    {
      data := [];
    }

    method WriteFrame(payload: Bytes)
      modifies this
      ensures data == old(data) + Encode(payload)
    {
      var length := LittleEndian(|payload| % WIDTH);
      data := data + length;
      data := data + payload;
    }

    // Fills a buffer byte by byte; at the end of the stream what was read is lost.
    method ReadExact(n: nat) returns (buf: Option<Bytes>)
      modifies this
      ensures n <= |old(data)| ==> buf == Some(old(data)[..n]) && data == old(data)[n..]
      ensures n > |old(data)| ==> buf == None && data == []
    {
      var got: Bytes := [];
      while |got| < n && data != []
        invariant |got| <= n && got + data == old(data)
        decreases |data|
      {
        got := got + [data[0]];
        data := data[1..];
      }
      if |got| < n { return None; }
      return Some(got);
    }

    method ReadFrame() returns (r: Result<Option<Bytes>, ReadError>)
      modifies this
      ensures match Decode(old(data))
              case Frame(payload, rest) => r == Ok(Some(payload)) && data == rest
              case End => r == Ok(None) && data == []
              case Failed(e) => r == Err(e) && data == if e.TooLarge? then old(data)[4..] else []
    {
      ghost var before := data;
      var header := ReadExact(4);
      if header.None? { return Ok(None); }
      var n := FromLittleEndian(header.value);
      if n > MAX_FRAME_BYTES { return Err(TooLarge(n)); }
      var body := ReadExact(n);
      if body.None? { return Err(UnexpectedEof); }
      assert before[4..][..n] == before[4..4 + n] && before[4..][n..] == before[4 + n..];
      return Ok(body);
    }

    // Reads frames until there is none or one cannot be read.
    method ReadAll() returns (payloads: seq<Bytes>, error: Option<ReadError>)
      modifies this
      ensures Stream(payloads, error) == DecodeAll(old(data))
    {
      payloads, error := [], None;
      while true
        invariant error == None
        invariant DecodeAll(old(data)) == Prepend(payloads, DecodeAll(data))
        decreases |data|
      {
        ReadsOneMore(payloads, data);
        var r := ReadFrame();
        if r.Err? { return payloads, Some(r.error); }
        if r.value.None? { return payloads, None; }
        payloads := payloads + [r.value.value];
      }
    }
  }
}
