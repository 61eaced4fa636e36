/** BGP message framing (section 4.1 of RFC 4271) over a TCP stream that delivers bytes in arbitrary chunks. */
module Frames {
  import opened Common

  const HEADER := 19
  const MAX_LENGTH := 4096

  /** A frame as the session sees it: the message type and everything after the header. */
  datatype Frame = Frame(kind: byte, body: seq<byte>)

  datatype Error = Truncated | BadMarker | BadLength(length: nat)

  predicate Legal(f: Frame) {
    HEADER + |f.body| <= MAX_LENGTH
  }

  function Marker(): (m: seq<byte>)
    ensures |m| == 16 && forall i :: 0 <= i < 16 ==> m[i] == 0xFF
  {
    seq(16, i => 0xFF)
  }

  /** `write_bgp_message`: the marker is forced to all ones, then length and type. */
  function Encode(f: Frame): (bytes: seq<byte>)
    requires Legal(f)
    ensures |bytes| == HEADER + |f.body|
  {
    var length := HEADER + |f.body|;
    Marker() + [length / 256, length % 256, f.kind] + f.body
  }

  /** Outcome of one read: a frame and the bytes not yet consumed, or an error that ends the session. */
  datatype ReadResult = Got(frame: Frame, rest: seq<byte>) | Failed(error: Error)

  function HeaderError(header: seq<byte>): (problem: Option<Error>)
    requires |header| == HEADER
    ensures problem.None? ==> HEADER <= Word(header[16], header[17]) <= MAX_LENGTH
  {
    var length := Word(header[16], header[17]);
    if header[..16] != Marker() then Some(BadMarker)
    else if length < HEADER || length > MAX_LENGTH then Some(BadLength(length))
    else None
  }

  function ReadFrame(bytes: seq<byte>): ReadResult {
    if |bytes| < HEADER then Failed(Truncated)
    else
      var header := bytes[..HEADER];
      var problem := HeaderError(header);
      if problem.Some? then Failed(problem.value)
      else
        var length := Word(header[16], header[17]);
        if |bytes| < length then Failed(Truncated)
        else Got(Frame(header[18], bytes[HEADER..length]), bytes[length..])
  }

  /** Concatenation of encoded frames. */
  function EncodeAll(fs: seq<Frame>): seq<byte>
    requires forall i :: 0 <= i < |fs| ==> Legal(fs[i])
  {
    if fs == [] then [] else Encode(fs[0]) + EncodeAll(fs[1..])
  }

  function Flatten(chunks: seq<seq<byte>>): seq<byte> {
    if chunks == [] then [] else chunks[0] + Flatten(chunks[1..])
  }

  // ----- Round trips

  lemma {:induction false} HeaderOfEncode(f: Frame, rest: seq<byte>)
    requires Legal(f)
    ensures var s := Encode(f) + rest;
            && s[..16] == Marker() && Word(s[16], s[17]) == HEADER + |f.body| && s[18] == f.kind
            && s[HEADER..HEADER + |f.body|] == f.body && s[HEADER + |f.body|..] == rest
  {
    var s := Encode(f) + rest;
    var length := HEADER + |f.body|;
    assert s[16] == length / 256 && s[17] == length % 256;
  }

  /** What was written is what is read, and the next frame starts right after it. */
  lemma {:induction false} ReadBackOne(f: Frame, rest: seq<byte>)
    requires Legal(f)
    ensures ReadFrame(Encode(f) + rest) == Got(f, rest)
  {
    HeaderOfEncode(f, rest);
    var s := Encode(f) + rest;
    assert s[..HEADER][..16] == s[..16];
    hide Encode;
  }

  /** Every accepted frame is legal and re-encodes to exactly the bytes it was read from. */
  lemma {:induction false} AcceptedReencodes(bytes: seq<byte>)
    requires ReadFrame(bytes).Got?
    ensures Legal(ReadFrame(bytes).frame)
    ensures Encode(ReadFrame(bytes).frame) + ReadFrame(bytes).rest == bytes
  {
    var r := ReadFrame(bytes);
    var header := bytes[..HEADER];
    var length := Word(header[16], header[17]);
    assert length / 256 == header[16] && length % 256 == header[17];
    assert Marker() + [header[16], header[17], header[18]] == header;
    assert header + bytes[HEADER..length] + bytes[length..] == bytes;
  }

  /**
   What a read makes of any bytes, by the numbers of the wire format: a marker of sixteen 0xFF, a length of
   19 to 4096 with its high byte first, and the frame within it. The marker is looked at before the length.
   */
  lemma {:induction false} ReadFrameSpelled(bytes: seq<byte>)
    ensures var r := ReadFrame(bytes);
            if |bytes| < 19 then r == Failed(Truncated)
            else if exists i :: 0 <= i < 16 && bytes[i] != 255 then r == Failed(BadMarker)
            else
              var n := 256 * (bytes[16] as int) + (bytes[17] as int);
              if n < 19 || n > 4096 then r.Failed? && r.error.BadLength? && r.error.length == n
              else if |bytes| < n then r == Failed(Truncated)
              else r == Got(Frame(bytes[18], bytes[19..n]), bytes[n..])
  {
    if |bytes| >= 19 {
      var header := bytes[..HEADER];
      assert forall i :: 0 <= i < 19 ==> header[i] == bytes[i];
      if forall i :: 0 <= i < 16 ==> bytes[i] == 255 {
        assert header[..16] == Marker();
      } else {
        var i :| 0 <= i < 16 && bytes[i] != 255;
        assert header[..16][i] != Marker()[i];
      }
    }
  }

  /** Reading until the stream is exhausted. */
  function ReadAll(bytes: seq<byte>): (fs: Result<seq<Frame>, Error>)
    decreases |bytes|
  {
    if bytes == [] then Ok([])
    else
      match ReadFrame(bytes)
      case Failed(e) => Err(e)
      case Got(f, rest) =>
        AcceptedReencodes(bytes);
        match ReadAll(rest)
        case Err(e) => Err(e)
        case Ok(fs) => Ok([f] + fs)
  }

  lemma {:induction false} ReadBackAll(fs: seq<Frame>)
    requires forall i :: 0 <= i < |fs| ==> Legal(fs[i])
    ensures ReadAll(EncodeAll(fs)) == Ok(fs)
  {
    if fs != [] {
      ReadBackOne(fs[0], EncodeAll(fs[1..]));
      ReadBackAll(fs[1..]);
      hide Encode, ReadFrame;
      assert fs == [fs[0]] + fs[1..];
    }
  }

  // ----- The stream

  /** The receiving end of a connection: what the peer sent, in the pieces in which it arrives. */
  class Stream {
    var chunks: seq<seq<byte>>

    ghost function Pending(): seq<byte>
      reads this
    {
      Flatten(chunks)
    }

    constructor (chunks: seq<seq<byte>>)
      ensures this.chunks == chunks
    {
      this.chunks := chunks;
    }

    /** `read_exact`: collects chunks until `n` bytes are there, or fails at end of stream. */
    method ReadExact(n: nat) returns (r: Option<seq<byte>>)
      modifies this
      ensures r.Some? <==> n <= |old(Pending())|
      ensures r.Some? ==> r.value == old(Pending())[..n] && Pending() == old(Pending())[n..]
    {
      var buffer: seq<byte> := [];
      while |buffer| < n && chunks != []
        invariant |buffer| <= n
        invariant buffer + Pending() == old(Pending())
        decreases n - |buffer| + |chunks|, |chunks|
      {
        var want := n - |buffer|;
        var chunk := chunks[0];
        ghost var later := Flatten(chunks[1..]);
        if |chunk| <= want {
          buffer := buffer + chunk;
          chunks := chunks[1..];
        } else {
          FlattenHead(chunk[want..], chunks[1..]);
          assert chunk == chunk[..want] + chunk[want..];
          buffer := buffer + chunk[..want];
          chunks := [chunk[want..]] + chunks[1..];
        }
      }
      r := if |buffer| == n then Some(buffer) else None;
    }

    /** `read_bgp_message`, up to the parser. */
    method ReadMessage() returns (r: Result<Frame, Error>)
      modifies this
      ensures match ReadFrame(old(Pending()))
              case Got(f, rest) => r == Ok(f) && Pending() == rest
              case Failed(e) => r == Err(e)
    {
      hide Flatten, HeaderError, Word;
      ghost var all := Pending();
      var header := ReadExact(HEADER);
      if header.None? {
        return Err(Truncated);
      }
      var h := header.value;
      var problem := HeaderError(h);
      if problem.Some? {
        return Err(problem.value);
      }
      var length := Word(h[16], h[17]);
      var body: seq<byte> := [];
      if length > HEADER {
        var payload := ReadExact(length - HEADER);
        if payload.None? {
          return Err(Truncated);
        }
        body := payload.value;
      }
      SliceOfRest(all, HEADER, length);
      r := Ok(Frame(h[18], body));
    }

    /** A read dropped by the timeout once it has taken `n` bytes, or all there are. */
    method CancelledRead(n: nat)
      modifies this
      ensures Pending() == AfterCancel(old(Pending()), n)
    {
      var left: nat := n;
      while left > 0 && chunks != []
        invariant left <= n
        invariant AfterCancel(Pending(), left) == AfterCancel(old(Pending()), n)
        decreases |chunks|, left
      {
        var chunk := chunks[0];
        if |chunk| <= left {
          left := left - |chunk|;
          chunks := chunks[1..];
        } else {
          FlattenHead(chunk[left..], chunks[1..]);
          chunks := [chunk[left..]] + chunks[1..];
          left := 0;
        }
      }
      assert left == 0 ==> Pending()[left..] == Pending();
    }

    /** The session's reads, some of them cancelled. */
    method ReadWithTimeouts(attempts: seq<Attempt>) returns (r: Result<seq<Frame>, Error>)
      modifies this
      ensures match ReadAttempts(old(Pending()), attempts)
              case Ok((fs, left)) => r == Ok(fs) && Pending() == left
              case Err(e) => r == Err(e)
    {
      hide Flatten, ReadFrame;
      var fs: seq<Frame> := [];
      assert attempts[0..] == attempts;
      PrependNothing(ReadAttempts(Pending(), attempts));
      for i := 0 to |attempts|
        invariant ReadAttempts(old(Pending()), attempts) == Prepend(fs, ReadAttempts(Pending(), attempts[i..]))
      {
        assert attempts[i..][1..] == attempts[i + 1..];
        match attempts[i] {
          case Cancel(k) => CancelledRead(k);
          case Finish =>
            ghost var rest := Pending();
            var m := ReadMessage();
            if m.Err? {
              return Err(m.error);
            }
            PrependTwice(fs, m.value, ReadAttempts(Pending(), attempts[i + 1..]));
            fs := fs + [m.value];
        }
      }
      assert fs + [] == fs;
      r := Ok(fs);
    }

    /** The session's reading loop: `n` messages in a row. */
    method ReadMessages(n: nat) returns (fs: seq<Frame>, error: Option<Error>)
      modifies this
      ensures forall i :: 0 <= i < |fs| ==> Legal(fs[i])
      ensures error.None? ==> |fs| == n && EncodeAll(fs) + Pending() == old(Pending())
    {
      fs := [];
      error := None;
      hide Flatten, ReadFrame, Encode;
      while |fs| < n
        invariant |fs| <= n
        invariant forall i :: 0 <= i < |fs| ==> Legal(fs[i])
        invariant EncodeAll(fs) + Pending() == old(Pending())
      {
        ghost var before := Pending();
        var r := ReadMessage();
        if r.Err? {
          return fs, Some(r.error);
        }
        AcceptedReencodes(before);
        EncodeAllPush(fs, r.value);
        fs := fs + [r.value];
      }
    }
  }

  function Prepend(fs: seq<Frame>, r: Result<(seq<Frame>, seq<byte>), Error>): Result<(seq<Frame>, seq<byte>), Error> {
    match r
    case Err(e) => Err(e)
    case Ok((gs, left)) => Ok((fs + gs, left))
  }

  lemma {:induction false} PrependNothing(r: Result<(seq<Frame>, seq<byte>), Error>)
    ensures Prepend([], r) == r
  {
    if r.Ok? {
      assert [] + r.value.0 == r.value.0;
    }
  }

  lemma {:induction false} PrependTwice(fs: seq<Frame>, f: Frame, r: Result<(seq<Frame>, seq<byte>), Error>)
    ensures Prepend(fs, Prepend([f], r)) == Prepend(fs + [f], r)
  {
    if r.Ok? {
      assert fs + ([f] + r.value.0) == fs + [f] + r.value.0;
    }
  }

  lemma {:induction false} SliceOfRest(s: seq<byte>, i: nat, j: nat)
    requires i <= j <= |s|
    ensures s[i..][..j - i] == s[i..j] && s[i..][j - i..] == s[j..]
  {
  }

  lemma {:induction false} FlattenHead(chunk: seq<byte>, rest: seq<seq<byte>>)
    ensures Flatten([chunk] + rest) == chunk + Flatten(rest)
  {
    assert ([chunk] + rest)[1..] == rest;
  }

  lemma {:induction false} EncodeAllPush(fs: seq<Frame>, f: Frame)
    requires Legal(f) && forall i :: 0 <= i < |fs| ==> Legal(fs[i])
    ensures EncodeAll(fs + [f]) == EncodeAll(fs) + Encode(f)
  {
    hide Encode;
    if fs == [] {
      assert fs + [f] == [f] && [f][1..] == [];
    } else {
      assert (fs + [f])[0] == fs[0] && (fs + [f])[1..] == fs[1..] + [f];
      EncodeAllPush(fs[1..], f);
    }
  }

  /** However the bytes of a sequence of frames are cut into chunks, reading gives back that sequence. */
  method ReadBack(frames: seq<Frame>, chunks: seq<seq<byte>>) returns (out: seq<Frame>)
    requires forall i :: 0 <= i < |frames| ==> Legal(frames[i])
    requires Flatten(chunks) == EncodeAll(frames)
    ensures out == frames
  {
    var stream := new Stream(chunks);
    out := [];
    for i := 0 to |frames|
      invariant out == frames[..i]
      invariant stream.Pending() == EncodeAll(frames[i..])
    {
      ReadBackOne(frames[i], EncodeAll(frames[i..][1..]));
      assert frames[i..][1..] == frames[i + 1..];
      var r := stream.ReadMessage();
      out := out + [r.value];
      assert frames[..i + 1] == frames[..i] + [frames[i]];
    }
  }

  // ----- A read cancelled part-way

  /**
   The read timeout drops the bytes already taken. If it fires inside the header
   of a frame, the stream stays in step exactly when nothing had been taken;
   otherwise the next header read fails on the marker, because the length's high
   byte is at most 16 and the type is not 255.
   */
  lemma {:induction false} CancelledInHeader(f: Frame, rest: seq<byte>, k: nat)
    requires Legal(f) && f.kind != 0xFF && k < HEADER
    requires |Encode(f) + rest| - k >= HEADER
    ensures ReadFrame((Encode(f) + rest)[k..]) == if k == 0 then Got(f, rest) else Failed(BadMarker)
  {
    var s := Encode(f) + rest;
    var t := s[k..];
    if k == 0 {
      ReadBackOne(f, rest);
      assert t == s;
    } else {
      var length := HEADER + |f.body|;
      var i := if k <= 16 then 16 - k else 18 - k;
      assert s[16] == length / 256 && s[18] == f.kind;
      assert t[..HEADER][..16][i] == s[i + k] != Marker()[i];
    }
  }

  /** Inside the body there is no such protection: the rest of a body can pass for a frame that was never sent. */
  lemma {:induction false} CancelledInBodyForgesFrame(inner: Frame, rest: seq<byte>)
    requires Legal(inner) && HEADER + |Encode(inner)| <= MAX_LENGTH
    ensures var outer := Frame(2, Encode(inner));
            Legal(outer) && ReadFrame((Encode(outer) + rest)[HEADER..]) == Got(inner, rest)
  {
    var outer := Frame(2, Encode(inner));
    HeaderOfEncode(outer, rest);
    assert (Encode(outer) + rest)[HEADER..] == Encode(inner) + rest;
    ReadBackOne(inner, rest);
  }

  /** Wherever in the frame a read is cancelled, the next read returns that frame exactly when nothing had been taken. */
  lemma {:induction false} CancelledLosesFrame(f: Frame, rest: seq<byte>, k: nat)
    requires Legal(f) && k <= |Encode(f)|
    ensures ReadFrame((Encode(f) + rest)[k..]) == Got(f, rest) <==> k == 0
  {
    var s := Encode(f) + rest;
    hide ReadFrame;
    ReadBackOne(f, rest);
    assert s[0..] == s;
    if ReadFrame(s[k..]) == Got(f, rest) {
      AcceptedReencodes(s[k..]);
      assert |s[k..]| == |s| - k;
    }
  }

  /** What the session does with a read: lets it finish, or drops it after it has taken some bytes. */
  datatype Attempt = Finish | Cancel(taken: nat)

  function AfterCancel(bytes: seq<byte>, taken: nat): seq<byte> {
    if taken <= |bytes| then bytes[taken..] else []
  }

  /** The frames that the finished reads return, and the bytes left. */
  function ReadAttempts(bytes: seq<byte>, attempts: seq<Attempt>): Result<(seq<Frame>, seq<byte>), Error>
    decreases |attempts|
  {
    if attempts == [] then Ok(([], bytes))
    else
      match attempts[0]
      case Cancel(k) => ReadAttempts(AfterCancel(bytes, k), attempts[1..])
      case Finish =>
        match ReadFrame(bytes)
        case Failed(e) => Err(e)
        case Got(f, rest) =>
          match ReadAttempts(rest, attempts[1..])
          case Err(e) => Err(e)
          case Ok((fs, left)) => Ok(([f] + fs, left))
  }

  /** Bytes that cancelled reads took, up to the first read that fails. */
  function Lost(bytes: seq<byte>, attempts: seq<Attempt>): nat
    decreases |attempts|
  {
    if attempts == [] then 0
    else
      match attempts[0]
      case Cancel(k) => (if k <= |bytes| then k else |bytes|) + Lost(AfterCancel(bytes, k), attempts[1..])
      case Finish =>
        match ReadFrame(bytes)
        case Failed(_) => 0
        case Got(_, rest) => Lost(rest, attempts[1..])
  }

  function Finishes(attempts: seq<Attempt>): nat {
    if attempts == [] then 0 else (if attempts[0].Finish? then 1 else 0) + Finishes(attempts[1..])
  }

  /** Every byte is in a frame returned, lost to a cancelled read, or left. */
  lemma {:induction false} BytesAccounted(bytes: seq<byte>, attempts: seq<Attempt>)
    requires ReadAttempts(bytes, attempts).Ok?
    ensures var (fs, left) := ReadAttempts(bytes, attempts).value;
            && |fs| == Finishes(attempts) && (forall i :: 0 <= i < |fs| ==> Legal(fs[i]))
            && |EncodeAll(fs)| + Lost(bytes, attempts) + |left| == |bytes|
    decreases |attempts|
  {
    hide Encode, ReadFrame, Legal;
    if attempts != [] {
      match attempts[0]
      case Cancel(k) =>
        BytesAccounted(AfterCancel(bytes, k), attempts[1..]);
      case Finish =>
        AcceptedReencodes(bytes);
        var f, rest := ReadFrame(bytes).frame, ReadFrame(bytes).rest;
        BytesAccounted(rest, attempts[1..]);
        var fs := ReadAttempts(rest, attempts[1..]).value.0;
        assert ([f] + fs)[0] == f && ([f] + fs)[1..] == fs;
    }
  }

  lemma {:induction false} NothingLostReadsBack(fs: seq<Frame>, rest: seq<byte>, attempts: seq<Attempt>)
    requires (forall i :: 0 <= i < |fs| ==> Legal(fs[i])) && Finishes(attempts) == |fs|
    requires Lost(EncodeAll(fs) + rest, attempts) == 0
    ensures ReadAttempts(EncodeAll(fs) + rest, attempts) == Ok((fs, rest))
    decreases |attempts|
  {
    hide Encode, ReadFrame, Legal;
    var bytes := EncodeAll(fs) + rest;
    if attempts == [] {
      assert fs == [] && bytes == rest;
    } else {
      match attempts[0]
      case Cancel(k) =>
        assert AfterCancel(bytes, k) == bytes;
        NothingLostReadsBack(fs, rest, attempts[1..]);
      case Finish =>
        var later := EncodeAll(fs[1..]) + rest;
        assert bytes == Encode(fs[0]) + later;
        ReadBackOne(fs[0], later);
        NothingLostReadsBack(fs[1..], rest, attempts[1..]);
        assert fs == [fs[0]] + fs[1..];
    }
  }

  /** However reads are cancelled in between, the frames come back as sent exactly when no cancelled read took a byte. */
  lemma {:induction false} ReadBackIffNothingLost(fs: seq<Frame>, rest: seq<byte>, attempts: seq<Attempt>)
    requires (forall i :: 0 <= i < |fs| ==> Legal(fs[i])) && Finishes(attempts) == |fs|
    ensures ReadAttempts(EncodeAll(fs) + rest, attempts) == Ok((fs, rest)) <==> Lost(EncodeAll(fs) + rest, attempts) == 0
  {
    var bytes := EncodeAll(fs) + rest;
    if Lost(bytes, attempts) == 0 {
      NothingLostReadsBack(fs, rest, attempts);
    }
    if ReadAttempts(bytes, attempts) == Ok((fs, rest)) {
      BytesAccounted(bytes, attempts);
      hide EncodeAll, Lost, ReadAttempts;
      assert |bytes| == |EncodeAll(fs)| + |rest|;
    }
  }
}
