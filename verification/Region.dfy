/** The two sides' accesses to the shared memory, on the memory itself. */
module Region {
  import opened Bytes
  import opened Marshal
  import opened Windowing
  import opened Protocol

  /** `d` with `b` written over it at `off`. */
  function Overlay(d: Bytes, off: nat, b: Bytes): (r: Bytes)
    requires off + |b| <= |d|
    ensures |r| == |d|
  {
    d[..off] + b + d[off + |b|..]
  }

  /** Two stores in a row, the second where the first one stopped. */
  lemma OverlayNext(d: Bytes, a: Bytes, d1: Bytes, b: Bytes)
    requires |a| + |b| <= |d| && d1 == Overlay(d, 0, a)
    ensures Overlay(d1, |a|, b) == Overlay(d, 0, a + b)
  {
    assert Overlay(d1, |a|, b) == a + b + d[|a| + |b|..];
  }

  lemma OverlayPrefix(d: Bytes, a: Bytes)
    requires |a| <= |d|
    ensures a <= Overlay(d, 0, a)
  {
  }

  /** The control words and the data region, as both sides see them. */
  class Shared {
    var state: Word
    var length: int
    var status: int
    var gen: int
    var capacity: nat
    var data: array<byte>

    /** The worker's note of the capacity describes the region, which is never empty. */
    ghost predicate Valid()
      reads this
    {
      capacity == data.Length > 0
    }

    constructor (bytes: nat)
      requires bytes > 0
      ensures Valid() && fresh(data) && data.Length == bytes && state == IDLE && gen == 0
    {
      data := new byte[bytes](_ => 0);
      capacity := bytes;
      state, length, status, gen := IDLE, 0, 0, 0;
    }

    // ---- stores into the region ----------------------------------------------------

    method PutU32(off: nat, v: nat) returns (end: nat)
      requires off + 4 <= data.Length
      modifies data
      ensures end == off + 4
      ensures data[..] == Overlay(old(data[..]), off, U32Le(v))
      ensures v < U32_LIMIT ==> v == Horner(data[off + 3], data[off + 2], data[off + 1], data[off])
    {
      U32LeDigits(v, U32Le(v));
      data[off] := v % 256;
      data[off + 1] := v / 0x100 % 256;
      data[off + 2] := v / 0x1_0000 % 256;
      data[off + 3] := v / 0x100_0000 % 256;
      return off + 4;
    }

    method PutBytes(off: nat, b: Bytes) returns (end: nat)
      requires off + |b| <= data.Length
      modifies data
      ensures end == off + |b|
      ensures data[..] == Overlay(old(data[..]), off, b)
    {
      forall k | 0 <= k < |b| {
        data[off + k] := b[k];
      }
      return off + |b|;
    }

    method U32At(off: nat) returns (v: nat)
      requires off + 4 <= data.Length
      ensures v == GetU32(data[..], off) == Horner(data[off + 3], data[off + 2], data[off + 1], data[off])
    {
      v := data[off] as int + data[off + 1] as int * 0x100 + data[off + 2] as int * 0x1_0000
        + data[off + 3] as int * 0x100_0000;
    }

    // ---- the worker's side ------------------------------------------------------------

    /** Replace the region by a larger one; earlier contents are dropped. */
    method Grow(need: nat)
      requires Valid()
      modifies this
      ensures Valid() && fresh(data) && data.Length == Grown(old(capacity), need)
      ensures state == old(state) && length == old(length) && status == old(status) && gen == old(gen)
    {
      var cap := capacity;
      while cap < need
        invariant cap > 0 && Grown(cap, need) == Grown(old(capacity), need)
        decreases need - cap
      {
        cap := cap * 2;
      }
      data := new byte[cap](_ => 0);
      capacity := cap;
    }

    /** Store a request and publish it, in a larger region if this one is too small. */
    method WriteRequest(c: Codec, r: Request)
      requires Valid()
      modifies this, data
      ensures Valid()
      ensures if |EncodeRequest(c, r)| <= old(capacity) then data == old(data)
              else fresh(data) && capacity == Grown(old(capacity), |EncodeRequest(c, r)|)
      ensures EncodeRequest(c, r) <= data[..]
      ensures state == REQ_READY && gen == Int32(r.header.gen) && length == Int32(|EncodeRequest(c, r)|)
              && status == old(status)
    {
      var h := c.encHeader(r.header);
      var need := 4 + |h| + 4 + |r.body|;
      if need > capacity {
        Grow(need);
      }
      StoreRequest(h, r.body);
      gen := Int32(r.header.gen);
      length := Int32(4 + |h| + 4 + |r.body|);
      state := REQ_READY;
    }

    /** The four stores of a request, one behind the other. */
    method StoreRequest(h: Bytes, body: Bytes)
      requires 4 + |h| + 4 + |body| <= data.Length
      modifies data
      ensures U32Le(|h|) + h + U32Le(|body|) + body <= data[..]
    {
      ghost var d := data[..];
      var off := PutU32(0, |h|);
      ghost var image := U32Le(|h|);
      OverlayNext(d, image, data[..], h);
      off := PutBytes(off, h);
      image := image + h;
      OverlayNext(d, image, data[..], U32Le(|body|));
      off := PutU32(off, |body|);
      image := image + U32Le(|body|);
      OverlayNext(d, image, data[..], body);
      off := PutBytes(off, body);
      OverlayPrefix(d, image + body);
    }

    /** Read one window: its meta and its payload. */
    method ReadWindow(c: Codec) returns (meta: Meta, payload: Bytes)
      requires data.Length >= 4
      ensures (meta, payload) == DecodeWindow(c, data[..], length)
    {
      var metaLen := U32At(0);
      var off := 4 + metaLen;
      meta := if metaLen == 0 then Window(None, false) else c.decMeta(Slice(data[..], 4, off));
      payload := Slice(data[..], off, length);
    }

    // ---- the bridge's side ---------------------------------------------------------------

    method ReadRequest(c: Codec) returns (r: Request)
      requires data.Length >= 4 && GetU32(data[..], 0) + 8 <= data.Length
      ensures r == DecodeRequest(c, data[..])
    {
      var headerLen := U32At(0);
      var off := 4 + headerLen;
      var header := c.decHeader(Slice(data[..], 4, off));
      var bodyLen := U32At(off);
      off := off + 4;
      r := Request(header, Slice(data[..], off, off + bodyLen));
    }

    /**
     Store a window and publish it. When it does not fit, nothing is published: the region may be
     partly overwritten, but the words are as before.
     */
    method WriteWindow(c: Codec, word: Word, st: int, meta: Meta, payload: Bytes) returns (ok: bool)
      requires data.Length >= 4
      modifies this`state, this`length, this`status, data
      ensures ok <==> |EncodeWindow(c, meta, payload)| <= data.Length
      ensures ok ==> data[..] == Overlay(old(data[..]), 0, EncodeWindow(c, meta, payload))
      ensures ok ==> state == word && status == Int32(st) && length == Int32(|EncodeWindow(c, meta, payload)|)
      ensures !ok ==> state == old(state) && status == old(status) && length == old(length)
    {
      var m := c.encMeta(meta);
      ghost var d := data[..];
      var off := PutU32(0, |m|);
      if off + |m| > data.Length {
        return false;
      }
      OverlayNext(d, U32Le(|m|), data[..], m);
      off := PutBytes(off, m);
      if |payload| > 0 {
        if off + |payload| > data.Length {
          return false;
        }
        OverlayNext(d, U32Le(|m|) + m, data[..], payload);
        off := PutBytes(off, payload);
      } else {
        assert U32Le(|m|) + m + payload == U32Le(|m|) + m;
      }
      status, length, state := Int32(st), Int32(off), word;
      return true;
    }
  }

  /** A request written by the worker is what the bridge reads, even when the region had to grow. */
  method SendRequest(s: Shared, c: Codec, r: Request) returns (q: Request)
    requires s.Valid() && ValidHeaders(c)
    requires |EncodeRequest(c, r)| < U32_LIMIT
    modifies s, s.data
    ensures q == r && s.state == REQ_READY && s.capacity >= old(s.capacity)
  {
    s.WriteRequest(c, r);
    StoredHeaderLength(c, r, s.data[..]);
    q := s.ReadRequest(c);
    RequestRoundTrip(c, r, s.data[..]);
  }

  lemma StoredHeaderLength(c: Codec, r: Request, data: Bytes)
    requires EncodeRequest(c, r) <= data && |EncodeRequest(c, r)| < U32_LIMIT
    ensures |data| >= 8 && GetU32(data, 0) == |c.encHeader(r.header)| && GetU32(data, 0) + 8 <= |data|
  {
    var h := c.encHeader(r.header);
    var image := EncodeRequest(c, r);
    assert data[..|image|] == image;
    assert data[0..4] == image[0..4] == U32Le(|h|);
    GetU32Here(data, 0, |h|);
  }

  // ---- a payload in windows -------------------------------------------------------------------

  /** What the region holds each time a window of a payload is published. */
  function Images(c: Codec, wins: seq<Win>): (r: seq<Bytes>)
    ensures |r| == |wins|
  {
    if wins == [] then [] else [EncodeWindow(c, wins[0].meta, wins[0].payload)] + Images(c, wins[1..])
  }

  /**
   The bridge emits one payload. `published` lists the valid part of the region at each publication;
   the worker's ack in between is what the protocol model is about.
   */
  method EmitMessage(s: Shared, c: Codec, st: int, head: Option<Head>, bytes: Bytes) returns (published: seq<Bytes>)
    requires META_ZONE + 4 < s.data.Length < I32_LIMIT
    requires forall more :: |c.encMeta(Window(head, more))| <= META_ZONE && |c.encMeta(Window(None, more))| <= META_ZONE
    modifies s`state, s`length, s`status, s.data
    ensures s.data == old(s.data) && s.state == RESP_CHUNK && s.status == Int32(st)
    ensures published == Images(c, Windows(head, bytes, s.data.Length - META_ZONE - 4, 0))
  {
    var cap := s.data.Length - META_ZONE - 4;
    var sent, first := 0, true;
    published := [];
    while true
      invariant s.data == old(s.data) && sent <= |bytes| && first == (sent == 0)
      invariant published + Images(c, Windows(head, bytes, cap, sent)) == Images(c, Windows(head, bytes, cap, 0))
      decreases |bytes| - sent
    {
      var end := Min(sent + cap, |bytes|);
      var meta := Window(if first then head else None, end < |bytes|);
      FirstImage(c, head, bytes, cap, sent);
      var image := PublishWindow(s, c, st, meta, bytes[sent..end]);
      EmitAssoc(published, image, if end < |bytes| then Images(c, Windows(head, bytes, cap, end)) else []);
      published := published + [image];
      if end >= |bytes| {
        return;
      }
      sent, first := end, false;
    }
  }

  lemma EmitAssoc(a: seq<Bytes>, x: Bytes, b: seq<Bytes>)
    ensures a + ([x] + b) == (a + [x]) + b
  {
  }

  /** Publish a window that fits, and return what the worker can see of the region. */
  method PublishWindow(s: Shared, c: Codec, st: int, meta: Meta, payload: Bytes) returns (image: Bytes)
    requires 4 <= s.data.Length < I32_LIMIT && |EncodeWindow(c, meta, payload)| <= s.data.Length
    modifies s`state, s`length, s`status, s.data
    ensures image == EncodeWindow(c, meta, payload) && s.state == RESP_CHUNK && s.status == Int32(st)
  {
    var ok := s.WriteWindow(c, RESP_CHUNK, st, meta, payload);
    image := s.data[..s.length];
  }

  lemma FirstImage(c: Codec, head: Option<Head>, bytes: Bytes, cap: nat, sent: nat)
    requires cap > 0 && sent <= |bytes|
    requires forall more :: |c.encMeta(Window(head, more))| <= META_ZONE && |c.encMeta(Window(None, more))| <= META_ZONE
    ensures var end := WindowEnd(|bytes|, cap, sent);
            var image := EncodeWindow(c, WindowMeta(head, |bytes|, cap, sent), bytes[sent..end]);
            && |image| <= 4 + META_ZONE + cap
            && Images(c, Windows(head, bytes, cap, sent)) ==
                 [image] + (if end < |bytes| then Images(c, Windows(head, bytes, cap, end)) else [])
  {
    var end := WindowEnd(|bytes|, cap, sent);
    WindowFits(c, head, bytes, cap, sent);
    var wins := Windows(head, bytes, cap, sent);
    assert wins[0].payload == bytes[sent..end];
    assert wins[1..] == if end < |bytes| then Windows(head, bytes, cap, end) else [];
  }

  /** The windows a list of region images decodes to. */
  function Decoded(c: Codec, images: seq<Bytes>): seq<Win> {
    if images == [] then []
    else
      var (meta, payload) := DecodeWindow(c, images[0], |images[0]|);
      [Win(meta, payload)] + Decoded(c, images[1..])
  }

  /** What was collected before, and then the rest. */
  function Collect(first: bool, meta: Meta, acc: Bytes, rest: Option<(Meta, Bytes)>): Option<(Meta, Bytes)> {
    match rest
    case None => None
    case Some(r) => Some((if first then r.0 else meta, acc + r.1))
  }

  /** The worker reassembles one payload, reading one published image after another. */
  method ReassembleWindows(c: Codec, images: seq<Bytes>) returns (r: Option<(Meta, Bytes)>)
    ensures r == Join(Decoded(c, images))
  {
    var parts: seq<Bytes> := [];
    var firstMeta := Window(None, false);
    var first := true;
    var i := 0;
    CollectNothing(firstMeta, Join(Decoded(c, images)));
    assert images[0..] == images;
    while i < |images|
      invariant i <= |images|
      invariant Join(Decoded(c, images)) == Collect(first, firstMeta, Flatten(parts), Join(Decoded(c, images[i..])))
    {
      var (meta, payload) := DecodeWindow(c, images[i], |images[i]|);
      CollectNext(c, images[i..], first, firstMeta, Flatten(parts));
      assert images[i..][1..] == images[i + 1..];
      FlattenSnoc(parts, payload);
      if first {
        firstMeta, first := meta, false;
      }
      parts := parts + [payload];
      if !meta.Window? || !meta.more {
        return Some((firstMeta, Flatten(parts)));
      }
      i := i + 1;
    }
    return None;
  }

  lemma CollectNothing(meta: Meta, r: Option<(Meta, Bytes)>)
    ensures Collect(true, meta, Flatten([]), r) == r
  {
    if r.Some? {
      assert [] + r.value.1 == r.value.1;
    }
  }

  lemma CollectNext(c: Codec, images: seq<Bytes>, first: bool, meta: Meta, acc: Bytes)
    requires images != []
    ensures var (m, payload) := DecodeWindow(c, images[0], |images[0]|);
            var head := if first then m else meta;
            Collect(first, meta, acc, Join(Decoded(c, images))) ==
              if m.Window? && m.more then Collect(false, head, acc + payload, Join(Decoded(c, images[1..])))
              else Some((head, acc + payload))
  {
    var (m, payload) := DecodeWindow(c, images[0], |images[0]|);
    CollectWindow(Win(m, payload), Decoded(c, images[1..]), first, meta, acc);
  }

  lemma CollectWindow(w: Win, rest: seq<Win>, first: bool, meta: Meta, acc: Bytes)
    ensures var head := if first then w.meta else meta;
            Collect(first, meta, acc, Join([w] + rest)) ==
              if w.meta.Window? && w.meta.more then Collect(false, head, acc + w.payload, Join(rest))
              else Some((head, acc + w.payload))
  {
    assert ([w] + rest)[1..] == rest;
    if Join(rest).Some? {
      Associate(acc, w.payload, Join(rest).value.1);
    }
  }

  lemma Associate(a: Bytes, b: Bytes, d: Bytes)
    ensures a + (b + d) == a + b + d
  {
  }

  lemma {:induction false} DecodeImages(c: Codec, wins: seq<Win>)
    requires ValidMetas(c) && forall w | w in wins :: |c.encMeta(w.meta)| < U32_LIMIT
    ensures Decoded(c, Images(c, wins)) == wins
  {
    if wins != [] {
      WindowRoundTrip(c, wins[0].meta, wins[0].payload, EncodeWindow(c, wins[0].meta, wins[0].payload));
      assert Images(c, wins)[1..] == Images(c, wins[1..]);
      DecodeImages(c, wins[1..]);
    }
  }

  lemma MetasAreShort(c: Codec, head: Option<Head>, bytes: Bytes, cap: nat)
    requires cap > 0
    requires forall more :: |c.encMeta(Window(head, more))| <= META_ZONE && |c.encMeta(Window(None, more))| <= META_ZONE
    ensures forall w | w in Windows(head, bytes, cap, 0) :: |c.encMeta(w.meta)| < U32_LIMIT
  {
    var wins := Windows(head, bytes, cap, 0);
    WindowsShape(head, bytes, cap, 0);
    forall w | w in wins ensures |c.encMeta(w.meta)| < U32_LIMIT {
      var k :| 0 <= k < |wins| && w == wins[k];
      assert wins[k].meta == Window(if k == 0 then head else None, k < |wins| - 1);
    }
  }

  /** A payload of any size crosses a region of any capacity, with the context of its first window. */
  method Transfer(s: Shared, c: Codec, st: int, head: Option<Head>, bytes: Bytes) returns (meta: Meta, payload: Bytes)
    requires ValidMetas(c) && META_ZONE + 4 < s.data.Length < I32_LIMIT
    requires forall more :: |c.encMeta(Window(head, more))| <= META_ZONE && |c.encMeta(Window(None, more))| <= META_ZONE
    modifies s`state, s`length, s`status, s.data
    ensures payload == bytes && meta.Window? && meta.head == head && s.status == Int32(st)
  {
    ghost var cap := s.data.Length - META_ZONE - 4;
    var images := EmitMessage(s, c, st, head, bytes);
    WindowsArrive(c, head, bytes, cap, images);
    var r := ReassembleWindows(c, images);
    meta, payload := r.value.0, r.value.1;
  }

  /** The images of the windows of a payload decode and join to that payload. */
  lemma WindowsArrive(c: Codec, head: Option<Head>, bytes: Bytes, cap: nat, images: seq<Bytes>)
    requires ValidMetas(c) && cap > 0
    requires forall more :: |c.encMeta(Window(head, more))| <= META_ZONE && |c.encMeta(Window(None, more))| <= META_ZONE
    requires images == Images(c, Windows(head, bytes, cap, 0))
    ensures Join(Decoded(c, images)) == Some((WindowMeta(head, |bytes|, cap, 0), bytes))
  {
    MetasAreShort(c, head, bytes, cap);
    DecodeImages(c, Windows(head, bytes, cap, 0));
    WindowsJoin(head, bytes, cap, 0);
    assert bytes[0..] == bytes;
  }
}
