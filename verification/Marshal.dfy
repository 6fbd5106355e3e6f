/** What the two sides write into the shared data region, and how each side reads it back. */
module Marshal {
  import opened Bytes

  /** Bytes reserved at the front of the region for a response window's meta. */
  const META_ZONE: nat := 4096

  datatype Kind = Unary | ServerStream

  /**
   The request header the worker serialises. `timeout` is None for a call that never times out, and
   otherwise counts the units of the clock.
   */
  datatype Header = Header(kind: Kind, url: string, headers: map<string, string>, timeout: Option<int>, gen: nat)

  datatype Request = Request(header: Header, body: Bytes)

  /** Response context carried by the first window of a response. */
  datatype Head = Head(ok: bool, headers: map<string, string>)

  /** The meta object in front of a window's payload. */
  datatype Meta = Window(head: Option<Head>, more: bool) | Error(message: string, kind: string)

  /** JSON plus UTF-8, as far as the bridge depends on it. */
  datatype Codec = Codec(
    encHeader: Header -> Bytes, decHeader: Bytes -> Header,
    encMeta: Meta -> Bytes, decMeta: Bytes -> Meta)

  ghost predicate ValidHeaders(c: Codec) {
    forall h :: c.decHeader(c.encHeader(h)) == h
  }

  ghost predicate ValidMetas(c: Codec) {
    forall m :: c.decMeta(c.encMeta(m)) == m && c.encMeta(m) != []
  }

  ghost predicate ValidCodec(c: Codec) {
    ValidHeaders(c) && ValidMetas(c)
  }

  // ---- reading at an offset ------------------------------------------------------

  /**
   `data.slice(lo, hi)` / `data.subarray(lo, hi)`: both clamp to the array, and count a negative end
   from behind.
   */
  function Slice(data: Bytes, lo: nat, hi: int): (r: Bytes)
    ensures lo <= hi <= |data| ==> r == data[lo..hi]
  {
    var h := if hi >= 0 then Min(hi, |data|) else if |data| + hi >= 0 then |data| + hi else 0;
    if lo <= h then data[lo..h] else []
  }

  /** An element of a byte array; `undefined` past its end acts as zero in bit arithmetic. */
  function ByteAt(data: Bytes, k: nat): byte {
    if k < |data| then data[k] else 0
  }

  /** The little-endian u32 at an offset. */
  function GetU32(data: Bytes, off: nat): nat {
    FromU32Le([ByteAt(data, off), ByteAt(data, off + 1), ByteAt(data, off + 2), ByteAt(data, off + 3)])
  }

  lemma GetU32Here(data: Bytes, off: nat, v: nat)
    requires v < U32_LIMIT && off + 4 <= |data| && data[off..off + 4] == U32Le(v)
    ensures GetU32(data, off) == v
  {
    assert [ByteAt(data, off), ByteAt(data, off + 1), ByteAt(data, off + 2), ByteAt(data, off + 3)] ==
             data[off..off + 4];
    U32LeRoundTrip(v);
  }

  // ---- requests: worker to bridge ------------------------------------------------

  function EncodeRequest(c: Codec, r: Request): Bytes {
    var h := c.encHeader(r.header);
    U32Le(|h|) + h + U32Le(|r.body|) + r.body
  }

  function DecodeRequest(c: Codec, data: Bytes): Request {
    var headerLen := GetU32(data, 0);
    var off := 4 + headerLen;
    var bodyLen := GetU32(data, off);
    Request(c.decHeader(Slice(data, 4, off)), Slice(data, off + 4, off + 4 + bodyLen))
  }

  /** A part of an image is found at the same place in the region. */
  lemma PartOf(image: Bytes, data: Bytes, lo: nat, hi: nat)
    requires image <= data && lo <= hi <= |image|
    ensures data[lo..hi] == image[lo..hi]
  {
  }

  lemma RequestParts(c: Codec, r: Request)
    ensures var h, image := c.encHeader(r.header), EncodeRequest(c, r);
            && |image| == 8 + |h| + |r.body|
            && image[0..4] == U32Le(|h|) && image[4..4 + |h|] == h
            && image[4 + |h|..8 + |h|] == U32Le(|r.body|) && image[8 + |h|..] == r.body
  {
  }

  /** Whatever lies behind it in the region, a stored request reads back unchanged. */
  lemma RequestRoundTrip(c: Codec, r: Request, data: Bytes)
    requires ValidHeaders(c)
    requires EncodeRequest(c, r) <= data
    requires |c.encHeader(r.header)| < U32_LIMIT && |r.body| < U32_LIMIT
    ensures DecodeRequest(c, data) == r
  {
    var h, image := c.encHeader(r.header), EncodeRequest(c, r);
    RequestParts(c, r);
    PartOf(image, data, 0, 4);
    GetU32Here(data, 0, |h|);
    PartOf(image, data, 4, 4 + |h|);
    PartOf(image, data, 4 + |h|, 8 + |h|);
    GetU32Here(data, 4 + |h|, |r.body|);
    PartOf(image, data, 8 + |h|, |image|);
  }

  /** Two requests with the same image are the same request. */
  lemma RequestImageInjective(c: Codec, r: Request, q: Request)
    requires ValidHeaders(c)
    requires |EncodeRequest(c, r)| < U32_LIMIT
    requires EncodeRequest(c, r) == EncodeRequest(c, q)
    ensures r == q
  {
    RequestRoundTrip(c, r, EncodeRequest(c, r));
    RequestRoundTrip(c, q, EncodeRequest(c, q));
  }

  // ---- response windows: bridge to worker ---------------------------------------------

  function EncodeWindow(c: Codec, meta: Meta, payload: Bytes): Bytes {
    var m := c.encMeta(meta);
    U32Le(|m|) + m + payload
  }

  function DecodeWindow(c: Codec, data: Bytes, length: int): (Meta, Bytes) {
    var metaLen := GetU32(data, 0);
    var off := 4 + metaLen;
    (if metaLen == 0 then Window(None, false) else c.decMeta(Slice(data, 4, off)), Slice(data, off, length))
  }

  lemma WindowRoundTrip(c: Codec, meta: Meta, payload: Bytes, data: Bytes)
    requires ValidMetas(c)
    requires EncodeWindow(c, meta, payload) <= data
    requires |c.encMeta(meta)| < U32_LIMIT
    ensures DecodeWindow(c, data, |EncodeWindow(c, meta, payload)|) == (meta, payload)
  {
    var m := c.encMeta(meta);
    var image := EncodeWindow(c, meta, payload);
    assert data[..|image|] == image;
    assert data[0..4] == image[0..4] == U32Le(|m|);
    GetU32Here(data, 0, |m|);
    assert data[4..4 + |m|] == image[4..4 + |m|] == m;
    assert data[4 + |m|..|image|] == image[4 + |m|..] == payload;
  }

  /** The error detail is read with the same layout but without the length word. */
  function DecodeErrorMeta(c: Codec, data: Bytes): Meta {
    var metaLen := GetU32(data, 0);
    if metaLen == 0 then Window(None, false) else c.decMeta(Slice(data, 4, 4 + metaLen))
  }

  lemma ErrorMetaRoundTrip(c: Codec, meta: Meta, data: Bytes)
    requires ValidMetas(c)
    requires EncodeWindow(c, meta, []) <= data
    requires |c.encMeta(meta)| < U32_LIMIT
    ensures DecodeErrorMeta(c, data) == meta
  {
    WindowRoundTrip(c, meta, [], data);
  }

  /** A region without a meta reads as an empty one, with no further window to come. */
  lemma NoMeta(c: Codec, data: Bytes, length: nat)
    requires 4 <= length <= |data| && data[..4] == [0, 0, 0, 0]
    ensures DecodeWindow(c, data, length) == (Window(None, false), data[4..length])
    ensures DecodeErrorMeta(c, data) == Window(None, false)
  {
    assert data[0] == data[..4][0] && data[1] == data[..4][1] && data[2] == data[..4][2] && data[3] == data[..4][3];
  }

  /** What is read behind the end of a region is zero. */
  lemma PastTheEnd(data: Bytes, off: nat)
    ensures |data| <= off ==> GetU32(data, off) == 0
    ensures GetU32(data, off) == GetU32(data + [0, 0, 0, 0], off)
  {
  }

  /** A slice holds the elements between its ends, as far as the array goes. */
  lemma SliceExact(data: Bytes, lo: nat, hi: int)
    ensures var end := if hi < 0 then |data| + hi else Min(hi, |data|);
            && |Slice(data, lo, hi)| == (if lo < end then end - lo else 0)
            && forall k | 0 <= k < |Slice(data, lo, hi)| :: Slice(data, lo, hi)[k] == data[lo + k]
  {
  }

  // ---- growing the region ------------------------------------------------------------

  /** A capacity grown by doubling until it holds `need` bytes; a region is never empty. */
  function Grown(cap: nat, need: nat): (r: nat)
    ensures cap <= r && (cap > 0 ==> need <= r)
    decreases need - cap
  {
    if cap >= need || cap == 0 then cap else Grown(2 * cap, need)
  }

  function Doubled(cap: nat, k: nat): nat
    decreases k
  {
    if k == 0 then cap else Doubled(2 * cap, k - 1)
  }

  /** It is the first capacity in the doubling sequence that is large enough. */
  lemma {:induction false} GrownIsLeast(cap: nat, need: nat) returns (k: nat)
    requires cap > 0
    ensures Grown(cap, need) == Doubled(cap, k)
    ensures forall j | 0 <= j < k :: Doubled(cap, j) < need
    decreases need - cap
  {
    if cap >= need {
      k := 0;
    } else {
      var i := GrownIsLeast(2 * cap, need);
      k := i + 1;
      forall j | 0 <= j < k ensures Doubled(cap, j) < need {
        if j > 0 {
          assert Doubled(cap, j) == Doubled(2 * cap, j - 1);
        }
      }
    }
  }
}
