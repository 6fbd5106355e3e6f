/**
 The hypotheses of the protocol theorems can be met: a codec for headers and metas, set-ups for any
 bodies the servers may send, and a run for any first call.
 */
module Feasible {
  import opened Bytes
  import opened Marshal
  import opened Protocol
  import opened Invariant
  import opened Safety
  import opened Schedules
  import opened Contrast
  import opened Expiry

  // ---- numbers as bytes --------------------------------------------------------------------

  type Tokens = seq<nat>

  /** n ones and a zero. */
  function EncNat(n: nat): Bytes {
    if n == 0 then [0] else [1] + EncNat(n - 1)
  }

  function EncNats(ts: Tokens): Bytes {
    if ts == [] then [] else EncNat(ts[0]) + EncNats(ts[1..])
  }

  function DecNats(b: Bytes): Tokens {
    if b == [] then []
    else
      var rest := DecNats(b[1..]);
      if b[0] == 0 then [0] + rest else if rest == [] then [] else [rest[0] + 1] + rest[1..]
  }

  lemma {:induction false} NatThenRest(n: nat, b: Bytes)
    ensures DecNats(EncNat(n) + b) == [n] + DecNats(b)
  {
    if n == 0 {
      DecZero(b);
    } else {
      NatThenRest(n - 1, b);
      DecOne(EncNat(n - 1) + b);
      assert [1] + EncNat(n - 1) + b == [1] + (EncNat(n - 1) + b);
    }
  }

  lemma DecZero(b: Bytes)
    ensures DecNats([0] + b) == [0] + DecNats(b)
  {
    assert ([0] + b)[1..] == b;
  }

  lemma DecOne(b: Bytes)
    requires DecNats(b) != []
    ensures DecNats([1] + b) == [DecNats(b)[0] + 1] + DecNats(b)[1..]
  {
    assert ([1] + b)[1..] == b;
  }

  lemma {:induction false} NatsRoundTrip(ts: Tokens)
    ensures DecNats(EncNats(ts)) == ts
  {
    if ts != [] {
      NatThenRest(ts[0], EncNats(ts[1..]));
      NatsRoundTrip(ts[1..]);
    }
  }

  // ---- strings and maps as numbers ------------------------------------------------------------

  function CharOf(n: nat): char {
    if n < 0xD800 || 0xE000 <= n < 0x11_0000 then n as char else ' '
  }

  function PutString(s: string): Tokens {
    [|s|] + seq(|s|, i requires 0 <= i < |s| => s[i] as int)
  }

  function GetString(t: Tokens): (string, Tokens) {
    if t == [] || |t| <= t[0] then ("", [])
    else (seq(t[0], i requires 0 <= i < t[0] => CharOf(t[1 + i])), t[1 + t[0]..])
  }

  lemma StringRoundTrip(s: string, rest: Tokens)
    ensures GetString(PutString(s) + rest) == (s, rest)
  {
    var t := PutString(s) + rest;
    assert t[0] == |s| && t[1 + |s|..] == rest;
    var r := GetString(t).0;
    forall i | 0 <= i < |s| ensures r[i] == s[i] {
      assert t[1 + i] == s[i] as int;
    }
    assert r == s;
  }

  type Pairs = seq<(string, string)>

  function PutPairs(ps: Pairs): Tokens {
    if ps == [] then [0] else [1] + PutString(ps[0].0) + PutString(ps[0].1) + PutPairs(ps[1..])
  }

  function GetPairs(t: Tokens): Pairs
    decreases |t|
  {
    if t == [] || t[0] == 0 then []
    else
      var (k, t1) := GetString(t[1..]);
      var (v, t2) := GetString(t1);
      [(k, v)] + GetPairs(t2)
  }

  lemma PairThenRest(k: string, v: string, rest: Tokens)
    ensures GetPairs([1] + PutString(k) + PutString(v) + rest) == [(k, v)] + GetPairs(rest)
  {
    var t := [1] + PutString(k) + PutString(v) + rest;
    assert t[1..] == PutString(k) + (PutString(v) + rest);
    StringRoundTrip(k, PutString(v) + rest);
    StringRoundTrip(v, rest);
  }

  lemma {:induction false} PairsRoundTrip(ps: Pairs)
    ensures GetPairs(PutPairs(ps)) == ps
  {
    if ps != [] {
      PairThenRest(ps[0].0, ps[0].1, PutPairs(ps[1..]));
      PairsRoundTrip(ps[1..]);
    }
  }

  /** The entries of a map, in some order. */
  ghost function Entries(m: map<string, string>): Pairs {
    if m == map[] then []
    else
      var k :| k in m;
      [(k, m[k])] + Entries(m - {k})
  }

  function MapOf(ps: Pairs): map<string, string> {
    if ps == [] then map[] else MapOf(ps[1..])[ps[0].0 := ps[0].1]
  }

  lemma {:induction false} EntriesRoundTrip(m: map<string, string>)
    ensures MapOf(Entries(m)) == m
  {
    if m != map[] {
      var ps := Entries(m);
      EntriesRoundTrip(m - {ps[0].0});
    }
  }

  // ---- the codec -------------------------------------------------------------------------------

  function Flag(b: bool): nat {
    if b then 1 else 0
  }

  ghost function PutHeader(h: Header): Tokens {
    var t := h.timeout;
    [Flag(h.kind == Unary), h.gen, Flag(t.Some?), Flag(t.Some? && t.value < 0),
     if t.None? then 0 else if t.value < 0 then -t.value else t.value]
    + PutString(h.url) + PutPairs(Entries(h.headers))
  }

  function Signed(negative: bool, n: nat): int {
    if negative then 0 - (n as int) else n
  }

  function GetHeader(t: Tokens): Header {
    if |t| < 5 then Header(Unary, "", map[], None, 0)
    else
      var (url, rest) := GetString(t[5..]);
      Header(if t[0] == 1 then Unary else ServerStream, url, MapOf(GetPairs(rest)),
             if t[2] == 0 then None else Some(Signed(t[3] == 1, t[4])), t[1])
  }

  lemma HeaderRoundTrip(h: Header)
    ensures GetHeader(PutHeader(h)) == h
  {
    var t, rest := PutHeader(h), PutString(h.url) + PutPairs(Entries(h.headers));
    BehindFive(t[..5], PutString(h.url), PutPairs(Entries(h.headers)));
    assert t == t[..5] + rest;
    StringRoundTrip(h.url, PutPairs(Entries(h.headers)));
    PairsRoundTrip(Entries(h.headers));
    EntriesRoundTrip(h.headers);
  }

  lemma BehindFive(five: Tokens, a: Tokens, b: Tokens)
    requires |five| == 5
    ensures (five + a + b)[5..] == a + b && (five + (a + b))[5..] == a + b
  {
  }

  ghost function PutMeta(m: Meta): Tokens {
    match m
    case Window(None, more) => [0, Flag(more)]
    case Window(Some(head), more) => [1, Flag(more), Flag(head.ok)] + PutPairs(Entries(head.headers))
    case Error(message, kind) => [2] + PutString(message) + PutString(kind)
  }

  function GetMeta(t: Tokens): Meta {
    if |t| < 2 then Window(None, false)
    else if t[0] == 0 then Window(None, t[1] == 1)
    else if t[0] == 1 then
      if |t| < 3 then Window(None, false) else Window(Some(Head(t[2] == 1, MapOf(GetPairs(t[3..])))), t[1] == 1)
    else
      var (message, rest) := GetString(t[1..]);
      Error(message, GetString(rest).0)
  }

  lemma MetaRoundTrip(m: Meta)
    ensures GetMeta(PutMeta(m)) == m
  {
    match m
    case Window(None, more) =>
    case Window(Some(head), more) =>
      var ps := Entries(head.headers);
      assert PutMeta(m)[3..] == PutPairs(ps);
      PairsRoundTrip(ps);
      EntriesRoundTrip(head.headers);
    case Error(message, kind) =>
      assert PutMeta(m)[1..] == PutString(message) + PutString(kind);
      StringRoundTrip(message, PutString(kind));
      assert PutString(kind) + [] == PutString(kind);
      StringRoundTrip(kind, []);
  }

  ghost function SomeCodec(): Codec {
    Codec(h => EncNats(PutHeader(h)), b => GetHeader(DecNats(b)), m => EncNats(PutMeta(m)), b => GetMeta(DecNats(b)))
  }

  lemma CodecIsValid()
    ensures ValidCodec(SomeCodec())
  {
    var c := SomeCodec();
    forall h ensures c.decHeader(c.encHeader(h)) == h {
      NatsRoundTrip(PutHeader(h));
      HeaderRoundTrip(h);
    }
    forall m ensures c.decMeta(c.encMeta(m)) == m && c.encMeta(m) != [] {
      NatsRoundTrip(PutMeta(m));
      MetaRoundTrip(m);
      assert DecNats([]) == [];
    }
  }

  // ---- set-ups and runs ---------------------------------------------------------------------------

  const PLAIN := Head(true, map[])

  lemma ShortMeta(more: bool)
    ensures MetaFits(SomeCodec(), Window(None, more)) && MetaFits(SomeCodec(), Window(Some(PLAIN), more))
  {
    ShortTokens([0, Flag(more)]);
    ShortTokens([1, Flag(more), 1, 0]);
    assert Entries(PLAIN.headers) == [];
    assert PutMeta(Window(Some(PLAIN), more)) == [1, Flag(more), 1, 0];
  }

  lemma ShortToken(n: nat)
    requires n <= 1
    ensures |EncNat(n)| <= 2
  {
  }

  lemma {:induction false} ShortTokens(ts: Tokens)
    requires forall i | 0 <= i < |ts| :: ts[i] <= 1
    ensures |EncNats(ts)| <= 2 * |ts|
  {
    if ts != [] {
      ShortToken(ts[0]);
      ShortTokens(ts[1..]);
    }
  }

  /** For any region of a legal size, any bodies and either kind of bridge there is a valid set-up. */
  lemma ConfigExists(capacity: nat, bodies: (nat, Request) -> seq<Bytes>, seesNewRequest: bool) returns (c: Config)
    requires META_ZONE + 4 < capacity < I32_LIMIT
    ensures ValidConfig(c) && c.capacity == capacity && c.seesNewRequest == seesNewRequest
    ensures forall n: nat, r: Request :: c.world(n, r) == Answers(200, PLAIN, bodies(n, r), Done)
  {
    CodecIsValid();
    c := Config(SomeCodec(), capacity, (n: nat, r: Request) => Answers(200, PLAIN, bodies(n, r), Done), seesNewRequest);
    forall n: nat, r: Request ensures MetasFit(c.codec, c.world(n, r)) {
      forall more ensures MetaFits(c.codec, Window(None, more)) && MetaFits(c.codec, Window(Some(PLAIN), more)) {
        ShortMeta(more);
      }
    }
  }

  /** In every set-up, any unary call that fits can be the first one, and come to the end it should. */
  lemma FirstCallCanReturn(c: Config, a: Action) returns (acts: seq<Action>)
    requires ValidConfig(c) && a.Start? && a.kind == Unary
    requires |EncodeRequest(c.codec, RequestOf(Init(c), a))| <= c.capacity
    ensures GoodRun(c, acts)
    ensures After(c, Init(c), acts).rpcs ==
              [Rpc(RequestOf(Init(c), a), [], UnaryOutcome(c.world(1, RequestOf(Init(c), a))))]
  {
    var s := Init(c);
    InitRests(c);
    var p, s1 := FetchRun(c, s, a);
    var q, s2 := RespondRun(c, s1);
    CallLeadsOn(c, s, a, p, s1, q, s2);
    acts := [a] + (p + q);
    CalmCall(c, a, p + q);
  }

  lemma CalmCall(c: Config, a: Action, acts: seq<Action>)
    requires ValidConfig(c) && a.Start? && FitsIn(c, Init(c), a) && Unaided(acts)
    ensures Calm(c, Init(c), [a] + acts)
  {
    assert ([a] + acts)[1..] == acts;
    UnaidedIsCalm(c, Apply(c, Init(c), a), acts);
  }
}
