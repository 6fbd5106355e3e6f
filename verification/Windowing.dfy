/** Cutting one logical payload into bounded windows, and joining it again. */
module Windowing {
  import opened Bytes
  import opened Marshal

  /** One response window before it is laid out in the region. */
  datatype Win = Win(meta: Meta, payload: Bytes)

  /** Where the window that starts at `sent` stops. */
  function WindowEnd(total: nat, cap: nat, sent: nat): (end: nat)
    ensures end <= total
    ensures cap > 0 && sent < total ==> sent < end
  {
    Min(sent + cap, total)
  }

  /** Only the first window of a payload carries the response context. */
  function WindowMeta(head: Option<Head>, total: nat, cap: nat, sent: nat): Meta {
    Window(if sent == 0 then head else None, WindowEnd(total, cap, sent) < total)
  }

  function WindowAt(head: Option<Head>, bytes: Bytes, cap: nat, sent: nat): Win {
    Win(WindowMeta(head, |bytes|, cap, sent), Slice(bytes, sent, WindowEnd(|bytes|, cap, sent)))
  }

  /** A window of the largest payload fits the region when its meta fits the meta zone. */
  lemma WindowFits(codec: Codec, head: Option<Head>, bytes: Bytes, cap: nat, sent: nat)
    requires sent <= |bytes|
    requires |codec.encMeta(WindowMeta(head, |bytes|, cap, sent))| <= META_ZONE
    ensures var w := WindowAt(head, bytes, cap, sent);
            |EncodeWindow(codec, w.meta, w.payload)| <= 4 + META_ZONE + cap
  {
    var end := WindowEnd(|bytes|, cap, sent);
    assert Slice(bytes, sent, end) == bytes[sent..end];
  }

  // ---- a whole payload ------------------------------------------------------------

  /** The windows a payload is sent in, from offset `sent` on. */
  function Windows(head: Option<Head>, bytes: Bytes, cap: nat, sent: nat): seq<Win>
    requires cap > 0 && sent <= |bytes|
    decreases |bytes| - sent
  {
    var end := WindowEnd(|bytes|, cap, sent);
    [WindowAt(head, bytes, cap, sent)] + (if end < |bytes| then Windows(head, bytes, cap, end) else [])
  }

  /** Collect windows up to the first one without `more`: the first meta and the joined payload. */
  function Join(wins: seq<Win>): Option<(Meta, Bytes)> {
    if wins == [] then None
    else if !wins[0].meta.Window? || !wins[0].meta.more then Some((wins[0].meta, wins[0].payload))
    else match Join(wins[1..])
         case None => None
         case Some(rest) => Some((wins[0].meta, wins[0].payload + rest.1))
  }

  /** ceil(total / cap), and one window for an empty payload. */
  function WindowCount(total: nat, cap: nat): nat
    requires cap > 0
  {
    if total == 0 then 1 else (total + cap - 1) / cap
  }

  lemma CeilStep(total: nat, cap: nat)
    requires 0 < cap < total
    ensures WindowCount(total, cap) == 1 + WindowCount(total - cap, cap)
  {
    assert total + cap - 1 == (total - cap + cap - 1) + cap;
    AddOneCap(total - cap + cap - 1, cap);
  }

  lemma AddOneCap(a: nat, cap: nat)
    requires cap > 0
    ensures (a + cap) / cap == a / cap + 1
  {
    var q, r := a / cap, a % cap;
    assert a + cap == (q + 1) * cap + r;
    QuotientUnique(a + cap, cap, q + 1, r);
  }

  lemma QuotientUnique(a: nat, cap: nat, q: nat, r: nat)
    requires cap > 0 && r < cap && a == q * cap + r
    ensures a / cap == q
  {
    var x := q - a / cap;
    Distribute(q, a / cap, cap);
    assert x * cap == a % cap - r;
    SmallMultiple(x, cap);
  }

  lemma Distribute(a: int, b: int, n: int)
    ensures (a - b) * n == a * n - b * n
  {
  }

  /** A multiple of n strictly between -n and n is zero. */
  lemma SmallMultiple(x: int, n: int)
    requires n > 0
    ensures x * n < n ==> x <= 0
    ensures -n < x * n ==> x >= 0
  {
    if x >= 1 {
      Distribute(x, 1, n);
      assert (x - 1) * n >= 0;
    } else if x <= -1 {
      Distribute(-1, x, n);
      assert (-1 - x) * n >= 0;
    }
  }

  lemma TwoParts(b: Bytes, i: nat, j: nat)
    requires i <= j <= |b|
    ensures b[i..j] + b[j..] == b[i..]
  {
  }

  /** A window that asks for more is put in front of what the others join to. */
  lemma JoinCons(w: Win, rest: seq<Win>)
    requires w.meta.Window? && w.meta.more && Join(rest).Some?
    ensures Join([w] + rest) == Some((w.meta, w.payload + Join(rest).value.1))
  {
    assert ([w] + rest)[1..] == rest;
  }

  /** Cutting and joining: the payload comes back whole, under the meta of its first window. */
  lemma {:induction false} WindowsJoin(head: Option<Head>, bytes: Bytes, cap: nat, sent: nat)
    requires cap > 0 && sent <= |bytes|
    ensures Join(Windows(head, bytes, cap, sent)) == Some((WindowMeta(head, |bytes|, cap, sent), bytes[sent..]))
    decreases |bytes| - sent
  {
    var end := WindowEnd(|bytes|, cap, sent);
    var w := WindowAt(head, bytes, cap, sent);
    if end < |bytes| {
      WindowsJoin(head, bytes, cap, end);
      JoinCons(w, Windows(head, bytes, cap, end));
      TwoParts(bytes, sent, end);
      assert Windows(head, bytes, cap, sent) == [w] + Windows(head, bytes, cap, end);
    } else {
      assert w.payload == bytes[sent..end] == bytes[sent..];
      assert Windows(head, bytes, cap, sent) == [w];
    }
  }

  /** How many windows there are, and what sets the first and the last one apart. */
  lemma {:induction false} WindowsShape(head: Option<Head>, bytes: Bytes, cap: nat, sent: nat)
    requires cap > 0 && sent <= |bytes| && (sent > 0 ==> sent < |bytes|)
    ensures var ws := Windows(head, bytes, cap, sent);
            && |ws| == WindowCount(|bytes| - sent, cap)
            && forall k | 0 <= k < |ws| ::
                 && ws[k].meta == Window(if sent == 0 && k == 0 then head else None, k < |ws| - 1)
                 && |ws[k].payload| <= cap && (k < |ws| - 1 ==> |ws[k].payload| == cap)
    decreases |bytes| - sent
  {
    var ws := Windows(head, bytes, cap, sent);
    var end := WindowEnd(|bytes|, cap, sent);
    assert ws[0].payload == bytes[sent..end];
    if end < |bytes| {
      CeilStep(|bytes| - sent, cap);
      WindowsShape(head, bytes, cap, end);
      assert ws[1..] == Windows(head, bytes, cap, end);
      assert forall k | 1 <= k < |ws| :: ws[k] == ws[1..][k - 1];
    } else if sent < |bytes| {
      QuotientUnique(|bytes| - sent + cap - 1, cap, 1, |bytes| - sent - 1);
    }
  }
}
