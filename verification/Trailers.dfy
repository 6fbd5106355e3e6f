/** The trailer block: header lines in a frame payload. */
module Trailers {
  import opened Bytes
  import opened Framing

  /** UTF-8, as far as a trailer block depends on it; decoding replaces malformed bytes. */
  datatype Utf8 = Utf8(enc: string -> Bytes, dec: Bytes -> string)

  ghost predicate ValidUtf8(u: Utf8) {
    forall s :: u.dec(u.enc(s)) == s
  }

  // ---- the string functions used ------------------------------------------------------

  /** The characters `str.strip()` removes. */
  predicate IsSpace(c: char) {
    var n := c as int;
    || 9 <= n <= 13 || 28 <= n <= 32 || n == 0x85 || n == 0xa0 || n == 0x1680
    || 0x2000 <= n <= 0x200a || n == 0x2028 || n == 0x2029 || n == 0x202f || n == 0x205f || n == 0x3000
  }

  function Strip(s: string): string {
    if s == "" then s
    else if IsSpace(s[0]) then Strip(s[1..])
    else if IsSpace(s[|s| - 1]) then Strip(s[..|s| - 1])
    else s
  }

  function LowerChar(c: char): char {
    if 'A' <= c <= 'Z' then (c as int + 32) as char else c
  }

  function Lower(s: string): string {
    seq(|s|, i requires 0 <= i < |s| => LowerChar(s[i]))
  }

  /** `text.replace("\r\n", "\n")`. */
  function UnixLines(s: string): string {
    if s == "" then ""
    else if |s| >= 2 && s[0] == '\r' && s[1] == '\n' then "\n" + UnixLines(s[2..])
    else [s[0]] + UnixLines(s[1..])
  }

  /** `text.split("\n")`. */
  function SplitLines(s: string): (r: seq<string>)
    ensures |r| > 0
  {
    if s == "" then [""]
    else if s[0] == '\n' then [""] + SplitLines(s[1..])
    else
      var rest := SplitLines(s[1..]);
      [[s[0]] + rest[0]] + rest[1..]
  }

  /** The position of the first colon; the length if there is none. */
  function FirstColon(s: string): (i: nat)
    ensures i <= |s| && (i < |s| ==> s[i] == ':')
  {
    if s == "" then 0 else if s[0] == ':' then 0 else 1 + FirstColon(s[1..])
  }

  function Digits(n: nat): string {
    if n < 10 then [('0' as int + n) as char] else Digits(n / 10) + [('0' as int + n % 10) as char]
  }

  /** An integer in decimal. */
  function IntText(n: int): string {
    if n < 0 then "-" + Digits(-n) else Digits(n)
  }

  // ---- encoding --------------------------------------------------------------------------

  const STATUS_KEY := "grpc-status"
  const MESSAGE_KEY := "grpc-message"

  /** Every line is followed by a line break. */
  function JoinLines(lines: seq<string>): string {
    if lines == [] then "" else lines[0] + "\r\n" + JoinLines(lines[1..])
  }

  function TrailerText(status: int, message: string): string {
    JoinLines([STATUS_KEY + ":" + IntText(status)] + (if message == "" then [] else [MESSAGE_KEY + ":" + message]))
  }

  function EncodeTrailers(u: Utf8, status: int, message: string): (f: Frame)
    ensures f.flags == 128 && f.IsTrailer() && !f.IsCompressed()
  {
    Frame(0x80, u.enc(TrailerText(status, message)))
  }

  // ---- parsing -----------------------------------------------------------------------------

  type Trailer = map<string, string>

  /** One raw line: blank lines and lines without a colon are skipped, a later key overrides. */
  function AddLine(out: Trailer, raw: string): Trailer {
    var line := Strip(raw);
    var i := FirstColon(line);
    if i == |line| then out else out[Lower(Strip(line[..i])) := Strip(line[i + 1..])]
  }

  function AddLines(out: Trailer, lines: seq<string>): Trailer
    decreases |lines|
  {
    if lines == [] then out else AddLines(AddLine(out, lines[0]), lines[1..])
  }

  function TextTrailers(text: string): Trailer {
    AddLines(map[], SplitLines(UnixLines(text)))
  }

  function TrailersOf(u: Utf8, payload: Bytes): Trailer {
    TextTrailers(u.dec(payload))
  }

  method ParseTrailers(u: Utf8, payload: Bytes) returns (out: Trailer)
    ensures out == TrailersOf(u, payload)
  {
    var lines := SplitLines(UnixLines(u.dec(payload)));
    out := map[];
    var i := 0;
    while i < |lines|
      invariant i <= |lines| && AddLines(out, lines[i..]) == AddLines(map[], lines)
    {
      var line := Strip(lines[i]);
      var colon := FirstColon(line);
      assert lines[i..][1..] == lines[i + 1..];
      if line != "" && colon < |line| {
        out := out[Lower(Strip(line[..colon])) := Strip(line[colon + 1..])];
      }
      i := i + 1;
    }
  }

  // ---- facts about the string functions ---------------------------------------------------------

  predicate NoBreak(s: string) {
    '\n' !in s
  }

  /** A message that survives the trip: one line, without white space at its ends. */
  predicate Clean(s: string) {
    NoBreak(s) && Strip(s) == s
  }

  lemma {:induction false} StripKeeps(s: string)
    ensures |Strip(s)| <= |s|
    ensures NoBreak(s) ==> NoBreak(Strip(s))
    ensures Strip(Strip(s)) == Strip(s)
  {
    if s != "" {
      if IsSpace(s[0]) {
        StripKeeps(s[1..]);
      } else if IsSpace(s[|s| - 1]) {
        StripKeeps(s[..|s| - 1]);
      }
    }
  }

  lemma Tight(s: string)
    requires s != "" && !IsSpace(s[0]) && !IsSpace(s[|s| - 1])
    ensures Strip(s) == s
  {
  }

  lemma TightEnds(s: string)
    requires Strip(s) == s && s != ""
    ensures !IsSpace(s[0]) && !IsSpace(s[|s| - 1])
  {
    StripKeeps(s[1..]);
    StripKeeps(s[..|s| - 1]);
  }

  lemma {:induction false} UnixLine(a: string, b: string)
    requires NoBreak(a)
    ensures UnixLines(a + "\r\n" + b) == a + "\n" + UnixLines(b)
  {
    var s := a + "\r\n" + b;
    if a == "" {
      assert s[2..] == b;
    } else {
      assert s[1..] == a[1..] + "\r\n" + b;
      UnixLine(a[1..], b);
      assert !(s[0] == '\r' && s[1] == '\n');
      assert [a[0]] + (a[1..] + "\n" + UnixLines(b)) == a + "\n" + UnixLines(b);
    }
  }

  lemma {:induction false} SplitLine(a: string, b: string)
    requires NoBreak(a)
    ensures SplitLines(a + "\n" + b) == [a] + SplitLines(b)
  {
    var s := a + "\n" + b;
    if a == "" {
      assert s[1..] == b;
    } else {
      assert s[1..] == a[1..] + "\n" + b;
      SplitLine(a[1..], b);
      assert [a[0]] + a[1..] == a;
    }
  }

  /** Lines without a break in them come apart as they were put together. */
  lemma {:induction false} LinesRoundTrip(lines: seq<string>)
    requires forall l | l in lines :: NoBreak(l)
    ensures SplitLines(UnixLines(JoinLines(lines))) == lines + [""]
  {
    if lines != [] {
      UnixLine(lines[0], JoinLines(lines[1..]));
      SplitLine(lines[0], UnixLines(JoinLines(lines[1..])));
      LinesRoundTrip(lines[1..]);
      assert lines == [lines[0]] + lines[1..];
    }
  }

  lemma {:induction false} ColonAfter(key: string, rest: string)
    requires ':' !in key
    ensures FirstColon(key + ":" + rest) == |key|
  {
    var s := key + ":" + rest;
    if key != "" {
      assert s[1..] == key[1..] + ":" + rest;
      ColonAfter(key[1..], rest);
    }
  }

  lemma {:induction false} DigitsText(n: nat)
    ensures |Digits(n)| > 0
    ensures forall c | c in Digits(n) :: '0' <= c <= '9'
  {
    if n >= 10 {
      DigitsText(n / 10);
    }
  }

  lemma IntTextClean(n: int)
    ensures IntText(n) != "" && Clean(IntText(n))
  {
    var d := Digits(if n < 0 then -n else n);
    DigitsText(if n < 0 then -n else n);
    var t := IntText(n);
    assert t[|t| - 1] == d[|d| - 1] && d[|d| - 1] in d && d[0] in d;
    Tight(t);
  }

  /** A header name in the form the parser gives back. */
  predicate IsKey(key: string) {
    key != "" && Lower(key) == key && Strip(key) == key && ':' !in key && NoBreak(key)
  }

  lemma KeysAreKeys()
    ensures IsKey(STATUS_KEY) && IsKey(MESSAGE_KEY)
  {
    Tight(STATUS_KEY);
    Tight(MESSAGE_KEY);
  }

  /** A well-formed line adds exactly its key and its value. */
  lemma GoodLine(out: Trailer, key: string, value: string)
    requires IsKey(key) && value != "" && Strip(value) == value
    ensures AddLine(out, key + ":" + value) == out[key := value]
  {
    TightEnds(key);
    TightEnds(value);
    var line := key + ":" + value;
    assert line[|line| - 1] == value[|value| - 1] && line[0] == key[0];
    Tight(line);
    ColonAfter(key, value);
    assert line[..|key|] == key && line[|key| + 1..] == value;
  }

  lemma AddFirst(out: Trailer, line: string, rest: seq<string>)
    ensures AddLines(out, [line] + rest) == AddLines(AddLine(out, line), rest)
  {
    assert ([line] + rest)[1..] == rest;
  }

  lemma AddBlank(out: Trailer)
    ensures AddLines(out, [""]) == out
  {
    AddFirst(out, "", []);
    assert [""] + [] == [""];
  }

  // ---- the round trip ------------------------------------------------------------------------------

  function Expected(status: int, message: string): Trailer {
    if message == "" then map[STATUS_KEY := IntText(status)]
    else map[STATUS_KEY := IntText(status), MESSAGE_KEY := message]
  }

  /** One or two well-formed lines, as a trailer block has them. */
  lemma BlockRoundTrip(k: string, v: string, more: seq<(string, string)>)
    requires IsKey(k) && v != "" && Clean(v) && |more| <= 1
    requires |more| == 1 ==> IsKey(more[0].0) && more[0].1 != "" && Clean(more[0].1)
    ensures var lines := [k + ":" + v] + (if more == [] then [] else [more[0].0 + ":" + more[0].1]);
            TextTrailers(JoinLines(lines)) == if more == [] then map[k := v] else map[k := v][more[0].0 := more[0].1]
  {
    var line := k + ":" + v;
    GoodLine(map[], k, v);
    if more == [] {
      LinesRoundTrip([line] + []);
      AddFirst(map[], line, [""]);
      AddBlank(map[k := v]);
      assert [line] + [] + [""] == [line] + [""];
    } else {
      var second := more[0].0 + ":" + more[0].1;
      GoodLine(map[k := v], more[0].0, more[0].1);
      LinesRoundTrip([line] + [second]);
      AddFirst(map[], line, [second] + [""]);
      AddFirst(map[k := v], second, [""]);
      AddBlank(map[k := v][more[0].0 := more[0].1]);
      assert [line] + [second] + [""] == [line] + ([second] + [""]);
    }
  }

  lemma CleanRoundTrip(status: int, message: string)
    requires Clean(message)
    ensures TextTrailers(TrailerText(status, message)) == Expected(status, message)
  {
    KeysAreKeys();
    IntTextClean(status);
    BlockRoundTrip(STATUS_KEY, IntText(status), if message == "" then [] else [(MESSAGE_KEY, message)]);
  }

  lemma {:induction false} SplitHasNoBreak(s: string)
    ensures forall l | l in SplitLines(s) :: NoBreak(l)
  {
    if s != "" {
      SplitHasNoBreak(s[1..]);
      var rest := SplitLines(s[1..]);
      assert rest[0] in rest;
    }
  }

  /** Whatever was parsed, its values are clean. */
  lemma {:induction false} ValuesAreClean(out: Trailer, lines: seq<string>)
    requires forall l | l in lines :: NoBreak(l)
    requires forall k | k in out :: Clean(out[k])
    ensures forall k | k in AddLines(out, lines) :: Clean(AddLines(out, lines)[k])
    decreases |lines|
  {
    if lines != [] {
      var line := Strip(lines[0]);
      StripKeeps(lines[0]);
      var i := FirstColon(line);
      if i < |line| {
        assert NoBreak(line[i + 1..]);
        StripKeeps(line[i + 1..]);
      }
      ValuesAreClean(AddLine(out, lines[0]), lines[1..]);
    }
  }

  /**
   Parsing the payload of an encoded trailer gives back the status and the message, the message
   absent when empty, exactly when the message is one line without white space at its ends. Colons
   in the message do no harm.
   */
  lemma TrailerRoundTrip(u: Utf8, status: int, message: string)
    requires ValidUtf8(u)
    ensures TrailersOf(u, EncodeTrailers(u, status, message).payload) == Expected(status, message) <==> Clean(message)
  {
    var text := TrailerText(status, message);
    assert u.dec(u.enc(text)) == text;
    if Clean(message) {
      CleanRoundTrip(status, message);
    } else {
      var lines := SplitLines(UnixLines(text));
      SplitHasNoBreak(UnixLines(text));
      ValuesAreClean(map[], lines);
      assert message != "" && Expected(status, message)[MESSAGE_KEY] == message;
    }
  }

  // ---- messages of several lines ------------------------------------------------------------------

  /** The lines of a message behind its first one, as the parser sees them. */
  function LaterLines(message: string): seq<string> {
    SplitLines(UnixLines(message + "\r\n"))[1..]
  }

  /** The line has the key grpc-status. */
  predicate NamesStatus(raw: string) {
    var line := Strip(raw);
    FirstColon(line) < |line| && Lower(Strip(line[..FirstColon(line)])) == STATUS_KEY
  }

  function StatusNamed(raw: string): string
    requires NamesStatus(raw)
  {
    var line := Strip(raw);
    Strip(line[FirstColon(line) + 1..])
  }

  predicate IsLastStatus(lines: seq<string>, i: nat)
    requires i < |lines|
  {
    NamesStatus(lines[i]) && forall j | i < j < |lines| :: !NamesStatus(lines[j])
  }

  /** The last line that names a status, if there is any, names `value`. */
  predicate Repeats(lines: seq<string>, value: string) {
    forall i | 0 <= i < |lines| && IsLastStatus(lines, i) :: StatusNamed(lines[i]) == value
  }

  lemma {:induction false} AddLinesSnoc(out: Trailer, lines: seq<string>, last: string)
    ensures AddLines(out, lines + [last]) == AddLine(AddLines(out, lines), last)
    decreases |lines|
  {
    if lines == [] {
      assert [] + [last] == [last];
    } else {
      assert (lines + [last])[0] == lines[0] && (lines + [last])[1..] == lines[1..] + [last];
      AddLinesSnoc(AddLine(out, lines[0]), lines[1..], last);
    }
  }

  /** More lines leave the status as it is exactly when the last of them to name one repeats it. */
  lemma {:induction false} LastStatusWins(out: Trailer, lines: seq<string>)
    requires STATUS_KEY in out
    ensures STATUS_KEY in AddLines(out, lines)
    ensures AddLines(out, lines)[STATUS_KEY] == out[STATUS_KEY] <==> Repeats(lines, out[STATUS_KEY])
    decreases |lines|
  {
    if lines != [] {
      var n := |lines| - 1;
      var init, last := lines[..n], lines[n];
      assert lines == init + [last];
      AddLinesSnoc(out, init, last);
      LastStatusWins(out, init);
      if NamesStatus(last) {
        assert IsLastStatus(lines, n);
        assert Repeats(lines, out[STATUS_KEY]) <==> StatusNamed(last) == out[STATUS_KEY];
      } else {
        assert forall i | 0 <= i < n :: lines[i] == init[i] && (IsLastStatus(lines, i) <==> IsLastStatus(init, i));
      }
    }
  }

  /** What stands in front of a text, without a break, becomes part of its first line. */
  lemma {:induction false} FrontLine(a: string, b: string)
    requires NoBreak(a) && '\r' !in a
    ensures SplitLines(UnixLines(a + b)) == [a + SplitLines(UnixLines(b))[0]] + SplitLines(UnixLines(b))[1..]
  {
    var s := a + b;
    if a == "" {
      var lines := SplitLines(UnixLines(b));
      assert s == b && "" + lines[0] == lines[0] && lines == [lines[0]] + lines[1..];
    } else {
      assert s[1..] == a[1..] + b;
      FrontLine(a[1..], b);
      assert UnixLines(s) == [s[0]] + UnixLines(s[1..]);
      assert UnixLines(s)[1..] == UnixLines(s[1..]);
      assert [a[0]] + (a[1..] + SplitLines(UnixLines(b))[0]) == a + SplitLines(UnixLines(b))[0];
    }
  }

  /** Stripping keeps a front that has no white space at its ends. */
  lemma {:induction false} StripFront(a: string, x: string) returns (y: string)
    requires a != "" && !IsSpace(a[0]) && !IsSpace(a[|a| - 1])
    ensures Strip(a + x) == a + y
    decreases |x|
  {
    var s := a + x;
    if x != "" && IsSpace(x[|x| - 1]) {
      assert s[..|s| - 1] == a + x[..|x| - 1];
      y := StripFront(a, x[..|x| - 1]);
    } else {
      y := x;
      Tight(s);
    }
  }

  lemma MessageLine(out: Trailer, x: string)
    ensures AddLine(out, MESSAGE_KEY + ":" + x).Keys == out.Keys + {MESSAGE_KEY}
    ensures forall k | k in out && k != MESSAGE_KEY :: AddLine(out, MESSAGE_KEY + ":" + x)[k] == out[k]
  {
    var a := MESSAGE_KEY + ":";
    var y := StripFront(a, x);
    assert a + x == MESSAGE_KEY + ":" + x && a + y == MESSAGE_KEY + ":" + y;
    KeysAreKeys();
    ColonAfter(MESSAGE_KEY, y);
    assert (a + y)[..|MESSAGE_KEY|] == MESSAGE_KEY;
  }

  /** The lines of an encoded trailer with a message. */
  lemma EncodedLines(status: int, message: string) returns (first: string)
    requires message != ""
    ensures SplitLines(UnixLines(TrailerText(status, message))) ==
            [STATUS_KEY + ":" + IntText(status)] + ([MESSAGE_KEY + ":" + first] + LaterLines(message))
  {
    var top, a := STATUS_KEY + ":" + IntText(status), MESSAGE_KEY + ":";
    var rest := a + (message + "\r\n");
    first := SplitLines(UnixLines(message + "\r\n"))[0];
    IntTextClean(status);
    FrontLine(a, message + "\r\n");
    JoinTwo(top, a + message);
    assert a + message + "\r\n" == rest && TrailerText(status, message) == top + "\r\n" + rest;
    UnixLine(top, rest);
    SplitLine(top, UnixLines(rest));
  }

  lemma JoinTwo(a: string, b: string)
    ensures JoinLines([a] + [b]) == a + "\r\n" + (b + "\r\n")
  {
    assert ([a] + [b])[1..] == [b] && [b][1..] == [];
    assert JoinLines([b]) == b + "\r\n" + JoinLines([]) == b + "\r\n";
  }

  /** Reading an encoded trailer with a message: the two first lines, then the rest of the message. */
  lemma EncodedReading(status: int, message: string) returns (out: Trailer)
    requires message != ""
    ensures TextTrailers(TrailerText(status, message)) == AddLines(out, LaterLines(message))
    ensures STATUS_KEY in out && out[STATUS_KEY] == IntText(status)
  {
    var first := EncodedLines(status, message);
    var top, second := STATUS_KEY + ":" + IntText(status), MESSAGE_KEY + ":" + first;
    KeysAreKeys();
    IntTextClean(status);
    GoodLine(map[], STATUS_KEY, IntText(status));
    AddFirst(map[], top, [second] + LaterLines(message));
    out := AddLine(map[STATUS_KEY := IntText(status)], second);
    AddFirst(map[STATUS_KEY := IntText(status)], second, LaterLines(message));
    MessageLine(map[STATUS_KEY := IntText(status)], first);
    assert STATUS_KEY != MESSAGE_KEY;
  }

  /** The status in an encoded trailer is the one that was encoded exactly when the message repeats it. */
  lemma EncodedStatusText(status: int, message: string)
    ensures var t := TextTrailers(TrailerText(status, message));
            STATUS_KEY in t && (t[STATUS_KEY] == IntText(status) <==> Repeats(LaterLines(message), IntText(status)))
  {
    if message == "" {
      CleanRoundTrip(status, message);
      OneLineRepeats(message, IntText(status));
    } else {
      var out := EncodedReading(status, message);
      LastStatusWins(out, LaterLines(message));
    }
  }

  lemma OneLineRepeats(message: string, value: string)
    requires NoBreak(message)
    ensures Repeats(LaterLines(message), value)
  {
    LinesRoundTrip([message]);
    assert JoinLines([message]) == message + "\r\n" + JoinLines([]) == message + "\r\n";
    assert LaterLines(message) == [""];
  }

  lemma SecondLine(line: string)
    requires NoBreak(line)
    ensures LaterLines("x\n" + line) == [line] + [""]
  {
    var tail := line + "\r\n";
    LinesRoundTrip([line]);
    assert JoinLines([line]) == line + "\r\n" + JoinLines([]) == tail;
    FrontLine("x", "\n" + tail);
    assert ("x\n" + line) + "\r\n" == "x" + ("\n" + tail);
    assert ("\n" + tail)[1..] == tail;
    assert UnixLines("\n" + tail) == ['\n'] + UnixLines(tail);
    assert (['\n'] + UnixLines(tail))[1..] == UnixLines(tail);
    assert SplitLines(['\n'] + UnixLines(tail)) == [""] + SplitLines(UnixLines(tail));
  }

  lemma OverridingText(status: int, value: string)
    requires value != "" && Clean(value)
    ensures var t := TextTrailers(TrailerText(status, "x\ngrpc-status:" + value));
            STATUS_KEY in t && t[STATUS_KEY] == value
  {
    var line := STATUS_KEY + ":" + value;
    assert "x\ngrpc-status:" + value == "x\n" + line;
    var out := EncodedReading(status, "x\n" + line);
    SecondLine(line);
    KeysAreKeys();
    GoodLine(out, STATUS_KEY, value);
    AddFirst(out, line, [""]);
    AddBlank(out[STATUS_KEY := value]);
  }

  // ---- what a server may send --------------------------------------------------------------------

  predicate AllSpace(s: string) {
    forall c | c in s :: IsSpace(c)
  }

  /** Nothing, or a text with no white space at its ends. */
  predicate IsTight(s: string) {
    s != "" ==> !IsSpace(s[0]) && !IsSpace(s[|s| - 1])
  }

  /** Of the ASCII characters these are white space, and outside of ASCII those Unicode calls so. */
  lemma SpaceCharacters(c: char)
    ensures (c as int) < 128 ==> (IsSpace(c) <==> c in "\t\n\U{0B}\U{0C}\r\U{1C}\U{1D}\U{1E}\U{1F} ")
    ensures (c as int) >= 128 ==>
              (IsSpace(c) <==>
                 c in "\U{85}\U{A0}\U{1680}\U{2000}\U{2001}\U{2002}\U{2003}\U{2004}\U{2005}\U{2006}\U{2007}\U{2008}"
                 || c in "\U{2009}\U{200A}\U{2028}\U{2029}\U{202F}\U{205F}\U{3000}")
  {
  }

  /** Stripping removes the white space at both ends, all of it, and nothing else. */
  lemma {:induction false} StripExact(a: string, x: string, b: string)
    requires AllSpace(a) && AllSpace(b) && IsTight(x)
    ensures Strip(a + x + b) == x
    decreases |a| + |b|
  {
    var s := a + x + b;
    if a != "" {
      assert s[0] == a[0] && a[0] in a && s[1..] == a[1..] + x + b;
      StripExact(a[1..], x, b);
    } else if b != "" {
      var n := |b| - 1;
      assert s[|s| - 1] == b[n] && b[n] in b && s[..|s| - 1] == a + x + b[..n];
      if x == "" {
        assert s[0] == b[0] && b[0] in b && s[1..] == "" + x + b[1..];
        StripExact("", x, b[1..]);
      } else {
        assert s[0] == x[0];
        StripExact(a, x, b[..n]);
      }
    } else {
      assert s == x;
      if x != "" {
        Tight(x);
      }
    }
  }

  /** Lower-casing turns 'A' to 'Z' into 'a' to 'z' and leaves every other character as it is. */
  lemma LowerExact(s: string, i: nat)
    requires i < |s|
    ensures |Lower(s)| == |s|
    ensures if 'A' <= s[i] <= 'Z' then Lower(s)[i] as int - 'a' as int == s[i] as int - 'A' as int
            else Lower(s)[i] == s[i]
  {
  }

  /** A header as a server may write it: white space around its name and around its value. */
  datatype Field = Field(before: string, name: string, behind: string, ahead: string, value: string, after: string)

  predicate IsField(f: Field) {
    && AllSpace(f.before) && AllSpace(f.behind) && AllSpace(f.ahead) && AllSpace(f.after)
    && IsTight(f.name) && ':' !in f.name && IsTight(f.value)
  }

  function FieldLine(f: Field): string {
    f.before + f.name + f.behind + ":" + f.ahead + f.value + f.after
  }

  lemma NoColonInSpace(s: string)
    requires AllSpace(s)
    ensures ':' !in s
  {
  }

  /** What is left in front of the colon when the line was stripped. */
  function NameLeft(f: Field): string {
    if f.name == "" then "" else f.name + f.behind
  }

  function FrontSpace(f: Field): string {
    if f.name == "" then f.before + f.behind else f.before
  }

  lemma Regroup(f: Field)
    ensures FieldLine(f) == FrontSpace(f) + (NameLeft(f) + ":" + (f.ahead + f.value)) + f.after
    ensures FieldLine(f) == FrontSpace(f) + (NameLeft(f) + ":") + (f.ahead + f.value + f.after)
  {
    var left := FrontSpace(f) + NameLeft(f);
    assert left == f.before + f.name + f.behind;
    assert FieldLine(f) == left + ":" + f.ahead + f.value + f.after;
  }

  lemma FrontIsSpace(f: Field)
    requires IsField(f)
    ensures AllSpace(FrontSpace(f)) && AllSpace(f.ahead + f.after)
  {
  }

  lemma ColonTight(f: Field)
    requires IsField(f)
    ensures IsTight(NameLeft(f) + ":") && (f.value != "" ==> IsTight(NameLeft(f) + ":" + (f.ahead + f.value)))
  {
    var s := NameLeft(f) + ":";
    if f.name != "" {
      assert s[0] == f.name[0];
    }
    if f.value != "" {
      var t := s + (f.ahead + f.value);
      assert t[|t| - 1] == f.value[|f.value| - 1] && t[0] == s[0];
    }
  }

  /** Of the text behind the colon stripping the line leaves enough to find the value in. */
  lemma StripBehind(f: Field) returns (tail: string)
    requires IsField(f)
    ensures Strip(FieldLine(f)) == NameLeft(f) + ":" + tail && Strip(tail) == f.value
  {
    Regroup(f);
    FrontIsSpace(f);
    ColonTight(f);
    if f.value == "" {
      tail := "";
      StripExact(FrontSpace(f), NameLeft(f) + ":", f.ahead + f.after);
      assert f.ahead + f.value + f.after == f.ahead + f.after;
      assert NameLeft(f) + ":" + "" == NameLeft(f) + ":";
    } else {
      tail := f.ahead + f.value;
      StripExact(f.ahead, f.value, "");
      assert f.ahead + f.value + "" == tail;
      StripExact(FrontSpace(f), NameLeft(f) + ":" + tail, f.after);
    }
  }

  /** A header line adds exactly its lower-cased name with its value, without the white space around them. */
  lemma FieldRead(out: Trailer, f: Field)
    requires IsField(f)
    ensures AddLine(out, FieldLine(f)) == out[Lower(f.name) := f.value]
  {
    var tail := StripBehind(f);
    var name := NameLeft(f);
    NoColonInSpace(f.behind);
    ColonAfter(name, tail);
    var line := name + ":" + tail;
    assert line[..|name|] == name && line[|name| + 1..] == tail;
    if f.name != "" {
      StripExact("", f.name, f.behind);
      assert "" + f.name + f.behind == name;
    }
  }

  /** A line without a colon adds nothing. */
  lemma {:induction false} OtherLine(out: Trailer, raw: string)
    requires ':' !in raw
    ensures AddLine(out, raw) == out
  {
    StripSubset(raw);
    ColonFound(Strip(raw));
  }

  lemma ColonFound(s: string)
    ensures FirstColon(s) < |s| ==> ':' in s
  {
  }

  lemma {:induction false} StripSubset(s: string)
    ensures forall c | c in Strip(s) :: c in s
  {
    if s != "" {
      if IsSpace(s[0]) {
        StripSubset(s[1..]);
      } else if IsSpace(s[|s| - 1]) {
        StripSubset(s[..|s| - 1]);
      }
    }
  }

  /** A raw line, ended by CR LF or by a bare LF. */
  datatype RawLine = RawLine(text: string, crlf: bool)

  predicate IsRawLine(l: RawLine) {
    NoBreak(l.text) && (l.crlf || l.text == "" || l.text[|l.text| - 1] != '\r')
  }

  function Block(lines: seq<RawLine>): string {
    if lines == [] then ""
    else lines[0].text + (if lines[0].crlf then "\r\n" else "\n") + Block(lines[1..])
  }

  function Texts(lines: seq<RawLine>): seq<string> {
    if lines == [] then [] else [lines[0].text] + Texts(lines[1..])
  }

  lemma {:induction false} BareLine(a: string, b: string)
    requires NoBreak(a) && (a == "" || a[|a| - 1] != '\r')
    ensures UnixLines(a + "\n" + b) == a + "\n" + UnixLines(b)
  {
    var s := a + "\n" + b;
    if a == "" {
      assert s[1..] == b && s[0] == '\n';
      assert UnixLines(s) == ['\n'] + UnixLines(s[1..]);
    } else {
      assert s[1..] == a[1..] + "\n" + b;
      if |a| > 1 {
        assert a[1..][|a| - 2] == a[|a| - 1];
      }
      BareLine(a[1..], b);
      assert !(s[0] == '\r' && s[1] == '\n');
      assert [a[0]] + (a[1..] + "\n" + UnixLines(b)) == a + "\n" + UnixLines(b);
    }
  }

  /** A block comes apart into its lines, whichever way they end. */
  lemma {:induction false} BlockLines(lines: seq<RawLine>)
    requires forall l | l in lines :: IsRawLine(l)
    ensures SplitLines(UnixLines(Block(lines))) == Texts(lines) + [""]
  {
    if lines != [] {
      var l, rest := lines[0], Block(lines[1..]);
      assert l in lines;
      if l.crlf {
        UnixLine(l.text, rest);
      } else {
        BareLine(l.text, rest);
      }
      SplitLine(l.text, UnixLines(rest));
      BlockLines(lines[1..]);
      assert [l.text] + (Texts(lines[1..]) + [""]) == Texts(lines) + [""];
    }
  }

  /** What a server may put on a line: a header, or a text that is none. */
  datatype Item = Header(field: Field, crlf: bool) | Note(text: string, crlf: bool)

  predicate IsItem(i: Item) {
    IsRawLine(LineOf(i)) && if i.Header? then IsField(i.field) else ':' !in i.text
  }

  function LineOf(i: Item): RawLine {
    if i.Header? then RawLine(FieldLine(i.field), i.crlf) else RawLine(i.text, i.crlf)
  }

  function LinesOf(items: seq<Item>): seq<RawLine> {
    if items == [] then [] else [LineOf(items[0])] + LinesOf(items[1..])
  }

  /** The headers of a block, a later one in place of an earlier one of the same name. */
  function Meaning(out: Trailer, items: seq<Item>): Trailer
    decreases |items|
  {
    if items == [] then out
    else if items[0].Note? then Meaning(out, items[1..])
    else Meaning(out[Lower(items[0].field.name) := items[0].field.value], items[1..])
  }

  lemma {:induction false} ItemsRead(out: Trailer, items: seq<Item>)
    requires forall i | i in items :: IsItem(i)
    ensures AddLines(out, Texts(LinesOf(items)) + [""]) == Meaning(out, items)
    ensures forall l | l in LinesOf(items) :: IsRawLine(l)
    decreases |items|
  {
    if items == [] {
      AddBlank(out);
      assert Texts(LinesOf(items)) + [""] == [""];
    } else {
      var first, rest := items[0], Texts(LinesOf(items[1..])) + [""];
      assert first in items;
      var text := LineOf(first).text;
      assert LinesOf(items)[1..] == LinesOf(items[1..]);
      assert Texts(LinesOf(items)) + [""] == [text] + rest;
      AddFirst(out, text, rest);
      if first.Header? {
        FieldRead(out, first.field);
      } else {
        OtherLine(out, text);
      }
      ItemsRead(AddLine(out, text), items[1..]);
    }
  }

  /**
   Parsing a block gives exactly its headers: names in lower case, names and values without the white
   space around them, whatever line ends are used, blank lines and lines without a colon left out.
   */
  lemma BlockRead(items: seq<Item>)
    requires forall i | i in items :: IsItem(i)
    ensures TextTrailers(Block(LinesOf(items))) == Meaning(map[], items)
  {
    ItemsRead(map[], items);
    BlockLines(LinesOf(items));
  }

  // ---- what is encoded, to the letter -------------------------------------------------------------

  /** The text of an encoded trailer. */
  lemma EncodedText(status: int, message: string)
    ensures TrailerText(status, message) ==
              "grpc-status:" + IntText(status) + "\r\n"
              + (if message == "" then "" else "grpc-message:" + message + "\r\n")
  {
    var top := STATUS_KEY + ":" + IntText(status);
    assert "grpc-status:" + IntText(status) == top;
    if message == "" {
      assert [top] + [] == [top] && [top][1..] == [];
      assert JoinLines([top]) == top + "\r\n" + JoinLines([]);
    } else {
      JoinTwo(top, MESSAGE_KEY + ":" + message);
      assert "grpc-message:" + message == MESSAGE_KEY + ":" + message;
    }
  }

  predicate AllDigits(s: string) {
    forall i | 0 <= i < |s| :: '0' <= s[i] <= '9'
  }

  /** The number a text of decimal digits stands for. */
  function ReadDigits(s: string): nat
    requires AllDigits(s)
  {
    if s == "" then 0 else 10 * ReadDigits(s[..|s| - 1]) + (s[|s| - 1] as int - '0' as int)
  }

  lemma {:induction false} DigitsRead(n: nat)
    ensures AllDigits(Digits(n)) && ReadDigits(Digits(n)) == n
    ensures Digits(n) != "" && (Digits(n)[0] == '0' ==> n == 0)
  {
    if n >= 10 {
      DigitsRead(n / 10);
      assert Digits(n)[..|Digits(n)| - 1] == Digits(n / 10);
    } else {
      assert Digits(n)[..0] == "";
    }
  }

  /** An integer is written in decimal, without leading zeros, with a minus sign if it is negative. */
  lemma IntTextRead(n: int)
    ensures var digits := if n < 0 then IntText(n)[1..] else IntText(n);
            && (n < 0 ==> IntText(n)[0] == '-')
            && AllDigits(digits) && ReadDigits(digits) == (if n < 0 then -n else n)
            && digits != "" && (digits[0] == '0' ==> n == 0)
  {
    DigitsRead(if n < 0 then -n else n);
    if n < 0 {
      assert IntText(n)[1..] == Digits(-n);
    }
  }
}
