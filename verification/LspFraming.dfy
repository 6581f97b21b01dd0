/** `Content-Length` framing of JSON-RPC messages (sidecar_lsp.py, `_frame_message`, `_read_one_frame`;
    the "Base Protocol" section of the Language Server Protocol 3.17). A message body is a byte string;
    the JSON inside it is not looked at. */
module LspFraming {
  import opened Wrappers

  const LF: byte := 10
  const CR: byte := 13
  const SPACE: byte := 32
  const COLON: byte := 58
  const UNDERSCORE: byte := 95
  const CRLF: seq<byte> := [CR, LF]

  /** `Content-Length: ` */
  const PREFIX: seq<byte> := [67, 111, 110, 116, 101, 110, 116, 45, 76, 101, 110, 103, 116, 104, COLON, SPACE]
  /** `content-length` */
  const KEY: seq<byte> := [99, 111, 110, 116, 101, 110, 116, 45, 108, 101, 110, 103, 116, 104]
  /** `0` */
  const ZERO: seq<byte> := [48]

  // --------------------------------------------------------------- byte strings, as Python handles them

  predicate IsEol(b: byte) { b == LF || b == CR }
  predicate IsSpace(b: byte) { 9 <= b <= 13 || b == SPACE }
  predicate IsDigit(b: byte) { 48 <= b <= 57 }

  function TrimStart(s: seq<byte>, p: byte -> bool): seq<byte> {
    if s != [] && p(s[0]) then TrimStart(s[1..], p) else s
  }

  function TrimEnd(s: seq<byte>, p: byte -> bool): seq<byte> {
    if s != [] && p(s[|s| - 1]) then TrimEnd(s[..|s| - 1], p) else s
  }

  function Strip(s: seq<byte>): seq<byte> { TrimEnd(TrimStart(s, IsSpace), IsSpace) }

  function Lower(s: seq<byte>): seq<byte> {
    seq(|s|, i requires 0 <= i < |s| => if 65 <= s[i] <= 90 then s[i] + 32 else s[i])
  }

  /** The first index of `b`, or the length. */
  function IndexOf(s: seq<byte>, b: byte): (i: nat)
    ensures i <= |s| && (i < |s| ==> s[i] == b) && b !in s[..i]
  {
    if s == [] || s[0] == b then 0 else 1 + IndexOf(s[1..], b)
  }

  function Decimal(n: nat): seq<byte> {
    if n < 10 then [(48 + n) as byte] else Decimal(n / 10) + [(48 + n % 10) as byte]
  }

  /** Digits with single underscores between them, as `int` takes them. */
  function Unsigned(d: seq<byte>): Option<nat> {
    if d == [] || !IsDigit(d[|d| - 1]) then None
    else if |d| == 1 then Some(d[0] as int - 48)
    else
      var front := Unsigned(if d[|d| - 2] == UNDERSCORE then d[..|d| - 2] else d[..|d| - 1]);
      if front.None? then None else Some(10 * front.value + d[|d| - 1] as int - 48)
  }

  /** `int(v)`; `None` is a `ValueError`. */
  function ParseInt(v: seq<byte>): Option<int> {
    var t := Strip(v);
    if t != [] && t[0] == 43 then Unsigned(t[1..])
    else if t != [] && t[0] == 45 then
      var n := Unsigned(t[1..]);
      if n.None? then None else var m: int := n.value; Some(-m)
    else Unsigned(t)
  }

  lemma {:induction false} DecimalDigits(n: nat)
    ensures Decimal(n) != [] && forall b | b in Decimal(n) :: IsDigit(b)
    ensures Unsigned(Decimal(n)) == Some(n)
  {
    if n >= 10 {
      DecimalDigits(n / 10);
      var d := Decimal(n);
      assert d[..|d| - 1] == Decimal(n / 10);
      assert d[|d| - 2] in Decimal(n / 10);
    }
  }

  lemma ParseOfDecimal(n: nat)
    ensures ParseInt(Decimal(n)) == Some(n)
  {
    DecimalDigits(n);
    var d := Decimal(n);
    assert d[0] in d && d[|d| - 1] in d;
    assert Strip(d) == d;
  }

  /** A sign is taken as well: 43 is `+` and 45 is `-`. */
  lemma ParseOfSigned(n: nat)
    ensures ParseInt([43] + Decimal(n)) == Some(n) && ParseInt([45] + Decimal(n)) == Some(0 - n)
  {
    DecimalDigits(n);
    SignedIsKept(43, n);
    SignedIsKept(45, n);
  }

  /** An underscore between two digits does not count. */
  lemma {:induction false} UnderscoreIsSkipped(d: seq<byte>, digit: byte)
    requires Unsigned(d).Some? && IsDigit(digit)
    ensures Unsigned(d + [95, digit]) == Unsigned(d + [digit]) == Some(10 * Unsigned(d).value + digit as int - 48)
  {
    assert IsDigit(d[|d| - 1]);
    assert (d + [95, digit])[..|d|] == d && (d + [digit])[..|d|] == d;
  }

  lemma SignedIsKept(sign: byte, n: nat)
    requires !IsSpace(sign)
    ensures var s := [sign] + Decimal(n);
      Strip(s) == s && s[0] == sign && s[1..] == Decimal(n) && s[|s| - 1] in Decimal(n)
  {
    DecimalDigits(n);
    var d := Decimal(n);
    assert d[|d| - 1] in d;
  }

  // --------------------------------------------------------------- frames

  datatype Reply = Message(body: seq<byte>) | EmptyMessage | NoMore

  function Frame(body: seq<byte>): seq<byte> {
    PREFIX + Decimal(|body|) + CRLF + CRLF + body
  }

  function Frames(bodies: seq<seq<byte>>): seq<byte> {
    if bodies == [] then [] else Frame(bodies[0]) + Frames(bodies[1..])
  }

  /** `readline` returns this many bytes: up to the line feed, or all there is. */
  function LineLength(s: seq<byte>): (n: nat)
    ensures n <= |s| && (s != [] ==> n > 0)
  {
    var i := IndexOf(s, LF);
    if i < |s| then i + 1 else i
  }

  /** What a header line does to the content length seen so far; the last one counts. */
  function HeaderValue(line: seq<byte>, value: seq<byte>): seq<byte> {
    var c := IndexOf(line, COLON);
    if c < |line| && Lower(Strip(line[..c])) == KEY then Strip(line[c + 1..]) else value
  }

  /** Reads header lines up to the empty one; `None` at the end of the stream. */
  function ReadHeaders(s: seq<byte>, value: seq<byte>): (r: (Option<seq<byte>>, seq<byte>))
    ensures r.0.Some? ==> |r.1| < |s|
    decreases |s|
  {
    if s == [] then (None, [])
    else
      var n := LineLength(s);
      var line := TrimEnd(s[..n], IsEol);
      if line == [] then (Some(value), s[n..]) else ReadHeaders(s[n..], HeaderValue(line, value))
  }

  function ReadFrame(s: seq<byte>): (r: (Reply, seq<byte>))
    ensures !r.0.NoMore? ==> |r.1| < |s|
  {
    var (value, rest) := ReadHeaders(s, ZERO);
    if value.None? then (NoMore, rest)
    else
      var length := ParseInt(value.value);
      if length.None? then (NoMore, rest)
      else if length.value <= 0 then (EmptyMessage, rest)
      else if length.value > |rest| then (NoMore, [])
      else (Message(rest[..length.value]), rest[length.value..])
  }

  /** Everything the reader loop gets from a stream. */
  function Replies(s: seq<byte>): seq<Reply>
    decreases |s|
  {
    var (reply, rest) := ReadFrame(s);
    if reply.NoMore? then [] else [reply] + Replies(rest)
  }

  // --------------------------------------------------------------- reading what was written

  lemma {:induction false} IndexIs(s: seq<byte>, b: byte, i: nat)
    requires i < |s| && s[i] == b && b !in s[..i]
    ensures IndexOf(s, b) == i
  {
    if i > 0 {
      assert s[0] in s[..i];
      assert s[1..][..i - 1] == s[1..i];
      assert forall x | x in s[1..i] :: x in s[..i];
      IndexIs(s[1..], b, i - 1);
    }
  }

  lemma {:induction false} NoIndex(s: seq<byte>, b: byte)
    requires b !in s
    ensures IndexOf(s, b) == |s|
  {
    if s != [] {
      NoIndex(s[1..], b);
    }
  }

  /** A complete line: what `readline` and `rstrip` make of it. */
  lemma {:induction false} LineOf(line: seq<byte>, tail: seq<byte>)
    requires LF !in line && (line == [] || line[|line| - 1] != CR)
    ensures LineLength(line + CRLF + tail) == |line| + 2
    ensures (line + CRLF + tail)[..|line| + 2] == line + CRLF
    ensures (line + CRLF + tail)[|line| + 2..] == tail
    ensures TrimEnd(line + CRLF, IsEol) == line
  {
    assert line + CRLF + tail == line + [CR] + ([LF] + tail);
    LineEnds(line + [CR], tail);
    TrimmedLine(line);
  }

  lemma TrimmedLine(line: seq<byte>)
    requires line == [] || !IsEol(line[|line| - 1])
    ensures TrimEnd(line + CRLF, IsEol) == line
  {
    assert line + CRLF == line + [CR] + [LF];
    TrimEndDrops(line + [CR], LF);
    TrimEndDrops(line, CR);
  }

  lemma LineEnds(front: seq<byte>, tail: seq<byte>)
    requires LF !in front
    ensures LineLength(front + ([LF] + tail)) == |front| + 1
    ensures (front + ([LF] + tail))[..|front| + 1] == front + [LF]
    ensures (front + ([LF] + tail))[|front| + 1..] == tail
  {
    var s := front + ([LF] + tail);
    assert s[..|front|] == front;
    IndexIs(s, LF, |front|);
  }

  lemma TrimEndDrops(s: seq<byte>, b: byte)
    requires IsEol(b)
    ensures TrimEnd(s + [b], IsEol) == TrimEnd(s, IsEol)
  {
    assert (s + [b])[..|s|] == s;
  }

  lemma {:induction false} LengthHeader(n: nat, value: seq<byte>)
    ensures var line := PREFIX + Decimal(n);
      && LF !in line && line[|line| - 1] != CR
      && HeaderValue(line, value) == Decimal(n)
  {
    DecimalDigits(n);
    assert Decimal(n)[0] in Decimal(n) && Decimal(n)[|Decimal(n)| - 1] in Decimal(n);
    LengthLine(Decimal(n), value);
  }

  lemma LengthLine(d: seq<byte>, value: seq<byte>)
    requires d != [] && !IsSpace(d[0]) && !IsSpace(d[|d| - 1]) && LF !in d
    ensures var line := PREFIX + d;
      && LF !in line && line[|line| - 1] != CR
      && HeaderValue(line, value) == d
  {
    var line := PREFIX + d;
    assert line == PREFIX[..14] + [COLON] + ([SPACE] + d);
    KeyOfPrefix();
    IndexIs(line, COLON, 14);
    assert line[..14] == PREFIX[..14] && line[15..] == [SPACE] + d;
    StripOfValue(d);
  }

  lemma StripOfValue(d: seq<byte>)
    requires d != [] && !IsSpace(d[0]) && !IsSpace(d[|d| - 1])
    ensures Strip([SPACE] + d) == d
  {
    var s := [SPACE] + d;
    assert s[0] == SPACE && s[1..] == d;
    assert TrimStart(s, IsSpace) == TrimStart(d, IsSpace) == d;
  }

  lemma KeyOfPrefix()
    ensures Lower(Strip(PREFIX[..14])) == KEY
    ensures COLON !in PREFIX[..14] && LF !in PREFIX
  {
    var k := PREFIX[..14];
    assert k[0] == 67 && k[13] == 104;
    assert Strip(k) == k;
  }

  /** A header line that says something else. */
  ghost predicate OtherHeader(line: seq<byte>) {
    && line != [] && LF !in line && line[|line| - 1] != CR
    && (var c := IndexOf(line, COLON); c < |line| ==> Lower(Strip(line[..c])) != KEY)
  }

  function Lines(lines: seq<seq<byte>>): seq<byte> {
    if lines == [] then [] else lines[0] + CRLF + Lines(lines[1..])
  }

  lemma {:induction false} OthersAreSkipped(lines: seq<seq<byte>>, tail: seq<byte>, value: seq<byte>)
    requires forall line | line in lines :: OtherHeader(line)
    ensures ReadHeaders(Lines(lines) + tail, value) == ReadHeaders(tail, value)
  {
    if lines == [] {
      assert Lines(lines) + tail == tail;
    } else {
      var rest := Lines(lines[1..]) + tail;
      assert Lines(lines) + tail == lines[0] + CRLF + rest;
      assert OtherHeader(lines[0]);
      LineOf(lines[0], rest);
      OthersAreSkipped(lines[1..], tail, value);
    }
  }

  /** A frame as any conforming peer may send it, with other headers around the length, whatever the
      body contains and whatever follows it. */
  lemma {:induction false} ReadOfPeerFrame(before: seq<seq<byte>>, after: seq<seq<byte>>, body: seq<byte>,
                                           tail: seq<byte>)
    requires forall line | line in before + after :: OtherHeader(line)
    requires body != []
    ensures ReadFrame(Lines(before) + (PREFIX + Decimal(|body|) + CRLF + (Lines(after) + (CRLF + (body + tail)))))
         == (Message(body), tail)
  {
    var afterBlank := body + tail;
    var afterLength := Lines(after) + (CRLF + afterBlank);
    var fromLength := PREFIX + Decimal(|body|) + CRLF + afterLength;
    forall line | line in before ensures OtherHeader(line) { assert line in before + after; }
    forall line | line in after ensures OtherHeader(line) { assert line in before + after; }
    OthersAreSkipped(before, fromLength, ZERO);
    LengthHeader(|body|, ZERO);
    LineOf(PREFIX + Decimal(|body|), afterLength);
    assert ReadHeaders(fromLength, ZERO) == ReadHeaders(afterLength, Decimal(|body|));
    OthersAreSkipped(after, CRLF + afterBlank, Decimal(|body|));
    LineOf([], afterBlank);
    assert [] + CRLF + afterBlank == CRLF + afterBlank;
    assert ReadHeaders(CRLF + afterBlank, Decimal(|body|)) == (Some(Decimal(|body|)), afterBlank);
    ParseOfDecimal(|body|);
    assert afterBlank[..|body|] == body && afterBlank[|body|..] == tail;
  }

  lemma ReadOfFrame(body: seq<byte>, tail: seq<byte>)
    requires body != []
    ensures ReadFrame(Frame(body) + tail) == (Message(body), tail)
  {
    ReadOfPeerFrame([], [], body, tail);
    FrameAsLines(PREFIX + Decimal(|body|), body, tail);
  }

  lemma FrameAsLines(line: seq<byte>, body: seq<byte>, tail: seq<byte>)
    ensures line + CRLF + CRLF + body + tail == Lines([]) + (line + CRLF + (Lines([]) + (CRLF + (body + tail))))
  {
    assert Lines([]) + (CRLF + (body + tail)) == CRLF + (body + tail);
  }

  /** Header blocks without a body: a length of zero, or none at all, gives an empty message and leaves what
      follows in the stream. */
  lemma {:induction false} ReadOfEmptyFrame(before: seq<seq<byte>>, tail: seq<byte>)
    requires forall line | line in before :: OtherHeader(line)
    ensures ReadFrame(Lines(before) + (CRLF + tail)) == (EmptyMessage, tail)
    ensures ReadFrame(Lines(before) + (PREFIX + Decimal(0) + CRLF + (CRLF + tail))) == (EmptyMessage, tail)
  {
    OthersAreSkipped(before, CRLF + tail, ZERO);
    BlankEndsHeaders(tail, ZERO);
    ParseOfDecimal(0);
    var fromLength := PREFIX + Decimal(0) + CRLF + (CRLF + tail);
    OthersAreSkipped(before, fromLength, ZERO);
    LengthHeader(0, ZERO);
    LineOf(PREFIX + Decimal(0), CRLF + tail);
  }

  /** A length with a plus sign is that length, and a negative one is none. */
  lemma {:induction false} ReadOfSignedLength(body: seq<byte>, n: nat, tail: seq<byte>)
    requires body != []
    ensures ReadFrame(PREFIX + ([43] + Decimal(|body|)) + CRLF + (CRLF + (body + tail))) == (Message(body), tail)
    ensures ReadFrame(PREFIX + ([45] + Decimal(n)) + CRLF + (CRLF + tail)) == (EmptyMessage, tail)
  {
    var after := body + tail;
    ParseOfSigned(|body|);
    SignedHeader(43, |body|, after);
    assert after[..|body|] == body && after[|body|..] == tail;
    ParseOfSigned(n);
    SignedHeader(45, n, tail);
  }

  lemma SignedHeader(sign: byte, n: nat, tail: seq<byte>)
    requires !IsSpace(sign)
    ensures ReadHeaders(PREFIX + ([sign] + Decimal(n)) + CRLF + (CRLF + tail), ZERO) ==
            (Some([sign] + Decimal(n)), tail)
  {
    var value := [sign] + Decimal(n);
    DecimalDigits(n);
    SignedIsKept(sign, n);
    assert forall b | b in value :: b == sign || b in Decimal(n);
    LengthLine(value, ZERO);
    LineOf(PREFIX + value, CRLF + tail);
    BlankEndsHeaders(tail, value);
  }

  lemma BlankEndsHeaders(tail: seq<byte>, value: seq<byte>)
    ensures ReadHeaders(CRLF + tail, value) == (Some(value), tail)
  {
    LineOf([], tail);
    assert [] + CRLF + tail == CRLF + tail;
  }

  /** A length that is no number ends the reading: one with a byte that is neither a digit nor an underscore, and
      no sign in front. */
  lemma ReadOfBadLength(value: seq<byte>, i: nat, tail: seq<byte>)
    requires i < |value| && !IsDigit(value[i]) && value[i] != UNDERSCORE && value[0] != 43 && value[0] != 45
    requires !IsSpace(value[0]) && !IsSpace(value[|value| - 1]) && LF !in value
    ensures ReadFrame(PREFIX + value + CRLF + (CRLF + tail)).0 == NoMore
  {
    LengthLine(value, ZERO);
    LineOf(PREFIX + value, CRLF + tail);
    BlankEndsHeaders(tail, value);
    LettersAreNoNumber(value, i);
    assert Strip(value) == value;
  }

  lemma {:induction false} LettersAreNoNumber(d: seq<byte>, i: nat)
    requires i < |d| && !IsDigit(d[i]) && d[i] != UNDERSCORE
    ensures Unsigned(d) == None
  {
    if IsDigit(d[|d| - 1]) && |d| > 1 {
      if d[|d| - 2] == UNDERSCORE {
        assert i < |d| - 2;
        LettersAreNoNumber(d[..|d| - 2], i);
      } else {
        LettersAreNoNumber(d[..|d| - 1], i);
      }
    }
  }

  /** A frame cut anywhere before its end gives no message. */
  lemma ReadOfCutFrame(body: seq<byte>, n: nat)
    requires body != [] && n < |Frame(body)|
    ensures ReadFrame(Frame(body)[..n]).0 == NoMore
  {
    if n < |PREFIX + Decimal(|body|)| + 2 {
      FrameToLength(body, n);
      CutInLine(Frame(body)[..n]);
    } else {
      CutBehindLength(body, n);
    }
  }

  lemma CutBehindLength(body: seq<byte>, n: nat)
    requires body != [] && |PREFIX + Decimal(|body|)| + 2 <= n < |Frame(body)|
    ensures ReadFrame(Frame(body)[..n]).0 == NoMore
  {
    var k := n - |PREFIX + Decimal(|body|)| - 2;
    FrameFromLength(body, n);
    CutAfterLength(body, k);
    ReadBehindLength(|body|, (CRLF + body)[..k]);
  }

  lemma ReadBehindLength(n: nat, rest: seq<byte>)
    requires n > 0
    requires var r := ReadHeaders(rest, Decimal(n)); r.0.Some? ==> r.0.value == Decimal(n) && |r.1| < n
    ensures ReadFrame(PREFIX + Decimal(n) + CRLF + rest).0 == NoMore
  {
    LengthHeader(n, ZERO);
    LineOf(PREFIX + Decimal(n), rest);
    assert ReadHeaders(PREFIX + Decimal(n) + CRLF + rest, ZERO) == ReadHeaders(rest, Decimal(n));
    ParseOfDecimal(n);
  }

  lemma FrameToLength(body: seq<byte>, n: nat)
    requires n < |PREFIX + Decimal(|body|)| + 2
    ensures n < |Frame(body)|
    ensures var s := Frame(body)[..n]; LF !in s && (s != [] ==> s[0] == 67)
  {
    var line := PREFIX + Decimal(|body|);
    LengthHeader(|body|, ZERO);
    assert Frame(body)[..n] == (line + [CR])[..n] && line[0] == PREFIX[0];
  }

  lemma FrameFromLength(body: seq<byte>, n: nat)
    requires |PREFIX + Decimal(|body|)| + 2 <= n < |Frame(body)|
    ensures var line := PREFIX + Decimal(|body|);
      && Frame(body)[..n] == line + CRLF + (CRLF + body)[..n - |line| - 2]
      && n < |line| + 4 + |body|
  {
    var line := PREFIX + Decimal(|body|);
    assert Frame(body) == line + CRLF + (CRLF + body);
  }

  lemma CutInLine(s: seq<byte>)
    requires LF !in s && (s != [] ==> s[0] == 67)
    ensures ReadFrame(s).0 == NoMore
  {
    NoIndex(s, LF);
    if s != [] {
      assert s[..|s|] == s && s[|s|..] == [];
      TrimEndKeepsFirst(s);
    }
  }

  lemma {:induction false} TrimEndKeepsFirst(s: seq<byte>)
    requires s != [] && !IsEol(s[0])
    ensures TrimEnd(s, IsEol) != []
  {
    if IsEol(s[|s| - 1]) {
      TrimEndKeepsFirst(s[..|s| - 1]);
    }
  }

  lemma CutAfterLength(body: seq<byte>, m: nat)
    requires body != [] && m < |body| + 2
    ensures var r := ReadHeaders((CRLF + body)[..m], Decimal(|body|));
      r.0.Some? ==> r.0.value == Decimal(|body|) && |r.1| < |body|
  {
    var q := (CRLF + body)[..m];
    if m == 1 {
      assert q == [CR];
      LoneCr(Decimal(|body|));
    } else if m >= 2 {
      assert q == [] + CRLF + body[..m - 2];
      LineOf([], body[..m - 2]);
    }
  }

  lemma LoneCr(value: seq<byte>)
    ensures ReadHeaders([CR], value) == (Some(value), [])
  {
    var q := [CR];
    NoIndex(q, LF);
    assert q[..1] == q && q[..0] == [];
    assert TrimEnd(q, IsEol) == TrimEnd([], IsEol) == [];
  }

  function Messages(bodies: seq<seq<byte>>): seq<Reply> {
    seq(|bodies|, i requires 0 <= i < |bodies| => Message(bodies[i]))
  }

  ghost predicate NonEmpty(bodies: seq<seq<byte>>) {
    forall i | 0 <= i < |bodies| :: bodies[i] != []
  }

  lemma RepliesFirst(body: seq<byte>, rest: seq<byte>)
    requires body != []
    ensures Replies(Frame(body) + rest) == [Message(body)] + Replies(rest)
  {
    ReadOfFrame(body, rest);
  }

  lemma FirstFrame(bodies: seq<seq<byte>>, tail: seq<byte>)
    requires bodies != []
    ensures Frames(bodies) + tail == Frame(bodies[0]) + (Frames(bodies[1..]) + tail)
  {}

  lemma FirstMessage(bodies: seq<seq<byte>>)
    requires bodies != []
    ensures Messages(bodies) == [Message(bodies[0])] + Messages(bodies[1..])
  {}

  lemma {:induction false} RepliesTo(bodies: seq<seq<byte>>, tail: seq<byte>)
    requires NonEmpty(bodies)
    requires ReadFrame(tail).0 == NoMore
    ensures Replies(Frames(bodies) + tail) == Messages(bodies)
  {
    if bodies == [] {
      assert Frames(bodies) + tail == tail;
      assert Replies(tail) == [];
    } else {
      FirstFrame(bodies, tail);
      RepliesFirst(bodies[0], Frames(bodies[1..]) + tail);
      RepliesTo(bodies[1..], tail);
      FirstMessage(bodies);
    }
  }

  /** Reading a concatenation of frames returns exactly the bodies, in order, and then a clean end. */
  lemma {:induction false} RoundTrip(bodies: seq<seq<byte>>)
    requires NonEmpty(bodies)
    ensures Replies(Frames(bodies)) == Messages(bodies)
  {
    RepliesTo(bodies, []);
    assert Frames(bodies) + [] == Frames(bodies);
  }

  lemma {:induction false} FramesCut(bodies: seq<seq<byte>>, n: nat) returns (k: nat, m: nat)
    requires n < |Frames(bodies)|
    ensures k < |bodies| && m < |Frame(bodies[k])|
    ensures Frames(bodies)[..n] == Frames(bodies[..k]) + Frame(bodies[k])[..m]
  {
    var first := Frame(bodies[0]);
    PrefixOfConcat(first, Frames(bodies[1..]), n);
    if n < |first| {
      k, m := 0, n;
      assert Frames(bodies[..0]) == [];
    } else {
      k, m := FramesCut(bodies[1..], n - |first|);
      FramesCons(bodies, k);
      k := k + 1;
    }
  }

  lemma PrefixOfConcat(a: seq<byte>, b: seq<byte>, n: nat)
    requires n <= |a + b|
    ensures (a + b)[..n] == if n < |a| then a[..n] else a + b[..n - |a|]
  {}

  lemma FramesCons(bodies: seq<seq<byte>>, k: nat)
    requires k < |bodies|
    ensures forall rest :: Frames(bodies[..k + 1]) + rest == Frame(bodies[0]) + (Frames(bodies[1..][..k]) + rest)
  {
    assert bodies[..k + 1][1..] == bodies[1..][..k];
  }

  /** A stream cut anywhere gives the messages that were complete, and no partial one. */
  lemma CutStream(bodies: seq<seq<byte>>, n: nat) returns (k: nat)
    requires NonEmpty(bodies)
    requires n < |Frames(bodies)|
    ensures k < |bodies| && |Frames(bodies[..k])| <= n < |Frames(bodies[..k + 1])|
    ensures Replies(Frames(bodies)[..n]) == Messages(bodies[..k])
  {
    var m: nat;
    k, m := FramesCut(bodies, n);
    ReadOfCutFrame(bodies[k], m);
    RepliesTo(bodies[..k], Frame(bodies[k])[..m]);
    FramesGrow(bodies, k);
  }

  lemma FramesGrow(bodies: seq<seq<byte>>, k: nat)
    requires k < |bodies|
    ensures Frames(bodies[..k + 1]) == Frames(bodies[..k]) + Frame(bodies[k])
  {
    assert bodies[..k + 1] == bodies[..k] + [bodies[k]];
    FramesAppend(bodies[..k], bodies[k]);
  }

  lemma {:induction false} FramesAppend(bodies: seq<seq<byte>>, body: seq<byte>)
    ensures Frames(bodies + [body]) == Frames(bodies) + Frame(body)
  {
    if bodies == [] {
      assert [body][1..] == [];
      assert bodies + [body] == [body];
    } else {
      assert (bodies + [body])[1..] == bodies[1..] + [body];
      FramesAppend(bodies[1..], body);
    }
  }

  lemma RepliesStep(done: seq<Reply>, s: seq<byte>)
    ensures var (reply, rest) := ReadFrame(s);
      done + Replies(s) == if reply.NoMore? then done else done + [reply] + Replies(rest)
  {}

  // --------------------------------------------------------------- the reader

  class StreamReader {
    const data: seq<byte>
    var pos: nat

    constructor (data: seq<byte>)
      ensures Valid() && Rest() == data
    {
      this.data := data;
      pos := 0;
    }

    ghost predicate Valid() reads this { pos <= |data| }

    ghost function Rest(): seq<byte>
      reads this
      requires Valid()
    {
      data[pos..]
    }

    method ReadLine() returns (line: seq<byte>)
      requires Valid()
      modifies this`pos
      ensures Valid()
      ensures var n := LineLength(old(Rest())); line == old(Rest())[..n] && Rest() == old(Rest())[n..]
    {
      var n := LineLength(data[pos..]);
      line := data[pos..pos + n];
      pos := pos + n;
    }

    /** `None` is an `IncompleteReadError`. */
    method ReadExactly(n: nat) returns (body: Option<seq<byte>>)
      requires Valid()
      modifies this`pos
      ensures Valid()
      ensures n <= |old(Rest())| ==> body == Some(old(Rest())[..n]) && Rest() == old(Rest())[n..]
      ensures n > |old(Rest())| ==> body == None && Rest() == []
    {
      if pos + n > |data| {
        pos := |data|;
        return None;
      }
      body := Some(data[pos..pos + n]);
      assert data[pos..pos + n] == data[pos..][..n];
      pos := pos + n;
    }

    method ReadOneFrame() returns (reply: Reply)
      requires Valid()
      modifies this`pos
      ensures Valid() && (reply, Rest()) == ReadFrame(old(Rest()))
    {
      var contentLength := ZERO;
      while true
        invariant Valid()
        invariant ReadHeaders(Rest(), contentLength) == ReadHeaders(old(Rest()), ZERO)
        decreases |data| - pos
      {
        var line := ReadLine();
        if line == [] {
          return NoMore;
        }
        line := TrimEnd(line, IsEol);
        if line == [] {
          break;
        }
        if COLON !in line {
          NoIndex(line, COLON);
          continue;
        }
        var c := IndexOf(line, COLON);
        if Lower(Strip(line[..c])) == KEY {
          contentLength := Strip(line[c + 1..]);
        }
      }
      var length := ParseInt(contentLength);
      if length.None? {
        return NoMore;
      }
      if length.value <= 0 {
        return EmptyMessage;
      }
      var body := ReadExactly(length.value);
      reply := if body.None? then NoMore else Message(body.value);
    }

    /** The frames the reader loop handles before it ends. */
    method ReadToEnd() returns (replies: seq<Reply>)
      requires Valid()
      modifies this`pos
      ensures Valid() && replies == Replies(old(Rest()))
    {
      replies := [];
      while true
        invariant Valid()
        invariant replies + Replies(Rest()) == Replies(old(Rest()))
        decreases |Rest()|
      {
        RepliesStep(replies, Rest());
        var reply := ReadOneFrame();
        if reply.NoMore? {
          break;
        }
        replies := replies + [reply];
      }
    }
  }
}
