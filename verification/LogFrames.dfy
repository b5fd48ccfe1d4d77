/**
 * Docker's multiplexed log stream: frames of an 8-byte header (stream type, three unused bytes,
 * big-endian payload length) and a payload, and the two readers of that framing
 * (internal/agent/log_stream.go, internal/agent/benchmark.go).
 */
module LogFrames {
  import opened Prelude

  const HEADER: nat := 8
  const MAX_PAYLOAD: nat := 0x10_0000

  datatype Stream = Stdout | Stderr

  datatype LogLine = LogLine(timestamp: Bytes, stream: Stream, message: Bytes)

  // ---------------------------------------------------------------- what the daemon sends

  datatype Frame = Frame(kind: Byte, unused: Bytes, payload: Bytes) {
    ghost predicate Valid() {
      |unused| == 3 && |payload| < TWO_TO_THE_32
    }
  }

  ghost function Header(f: Frame): (h: Bytes)
    requires f.Valid()
    ensures |h| == HEADER && h[0] == f.kind && FromBigEndian32(h[4..8]) == |f.payload|
  {
    var h := [f.kind] + f.unused + BigEndian32(|f.payload|);
    assert h[4..8] == BigEndian32(|f.payload|);
    h
  }

  ghost predicate AllValid(frames: seq<Frame>) {
    forall i :: 0 <= i < |frames| ==> frames[i].Valid()
  }

  ghost function Print(frames: seq<Frame>): Bytes
    requires AllValid(frames)
  {
    if frames == [] then [] else Header(frames[0]) + frames[0].payload + Print(frames[1..])
  }

  // ---------------------------------------------------------------- one line

  function StreamOf(kind: Byte): Stream {
    if kind == 2 then Stderr else Stdout
  }

  /** strings.TrimRight(_, "\\n\\r") */
  function TrimNewlines(s: Bytes): (t: Bytes)
    ensures t <= s
  {
    if s != [] && (s[|s| - 1] == 10 || s[|s| - 1] == 13) then TrimNewlines(s[..|s| - 1]) else s
  }

  /** The index of the first space, or the length. */
  function SpaceIndex(s: Bytes): (i: nat)
    ensures i <= |s| && (i < |s| ==> s[i] == 32)
    ensures forall j :: 0 <= j < i ==> s[j] != 32
  {
    if s == [] || s[0] == 32 then 0 else 1 + SpaceIndex(s[1..])
  }

  /** An ISO 8601 timestamp ("....-..-..T" and more than 20 bytes) and what follows the first space. */
  function SplitTimestamp(line: Bytes): (r: (Bytes, Bytes))
    ensures r.0 == [] ==> r.1 == line
    ensures r.0 != [] ==> |r.0| > 20 && 32 !in r.0 && r.0 + [32] + r.1 == line
  {
    if |line| < 31 then ([], line) else
    if line[4] == 45 && line[7] == 45 && line[10] == 84 then
      var i := SpaceIndex(line);
      if 20 < i < |line| then (line[..i], line[i + 1..]) else ([], line)
    else ([], line)
  }

  function LineOf(kind: Byte, payload: Bytes): LogLine {
    var (ts, msg) := SplitTimestamp(TrimNewlines(payload));
    LogLine(ts, StreamOf(kind), msg)
  }

  // ---------------------------------------------------------------- what a line means

  predicate AllNewlines(s: Bytes) {
    forall i :: 0 <= i < |s| ==> s[i] == 10 || s[i] == 13
  }

  predicate EndsInText(s: Bytes) {
    s != [] ==> s[|s| - 1] != 10 && s[|s| - 1] != 13
  }

  /** At least 31 bytes, '-', '-' and 'T' where a timestamp has them, and no space up to byte 20 but one later. */
  ghost predicate Stamped(text: Bytes) {
    && |text| >= 31 && text[4] == 45 && text[7] == 45 && text[10] == 84
    && (forall i :: 0 <= i <= 20 ==> text[i] != 32) && 32 in text
  }

  lemma {:induction false} TrimmedText(text: Bytes, ends: Bytes)
    requires EndsInText(text) && AllNewlines(ends)
    ensures TrimNewlines(text + ends) == text
  {
    if ends == [] {
      assert text + ends == text;
    } else {
      var n := |ends| - 1;
      assert (text + ends)[|text + ends| - 1] == ends[n] && (text + ends)[..|text + ends| - 1] == text + ends[..n];
      TrimmedText(text, ends[..n]);
    }
  }

  /**
   * The line of a frame whose payload is a text and trailing newlines: standard error exactly for stream
   * type 2; a text with a timestamp is cut at its first space, any other text is the message.
   */
  lemma LineMeaning(kind: Byte, text: Bytes, ends: Bytes)
    requires EndsInText(text) && AllNewlines(ends)
    ensures var line := LineOf(kind, text + ends);
            && (line.stream == Stderr <==> kind == 2)
            && (if Stamped(text) then 32 !in line.timestamp && line.timestamp + [32] + line.message == text
                else line.timestamp == [] && line.message == text)
  {
    TrimmedText(text, ends);
    var i := SpaceIndex(text);
    if i < |text| {
      assert text[i] in text;
    }
  }

  // ---------------------------------------------------------------- parseDockerLogStream

  /** The lines of a byte stream; frames of length 0 or above 1 MiB are skipped by their header only. */
  function Parse(data: Bytes): seq<LogLine>
    decreases |data|
  {
    if |data| < HEADER then [] else
    var size := FromBigEndian32(data[4..8]);
    if size == 0 || size > MAX_PAYLOAD then Parse(data[HEADER..]) else
    if |data| < HEADER + size then [] else
    [LineOf(data[0], data[HEADER..HEADER + size])] + Parse(data[HEADER + size..])
  }

  method ParseDockerLogStream(r: Bytes) returns (lines: seq<LogLine>)
    ensures lines == Parse(r)
  {
    hide FromBigEndian32, LineOf;
    lines := [];
    var rest := r;
    while true
      invariant lines + Parse(rest) == Parse(r)
      decreases |rest|
    {
      if |rest| < HEADER {
        break;
      }
      ghost var before := rest;
      var header := rest[..HEADER];
      assert before[4..8] == header[4..8];
      var size := FromBigEndian32(header[4..8]);
      rest := rest[HEADER..];
      if size == 0 || size > MAX_PAYLOAD {
        continue;
      }
      if |rest| < size {
        break;
      }
      var payload := rest[..size];
      assert payload == before[HEADER..HEADER + size] && rest[size..] == before[HEADER + size..];
      lines := lines + [LineOf(header[0], payload)];
      rest := rest[size..];
    }
  }

  /** One line per frame that carries a payload. */
  ghost function Lines(frames: seq<Frame>): seq<LogLine> {
    if frames == [] then [] else
    (if frames[0].payload == [] then [] else [LineOf(frames[0].kind, frames[0].payload)]) + Lines(frames[1..])
  }

  /** How many whole frames the first `n` bytes hold. */
  ghost function Whole(frames: seq<Frame>, n: nat): (k: nat)
    ensures k <= |frames|
  {
    if frames == [] || n < HEADER + |frames[0].payload| then 0 else
    1 + Whole(frames[1..], n - HEADER - |frames[0].payload|)
  }

  ghost predicate Parseable(frames: seq<Frame>) {
    AllValid(frames) && forall i :: 0 <= i < |frames| ==> |frames[i].payload| <= MAX_PAYLOAD
  }

  /** Cutting the stream anywhere yields the lines of the frames that arrived whole. */
  lemma {:induction false} ParsePrefix(frames: seq<Frame>, n: nat)
    requires Parseable(frames) && n <= |Print(frames)|
    ensures Parse(Print(frames)[..n]) == Lines(frames[..Whole(frames, n)])
  {
    hide FromBigEndian32, LineOf;
    var data := Print(frames)[..n];
    if frames != [] {
      var f, rest := frames[0], Print(frames[1..]);
      var m := HEADER + |f.payload|;
      if n >= HEADER {
        assert data[..HEADER] == Header(f);
        assert data[4..8] == Header(f)[4..8];
      }
      if n >= m {
        assert data[HEADER..m] == f.payload && data[m..] == rest[..n - m];
        assert frames[..Whole(frames, n)][1..] == frames[1..][..Whole(frames[1..], n - m)];
        ParsePrefix(frames[1..], n - m);
      }
    }
  }

  lemma {:induction false} WholeAll(frames: seq<Frame>)
    requires AllValid(frames)
    ensures Whole(frames, |Print(frames)|) == |frames|
  {
    if frames != [] {
      WholeAll(frames[1..]);
    }
  }

  lemma {:induction false} LinesPrefix(frames: seq<Frame>, k: nat)
    requires k <= |frames|
    ensures Lines(frames[..k]) <= Lines(frames)
  {
    hide LineOf;
    if k > 0 {
      assert frames[..k][1..] == frames[1..][..k - 1];
      LinesPrefix(frames[1..], k - 1);
    }
  }

  /** Parsing what was printed gives the frames' lines in order; any byte prefix gives a prefix of them. */
  lemma ParsePrint(frames: seq<Frame>, n: nat)
    requires Parseable(frames) && n <= |Print(frames)|
    ensures Parse(Print(frames)) == Lines(frames)
    ensures Parse(Print(frames)[..n]) <= Lines(frames)
  {
    ParsePrefix(frames, |Print(frames)|);
    WholeAll(frames);
    assert Print(frames)[..|Print(frames)|] == Print(frames) && frames[..|frames|] == frames;
    ParsePrefix(frames, n);
    LinesPrefix(frames, Whole(frames, n));
  }

  // ---------------------------------------------------------------- frames above 1 MiB

  lemma OversizedIsSkipped(f: Frame, rest: Bytes)
    requires f.Valid() && |f.payload| > MAX_PAYLOAD
    ensures Parse(Header(f) + f.payload + rest) == Parse(f.payload + rest)
  {
    hide FromBigEndian32;
    var data := Header(f) + f.payload + rest;
    assert data[4..8] == Header(f)[4..8] && data[HEADER..] == f.payload + rest;
  }

  lemma ParseFrame(f: Frame, rest: Bytes)
    requires f.Valid() && 1 <= |f.payload| <= MAX_PAYLOAD
    ensures Parse(Header(f) + f.payload + rest) == [LineOf(f.kind, f.payload)] + Parse(rest)
  {
    hide FromBigEndian32, LineOf;
    var data := Header(f) + f.payload + rest;
    var m := HEADER + |f.payload|;
    assert data[4..8] == Header(f)[4..8] && data[HEADER..m] == f.payload && data[m..] == rest;
  }

  lemma ParseEmptyFrame(f: Frame, rest: Bytes)
    requires f.Valid() && f.payload == []
    ensures Parse(Header(f) + f.payload + rest) == Parse(rest)
  {
    hide FromBigEndian32;
    var data := Header(f) + f.payload + rest;
    assert data[4..8] == Header(f)[4..8] && data[HEADER..] == rest;
  }

  /** Whatever follows them, frames of at most 1 MiB are parsed one by one. */
  lemma {:induction false} ParseBehind(frames: seq<Frame>, rest: Bytes)
    requires Parseable(frames)
    ensures Parse(Print(frames) + rest) == Lines(frames) + Parse(rest)
  {
    hide Header, Parse, LineOf;
    if frames == [] {
      assert Print(frames) + rest == rest && Lines(frames) + Parse(rest) == Parse(rest);
    } else {
      var f, tail := frames[0], Print(frames[1..]) + rest;
      assert Print(frames) + rest == Header(f) + f.payload + tail;
      ParseBehind(frames[1..], rest);
      if f.payload == [] {
        ParseEmptyFrame(f, tail);
      } else {
        ParseFrame(f, tail);
      }
    }
  }

  /**
   * A payload above 1 MiB is not skipped: up to the first one the lines are those of the frames
   * before it, and from there on its bytes are read as headers.
   */
  lemma OversizedFrameIsReparsed(before: seq<Frame>, f: Frame, rest: Bytes)
    requires Parseable(before) && f.Valid() && |f.payload| > MAX_PAYLOAD
    ensures Parse(Print(before) + (Header(f) + f.payload + rest)) == Lines(before) + Parse(f.payload + rest)
  {
    ParseBehind(before, Header(f) + f.payload + rest);
    OversizedIsSkipped(f, rest);
  }

  ghost function Sizes(frames: seq<Frame>): seq<nat> {
    seq(|frames|, i requires 0 <= i < |frames| => |frames[i].payload|)
  }

  /** Every list of frames with these payload sizes is parsed into its lines. */
  ghost predicate AlwaysParsed(sizes: seq<nat>) {
    forall frames :: AllValid(frames) && Sizes(frames) == sizes ==> Parse(Print(frames)) == Lines(frames)
  }

  /** A payload that begins like a frame with one byte. */
  ghost function Disguised(n: nat): (p: Bytes)
    requires n > MAX_PAYLOAD
    ensures |p| == n
  {
    [0, 0, 0, 0, 0, 0, 0, 1, 65] + seq(n - 9, _ => 65)
  }

  lemma DisguisedFirstLine(n: nat, rest: Bytes)
    requires MAX_PAYLOAD < n < TWO_TO_THE_32
    ensures var lines := Parse(Disguised(n) + rest);
            lines != [] && |lines[0].message| == 1 && |LineOf(0, Disguised(n)).message| == n
  {
    var inner := Frame(0, [0, 0, 0], [65]);
    var more: Bytes := seq(n - 9, _ => 65);
    assert Disguised(n) + rest == Header(inner) + inner.payload + (more + rest);
    ParseFrame(inner, more + rest);
    assert SplitTimestamp(TrimNewlines([65])) == ([], [65]);
    assert Disguised(n)[n - 1] == 65;
    assert TrimNewlines(Disguised(n)) == Disguised(n) && Disguised(n)[4] == 0;
  }

  /** Printing frame lists apart. */
  lemma {:induction false} PrintAppend(a: seq<Frame>, b: seq<Frame>)
    requires AllValid(a) && AllValid(b)
    ensures AllValid(a + b) && Print(a + b) == Print(a) + Print(b) && Lines(a + b) == Lines(a) + Lines(b)
  {
    hide Header, LineOf;
    if a == [] {
      assert a + b == b && Lines(a) + Lines(b) == Lines(b) && Print(a) + Print(b) == Print(b);
    } else {
      var f, rest := a[0], a[1..] + b;
      PrintAppend(a[1..], b);
      assert a + b == [f] + rest && ([f] + rest)[1..] == rest;
      assert Header(f) + f.payload + (Print(a[1..]) + Print(b)) == (Header(f) + f.payload + Print(a[1..])) + Print(b);
      LinesCons(f, a[1..], b);
    }
  }

  lemma LinesCons(f: Frame, a: seq<Frame>, b: seq<Frame>)
    requires Lines(a + b) == Lines(a) + Lines(b)
    ensures Lines([f] + (a + b)) == Lines([f] + a) + Lines(b)
  {
    hide LineOf;
    assert ([f] + (a + b))[1..] == a + b && ([f] + a)[1..] == a;
  }

  lemma OversizedBreaks(before: seq<Frame>, n: nat, after: seq<Frame>)
    requires Parseable(before) && AllValid(after) && MAX_PAYLOAD < n < TWO_TO_THE_32
    ensures var frames := before + ([Frame(0, [0, 0, 0], Disguised(n))] + after);
            AllValid(frames) && Parse(Print(frames)) != Lines(frames)
  {
    var f := Frame(0, [0, 0, 0], Disguised(n));
    var rest := [f] + after;
    assert rest[1..] == after && rest[0] == f;
    PrintAppend(before, rest);
    assert Print(rest) == Header(f) + f.payload + Print(after);
    OversizedFrameIsReparsed(before, f, Print(after));
    DisguisedFirstLine(n, Print(after));
    hide Header, Parse, LineOf, Disguised, Print;
    assert Lines(rest)[0] == LineOf(0, f.payload);
    var k := |Lines(before)|;
    assert (Lines(before) + Lines(rest))[k] == Lines(rest)[0];
    assert (Lines(before) + Parse(f.payload + Print(after)))[k] == Parse(f.payload + Print(after))[0];
  }

  ghost function Blank(sizes: seq<nat>): (frames: seq<Frame>)
    requires forall i :: 0 <= i < |sizes| ==> sizes[i] < TWO_TO_THE_32
    ensures AllValid(frames) && Sizes(frames) == sizes
  {
    seq(|sizes|, i requires 0 <= i < |sizes| => Frame(0, [0, 0, 0], seq(sizes[i], _ => 0)))
  }

  /**
   * Frames of given payload sizes, whatever their contents, are parsed into their lines exactly if
   * none is above 1 MiB.
   */
  lemma AlwaysParsedIff(sizes: seq<nat>)
    requires forall i :: 0 <= i < |sizes| ==> sizes[i] < TWO_TO_THE_32
    ensures AlwaysParsed(sizes) <==> forall i :: 0 <= i < |sizes| ==> sizes[i] <= MAX_PAYLOAD
  {
    hide Parse, Print, Lines, Sizes;
    if forall i :: 0 <= i < |sizes| ==> sizes[i] <= MAX_PAYLOAD {
      forall frames: seq<Frame> | AllValid(frames) && Sizes(frames) == sizes
        ensures Parse(Print(frames)) == Lines(frames)
      {
        SmallSizes(frames, sizes);
        ParsePrint(frames, 0);
      }
    } else {
      var frames := Breaking(sizes);
    }
  }

  lemma SmallSizes(frames: seq<Frame>, sizes: seq<nat>)
    requires AllValid(frames) && Sizes(frames) == sizes && forall i :: 0 <= i < |sizes| ==> sizes[i] <= MAX_PAYLOAD
    ensures Parseable(frames)
  {
    forall i | 0 <= i < |frames|
      ensures |frames[i].payload| <= MAX_PAYLOAD
    {
      assert Sizes(frames)[i] == |frames[i].payload|;
    }
  }

  lemma Breaking(sizes: seq<nat>) returns (frames: seq<Frame>)
    requires forall i :: 0 <= i < |sizes| ==> sizes[i] < TWO_TO_THE_32
    requires exists i :: 0 <= i < |sizes| && sizes[i] > MAX_PAYLOAD
    ensures AllValid(frames) && Sizes(frames) == sizes && Parse(Print(frames)) != Lines(frames)
  {
    hide Parse, Print, Lines, Sizes, Disguised;
    var i := FirstOversized(sizes);
    var before, after := Blank(sizes[..i]), Blank(sizes[i + 1..]);
    SmallSizes(before, sizes[..i]);
    OversizedBreaks(before, sizes[i], after);
    var f := Frame(0, [0, 0, 0], Disguised(sizes[i]));
    SizesAppend(before, f, after);
    assert sizes == sizes[..i] + ([sizes[i]] + sizes[i + 1..]);
    frames := before + ([f] + after);
  }

  lemma SizesAppend(before: seq<Frame>, f: Frame, after: seq<Frame>)
    ensures Sizes(before + ([f] + after)) == Sizes(before) + ([|f.payload|] + Sizes(after))
  {
  }

  lemma FirstOversized(sizes: seq<nat>) returns (i: nat)
    requires exists k :: 0 <= k < |sizes| && sizes[k] > MAX_PAYLOAD
    ensures i < |sizes| && sizes[i] > MAX_PAYLOAD && forall k :: 0 <= k < i ==> sizes[k] <= MAX_PAYLOAD
  {
    i := 0;
    while sizes[i] <= MAX_PAYLOAD
      invariant i < |sizes| && forall k :: 0 <= k < i ==> sizes[k] <= MAX_PAYLOAD
      invariant exists k :: i <= k < |sizes| && sizes[k] > MAX_PAYLOAD
      decreases |sizes| - i
    {
      i := i + 1;
    }
  }

  // ---------------------------------------------------------------- stripDockerLogHeaders

  /** The payload bytes collected, and the bytes left when no header fits any more. */
  function StripLoop(data: Bytes): (Bytes, Bytes)
    decreases |data|
  {
    if |data| < HEADER then ([], data) else
    var size := FromBigEndian32(data[4..8]);
    var body := data[HEADER..];
    var taken := if size > |body| then |body| else size;
    var (out, left) := StripLoop(body[taken..]);
    (body[..taken] + out, left)
  }

  function Strip(data: Bytes): Bytes {
    var (out, left) := StripLoop(data);
    if out == [] then left else out
  }

  method StripDockerLogHeaders(input: Bytes) returns (text: Bytes)
    ensures text == Strip(input)
  {
    hide FromBigEndian32, StripLoop;
    var out: Bytes := [];
    var data := input;
    assert [] + StripLoop(input).0 == StripLoop(input).0;
    while |data| >= HEADER
      invariant StripLoop(input) == (out + StripLoop(data).0, StripLoop(data).1)
    {
      var frameSize := FromBigEndian32(data[4..8]);
      StripUnfold(data, out);
      data := data[HEADER..];
      if frameSize > |data| {
        frameSize := |data|;
      }
      out := out + data[..frameSize];
      data := data[frameSize..];
    }
    StripShort(data);
    assert out + [] == out;
    if |out| == 0 {
      return data;
    }
    return out;
  }

  lemma StripUnfold(data: Bytes, out: Bytes)
    requires |data| >= HEADER
    ensures var size, body := FromBigEndian32(data[4..8]), data[HEADER..];
            var taken := if size > |body| then |body| else size;
            && out + StripLoop(data).0 == (out + body[..taken]) + StripLoop(body[taken..]).0
            && StripLoop(data).1 == StripLoop(body[taken..]).1
  {
    hide FromBigEndian32;
  }

  lemma StripShort(data: Bytes)
    requires |data| < HEADER
    ensures StripLoop(data) == ([], data)
  {
  }

  ghost function Payloads(frames: seq<Frame>): Bytes {
    if frames == [] then [] else frames[0].payload + Payloads(frames[1..])
  }

  /** The payload bytes among the first `n` bytes of the printed frames. */
  ghost function PayloadIn(frames: seq<Frame>, n: nat): (p: Bytes)
    ensures p <= Payloads(frames)
  {
    if frames == [] || n <= HEADER then [] else
    var f := frames[0];
    if n - HEADER <= |f.payload| then f.payload[..n - HEADER] else
    f.payload + PayloadIn(frames[1..], n - HEADER - |f.payload|)
  }

  /** The bytes of a header that was cut off. */
  ghost function Fragment(frames: seq<Frame>, n: nat): Bytes
    requires AllValid(frames) && n <= |Print(frames)|
  {
    if frames == [] then [] else
    if n < HEADER then Header(frames[0])[..n] else
    if n < HEADER + |frames[0].payload| then [] else
    Fragment(frames[1..], n - HEADER - |frames[0].payload|)
  }

  lemma StripWholeFrame(f: Frame, tail: Bytes)
    requires f.Valid()
    ensures StripLoop(Header(f) + f.payload + tail) == (f.payload + StripLoop(tail).0, StripLoop(tail).1)
  {
    hide FromBigEndian32;
    var data := Header(f) + f.payload + tail;
    assert data[4..8] == Header(f)[4..8] && data[HEADER..] == f.payload + tail;
    assert (f.payload + tail)[..|f.payload|] == f.payload && (f.payload + tail)[|f.payload|..] == tail;
  }

  lemma StripCutFrame(f: Frame, cut: Bytes)
    requires f.Valid() && cut <= f.payload
    ensures StripLoop(Header(f) + cut) == (cut, [])
  {
    hide FromBigEndian32;
    var data := Header(f) + cut;
    assert data[4..8] == Header(f)[4..8] && data[HEADER..] == cut;
    assert cut[..|cut|] == cut && cut[|cut|..] == [] && cut + [] == cut;
  }

  lemma {:induction false} StripLoopPrefix(frames: seq<Frame>, n: nat)
    requires AllValid(frames) && n <= |Print(frames)|
    ensures StripLoop(Print(frames)[..n]) == (PayloadIn(frames, n), Fragment(frames, n))
  {
    if frames != [] {
      hide Header, StripLoop;
      var f, rest := frames[0], Print(frames[1..]);
      var m := HEADER + |f.payload|;
      if n < HEADER {
        assert Print(frames)[..n] == Header(f)[..n];
        StripShort(Print(frames)[..n]);
      } else if n < m {
        assert Print(frames)[..n] == Header(f) + f.payload[..n - HEADER];
        StripCutFrame(f, f.payload[..n - HEADER]);
      } else {
        assert Print(frames)[..n] == Header(f) + f.payload + rest[..n - m];
        StripWholeFrame(f, rest[..n - m]);
        StripLoopPrefix(frames[1..], n - m);
        PayloadInStep(frames, n);
      }
    }
  }

  lemma PayloadInStep(frames: seq<Frame>, n: nat)
    requires frames != [] && n >= HEADER + |frames[0].payload|
    ensures PayloadIn(frames, n) == frames[0].payload + PayloadIn(frames[1..], n - HEADER - |frames[0].payload|)
  {
  }

  /**
   * Of any byte prefix, the stripped output is the payload bytes that arrived, a prefix of all
   * payloads; only while there are none is it the bytes of an incomplete header instead.
   */
  lemma StripPrefix(frames: seq<Frame>, n: nat)
    requires AllValid(frames) && n <= |Print(frames)|
    ensures PayloadIn(frames, n) <= Payloads(frames)
    ensures Strip(Print(frames)[..n]) == if PayloadIn(frames, n) != [] then PayloadIn(frames, n)
                                       else Fragment(frames, n)
    ensures |Fragment(frames, n)| < HEADER
  {
    StripLoopPrefix(frames, n);
    FragmentShort(frames, n);
  }

  lemma {:induction false} FragmentShort(frames: seq<Frame>, n: nat)
    requires AllValid(frames) && n <= |Print(frames)|
    ensures |Fragment(frames, n)| < HEADER
  {
    if frames != [] && n >= HEADER + |frames[0].payload| {
      FragmentShort(frames[1..], n - HEADER - |frames[0].payload|);
    }
  }

  /** Stripping what was printed gives the concatenated payloads. */
  lemma {:induction false} StripPrint(frames: seq<Frame>)
    requires AllValid(frames)
    ensures Strip(Print(frames)) == Payloads(frames)
  {
    var n := |Print(frames)|;
    assert Print(frames)[..n] == Print(frames);
    StripPrefix(frames, n);
    AllPayload(frames);
  }

  lemma {:induction false} AllPayload(frames: seq<Frame>)
    requires AllValid(frames)
    ensures PayloadIn(frames, |Print(frames)|) == Payloads(frames) && Fragment(frames, |Print(frames)|) == []
  {
    if frames != [] {
      AllPayload(frames[1..]);
      PayloadInStep(frames, |Print(frames)|);
    }
  }
}
