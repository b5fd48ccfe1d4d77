/**
 * The chunked, authenticated backup container: the streaming writer, the streaming reader, and
 * what an arbitrary byte stream can make the reader deliver (internal/backup/crypt.go).
 */
module SealedStream {
  import opened Prelude

  const CHUNK_SIZE: nat := 64 * 1024
  const OVERHEAD: nat := 16
  const MORE: Byte := 0
  const FINAL: Byte := 1

  /** One AES-256-GCM instance: `seal(nonce, plaintext, ad)` and `open(nonce, ciphertext, ad)`. */
  datatype Aead = Aead(
    seal: (Bytes, Bytes, Byte) -> Bytes,
    open: (Bytes, Bytes, Byte) -> Option<Bytes>)

  type Prefix = p: Bytes | |p| == 8 witness [0, 0, 0, 0, 0, 0, 0, 0]

  type Salt = s: Bytes | |s| == 16 witness seq(16, _ => 0)

  /** "KNHBAK01" */
  const MAGIC: Bytes := [75, 78, 72, 66, 65, 75, 48, 49]

  function Header(salt: Salt, prefix: Prefix): Bytes {
    MAGIC + salt + prefix
  }

  datatype HeaderError = ShortHeader | NotABackup

  /** Splits a container into salt, nonce prefix and the frames behind the header. */
  function ParseHeader(input: Bytes): Result<(Salt, Prefix, Bytes), HeaderError> {
    if |input| < 32 then Err(ShortHeader) else
    if input[..8] != MAGIC then Err(NotABackup) else
    Ok((input[8..24], input[24..32], input[32..]))
  }

  /** The header read back is the header written, and nothing else is accepted as one. */
  lemma HeaderRoundTrip(input: Bytes, salt: Salt, prefix: Prefix, rest: Bytes)
    ensures ParseHeader(input) == Ok((salt, prefix, rest)) <==> input == Header(salt, prefix) + rest
  {
    var whole := Header(salt, prefix) + rest;
    assert whole[..8] == MAGIC && whole[8..24] == salt && whole[24..32] == prefix && whole[32..] == rest;
    if ParseHeader(input) == Ok((salt, prefix, rest)) {
      assert input == input[..8] + input[8..24] + input[24..32] + input[32..];
    }
  }

  function ChunkNonce(prefix: Prefix, counter: nat): Bytes
    requires counter < TWO_TO_THE_32
  {
    prefix + BigEndian32(counter)
  }

  // ---------------------------------------------------------------- what the writer emits

  function Flatten(chunks: seq<Bytes>): Bytes {
    if chunks == [] then [] else chunks[0] + Flatten(chunks[1..])
  }

  /** A plaintext cut into full chunks and one shorter, possibly empty, final chunk. */
  function Split(plain: Bytes): (chunks: seq<Bytes>)
    ensures chunks != [] && Flatten(chunks) == plain
    ensures forall k :: 0 <= k < |chunks| ==> |chunks[k]| <= CHUNK_SIZE
  {
    if |plain| < CHUNK_SIZE then [plain] else [plain[..CHUNK_SIZE]] + Split(plain[CHUNK_SIZE..])
  }

  function Seal(a: Aead, prefix: Prefix, k: nat, chunk: Bytes, flag: Byte): Bytes {
    a.seal(ChunkNonce(prefix, Wrap32(k)), chunk, flag)
  }

  /** A length prefix (truncated to uint32) followed by the sealed chunk. */
  function Frame(a: Aead, prefix: Prefix, k: nat, chunk: Bytes, flag: Byte): Bytes {
    var sealed := Seal(a, prefix, k, chunk, flag);
    BigEndian32(Wrap32(|sealed|)) + sealed
  }

  function Flag(chunks: seq<Bytes>, k: nat): Byte {
    if k + 1 < |chunks| then MORE else FINAL
  }

  /** The frames of chunks `k` onwards; `Body(_, _, _, 0)` is what follows the header. */
  function Body(a: Aead, prefix: Prefix, chunks: seq<Bytes>, k: nat): Bytes
    requires k <= |chunks|
    decreases |chunks| - k
  {
    if k == |chunks| then [] else
    Frame(a, prefix, k, chunks[k], Flag(chunks, k)) + Body(a, prefix, chunks, k + 1)
  }

  /** The frames of `chunks` while more are to follow. */
  ghost function Emitted(a: Aead, prefix: Prefix, chunks: seq<Bytes>): Bytes {
    if chunks == [] then [] else
    var k := |chunks| - 1;
    Emitted(a, prefix, chunks[..k]) + Frame(a, prefix, k, chunks[k], MORE)
  }

  lemma {:induction false} EmittedThenBody(a: Aead, prefix: Prefix, chunks: seq<Bytes>, k: nat)
    requires k < |chunks|
    ensures Emitted(a, prefix, chunks[..k]) + Body(a, prefix, chunks, k) == Body(a, prefix, chunks, 0)
  {
    hide Frame;
    if k > 0 {
      EmittedThenBody(a, prefix, chunks, k - 1);
      assert chunks[..k][..k - 1] == chunks[..k - 1];
    }
  }

  lemma {:induction false} SplitFull(full: seq<Bytes>, last: Bytes)
    requires forall k :: 0 <= k < |full| ==> |full[k]| == CHUNK_SIZE
    requires |last| < CHUNK_SIZE
    ensures Split(Flatten(full) + last) == full + [last]
  {
    hide Split;
    if full == [] {
      SplitShort(last);
      assert Flatten(full) + last == last;
    } else {
      var rest := Flatten(full[1..]) + last;
      SplitFull(full[1..], last);
      SplitOne(full[0], rest);
      assert Flatten(full) + last == full[0] + rest;
      assert full + [last] == [full[0]] + (full[1..] + [last]);
    }
  }

  lemma SplitShort(plain: Bytes)
    requires |plain| < CHUNK_SIZE
    ensures Split(plain) == [plain]
  {
  }

  lemma SplitOne(chunk: Bytes, rest: Bytes)
    requires |chunk| == CHUNK_SIZE
    ensures Split(chunk + rest) == [chunk] + Split(rest)
  {
    assert (chunk + rest)[..CHUNK_SIZE] == chunk && (chunk + rest)[CHUNK_SIZE..] == rest;
  }

  lemma {:induction false} FlattenAppend(chunks: seq<Bytes>, c: Bytes)
    ensures Flatten(chunks + [c]) == Flatten(chunks) + c
  {
    if chunks == [] {
      assert Flatten([c]) == c + Flatten([]);
    } else {
      FlattenAppend(chunks[1..], c);
      assert (chunks + [c])[1..] == chunks[1..] + [c];
    }
  }

  /** What the writer makes of a plaintext. */
  function Container(a: Aead, salt: Salt, prefix: Prefix, plain: Bytes): Bytes {
    Header(salt, prefix) + Body(a, prefix, Split(plain), 0)
  }

  /** The final frame completes what the full chunks emitted. */
  lemma FinalFrame(a: Aead, salt: Salt, prefix: Prefix, full: seq<Bytes>, last: Bytes)
    requires forall k :: 0 <= k < |full| ==> |full[k]| == CHUNK_SIZE
    requires |last| < CHUNK_SIZE
    ensures Container(a, salt, prefix, Flatten(full) + last)
            == Header(salt, prefix) + Emitted(a, prefix, full) + Frame(a, prefix, |full|, last, FINAL)
  {
    hide Frame;
    SplitFull(full, last);
    var chunks := full + [last];
    EmittedThenBody(a, prefix, chunks, |full|);
    assert chunks[..|full|] == full;
  }

  // ---------------------------------------------------------------- where everything stands in it

  /** Every ciphertext is as much longer than its plaintext as the tag. */
  ghost predicate AddsTag(a: Aead) {
    forall nonce, plain, ad :: |a.seal(nonce, plain, ad)| == |plain| + 16
  }

  /** Big-endian, without the truncation to 32 bits. */
  function FourBytes(n: nat): (b: Bytes)
    requires n < 0x1_0000_0000
    ensures |b| == 4
  {
    [n / 0x100_0000, n / 0x1_0000 % 0x100, n / 0x100 % 0x100, n % 0x100]
  }

  lemma {:induction false} SplitAt(plain: Bytes, k: nat)
    ensures |Split(plain)| == |plain| / 0x1_0000 + 1
    ensures k < |Split(plain)| ==>
              Split(plain)[k] == plain[k * 0x1_0000..if k + 1 < |Split(plain)| then (k + 1) * 0x1_0000 else |plain|]
    decreases |plain|
  {
    if |plain| >= CHUNK_SIZE {
      SplitAt(plain[CHUNK_SIZE..], if k == 0 then 0 else k - 1);
    }
  }

  lemma {:induction false} EmittedLength(a: Aead, prefix: Prefix, chunks: seq<Bytes>)
    requires AddsTag(a) && forall k :: 0 <= k < |chunks| ==> |chunks[k]| == 0x1_0000
    ensures |Emitted(a, prefix, chunks)| == |chunks| * 0x1_0014
  {
    hide BigEndian32;
    if chunks != [] {
      EmittedLength(a, prefix, chunks[..|chunks| - 1]);
    }
  }

  lemma FullBefore(plain: Bytes, k: nat)
    requires k < |Split(plain)|
    ensures forall j :: 0 <= j < k ==> |Split(plain)[j]| == 0x1_0000
  {
    forall j | 0 <= j < k
      ensures |Split(plain)[j]| == 0x1_0000
    {
      SplitAt(plain, j);
    }
  }

  /** The frame of chunk `k` stands behind `k` frames of full chunks. */
  lemma FrameAt(a: Aead, prefix: Prefix, plain: Bytes, k: nat)
    requires AddsTag(a) && k < |Split(plain)|
    ensures var chunks, at := Split(plain), k * 0x1_0014;
            var frame := Frame(a, prefix, k, chunks[k], Flag(chunks, k));
            at + |frame| <= |Body(a, prefix, chunks, 0)| && Body(a, prefix, chunks, 0)[at..at + |frame|] == frame
  {
    var chunks := Split(plain);
    FullBefore(plain, k);
    EmittedLength(a, prefix, chunks[..k]);
    hide Frame, Split, Emitted, AddsTag;
    EmittedThenBody(a, prefix, chunks, k);
    var before, frame := Emitted(a, prefix, chunks[..k]), Frame(a, prefix, k, chunks[k], Flag(chunks, k));
    var rest := Body(a, prefix, chunks, k + 1);
    assert Body(a, prefix, chunks, k) == frame + rest;
    hide Body;
    assert (before + (frame + rest))[|before|..|before| + |frame|] == frame;
  }

  lemma FourBytesAre(n: nat)
    requires n < 0x1_0000_0000
    ensures BigEndian32(Wrap32(n)) == FourBytes(n)
  {
    HighByte(n);
    LowBytes(n);
  }

  lemma HighByte(n: nat)
    ensures n / 0x1_0000 / 0x100 == n / 0x100_0000
  {
  }

  lemma LowBytes(n: nat)
    ensures n % 0x1_0000 / 0x100 == n / 0x100 % 0x100 && n % 0x1_0000 % 0x100 == n % 0x100
  {
    var q, r := n / 0x1_0000, n % 0x1_0000;
    assert n / 0x100 == q * 0x100 + r / 0x100;
  }

  /** A length and a ciphertext that stand together at `at`. */
  lemma Apart(c: Bytes, at: nat, length: Bytes, ct: Bytes)
    requires |length| == 4 && at + 4 + |ct| <= |c| && c[at..at + 4 + |ct|] == length + ct
    ensures c[at..at + 4] == length && c[at + 4..at + 4 + |ct|] == ct
  {
    assert c[at..at + 4] == c[at..at + 4 + |ct|][..4];
    assert c[at + 4..at + 4 + |ct|] == c[at..at + 4 + |ct|][4..];
  }

  lemma Behind(header: Bytes, body: Bytes, at: nat, n: nat)
    requires |header| == 32 && at + n <= |body|
    ensures (header + body)[32 + at..32 + at + n] == body[at..at + n]
  {
  }

  /** Header and frame of a chunk, for the chunks as they are cut. */
  lemma ChunkLayout(a: Aead, salt: Salt, prefix: Prefix, plain: Bytes, k: nat)
    requires AddsTag(a) && k < |Split(plain)| && k < 0x1_0000_0000
    ensures var c, chunk := Container(a, salt, prefix, plain), Split(plain)[k];
            var ct := a.seal(prefix + FourBytes(k), chunk, Flag(Split(plain), k));
            var at := 32 + k * 0x1_0014;
            && at + 4 + |ct| <= |c| && |ct| == |chunk| + 16
            && c[..8] == MAGIC && c[8..24] == salt && c[24..32] == prefix
            && c[at..at + 4] == FourBytes(|chunk| + 16) && c[at + 4..at + 4 + |ct|] == ct
  {
    var chunks := Split(plain);
    SplitAt(plain, k);
    hide *;
    FrameAt(a, prefix, plain, k);
    FrameBytes(a, prefix, k, chunks[k], Flag(chunks, k));
    var ct := a.seal(prefix + FourBytes(k), chunks[k], Flag(chunks, k));
    HeaderThenBody(a, salt, prefix, plain);
    Behind(Header(salt, prefix), Body(a, prefix, chunks, 0), k * 0x1_0014, 4 + |ct|);
    Apart(Container(a, salt, prefix, plain), 32 + k * 0x1_0014, FourBytes(|chunks[k]| + 16), ct);
  }

  lemma FrameBytes(a: Aead, prefix: Prefix, k: nat, chunk: Bytes, flag: Byte)
    requires AddsTag(a) && k < 0x1_0000_0000 && |chunk| <= 0x1_0000
    ensures var ct := a.seal(prefix + FourBytes(k), chunk, flag);
            |ct| == |chunk| + 16 && Frame(a, prefix, k, chunk, flag) == FourBytes(|chunk| + 16) + ct
  {
    FourBytesAre(k);
    FourBytesAre(|chunk| + 16);
    hide BigEndian32, Wrap32, FourBytes;
  }

  lemma HeaderThenBody(a: Aead, salt: Salt, prefix: Prefix, plain: Bytes)
    ensures var c := Container(a, salt, prefix, plain);
            && |Header(salt, prefix)| == 32 && c == Header(salt, prefix) + Body(a, prefix, Split(plain), 0)
            && c[..8] == MAGIC && c[8..24] == salt && c[24..32] == prefix
  {
    HeaderRoundTrip(Container(a, salt, prefix, plain), salt, prefix, Body(a, prefix, Split(plain), 0));
    hide Body, Split;
  }

  /**
   * The layout of a container, position by position: the magic, salt and nonce prefix, and for chunk `k`
   * of the plaintext at its offset the length of its ciphertext and the ciphertext, under the nonce made
   * of prefix and `k` and marked as final for the last chunk only.
   */
  lemma ContainerLayout(a: Aead, salt: Salt, prefix: Prefix, plain: Bytes, k: nat)
    requires AddsTag(a) && k * 0x1_0000 <= |plain| && k < 0x1_0000_0000
    ensures var c := Container(a, salt, prefix, plain);
            var last := |plain| - k * 0x1_0000 < 0x1_0000;
            var chunk := plain[k * 0x1_0000..if last then |plain| else (k + 1) * 0x1_0000];
            var ct := a.seal(prefix + FourBytes(k), chunk, if last then 1 else 0);
            var at := 32 + k * 0x1_0014;
            && at + 4 + |ct| <= |c|
            && c[..8] == [75, 78, 72, 66, 65, 75, 48, 49] && c[8..24] == salt && c[24..32] == prefix
            && c[at..at + 4] == FourBytes(|chunk| + 16) && c[at + 4..at + 4 + |ct|] == ct
  {
    SplitAt(plain, k);
    ChunkLayout(a, salt, prefix, plain, k);
    hide Container, Split, FourBytes, AddsTag;
  }

  /** The streaming writer. `plain` records everything written, `full` the chunks flushed so far. */
  class EncryptWriter {
    const aead: Aead
    const salt: Salt
    const prefix: Prefix
    var out: Bytes
    var counter: nat
    var buf: Bytes
    ghost var plain: Bytes
    ghost var full: seq<Bytes>

    ghost predicate Valid()
      reads this
    {
      && |buf| < CHUNK_SIZE
      && plain == Flatten(full) + buf
      && (forall k :: 0 <= k < |full| ==> |full[k]| == CHUNK_SIZE)
      && counter == Wrap32(|full|)
      && out == Header(salt, prefix) + Emitted(aead, prefix, full)
    }

    /** `gcm` derives the key from passphrase and salt. */
    constructor (gcm: (string, Salt) -> Aead, passphrase: string, salt: Salt, prefix: Prefix)
      ensures Valid() && plain == []
      ensures aead == gcm(passphrase, salt) && this.salt == salt && this.prefix == prefix
    {
      this.aead, this.salt, this.prefix := gcm(passphrase, salt), salt, prefix;
      out, counter, buf, plain, full := MAGIC + salt + prefix, 0, [], [], [];
    }

    /** Cutting the input differently leaves the same `plain`, hence the same bytes. */
    method Write(p: Bytes) returns (total: nat)
      requires Valid()
      modifies this
      ensures Valid() && plain == old(plain) + p && total == |p|
    {
      hide Wrap32, Frame;
      total := |p|;
      var rest := p;
      while |rest| > 0
        invariant Valid()
        invariant plain + rest == old(plain) + p
      {
        var space := CHUNK_SIZE - |buf|;
        var n := if space < |rest| then space else |rest|;
        buf := buf + rest[..n];
        plain := plain + rest[..n];
        rest := rest[n..];
        if |buf| == CHUNK_SIZE {
          FlattenAppend(full, buf);
          Flush(false);
        }
      }
    }

    method Flush(final: bool)
      requires counter == Wrap32(|full|)
      modifies this`out, this`counter, this`buf, this`full
      ensures out == old(out) + Frame(aead, prefix, |old(full)|, old(buf), if final then FINAL else MORE)
      ensures full == old(full) + [old(buf)]
      ensures counter == Wrap32(|full|) && buf == []
    {
      hide Wrap32, BigEndian32;
      Wrap32Succ(|full|);
      var ad := if final then FINAL else MORE;
      var sealed := aead.seal(ChunkNonce(prefix, counter), buf, ad);
      counter := Wrap32(counter + 1);
      out := out + BigEndian32(Wrap32(|sealed|));
      out := out + sealed;
      full := full + [buf];
      buf := [];
    }

    /** Writes the final, possibly empty, chunk. */
    method Close()
      requires Valid()
      modifies this
      ensures out == Container(aead, salt, prefix, old(plain))
    {
      FinalFrame(aead, salt, prefix, full, buf);
      hide *;
      Flush(true);
    }
  }

  // ---------------------------------------------------------------- what the reader delivers

  datatype End = Eof | Truncated | BadPassphrase | TrailingData

  datatype Step =
    | More(chunk: Bytes, rest: Bytes)
    | Last(chunk: Bytes)
    | Fail(end: End)

  /** What the reader makes of the next frame of `input`. */
  function NextChunk(a: Aead, prefix: Prefix, counter: nat, input: Bytes): (s: Step)
    requires counter < TWO_TO_THE_32
    ensures s.More? ==> |s.rest| < |input|
    ensures s.Fail? ==> s.end != Eof
  {
    if |input| < 4 then Fail(Truncated) else
    var n := FromBigEndian32(input[..4]);
    if n > CHUNK_SIZE + OVERHEAD then Fail(BadPassphrase) else
    if |input| < 4 + n then Fail(Truncated) else
    var nonce, ct, rest := ChunkNonce(prefix, counter), input[4..4 + n], input[4 + n..];
    match a.open(nonce, ct, MORE)
    case Some(chunk) => More(chunk, rest)
    case None =>
      match a.open(nonce, ct, FINAL)
      case None => Fail(BadPassphrase)
      case Some(chunk) => if rest == [] then Last(chunk) else Fail(TrailingData)
  }

  /** Plaintext still to be delivered, and how delivery ends. */
  datatype Delivery = Delivery(plain: Bytes, end: End)

  function Prepend(p: Bytes, d: Delivery): Delivery {
    Delivery(p + d.plain, d.end)
  }

  function Decode(a: Aead, prefix: Prefix, counter: nat, input: Bytes): Delivery
    requires counter < TWO_TO_THE_32
    decreases |input|
  {
    match NextChunk(a, prefix, counter, input)
    case Fail(end) => Delivery([], end)
    case Last(chunk) => Delivery(chunk, Eof)
    case More(chunk, rest) => Prepend(chunk, Decode(a, prefix, Wrap32(counter + 1), rest))
  }

  class DecryptReader {
    const aead: Aead
    const prefix: Prefix
    var input: Bytes
    var counter: nat
    var plain: Bytes
    var done: bool
    ghost var failed: bool

    ghost predicate Valid()
      reads this
    {
      !failed && counter < TWO_TO_THE_32
    }

    ghost function Remaining(): Delivery
      requires Valid()
      reads this
    {
      Prepend(plain, if done then Delivery([], Eof) else Decode(aead, prefix, counter, input))
    }

    constructor (aead: Aead, prefix: Prefix, input: Bytes)
      ensures Valid() && Remaining() == Decode(aead, prefix, 0, input)
    {
      this.aead, this.prefix, this.input := aead, prefix, input;
      counter, plain, done, failed := 0, [], false, false;
    }

    /** Replaces an exhausted `plain` by the next chunk. */
    method Fill() returns (end: Option<End>)
      requires Valid() && plain == [] && !done
      modifies this
      ensures end.None? ==> Valid() && Remaining() == old(Remaining()) && (done || |input| < |old(input)|)
      ensures end.Some? ==> end.value != Eof && old(Remaining()) == Delivery([], end.value)
      ensures end == Some(TrailingData) ==> done
    {
      hide Wrap32, BigEndian32, FromBigEndian32;
      if |input| < 4 {
        failed := true;
        return Some(Truncated);
      }
      var n := FromBigEndian32(input[..4]);
      if n > CHUNK_SIZE + OVERHEAD {
        failed := true;
        return Some(BadPassphrase);
      }
      if |input| < 4 + n {
        failed := true;
        return Some(Truncated);
      }
      var ct := input[4..4 + n];
      var nonce := ChunkNonce(prefix, counter);
      var pt := aead.open(nonce, ct, MORE);
      if pt.None? {
        pt := aead.open(nonce, ct, FINAL);
        if pt.None? {
          failed := true;
          return Some(BadPassphrase);
        }
        done := true;
        if |input| > 4 + n {
          failed := true;
          return Some(TrailingData);
        }
      }
      input := input[4 + n..];
      counter := Wrap32(counter + 1);
      plain := pt.value;
      end := None;
    }

    /**
     * Fills a buffer of `size` bytes. The first failure is reported after all plaintext before it
     * has been delivered; `done` is already set when trailing data is reported, so the contract
     * ends with the first failure.
     */
    method Read(size: nat) returns (data: Bytes, end: Option<End>)
      requires Valid()
      modifies this
      ensures end.None? ==>
                && Valid()
                && |data| <= size && (size > 0 ==> data != [])
                && old(Remaining()) == Prepend(data, Remaining())
      ensures end.Some? ==> data == [] && old(Remaining()) == Delivery([], end.value)
      ensures end == Some(Eof) ==> Valid() && Remaining() == old(Remaining())
      ensures end == Some(TrailingData) ==> done
    {
      while plain == []
        invariant Valid() && Remaining() == old(Remaining())
        decreases !done, |input|
      {
        if done {
          return [], Some(Eof);
        }
        var failure := Fill();
        if failure.Some? {
          return [], failure;
        }
      }
      var n := if size < |plain| then size else |plain|;
      data := plain[..n];
      plain := plain[n..];
      end := None;
    }

    /** A consumer that keeps reading with buffer sizes of its choosing until the first end. */
    method ReadAll() returns (out: Bytes, end: End)
      requires Valid()
      modifies this
      ensures Delivery(out, end) == old(Remaining())
    {
      out := [];
      while true
        invariant Valid() && Prepend(out, Remaining()) == old(Remaining())
        decreases |Remaining().plain|
      {
        var size: nat :| size > 0;
        var data, stop := Read(size);
        if stop.Some? {
          return out, stop.value;
        }
        out := out + data;
      }
    }
  }

  /** Checks the header and sets up a reader behind it. */
  method OpenContainer(gcm: (string, Salt) -> Aead, passphrase: string, input: Bytes)
    returns (r: Result<DecryptReader, HeaderError>)
    ensures match ParseHeader(input)
            case Err(e) => r == Err(e)
            case Ok((salt, prefix, rest)) =>
              && r.Ok? && fresh(r.value) && r.value.Valid()
              && r.value.Remaining() == Decode(gcm(passphrase, salt), prefix, 0, rest)
  {
    if |input| < |MAGIC| + 16 + 8 {
      return Err(ShortHeader);
    }
    if input[..|MAGIC|] != MAGIC {
      return Err(NotABackup);
    }
    var salt, prefix := input[|MAGIC|..|MAGIC| + 16], input[|MAGIC| + 16..|MAGIC| + 16 + 8];
    var reader := new DecryptReader(gcm(passphrase, salt), prefix, input[|MAGIC| + 16 + 8..]);
    r := Ok(reader);
  }

  // ---------------------------------------------------------------- the security argument

  /** A chunk list a writer can produce: at least one chunk, at most 2^32, none too long. */
  predicate Writable(chunks: seq<Bytes>) {
    && 1 <= |chunks| <= TWO_TO_THE_32
    && forall k :: 0 <= k < |chunks| ==> |chunks[k]| <= CHUNK_SIZE
  }

  ghost predicate SealedAs(a: Aead, prefix: Prefix, chunks: seq<Bytes>, k: nat, nonce: Bytes, ct: Bytes, ad: Byte)
    requires k < |chunks|
  {
    && nonce == ChunkNonce(prefix, Wrap32(k))
    && ct == Seal(a, prefix, k, chunks[k], Flag(chunks, k))
    && ad == Flag(chunks, k)
  }

  /** Chunk `k` opens to itself. */
  ghost predicate Opens(a: Aead, prefix: Prefix, chunks: seq<Bytes>, k: nat)
    requires k < |chunks|
  {
    a.open(ChunkNonce(prefix, Wrap32(k)), Seal(a, prefix, k, chunks[k], Flag(chunks, k)), Flag(chunks, k))
    == Some(chunks[k])
  }

  /** Whatever opens was sealed as one of the chunks. */
  ghost predicate Authentic(a: Aead, prefix: Prefix, chunks: seq<Bytes>) {
    forall nonce, ct, ad :: a.open(nonce, ct, ad).Some? ==>
      exists k :: 0 <= k < |chunks| && SealedAs(a, prefix, chunks, k, nonce, ct, ad)
  }

  /**
   * Ideal AEAD: `open` succeeds exactly on the tuples the writer of this container sealed. The key
   * is derived from a salt drawn per container, so no other container was sealed under it.
   */
  ghost predicate Ideal(a: Aead, prefix: Prefix, chunks: seq<Bytes>) {
    && (forall nonce, chunk, ad :: |a.seal(nonce, chunk, ad)| == |chunk| + OVERHEAD)
    && (forall k :: 0 <= k < |chunks| ==> Opens(a, prefix, chunks, k))
    && Authentic(a, prefix, chunks)
  }

  /** The tuple sealed for chunk `k` when sealing only appends a blank tag. */
  ghost predicate Tagged(prefix: Prefix, chunks: seq<Bytes>, k: nat, nonce: Bytes, ct: Bytes, ad: Byte)
    requires k < |chunks|
  {
    nonce == ChunkNonce(prefix, Wrap32(k)) && ct == chunks[k] + seq(OVERHEAD, _ => 0) && ad == Flag(chunks, k)
  }

  /** The idealisation is consistent: for every chunk list some AEAD behaves so. */
  lemma IdealExists(prefix: Prefix, chunks: seq<Bytes>)
    ensures exists a :: Ideal(a, prefix, chunks)
  {
    hide Wrap32, ChunkNonce;
    var a := Aead(
      (nonce: Bytes, chunk: Bytes, ad: Byte) => chunk + seq(OVERHEAD, _ => 0),
      (nonce: Bytes, ct: Bytes, ad: Byte) =>
        if |ct| >= OVERHEAD && exists k :: 0 <= k < |chunks| && Tagged(prefix, chunks, k, nonce, ct, ad)
        then Some(ct[..|ct| - OVERHEAD]) else None);
    forall k | 0 <= k < |chunks|
      ensures Opens(a, prefix, chunks, k)
    {
      var ct := chunks[k] + seq(OVERHEAD, _ => 0);
      assert Tagged(prefix, chunks, k, ChunkNonce(prefix, Wrap32(k)), ct, Flag(chunks, k));
      assert ct[..|ct| - OVERHEAD] == chunks[k];
    }
    forall nonce, ct, ad | a.open(nonce, ct, ad).Some?
      ensures exists k :: 0 <= k < |chunks| && SealedAs(a, prefix, chunks, k, nonce, ct, ad)
    {
      var k :| 0 <= k < |chunks| && Tagged(prefix, chunks, k, nonce, ct, ad);
      assert SealedAs(a, prefix, chunks, k, nonce, ct, ad);
    }
    assert Ideal(a, prefix, chunks);
  }

  lemma NonceInjective(prefix: Prefix, i: nat, j: nat)
    ensures ChunkNonce(prefix, Wrap32(i)) == ChunkNonce(prefix, Wrap32(j)) <==> Wrap32(i) == Wrap32(j)
  {
    var a, b := ChunkNonce(prefix, Wrap32(i)), ChunkNonce(prefix, Wrap32(j));
    assert a[8..] == BigEndian32(Wrap32(i)) && b[8..] == BigEndian32(Wrap32(j));
  }

  /** A container's nonces are pairwise distinct exactly as long as it has at most 2^32 chunks. */
  lemma NoncesDistinctIff(prefix: Prefix, chunks: nat)
    ensures (forall i: nat, j: nat :: i < j < chunks ==>
               ChunkNonce(prefix, Wrap32(i)) != ChunkNonce(prefix, Wrap32(j)))
            <==> chunks <= TWO_TO_THE_32
  {
    forall i: nat, j: nat | i < j < chunks
      ensures ChunkNonce(prefix, Wrap32(i)) == ChunkNonce(prefix, Wrap32(j)) <==> Wrap32(i) == Wrap32(j)
    {
      NonceInjective(prefix, i, j);
    }
    if chunks > TWO_TO_THE_32 {
      assert Wrap32(0) == Wrap32(TWO_TO_THE_32);
    }
  }

  /** At chunk `k`, a ciphertext that opens is the writer's own chunk `k`. */
  lemma OpensOnlyOwnChunk(a: Aead, prefix: Prefix, chunks: seq<Bytes>, k: nat, ct: Bytes, ad: Byte)
    requires Writable(chunks) && Ideal(a, prefix, chunks) && k < |chunks|
    requires a.open(ChunkNonce(prefix, Wrap32(k)), ct, ad).Some?
    ensures SealedAs(a, prefix, chunks, k, ChunkNonce(prefix, Wrap32(k)), ct, ad)
    ensures a.open(ChunkNonce(prefix, Wrap32(k)), ct, ad) == Some(chunks[k])
  {
    var nonce := ChunkNonce(prefix, Wrap32(k));
    var i :| 0 <= i < |chunks| && SealedAs(a, prefix, chunks, i, nonce, ct, ad);
    NonceInjective(prefix, i, k);
    assert Opens(a, prefix, chunks, k);
  }

  /** The writer's own frame `k` is read back as chunk `k`. */
  lemma ReadsOwnFrame(a: Aead, prefix: Prefix, chunks: seq<Bytes>, k: nat, rest: Bytes)
    requires Writable(chunks) && Ideal(a, prefix, chunks) && k < |chunks|
    ensures NextChunk(a, prefix, Wrap32(k), Frame(a, prefix, k, chunks[k], Flag(chunks, k)) + rest) ==
            if k + 1 < |chunks| then More(chunks[k], rest)
            else if rest == [] then Last(chunks[k]) else Fail(TrailingData)
  {
    var nonce, sealed := ChunkNonce(prefix, Wrap32(k)), Seal(a, prefix, k, chunks[k], Flag(chunks, k));
    var input := Frame(a, prefix, k, chunks[k], Flag(chunks, k)) + rest;
    assert Opens(a, prefix, chunks, k);
    assert |sealed| == |chunks[k]| + OVERHEAD;
    assert input[..4] == BigEndian32(|sealed|) && input[4..4 + |sealed|] == sealed && input[4 + |sealed|..] == rest;
    if k + 1 == |chunks| && a.open(nonce, sealed, MORE).Some? {
      OpensOnlyOwnChunk(a, prefix, chunks, k, sealed, MORE);
    }
  }

  /** A stream whose next frame opens starts with the writer's own frame `k`. */
  lemma OpenedFrameIsOwn(a: Aead, prefix: Prefix, chunks: seq<Bytes>, k: nat, input: Bytes)
    requires Writable(chunks) && Ideal(a, prefix, chunks) && k < |chunks|
    ensures var own := Frame(a, prefix, k, chunks[k], Flag(chunks, k));
            match NextChunk(a, prefix, Wrap32(k), input)
            case More(chunk, rest) => k + 1 < |chunks| && chunk == chunks[k] && input == own + rest
            case Last(chunk) => k + 1 == |chunks| && chunk == chunks[k] && input == own
            case Fail(_) => true
  {
    var s := NextChunk(a, prefix, Wrap32(k), input);
    if !s.Fail? {
      var n := FromBigEndian32(input[..4]);
      var ct := input[4..4 + n];
      BigEndian32Onto(input[..4]);
      OpensOnlyOwnChunk(a, prefix, chunks, k, ct, if s.More? then MORE else FINAL);
      assert input == input[..4] + ct + input[4 + n..];
    }
  }

  /** Reading one frame succeeds with chunk `k`, or shows that the stream is not the writer's. */
  lemma StepAt(a: Aead, prefix: Prefix, chunks: seq<Bytes>, k: nat, input: Bytes)
    requires Writable(chunks) && Ideal(a, prefix, chunks) && k < |chunks|
    ensures var body := Body(a, prefix, chunks, k);
            match NextChunk(a, prefix, Wrap32(k), input)
            case More(chunk, rest) =>
              && k + 1 < |chunks| && chunk == chunks[k]
              && (input == body <==> rest == Body(a, prefix, chunks, k + 1))
            case Last(chunk) => k + 1 == |chunks| && chunk == chunks[k] && input == body
            case Fail(_) => input != body
  {
    var own := Frame(a, prefix, k, chunks[k], Flag(chunks, k));
    var tail := Body(a, prefix, chunks, k + 1);
    OpenedFrameIsOwn(a, prefix, chunks, k, input);
    ReadsOwnFrame(a, prefix, chunks, k, tail);
    assert (own + tail)[|own|..] == tail;
    assert k + 1 == |chunks| ==> own + tail == own;
    var s := NextChunk(a, prefix, Wrap32(k), input);
    assert s.More? ==> input[|own|..] == s.rest;
  }

  lemma {:induction false} DecodeFrom(a: Aead, prefix: Prefix, chunks: seq<Bytes>, k: nat, input: Bytes)
    requires Writable(chunks) && Ideal(a, prefix, chunks) && k < |chunks|
    ensures var d := Decode(a, prefix, Wrap32(k), input);
            && d.plain <= Flatten(chunks[k..])
            && (d.end == Eof <==> input == Body(a, prefix, chunks, k))
            && (d.end == Eof ==> d.plain == Flatten(chunks[k..]))
    decreases |chunks| - k
  {
    hide Ideal, NextChunk, BigEndian32, FromBigEndian32, Wrap32;
    Wrap32Succ(k);
    StepAt(a, prefix, chunks, k, input);
    assert chunks[k..][1..] == chunks[k + 1..];
    var s := NextChunk(a, prefix, Wrap32(k), input);
    if s.More? {
      DecodeFrom(a, prefix, chunks, k + 1, s.rest);
    }
  }

  /**
   * Whatever bytes follow the right header, what is delivered before the first error is a prefix of
   * the original plaintext, and delivery ends without error for exactly the container the writer
   * emitted: every truncation, reordering, duplication, splice or extension is an error.
   */
  lemma AnyStream(a: Aead, salt: Salt, prefix: Prefix, plain: Bytes, input: Bytes, rest: Bytes)
    requires |Split(plain)| <= TWO_TO_THE_32 && Ideal(a, prefix, Split(plain))
    requires ParseHeader(input) == Ok((salt, prefix, rest))
    ensures var d := Decode(a, prefix, 0, rest);
            && d.plain <= plain
            && (d.end == Eof <==> input == Container(a, salt, prefix, plain))
            && (d.end == Eof ==> d.plain == plain)
  {
    HeaderRoundTrip(input, salt, prefix, rest);
    HeaderRoundTrip(input, salt, prefix, Body(a, prefix, Split(plain), 0));
    DecodeFrom(a, prefix, Split(plain), 0, rest);
  }
}
