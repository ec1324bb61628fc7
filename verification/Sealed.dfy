/**
 The sealed stream: a header and a row of AEAD frames with a counter nonce and a last-frame flag
 (internal/kernel/sealed/sealed.go).

 The AEAD is a parameter: a pair of functions with the interface of sections 2.1 and 2.2 of
 RFC 5116. What is assumed of it is written out as a predicate and shown to be satisfiable.
 */
module Sealed {
  import opened Basics

  const FRAME := 64 * 1024
  const TAG := 16
  const SALT := 16
  const KEY_BYTES := 32
  const VERSION: Byte := 1
  const MAGIC: Bytes := [77, 83, 66, 75]
  const TWO_64 := 0x1_0000_0000_0000_0000

  // ----- nonces -----

  function BigEndian(n: nat, width: nat): Bytes {
    if width == 0 then [] else BigEndian(n / 256, width - 1) + [n % 256]
  }

  function FromBigEndian(b: Bytes): nat {
    if b == [] then 0 else FromBigEndian(b[..|b| - 1]) * 256 + b[|b| - 1]
  }

  /** The frame counter is a uint64: it wraps. */
  function NonceFor(frame: nat): Bytes {
    [0, 0, 0, 0] + BigEndian(frame % TWO_64, 8)
  }

  lemma {:induction false} BigEndianInverts(n: nat, width: nat, bound: nat)
    requires bound == Pow256(width) && n < bound
    ensures |BigEndian(n, width)| == width && FromBigEndian(BigEndian(n, width)) == n
  {
    if width > 0 {
      BigEndianInverts(n / 256, width - 1, Pow256(width - 1));
      assert BigEndian(n, width)[..width - 1] == BigEndian(n / 256, width - 1);
    }
  }

  function Pow256(width: nat): nat {
    if width == 0 then 1 else 256 * Pow256(width - 1)
  }

  lemma Pow256Of8()
    ensures Pow256(8) == TWO_64
  {
    assert Pow256(2) == 0x1_0000 && Pow256(4) == 0x1_0000_0000;
    assert Pow256(6) == 0x1_0000_0000_0000;
  }

  /** Two frames of one stream share a nonce exactly when they are a multiple of 2^64 apart. */
  lemma NoncesRepeatIff(i: nat, j: nat)
    ensures |NonceFor(i)| == 12
    ensures NonceFor(i) == NonceFor(j) <==> i % TWO_64 == j % TWO_64
  {
    Pow256Of8();
    BigEndianInverts(i % TWO_64, 8, TWO_64);
    BigEndianInverts(j % TWO_64, 8, TWO_64);
    assert NonceFor(i)[4..] == BigEndian(i % TWO_64, 8);
    assert NonceFor(j)[4..] == BigEndian(j % TWO_64, 8);
  }

  // ----- the cipher -----

  /** An AEAD under one key: nonce, plaintext or ciphertext, associated byte. */
  datatype Aead = Aead(seal: (Bytes, Bytes, Byte) -> Bytes, open: (Bytes, Bytes, Byte) -> Option<Bytes>)

  /** The same, addressed by frame number. */
  datatype Cipher = Cipher(seal: (nat, Bytes, Byte) -> Bytes, open: (nat, Bytes, Byte) -> Option<Bytes>)

  function ByFrame(a: Aead): Cipher {
    Cipher((frame, plain, flag) => a.seal(NonceFor(frame), plain, flag),
           (frame, c, flag) => a.open(NonceFor(frame), c, flag))
  }

  /** What was sealed opens again under the same nonce and flag, and grows by the tag. */
  ghost predicate CorrectAead(a: Aead) {
    forall nonce: Bytes, plain: Bytes, flag: Byte ::
      && |a.seal(nonce, plain, flag)| == |plain| + TAG
      && a.open(nonce, a.seal(nonce, plain, flag), flag) == Some(plain)
  }

  ghost predicate Correct(a: Cipher) {
    forall frame: nat, plain: Bytes, flag: Byte ::
      && |a.seal(frame, plain, flag)| == |plain| + TAG
      && a.open(frame, a.seal(frame, plain, flag), flag) == Some(plain)
  }

  lemma ByFrameIsCorrect(a: Aead)
    requires CorrectAead(a)
    ensures Correct(ByFrame(a))
  {
    forall frame: nat, plain: Bytes, flag: Byte
      ensures |ByFrame(a).seal(frame, plain, flag)| == |plain| + TAG
      ensures ByFrame(a).open(frame, ByFrame(a).seal(frame, plain, flag), flag) == Some(plain)
    {
      assert ByFrame(a).seal(frame, plain, flag) == a.seal(NonceFor(frame), plain, flag);
    }
  }

  // ----- sealing -----

  function FrameCount(p: Bytes): nat {
    |p| / FRAME + 1
  }

  /** The plaintext of frame `i`; the last one is what is left, always less than a full frame. */
  function Chunk(p: Bytes, i: nat): Bytes
    requires i < FrameCount(p)
  {
    if i + 1 == FrameCount(p) then p[i * FRAME..] else p[i * FRAME..(i + 1) * FRAME]
  }

  function Flag(p: Bytes, i: nat): Byte {
    if i + 1 == FrameCount(p) then 1 else 0
  }

  /** The frames of `p`, numbered from `i`. */
  function Frames(a: Cipher, p: Bytes, i: nat): Bytes
    decreases |p|
  {
    if |p| < FRAME then a.seal(i, p, 1)
    else a.seal(i, p[..FRAME], 0) + Frames(a, p[FRAME..], i + 1)
  }

  function Header(salt: Bytes): Bytes {
    MAGIC + [VERSION] + salt
  }

  function SealedStream(a: Cipher, salt: Bytes, p: Bytes): Bytes {
    Header(salt) + Frames(a, p, 0)
  }

  /**
   Seals what the source yields before it ends. A source that breaks instead of ending still gets
   a final frame; only the returned error tells the two apart.
   */
  method Seal(src: Bytes, breaks: bool, salt: Bytes, a: Cipher) returns (dst: Bytes, total: nat, ok: bool)
    ensures dst == SealedStream(a, salt, src)
    ensures total == |src| && ok == !breaks
  {
    dst := Header(salt);
    total := 0;
    var frame, pos := 0, 0;
    while true
      invariant pos <= |src| && total == pos
      invariant dst + Frames(a, src[pos..], frame) == SealedStream(a, salt, src)
      decreases |src| - pos
    {
      var read := Min(FRAME, |src| - pos);
      var last := read < FRAME;
      var plain := src[pos..pos + read];
      if read > 0 || last {
        var flag: Byte := if last then 1 else 0;
        assert src[pos..][..read] == plain && src[pos..][read..] == src[pos + read..];
        assert last ==> src[pos..] == plain;
        dst := dst + a.seal(frame, plain, flag);
        total := total + read;
        frame := frame + 1;
        pos := pos + read;
      }
      if last {
        return dst, total, !breaks;
      }
    }
  }

  // ----- opening -----

  datatype End = Eof | Truncated | Corrupt | BadVersion

  /** Everything the opener delivers from `s`, starting at frame `i`, and how it ends. */
  function Opened(a: Cipher, s: Bytes, i: nat): (Bytes, End)
    decreases |s|
  {
    if |s| < TAG then ([], Truncated)
    else if |s| < FRAME + TAG then
      match a.open(i, s, 1)
      case None => ([], Corrupt)
      case Some(plain) => (plain, Eof)
    else
      var c := s[..FRAME + TAG];
      match a.open(i, c, 0)
      case Some(plain) =>
        var (rest, end) := Opened(a, s[FRAME + TAG..], i + 1);
        (plain + rest, end)
      case None =>
        match a.open(i, c, 1)
        case None => ([], Corrupt)
        case Some(plain) => (plain, Eof)
  }

  /** Opening what was sealed yields the plaintext and then the end, for every plaintext. */
  lemma {:induction false} RoundTrip(a: Cipher, p: Bytes, i: nat)
    requires Correct(a)
    ensures Opened(a, Frames(a, p, i), i) == (p, Eof)
    decreases |p|
  {
    var s := Frames(a, p, i);
    if |p| < FRAME {
      assert a.open(i, s, 1) == Some(p);
    } else {
      var first := a.seal(i, p[..FRAME], 0);
      assert s[..FRAME + TAG] == first;
      assert s[FRAME + TAG..] == Frames(a, p[FRAME..], i + 1);
      assert a.open(i, first, 0) == Some(p[..FRAME]);
      RoundTrip(a, p[FRAME..], i + 1);
      assert p == p[..FRAME] + p[FRAME..];
    }
  }

  // ----- authenticity -----

  /** `c` is frame `j` of the one stream sealed under this key. */
  ghost predicate Genuine(a: Aead, p: Bytes, j: nat, nonce: Bytes, c: Bytes, flag: Byte) {
    && j < FrameCount(p)
    && nonce == NonceFor(j)
    && flag == Flag(p, j)
    && c == a.seal(nonce, Chunk(p, j), flag)
  }

  /**
   The ideal AEAD of a key that sealed `p` and nothing else (every stream draws its own salt and
   so its own key): exactly the frames of `p` open.
   */
  ghost predicate IdealAead(a: Aead, p: Bytes) {
    && (forall nonce: Bytes, plain: Bytes, flag: Byte :: |a.seal(nonce, plain, flag)| == |plain| + TAG)
    && (forall j, nonce, c, flag | Genuine(a, p, j, nonce, c, flag) :: a.open(nonce, c, flag) == Some(Chunk(p, j)))
    && (forall nonce, c, flag | a.open(nonce, c, flag).Some? :: exists j :: Genuine(a, p, j, nonce, c, flag))
  }

  /** Frame `i` of `p` opens to its plaintext, and nothing else opens in its place. */
  ghost predicate Ideal(a: Cipher, p: Bytes) {
    && (forall frame: nat, plain: Bytes, flag: Byte :: |a.seal(frame, plain, flag)| == |plain| + TAG)
    && (forall i: nat, c: Bytes, flag: Byte | i < FrameCount(p) ::
          a.open(i, c, flag) ==
          if flag == Flag(p, i) && c == a.seal(i, Chunk(p, i), flag) then Some(Chunk(p, i)) else None)
  }

  /** The counter never wraps within `p`. */
  ghost predicate FitsCounter(p: Bytes) {
    FrameCount(p) <= TWO_64
  }

  lemma NoncesDiffer(p: Bytes, i: nat, j: nat)
    requires FitsCounter(p) && i < FrameCount(p) && j < FrameCount(p)
    ensures NonceFor(i) == NonceFor(j) ==> i == j
  {
    NoncesRepeatIff(i, j);
  }

  /** Because the counter does not wrap, nonces tell the frames apart. */
  lemma ByFrameIsIdeal(a: Aead, p: Bytes)
    requires IdealAead(a, p) && FitsCounter(p)
    ensures Ideal(ByFrame(a), p)
  {
    forall frame: nat, plain: Bytes, flag: Byte
      ensures |ByFrame(a).seal(frame, plain, flag)| == |plain| + TAG
    {
      assert ByFrame(a).seal(frame, plain, flag) == a.seal(NonceFor(frame), plain, flag);
    }
    forall i: nat, c: Bytes, flag: Byte | i < FrameCount(p)
      ensures ByFrame(a).open(i, c, flag) ==
              if flag == Flag(p, i) && c == ByFrame(a).seal(i, Chunk(p, i), flag) then Some(Chunk(p, i)) else None
    {
      if flag == Flag(p, i) && c == a.seal(NonceFor(i), Chunk(p, i), flag) {
        assert Genuine(a, p, i, NonceFor(i), c, flag);
      } else if a.open(NonceFor(i), c, flag).Some? {
        var j :| Genuine(a, p, j, NonceFor(i), c, flag);
        NoncesDiffer(p, i, j);
        assert false;
      }
    }
  }

  ghost predicate WholeFramesOf(delivered: Bytes, p: Bytes) {
    exists k: nat :: k * FRAME <= |p| && delivered == p[..k * FRAME]
  }

  /** The end is reached exactly on the genuine stream; otherwise whole leading frames and an error. */
  ghost predicate Judged(got: (Bytes, End), p: Bytes, genuine: bool) {
    && (got.1 == Eof <==> genuine)
    && (if genuine then got.0 == p else WholeFramesOf(got.0, p))
  }

  lemma OneMoreFrame(delivered: Bytes, rest: Bytes)
    requires |rest| >= FRAME && WholeFramesOf(delivered, rest[FRAME..])
    ensures WholeFramesOf(rest[..FRAME] + delivered, rest)
  {
    var k: nat :| k * FRAME <= |rest[FRAME..]| && delivered == rest[FRAME..][..k * FRAME];
    assert rest[..FRAME] + delivered == rest[..(k + 1) * FRAME];
  }

  lemma SameHead(head: Bytes, s: Bytes, tail: Bytes)
    requires |head| <= |s| && s[..|head|] == head
    ensures s == head + tail <==> s[|head|..] == tail
  {
    assert s == head + s[|head|..];
    assert (head + tail)[|head|..] == tail;
  }

  /** A stream whose first full frame is not the genuine one is not the sealed stream. */
  lemma HeadDiffers(a: Cipher, rest: Bytes, i: nat, s: Bytes)
    requires |s| >= FRAME + TAG
    requires forall plain, flag :: |a.seal(i, plain, flag)| == |plain| + TAG
    requires |rest| >= FRAME ==> s[..FRAME + TAG] != a.seal(i, rest[..FRAME], 0)
    ensures s != Frames(a, rest, i)
  {
    if |rest| >= FRAME {
      var first := a.seal(i, rest[..FRAME], 0);
      assert Frames(a, rest, i)[..FRAME + TAG] == first;
    }
  }

  /**
   Whatever stream is presented, the opener reaches the end exactly when it is, byte for byte, the
   one that was sealed. Anything else ends in an error after whole leading frames only.
   */
  lemma {:induction false} OnlyTheSealedStreamEnds(a: Cipher, p: Bytes, i: nat, s: Bytes)
    requires Ideal(a, p) && i < FrameCount(p)
    ensures
      var rest := p[i * FRAME..];
      Judged(Opened(a, s, i), rest, s == Frames(a, rest, i))
    decreases |s|
  {
    var rest := p[i * FRAME..];
    var chunk := Chunk(p, i);
    assert chunk == if |rest| < FRAME then rest else rest[..FRAME];
    assert |Frames(a, rest, i)| >= TAG;
    assert WholeFramesOf([], rest) by { assert rest[..0 * FRAME] == []; }
    if TAG <= |s| < FRAME + TAG {
      assert a.open(i, s, 1).Some? <==> s == Frames(a, rest, i);
    } else if FRAME + TAG <= |s| {
      var c := s[..FRAME + TAG];
      assert a.open(i, c, 1).None?;
      if a.open(i, c, 0).Some? {
        OnlyTheSealedStreamEnds(a, p, i + 1, s[FRAME + TAG..]);
        assert rest[FRAME..] == p[(i + 1) * FRAME..];
        SameHead(c, s, Frames(a, rest[FRAME..], i + 1));
        if Opened(a, s, i).1 != Eof {
          OneMoreFrame(Opened(a, s[FRAME + TAG..], i + 1).0, rest);
        } else {
          assert rest == chunk + rest[FRAME..];
        }
      } else {
        HeadDiffers(a, rest, i, s);
      }
    }
  }

  // ----- the whole stream, header included -----

  /** Frame keys are derived from a key and a salt (section 2 of RFC 5869). */
  type Derive = (Bytes, Bytes) -> Aead

  function Unsealed(derive: Derive, key: Bytes, s: Bytes): (Bytes, End) {
    var start := |MAGIC| + 1 + SALT;
    if |s| < start then ([], Truncated)
    else if s[..|MAGIC|] != MAGIC then ([], Corrupt)
    else if s[|MAGIC|] != VERSION then ([], BadVersion)
    else Opened(ByFrame(derive(key, s[|MAGIC| + 1..start])), s[start..], 0)
  }

  lemma HeaderReads(salt: Bytes, body: Bytes)
    requires |salt| == SALT
    ensures
      var s := Header(salt) + body;
      && s[..|MAGIC|] == MAGIC && s[|MAGIC|] == VERSION
      && s[|MAGIC| + 1..|MAGIC| + 1 + SALT] == salt && s[|MAGIC| + 1 + SALT..] == body
  {
  }

  lemma HeaderSplits(s: Bytes)
    requires |s| >= |MAGIC| + 1 + SALT && s[..|MAGIC|] == MAGIC && s[|MAGIC|] == VERSION
    ensures s == Header(s[|MAGIC| + 1..|MAGIC| + 1 + SALT]) + s[|MAGIC| + 1 + SALT..]
  {
  }

  function SealedUnder(derive: Derive, key: Bytes, salt: Bytes, p: Bytes): Bytes {
    SealedStream(ByFrame(derive(key, salt)), salt, p)
  }

  lemma StreamRoundTrip(derive: Derive, key: Bytes, salt: Bytes, p: Bytes)
    requires |salt| == SALT && CorrectAead(derive(key, salt))
    ensures Unsealed(derive, key, SealedUnder(derive, key, salt, p)) == (p, Eof)
  {
    var a := ByFrame(derive(key, salt));
    HeaderReads(salt, Frames(a, p, 0));
    ByFrameIsCorrect(derive(key, salt));
    RoundTrip(a, p, 0);
  }

  /**
   All the streams a key has sealed, by their salts: under each salt exactly the frames of its own
   plaintext open, and under any other nothing does.
   */
  ghost predicate SealedEach(derive: Derive, key: Bytes, streams: map<Bytes, Bytes>) {
    && (forall salt | salt in streams ::
          |salt| == SALT && FitsCounter(streams[salt]) && IdealAead(derive(key, salt), streams[salt]))
    && (forall other | other !in streams :: OpensNothing(ByFrame(derive(key, other))))
  }

  /** `s` is, byte for byte, one of the streams the key has sealed. */
  ghost predicate IsSealed(derive: Derive, key: Bytes, streams: map<Bytes, Bytes>, s: Bytes) {
    exists salt :: salt in streams && s == SealedUnder(derive, key, salt, streams[salt])
  }

  /** What was sealed under the salt that `s` carries; nothing if its header is bad or nothing was. */
  function Claimed(streams: map<Bytes, Bytes>, s: Bytes): Bytes {
    var start := |MAGIC| + 1 + SALT;
    if |s| >= start && s[..|MAGIC|] == MAGIC && s[|MAGIC|] == VERSION && s[|MAGIC| + 1..start] in streams then
      streams[s[|MAGIC| + 1..start]]
    else []
  }

  ghost predicate OpensNothing(a: Cipher) {
    forall nonce, c, flag :: a.open(nonce, c, flag).None?
  }

  lemma NothingOpens(a: Cipher, s: Bytes, p: Bytes)
    requires OpensNothing(a)
    ensures Judged(Opened(a, s, 0), p, false)
  {
    NoFrames(p);
  }

  lemma SameSalt(a: Cipher, salt: Bytes, p: Bytes, body: Bytes)
    requires |salt| == SALT && Ideal(a, p)
    ensures Judged(Opened(a, body, 0), p, Header(salt) + body == SealedStream(a, salt, p))
  {
    assert p[0 * FRAME..] == p;
    OnlyTheSealedStreamEnds(a, p, 0, body);
    HeaderReads(salt, body);
    HeaderReads(salt, Frames(a, p, 0));
  }

  lemma SealedCarriesItsSalt(derive: Derive, key: Bytes, streams: map<Bytes, Bytes>, s: Bytes, salt: Bytes)
    requires salt in streams && |salt| == SALT && s == SealedUnder(derive, key, salt, streams[salt])
    ensures
      var start := |MAGIC| + 1 + SALT;
      |s| >= start && s[..|MAGIC|] == MAGIC && s[|MAGIC|] == VERSION && s[|MAGIC| + 1..start] == salt
  {
    HeaderReads(salt, Frames(ByFrame(derive(key, salt)), streams[salt], 0));
  }

  /**
   However many streams a key has sealed, the end is reached exactly on one of them; anything else,
   cut, changed, or put together from several, ends in an error after whole leading frames of the
   one plaintext whose salt it carries.
   */
  lemma TamperingIsSeen(derive: Derive, key: Bytes, streams: map<Bytes, Bytes>, s: Bytes)
    requires SealedEach(derive, key, streams)
    ensures Judged(Unsealed(derive, key, s), Claimed(streams, s), IsSealed(derive, key, streams, s))
  {
    forall salt | salt in streams && s == SealedUnder(derive, key, salt, streams[salt])
      ensures
        var start := |MAGIC| + 1 + SALT;
        |s| >= start && s[..|MAGIC|] == MAGIC && s[|MAGIC|] == VERSION && s[|MAGIC| + 1..start] == salt
    {
      SealedCarriesItsSalt(derive, key, streams, s, salt);
    }
    var start := |MAGIC| + 1 + SALT;
    if |s| >= start && s[..|MAGIC|] == MAGIC && s[|MAGIC|] == VERSION {
      var seen, body := s[|MAGIC| + 1..start], s[start..];
      HeaderSplits(s);
      if seen in streams {
        ByFrameIsIdeal(derive(key, seen), streams[seen]);
        SameSalt(ByFrame(derive(key, seen)), seen, streams[seen], body);
        assert IsSealed(derive, key, streams, s) <==> s == SealedUnder(derive, key, seen, streams[seen]);
      } else {
        NothingOpens(ByFrame(derive(key, seen)), body, []);
      }
    } else {
      NoFrames([]);
    }
  }

  lemma NoFrames(p: Bytes)
    ensures WholeFramesOf([], p)
  {
    assert p[..0 * FRAME] == [];
  }

  function ToySeal(nonce: Bytes, plain: Bytes, flag: Byte): (c: Bytes)
    ensures |c| == |plain| + TAG
  {
    plain + if |nonce| == 12 then nonce + [flag, 0, 0, 0] else seq(TAG, _ => 255)
  }

  ghost function ToyOpen(p: Bytes, nonce: Bytes, c: Bytes, flag: Byte): Option<Bytes> {
    if exists j: nat :: ToyGenuine(p, j, nonce, c, flag) then
      var j: nat :| ToyGenuine(p, j, nonce, c, flag);
      Some(Chunk(p, j))
    else None
  }

  ghost predicate ToyGenuine(p: Bytes, j: nat, nonce: Bytes, c: Bytes, flag: Byte) {
    j < FrameCount(p) && nonce == NonceFor(j) && flag == Flag(p, j) && c == ToySeal(nonce, Chunk(p, j), flag)
  }

  /** The assumption is not empty: such an AEAD exists for every plaintext. */
  lemma AnIdealAeadExists(p: Bytes)
    requires FitsCounter(p)
    ensures IdealAead(ToyAead(Some(p)), p)
  {
    var a := ToyAead(Some(p));
    forall j, nonce, c, flag | Genuine(a, p, j, nonce, c, flag)
      ensures a.open(nonce, c, flag) == Some(Chunk(p, j))
    {
      assert ToyGenuine(p, j, nonce, c, flag);
      var k: nat :| ToyGenuine(p, k, nonce, c, flag) && ToyOpen(p, nonce, c, flag) == Some(Chunk(p, k));
      NoncesDiffer(p, j, k);
    }
    forall nonce, c, flag | a.open(nonce, c, flag).Some?
      ensures exists j :: Genuine(a, p, j, nonce, c, flag)
    {
      var k: nat :| ToyGenuine(p, k, nonce, c, flag);
      assert Genuine(a, p, k, nonce, c, flag);
    }
  }

  /** The AEAD of a derived key that sealed `p`, or nothing. */
  ghost function ToyAead(p: Option<Bytes>): Aead {
    Aead(ToySeal,
      (nonce: Bytes, c: Bytes, flag: Byte) => if p.Some? then ToyOpen(p.value, nonce, c, flag) else None)
  }

  /** Nor is the one about all streams of a key: any streams under salts of their own can be what it sealed. */
  lemma SealedEachExists(streams: map<Bytes, Bytes>) returns (derive: Derive)
    requires forall salt | salt in streams :: |salt| == SALT && FitsCounter(streams[salt])
    ensures forall key :: SealedEach(derive, key, streams)
  {
    derive := (key: Bytes, salt: Bytes) => ToyAead(Lookup(streams, salt));
    forall salt | salt in streams ensures IdealAead(ToyAead(Lookup(streams, salt)), streams[salt]) {
      AnIdealAeadExists(streams[salt]);
    }
  }

  // ----- what a cut is reported as -----

  /** What of `p` a stream cut after `n` bytes of its frames still gives, and how that is reported. */
  function CutAt(p: Bytes, n: nat): (Bytes, End) {
    (p[..Min(n / (FRAME + TAG) * FRAME, |p|)], if n % (FRAME + TAG) < TAG then Truncated else Corrupt)
  }

  lemma {:induction false} FramesAreLonger(a: Cipher, p: Bytes, i: nat)
    requires forall frame: nat, plain: Bytes, flag: Byte :: |a.seal(frame, plain, flag)| == |plain| + TAG
    ensures |Frames(a, p, i)| == |p| + FrameCount(p) * TAG
    decreases |p|
  {
    if |p| >= FRAME {
      FramesAreLonger(a, p[FRAME..], i + 1);
      assert FrameCount(p) == FrameCount(p[FRAME..]) + 1;
    }
  }

  lemma CutOneMore(p: Bytes, n: nat)
    requires |p| >= FRAME && n >= FRAME + TAG
    ensures
      var (rest, end) := CutAt(p[FRAME..], n - (FRAME + TAG));
      CutAt(p, n) == (p[..FRAME] + rest, end)
  {
    var m := n - (FRAME + TAG);
    assert n / (FRAME + TAG) == m / (FRAME + TAG) + 1 && n % (FRAME + TAG) == m % (FRAME + TAG);
    LongerPrefix(p, m / (FRAME + TAG));
  }

  lemma LongerPrefix(p: Bytes, k: nat)
    requires |p| >= FRAME
    ensures p[..Min((k + 1) * FRAME, |p|)] == p[..FRAME] + p[FRAME..][..Min(k * FRAME, |p| - FRAME)]
  {
    var rest, m := p[FRAME..], Min(k * FRAME, |p| - FRAME);
    assert p[..FRAME + m] == p[..FRAME] + rest[..m];
  }

  /**
   With a cipher that opens only what was sealed, a stream of frames cut anywhere short of its end gives
   exactly the frames before the cut, and then says that it is truncated if too little for a tag is
   left of the next one, and that it does not decrypt otherwise.
   */
  lemma {:induction false} CutIsTold(a: Cipher, p: Bytes, i: nat, n: nat)
    requires Ideal(a, p) && i < FrameCount(p) && n < |Frames(a, p[i * FRAME..], i)|
    ensures Opened(a, Frames(a, p[i * FRAME..], i)[..n], i) == CutAt(p[i * FRAME..], n)
    decreases n
  {
    var rest := p[i * FRAME..];
    var s := Frames(a, rest, i);
    assert Chunk(p, i) == if |rest| < FRAME then rest else rest[..FRAME];
    if n < FRAME + TAG {
      assert n / (FRAME + TAG) == 0;
      assert rest[..0] == [];
      assert TAG <= n ==> a.open(i, s[..n], 1).None?;
    } else {
      assert rest[FRAME..] == p[(i + 1) * FRAME..];
      CutBehindFirst(a, rest, i, n);
      CutIsTold(a, p, i + 1, n - (FRAME + TAG));
      CutOneMore(rest, n);
    }
  }

  /** Cut behind its first frame, a stream opens that frame and then what is left of the later ones. */
  lemma CutBehindFirst(a: Cipher, rest: Bytes, i: nat, n: nat)
    requires |rest| >= FRAME && FRAME + TAG <= n < |Frames(a, rest, i)|
    requires |a.seal(i, rest[..FRAME], 0)| == FRAME + TAG
    requires a.open(i, a.seal(i, rest[..FRAME], 0), 0) == Some(rest[..FRAME])
    ensures n - (FRAME + TAG) < |Frames(a, rest[FRAME..], i + 1)|
    ensures
      var (bytes, end) := Opened(a, Frames(a, rest[FRAME..], i + 1)[..n - (FRAME + TAG)], i + 1);
      Opened(a, Frames(a, rest, i)[..n], i) == (rest[..FRAME] + bytes, end)
  {
    var first, later := a.seal(i, rest[..FRAME], 0), Frames(a, rest[FRAME..], i + 1);
    var cut := Frames(a, rest, i)[..n];
    assert Frames(a, rest, i) == first + later;
    assert cut[..FRAME + TAG] == first && cut[FRAME + TAG..] == later[..n - (FRAME + TAG)];
  }

  /** The same of a whole stream: within its header, any cut is reported as a truncation. */
  lemma StreamCutIsTold(derive: Derive, key: Bytes, streams: map<Bytes, Bytes>, salt: Bytes, n: nat)
    requires SealedEach(derive, key, streams) && salt in streams
    requires n < |SealedUnder(derive, key, salt, streams[salt])|
    ensures Unsealed(derive, key, SealedUnder(derive, key, salt, streams[salt])[..n]) ==
      if n < |Header(salt)| then ([], Truncated) else CutAt(streams[salt], n - |Header(salt)|)
  {
    var p, a := streams[salt], ByFrame(derive(key, salt));
    var frames := Frames(a, p, 0);
    if n >= |Header(salt)| {
      var m := n - |Header(salt)|;
      assert SealedUnder(derive, key, salt, p)[..n] == Header(salt) + frames[..m];
      HeaderReads(salt, frames[..m]);
      ByFrameIsIdeal(derive(key, salt), p);
      assert p[0 * FRAME..] == p;
      CutIsTold(a, p, 0, m);
    }
  }

  lemma {:induction false} FramesHaveNoVersion(a: Cipher, s: Bytes, i: nat)
    ensures Opened(a, s, i).1 != BadVersion
    decreases |s|
  {
    if |s| >= FRAME + TAG {
      FramesHaveNoVersion(a, s[FRAME + TAG..], i + 1);
    }
  }

  /** A stream is of another version exactly if its header is whole, carries the magic and another number. */
  lemma VersionIsToldIff(derive: Derive, key: Bytes, s: Bytes)
    ensures Unsealed(derive, key, s).1 == BadVersion <==> |s| >= 21 && MAGIC <= s && s[4] != VERSION
    ensures |s| < 21 ==> Unsealed(derive, key, s) == ([], Truncated)
    ensures |s| >= 21 && !(MAGIC <= s) ==> Unsealed(derive, key, s) == ([], Corrupt)
  {
    if |s| >= 21 {
      FramesHaveNoVersion(ByFrame(derive(key, s[5..21])), s[21..], 0);
    }
  }

  // ----- reading through buffers of any size -----

  /** The opener's state: the unread source, the frame number, what is buffered, the last flag. */
  datatype Reading = Reading(src: Bytes, frame: nat, unread: Bytes, done: bool)

  /** Reads and opens one frame, as much of it as the source has. */
  function NextFrame(a: Cipher, r: Reading): (Reading, Option<End>) {
    var read := Min(|r.src|, FRAME + TAG);
    var c, src := r.src[..read], r.src[read..];
    if read < TAG then (r.(src := src), Some(Truncated))
    else
      var short := read < FRAME + TAG;
      var first := a.open(r.frame, c, if short then 1 else 0);
      var plain := if first.None? && !short then a.open(r.frame, c, 1) else first;
      if plain.None? then (r.(src := src), Some(Corrupt))
      else (Reading(src, r.frame + 1, plain.value, short || first.None?), None)
  }

  function Refilled(a: Cipher, r: Reading): (Reading, Option<End>)
    decreases |r.src|
  {
    if r.unread != [] then (r, None)
    else if r.done then (r, Some(Eof))
    else
      var (next, end) := NextFrame(a, r);
      if end.Some? then (next, end) else Refilled(a, next)
  }

  function ReadStep(a: Cipher, r: Reading, size: nat): (Reading, Bytes, Option<End>) {
    var (full, end) := Refilled(a, r);
    if end.Some? then (full, [], end)
    else
      var taken := Min(size, |full.unread|);
      (full.(unread := full.unread[taken..]), full.unread[..taken], None)
  }

  /** All that is still to come. */
  function Remaining(a: Cipher, r: Reading): (Bytes, End) {
    if r.done then (r.unread, Eof)
    else
      var (rest, end) := Opened(a, r.src, r.frame);
      (r.unread + rest, end)
  }

  lemma {:induction false} RefillKeepsRemaining(a: Cipher, r: Reading)
    ensures
      var (full, end) := Refilled(a, r);
      if end.Some? then Remaining(a, r) == ([], end.value)
      else full.unread != [] && Remaining(a, full) == Remaining(a, r)
    decreases |r.src|
  {
    if r.unread == [] && !r.done {
      var (next, end) := NextFrame(a, r);
      var read := Min(|r.src|, FRAME + TAG);
      assert read < FRAME + TAG ==> r.src[..read] == r.src;
      assert Remaining(a, r) == Opened(a, r.src, r.frame) by {
        assert [] + Opened(a, r.src, r.frame).0 == Opened(a, r.src, r.frame).0;
      }
      if end.None? {
        RefillKeepsRemaining(a, next);
      }
    }
  }

  /** One read hands over a part of what remains, and an end only when nothing remains. */
  lemma ReadKeepsRemaining(a: Cipher, r: Reading, size: nat)
    ensures
      var (next, data, end) := ReadStep(a, r, size);
      var (rest, last) := Remaining(a, next);
      if end.Some? then Remaining(a, r) == ([], end.value) && data == []
      else Remaining(a, r) == (data + rest, last) && |data| <= size && (size > 0 ==> data != [])
  {
    RefillKeepsRemaining(a, r);
    var (full, end) := Refilled(a, r);
    if end.None? {
      var taken := Min(size, |full.unread|);
      assert full.unread == full.unread[..taken] + full.unread[taken..];
      assert !full.done ==>
        var rest := Opened(a, full.src, full.frame).0;
        full.unread + rest == full.unread[..taken] + (full.unread[taken..] + rest);
    }
  }

  /** Reads with one buffer after another, stopping at the first end. */
  function ReadRun(a: Cipher, r: Reading, sizes: seq<nat>): (Bytes, Option<End>)
    decreases |sizes|
  {
    if sizes == [] then ([], None)
    else
      var (next, data, end) := ReadStep(a, r, sizes[0]);
      if end.Some? then ([], end)
      else
        var (rest, last) := ReadRun(a, next, sizes[1..]);
        (data + rest, last)
  }

  lemma {:induction false} ReadRunDelivers(a: Cipher, r: Reading, sizes: seq<nat>)
    requires forall i | 0 <= i < |sizes| :: sizes[i] > 0
    ensures
      var (data, end) := ReadRun(a, r, sizes);
      if end.Some? then Remaining(a, r) == (data, end.value)
      else data <= Remaining(a, r).0 && |data| >= |sizes|
    decreases |sizes|
  {
    if sizes != [] {
      var (next, data, end) := ReadStep(a, r, sizes[0]);
      ReadKeepsRemaining(a, r, sizes[0]);
      if end.None? {
        ReadRunDelivers(a, next, sizes[1..]);
      }
    }
  }

  function Fresh(body: Bytes): Reading {
    Reading(body, 0, [], false)
  }

  lemma FreshRemains(a: Cipher, p: Bytes)
    requires Correct(a)
    ensures Remaining(a, Fresh(Frames(a, p, 0))) == (p, Eof)
  {
    RoundTrip(a, p, 0);
    assert [] + p == p;
  }

  /** A prefix of `p`; all of it if the end was reached; the end within `|p| + 1` reads. */
  ghost predicate ReadsBack(got: (Bytes, Option<End>), p: Bytes, sizes: seq<nat>) {
    && got.0 <= p
    && (got.1.Some? ==> got == (p, Some(Eof)))
    && (|sizes| > |p| ==> got.1 == Some(Eof))
  }

  lemma ReaderReachesTheEnd(a: Cipher, r: Reading, p: Bytes, sizes: seq<nat>)
    requires Remaining(a, r) == (p, Eof) && forall i | 0 <= i < |sizes| :: sizes[i] > 0
    ensures ReadsBack(ReadRun(a, r, sizes), p, sizes)
  {
    ReadRunDelivers(a, r, sizes);
  }

  /**
   However the reader sizes its buffers, reading back a sealed stream gives the plaintext and then
   the end, after at most one read per byte and one more.
   */
  lemma EveryReaderSeesThePlaintext(a: Cipher, p: Bytes, sizes: seq<nat>)
    requires Correct(a) && forall i | 0 <= i < |sizes| :: sizes[i] > 0
    ensures ReadsBack(ReadRun(a, Fresh(Frames(a, p, 0)), sizes), p, sizes)
  {
    FreshRemains(a, p);
    ReaderReachesTheEnd(a, Fresh(Frames(a, p, 0)), p, sizes);
  }

  /** Opens any stream under the key and reads on: a bad header is an error before the first read. */
  function ReadStream(derive: Derive, key: Bytes, s: Bytes, sizes: seq<nat>): (Bytes, Option<End>) {
    var start := |MAGIC| + 1 + SALT;
    if |s| < start then ([], Some(Truncated))
    else if s[..|MAGIC|] != MAGIC then ([], Some(Corrupt))
    else if s[|MAGIC|] != VERSION then ([], Some(BadVersion))
    else ReadRun(ByFrame(derive(key, s[|MAGIC| + 1..start])), Fresh(s[start..]), sizes)
  }

  /** Whatever is read lies before the end of what the stream opens to, and an end comes only after all of it. */
  lemma StreamDelivers(derive: Derive, key: Bytes, s: Bytes, sizes: seq<nat>)
    requires forall i | 0 <= i < |sizes| :: sizes[i] > 0
    ensures
      var (data, end) := ReadStream(derive, key, s, sizes);
      if end.Some? then Unsealed(derive, key, s) == (data, end.value)
      else data <= Unsealed(derive, key, s).0 && |data| >= |sizes|
  {
    var start := |MAGIC| + 1 + SALT;
    if |s| >= start && s[..|MAGIC|] == MAGIC && s[|MAGIC|] == VERSION {
      var a, r := ByFrame(derive(key, s[|MAGIC| + 1..start])), Fresh(s[start..]);
      ReadRunDelivers(a, r, sizes);
      assert [] + Opened(a, s[start..], 0).0 == Opened(a, s[start..], 0).0;
    }
  }

  /** What a reader may be left with: only a part of `p`, and the end only if the stream is genuine. */
  ghost predicate SeenThrough(got: (Bytes, Option<End>), p: Bytes, genuine: bool, count: nat) {
    && got.0 <= p
    && (got.1 == Some(Eof) ==> genuine && got.0 == p)
    && (got.1.Some? && got.1 != Some(Eof) ==> !genuine && WholeFramesOf(got.0, p))
    && (count > |p| ==> got.1.Some?)
  }

  /**
   However the reader sizes its buffers and whatever stream it is given, it only ever gets leading
   bytes of the plaintext whose salt the stream carries, and is told the end only on exactly one of
   the streams the key has sealed; on any other it meets an error after whole frames, within one
   read more than the plaintext has bytes.
   */
  lemma EveryReaderSeesTampering(derive: Derive, key: Bytes, streams: map<Bytes, Bytes>, s: Bytes, sizes: seq<nat>)
    requires SealedEach(derive, key, streams) && forall i | 0 <= i < |sizes| :: sizes[i] > 0
    ensures
      SeenThrough(ReadStream(derive, key, s, sizes), Claimed(streams, s), IsSealed(derive, key, streams, s), |sizes|)
  {
    var p, genuine := Claimed(streams, s), IsSealed(derive, key, streams, s);
    TamperingIsSeen(derive, key, streams, s);
    StreamDelivers(derive, key, s, sizes);
    assert Unsealed(derive, key, s).0 <= p by {
      JudgedIsPrefix(Unsealed(derive, key, s), p, genuine);
    }
  }

  lemma JudgedIsPrefix(got: (Bytes, End), p: Bytes, genuine: bool)
    requires Judged(got, p, genuine)
    ensures got.0 <= p
  {
  }

  class Opener {
    const aead: Cipher
    var src: Bytes
    var frame: nat
    var unread: Bytes
    var done: bool

    constructor (aead: Cipher, body: Bytes)
      ensures this.aead == aead && State() == Fresh(body)
    {
      this.aead, src, frame, unread, done := aead, body, 0, [], false;
    }

    function State(): Reading
      reads this
    {
      Reading(src, frame, unread, done)
    }

    method Read(size: nat) returns (data: Bytes, end: Option<End>)
      modifies this
      ensures (State(), data, end) == ReadStep(aead, old(State()), size)
    {
      while |unread| == 0
        invariant Refilled(aead, State()) == Refilled(aead, old(State()))
        decreases |src|
      {
        if done {
          return [], Some(Eof);
        }
        var bad := Next();
        if bad.Some? {
          return [], bad;
        }
      }
      var taken := Min(size, |unread|);
      data, end := unread[..taken], None;
      unread := unread[taken..];
    }

    method Next() returns (bad: Option<End>)
      requires unread == [] && !done
      modifies this
      ensures (State(), bad) == NextFrame(aead, old(State()))
      ensures bad.None? ==> |src| < old(|src|)
    {
      var read := Min(|src|, FRAME + TAG);
      var c := src[..read];
      src := src[read..];
      if read < TAG {
        return Some(Truncated);
      }
      var short := read < FRAME + TAG;
      bad := Unseal(c, short);
      if bad.Some? && !short {
        bad := Unseal(c, true);
      }
    }

    method Unseal(c: Bytes, last: bool) returns (bad: Option<End>)
      modifies this
      ensures src == old(src)
      ensures
        var plain := aead.open(old(frame), c, if last then 1 else 0);
        if plain.None? then bad == Some(Corrupt) && State() == old(State())
        else bad == None && State() == Reading(src, old(frame) + 1, plain.value, last)
    {
      var flag: Byte := if last then 1 else 0;
      var plain := aead.open(frame, c, flag);
      if plain.None? {
        return Some(Corrupt);
      }
      frame, unread, done := frame + 1, plain.value, last;
      return None;
    }
  }
}
