/** Keys as text, and the ring that finds the key something was sealed with (internal/kernel/sealed/keyring.go). */
module Keyring {
  import opened Basics
  import Sealed

  type Key = Bytes

  // ----- hex -----

  function Digit(n: nat): char
    requires n < 16
  {
    "0123456789abcdef"[n]
  }

  function DigitValue(c: char): Option<nat> {
    if '0' <= c <= '9' then Some((c - '0') as nat)
    else if 'a' <= c <= 'f' then Some((c - 'a') as nat + 10)
    else if 'A' <= c <= 'F' then Some((c - 'A') as nat + 10)
    else None
  }

  function Hex(b: Bytes): string {
    if b == [] then "" else [Digit(b[0] / 16), Digit(b[0] % 16)] + Hex(b[1..])
  }

  function FromHex(s: string): Option<Bytes> {
    if s == "" then Some([])
    else if |s| == 1 || DigitValue(s[0]).None? || DigitValue(s[1]).None? || FromHex(s[2..]).None? then None
    else Some([ByteOf(DigitValue(s[0]).value, DigitValue(s[1]).value)] + FromHex(s[2..]).value)
  }

  function ByteOf(high: nat, low: nat): Byte {
    (16 * high + low) % 256
  }

  function LowerDigit(c: char): char {
    if 'A' <= c <= 'F' then c - 'A' + 'a' else c
  }

  function Lower(s: string): string {
    seq(|s|, i requires 0 <= i < |s| => LowerDigit(s[i]))
  }

  lemma DigitInverts(n: nat)
    requires n < 16
    ensures DigitValue(Digit(n)) == Some(n)
  {
  }

  lemma BytesSplit(b: Byte)
    ensures ByteOf(b / 16, b % 16) == b
  {
  }

  lemma ByteSplits(high: nat, low: nat)
    requires high < 16 && low < 16
    ensures ByteOf(high, low) / 16 == high && ByteOf(high, low) % 16 == low
  {
  }

  lemma FromHexOneMore(high: nat, low: nat, rest: string)
    requires high < 16 && low < 16 && FromHex(rest).Some?
    ensures FromHex([Digit(high), Digit(low)] + rest) == Some([ByteOf(high, low)] + FromHex(rest).value)
  {
    DigitInverts(high);
    DigitInverts(low);
    var s := [Digit(high), Digit(low)] + rest;
    assert s[2..] == rest && s[0] == Digit(high) && s[1] == Digit(low);
  }

  lemma {:induction false} HexRoundTrip(b: Bytes)
    ensures FromHex(Hex(b)) == Some(b)
  {
    if b != [] {
      HexRoundTrip(b[1..]);
      FromHexOneMore(b[0] / 16, b[0] % 16, Hex(b[1..]));
      BytesSplit(b[0]);
      assert b == [b[0]] + b[1..];
    }
  }

  lemma {:induction false} ReadIsHex(s: string)
    requires FromHex(s).Some?
    ensures Hex(FromHex(s).value) == Lower(s)
  {
    if s != "" {
      ReadIsHex(s[2..]);
      DigitReads(s[0]);
      DigitReads(s[1]);
      ByteSplits(DigitValue(s[0]).value, DigitValue(s[1]).value);
      HexOneMore(ByteOf(DigitValue(s[0]).value, DigitValue(s[1]).value), FromHex(s[2..]).value);
      assert Lower(s) == [LowerDigit(s[0]), LowerDigit(s[1])] + Lower(s[2..]);
    }
  }

  lemma DigitIsRead(c: char, n: nat)
    requires n < 16 && LowerDigit(c) == Digit(n)
    ensures DigitValue(c) == Some(n)
  {
  }

  lemma {:induction false} HexIsRead(s: string, b: Bytes)
    requires Lower(s) == Hex(b)
    ensures FromHex(s) == Some(b)
  {
    assert |Lower(s)| == |s|;
    if b != [] {
      assert Hex(b) == [Digit(b[0] / 16), Digit(b[0] % 16)] + Hex(b[1..]);
      assert Lower(s[2..]) == Lower(s)[2..] == Hex(b[1..]);
      HexIsRead(s[2..], b[1..]);
      assert LowerDigit(s[0]) == Lower(s)[0] && LowerDigit(s[1]) == Lower(s)[1];
      DigitIsRead(s[0], b[0] / 16);
      DigitIsRead(s[1], b[0] % 16);
      BytesSplit(b[0]);
      assert b == [b[0]] + b[1..];
    }
  }

  /** Text is read as these bytes exactly if it is their hex, in either case. */
  lemma ReadsHexIff(s: string, b: Bytes)
    ensures FromHex(s) == Some(b) <==> Lower(s) == Hex(b)
  {
    if FromHex(s) == Some(b) {
      ReadIsHex(s);
    }
    if Lower(s) == Hex(b) {
      HexIsRead(s, b);
    }
  }

  lemma HexOneMore(b: Byte, rest: Bytes)
    ensures Hex([b] + rest) == [Digit(b / 16), Digit(b % 16)] + Hex(rest)
  {
    assert ([b] + rest)[1..] == rest;
  }

  lemma DigitReads(c: char)
    requires DigitValue(c).Some?
    ensures DigitValue(c).value < 16 && Digit(DigitValue(c).value) == LowerDigit(c)
  {
  }

  // ----- keys as text -----

  predicate IsSpace(c: char) {
    || c in {'\t', '\n', '\U{0B}', '\U{0C}', '\r', ' ', '\U{85}', '\U{A0}', '\U{1680}'}
    || '\U{2000}' <= c <= '\U{200A}'
    || c in {'\U{2028}', '\U{2029}', '\U{202F}', '\U{205F}', '\U{3000}'}
  }

  function TrimLeft(s: string): string {
    if s != "" && IsSpace(s[0]) then TrimLeft(s[1..]) else s
  }

  function TrimRight(s: string): string {
    if s != "" && IsSpace(s[|s| - 1]) then TrimRight(s[..|s| - 1]) else s
  }

  function ParseKey(text: string): (k: Option<Key>)
    ensures k.Some? ==> |k.value| == Sealed.KEY_BYTES
  {
    var raw := FromHex(TrimRight(TrimLeft(text)));
    if raw.Some? && |raw.value| == Sealed.KEY_BYTES then raw else None
  }

  ghost predicate AllSpace(s: string) {
    forall i | 0 <= i < |s| :: IsSpace(s[i])
  }

  lemma {:induction false} TrimLeftDrops(a: string, s: string)
    requires AllSpace(a) && (s != "" ==> !IsSpace(s[0]))
    ensures TrimLeft(a + s) == s
  {
    if a == "" {
      assert a + s == s;
    } else {
      assert (a + s)[1..] == a[1..] + s;
      TrimLeftDrops(a[1..], s);
    }
  }

  lemma {:induction false} TrimRightDrops(s: string, b: string)
    requires AllSpace(b) && (s != "" ==> !IsSpace(s[|s| - 1]))
    ensures TrimRight(s + b) == s
    decreases |b|
  {
    if b == "" {
      assert s + b == s;
    } else {
      assert (s + b)[..|s + b| - 1] == s + b[..|b| - 1];
      TrimRightDrops(s, b[..|b| - 1]);
    }
  }

  lemma {:induction false} HexHasNoSpace(b: Bytes)
    ensures |Hex(b)| == 2 * |b| && forall i | 0 <= i < |Hex(b)| :: !IsSpace(Hex(b)[i])
  {
    if b != [] {
      HexHasNoSpace(b[1..]);
      DigitIsNoSpace(b[0] / 16);
      DigitIsNoSpace(b[0] % 16);
    }
  }

  lemma DigitIsNoSpace(n: nat)
    requires n < 16
    ensures !IsSpace(Digit(n))
  {
  }

  /** A key's own text is read back as that key, whatever white space surrounds it. */
  lemma KeyTextRoundTrip(a: string, k: Key, b: string)
    requires |k| == Sealed.KEY_BYTES && AllSpace(a) && AllSpace(b)
    ensures ParseKey(a + Hex(k) + b) == Some(k)
  {
    HexHasNoSpace(k);
    HexRoundTrip(k);
    var text := Hex(k) + b;
    assert a + Hex(k) + b == a + text;
    assert text[0] == Hex(k)[0];
    TrimLeftDrops(a, text);
    TrimRightDrops(Hex(k), b);
  }

  lemma {:induction false} TrimLeftSplits(s: string) returns (a: string)
    ensures AllSpace(a) && s == a + TrimLeft(s)
  {
    a := "";
    if s != "" && IsSpace(s[0]) {
      a := TrimLeftSplits(s[1..]);
      assert s == [s[0]] + s[1..];
      a := [s[0]] + a;
    }
  }

  lemma {:induction false} TrimRightSplits(s: string) returns (b: string)
    ensures AllSpace(b) && s == TrimRight(s) + b
  {
    b := "";
    if s != "" && IsSpace(s[|s| - 1]) {
      b := TrimRightSplits(s[..|s| - 1]);
      assert s == s[..|s| - 1] + [s[|s| - 1]];
      b := b + [s[|s| - 1]];
    }
  }

  /** A key's hex, in either case, among white space. */
  ghost predicate KeyText(text: string, a: string, s: string, b: string, k: Key) {
    text == a + s + b && AllSpace(a) && AllSpace(b) && Lower(s) == Hex(k)
  }

  lemma KeyTextIsRead(text: string, a: string, s: string, b: string, k: Key)
    requires |k| == Sealed.KEY_BYTES && KeyText(text, a, s, b, k)
    ensures ParseKey(text) == Some(k)
  {
    EndsInDigits(s, k);
    TrimBoth(text, a, s, b);
    HexIsRead(s, k);
  }

  lemma TrimBoth(text: string, a: string, s: string, b: string)
    requires text == a + s + b && AllSpace(a) && AllSpace(b)
    requires s != "" && !IsSpace(s[0]) && !IsSpace(s[|s| - 1])
    ensures TrimRight(TrimLeft(text)) == s
  {
    var rest := s + b;
    assert text == a + rest && rest[0] == s[0];
    assert TrimLeft(text) == rest by {
      TrimLeftDrops(a, rest);
    }
    TrimRightDrops(s, b);
  }

  lemma EndsInDigits(s: string, k: Key)
    requires k != [] && Lower(s) == Hex(k)
    ensures s != "" && !IsSpace(s[0]) && !IsSpace(s[|s| - 1])
  {
    HexHasNoSpace(k);
    var lower := Lower(s);
    assert |lower| == |s| > 0 && !IsSpace(lower[0]) && !IsSpace(lower[|s| - 1]);
    LowerTellsSpace(s, 0);
    LowerTellsSpace(s, |s| - 1);
  }

  lemma LowerTellsSpace(s: string, i: nat)
    requires i < |s|
    ensures IsSpace(Lower(s)[i]) <==> IsSpace(s[i])
  {
  }

  /** Text is read as a key exactly if it is the hex of its 32 bytes, in either case, among white space. */
  lemma ParsesKeyIff(text: string, k: Key)
    ensures ParseKey(text) == Some(k) <==> |k| == Sealed.KEY_BYTES && exists a, s, b :: KeyText(text, a, s, b, k)
  {
    if ParseKey(text) == Some(k) {
      var left := TrimLeft(text);
      var a := TrimLeftSplits(text);
      var b := TrimRightSplits(left);
      ReadIsHex(TrimRight(left));
      assert text == a + TrimRight(left) + b;
      assert KeyText(text, a, TrimRight(left), b, k);
    }
    if a, s, b :| |k| == Sealed.KEY_BYTES && KeyText(text, a, s, b, k) {
      KeyTextIsRead(text, a, s, b, k);
    }
  }

  // ----- values sealed as text -----

  function SealBytes(derive: Sealed.Derive, plain: Bytes, k: Key, salt: Bytes): string {
    Hex(Sealed.SealedUnder(derive, k, salt, plain))
  }

  function OpenBytes(derive: Sealed.Derive, text: string, k: Key): Option<Bytes> {
    var raw := FromHex(text);
    if raw.None? then None
    else
      var (plain, end) := Sealed.Unsealed(derive, k, raw.value);
      if end.Eof? then Some(plain) else None
  }

  lemma SealedBytesRoundTrip(derive: Sealed.Derive, plain: Bytes, k: Key, salt: Bytes)
    requires |salt| == Sealed.SALT && Sealed.CorrectAead(derive(k, salt))
    ensures OpenBytes(derive, SealBytes(derive, plain, k, salt), k) == Some(plain)
    ensures SealBytes(derive, plain, k, salt) != ""
  {
    HexRoundTrip(Sealed.SealedUnder(derive, k, salt, plain));
    Sealed.StreamRoundTrip(derive, k, salt, plain);
    HexHasNoSpace(Sealed.SealedUnder(derive, k, salt, plain));
  }

  /**
   With a cipher that opens only what was sealed, text opens to a value exactly if it is, in either
   case, the hex of one of the streams the key has sealed, and the value is what that one holds.
   */
  lemma OpensTextIff(derive: Sealed.Derive, streams: map<Bytes, Bytes>, k: Key, text: string, plain: Bytes)
    requires Sealed.SealedEach(derive, k, streams)
    ensures OpenBytes(derive, text, k) == Some(plain) <==> exists salt ::
      salt in streams && streams[salt] == plain && Lower(text) == SealBytes(derive, plain, k, salt)
  {
    if OpenBytes(derive, text, k) == Some(plain) {
      var raw := FromHex(text).value;
      ReadIsHex(text);
      Sealed.TamperingIsSeen(derive, k, streams, raw);
      var salt :| salt in streams && raw == Sealed.SealedUnder(derive, k, salt, streams[salt]);
      Sealed.SealedCarriesItsSalt(derive, k, streams, raw, salt);
      assert Lower(text) == SealBytes(derive, plain, k, salt);
    }
    if salt :| salt in streams && streams[salt] == plain && Lower(text) == SealBytes(derive, plain, k, salt) {
      var raw := Sealed.SealedUnder(derive, k, salt, plain);
      HexIsRead(text, raw);
      Sealed.TamperingIsSeen(derive, k, streams, raw);
      Sealed.SealedCarriesItsSalt(derive, k, streams, raw, salt);
      assert Sealed.IsSealed(derive, k, streams, raw);
    }
  }

  // ----- the ring -----

  /** Keys by their id; `active` seals. */
  datatype Ring = Ring(active: Option<Key>, byId: map<string, Key>)

  /** What seals finds its key again here. */
  ghost predicate Holds(ring: Ring, ident: Key -> string, k: Key) {
    Lookup(ring.byId, ident(k)) == Some(k)
  }

  /** The place of the last of the first `n` keys that goes by `id`. */
  ghost predicate LastWith(keys: seq<Key>, n: nat, ident: Key -> string, id: string, i: int)
    requires n <= |keys|
  {
    0 <= i < n && ident(keys[i]) == id && forall j | i < j < n :: ident(keys[j]) != id
  }

  /** Each id leads to the last of the first `n` keys that goes by it, and every key's id is known. */
  ghost predicate Leads(byId: map<string, Key>, keys: seq<Key>, n: nat, ident: Key -> string)
    requires n <= |keys|
  {
    && (forall id | id in byId :: exists i :: LastWith(keys, n, ident, id, i) && byId[id] == keys[i])
    && (forall i | 0 <= i < n :: ident(keys[i]) in byId)
  }

  /** The first key given is active; an id leads to the last key that goes by it. */
  method NewKeyring(keys: seq<Key>, ident: Key -> string) returns (ring: Ring)
    ensures ring.active == if keys == [] then None else Some(keys[0])
    ensures Leads(ring.byId, keys, |keys|, ident)
  {
    ring := Ring(None, map[]);
    for n := 0 to |keys|
      invariant ring.active == if n == 0 then None else Some(keys[0])
      invariant Leads(ring.byId, keys, n, ident)
    {
      var k := keys[n];
      ghost var before := ring;
      ring := ring.(byId := ring.byId[ident(k) := k]);
      if n == 0 {
        ring := ring.(active := Some(k));
      }
      forall id | id in ring.byId ensures exists i :: LastWith(keys, n + 1, ident, id, i) && ring.byId[id] == keys[i] {
        if id == ident(k) {
          assert LastWith(keys, n + 1, ident, id, n);
        } else {
          var i :| LastWith(keys, n, ident, id, i) && before.byId[id] == keys[i];
          assert LastWith(keys, n + 1, ident, id, i);
        }
      }
    }
  }

  /** A ring made from `keys` holds a key exactly if it is there and no later key takes its id. */
  lemma RingHoldsIff(keys: seq<Key>, ident: Key -> string, ring: Ring, k: Key)
    requires Leads(ring.byId, keys, |keys|, ident)
    ensures Holds(ring, ident, k) <==> exists i :: LastWith(keys, |keys|, ident, ident(k), i) && keys[i] == k
  {
    if i :| LastWith(keys, |keys|, ident, ident(k), i) && keys[i] == k {
      assert ident(keys[i]) in ring.byId;
    }
  }
}
