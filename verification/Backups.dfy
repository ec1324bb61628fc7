/**
 Backups and the vault that holds them (internal/platform/backup/service.go, vault.go and
 objectstore.go, internal/agent/directbackup.go).
 */
module Backups {
  import opened Basics
  import opened BackupState
  import opened Keyring
  import Sealed

  const MAX_BYTES := 0x400_0000_0000
  const MAX_DIRECT_BYTES := 512 * 0x4000_0000

  /** How frame keys are derived, how a key is named, and the hex digest of what was copied. */
  datatype Crypto = Crypto(derive: Sealed.Derive, ident: Key -> string, digest: Bytes -> string)

  /** The cipher opens what it sealed, names of keys are neither empty nor shared, digests have their length. */
  ghost predicate Sound(c: Crypto) {
    && (forall p :: |c.digest(p)| == 64)
    && (forall k, salt: Bytes | |salt| == Sealed.SALT :: Sealed.CorrectAead(c.derive(k, salt)))
    && (forall k :: c.ident(k) != "")
    && (forall a, b | c.ident(a) == c.ident(b) :: a == b)
  }

  /** A ring leads from a name to the key of that name. */
  ghost predicate RingOk(c: Crypto, ring: Ring) {
    forall id | id in ring.byId :: c.ident(ring.byId[id]) == id
  }

  datatype Kind = Disk | Objects

  /** `keyId` and `contentKey` are empty when there is none. */
  datatype Row = Row(node: string, state: State, size: nat, checksum: string, keyId: string, contentKey: string)

  datatype World = World(kind: Kind, ring: Ring, rows: map<string, Row>, files: map<string, Bytes>)

  datatype Content = NoSuchBackup | NotReady | Unreadable | Reader(bytes: Bytes, end: Sealed.End)

  // ----- sealing and unsealing -----

  function ActiveId(c: Crypto, ring: Ring): string {
    IdOf(c, ring.active)
  }

  function IdOf(c: Crypto, k: Option<Key>): string {
    if k.Some? then c.ident(k.value) else ""
  }

  /** What is written for `p`: sealed under the key, or as it is without one. */
  function Body(c: Crypto, k: Option<Key>, p: Bytes, salt: Bytes): Bytes {
    if k.Some? then Sealed.SealedUnder(c.derive, k.value, salt, p) else p
  }

  function UnsealWith(c: Crypto, k: Key, body: Bytes): Content {
    var (bytes, end) := Sealed.Unsealed(c.derive, k, body);
    Reader(bytes, end)
  }

  function Unseal(c: Crypto, ring: Ring, body: Bytes, keyId: string): Content {
    if keyId == "" then Reader(body, Sealed.Eof)
    else if keyId !in ring.byId then Unreadable
    else UnsealWith(c, ring.byId[keyId], body)
  }

  function TextBytes(s: string): Bytes {
    seq(|s|, i requires 0 <= i < |s| => s[i] as int % 256)
  }

  function BytesText(b: Bytes): string {
    seq(|b|, i requires 0 <= i < |b| => b[i] as char)
  }

  function Wrap(c: Crypto, content: Key, operator: Key, salt: Bytes): string {
    SealBytes(c.derive, TextBytes(Hex(content)), operator, salt)
  }

  function Unwrap(c: Crypto, ring: Ring, wrapped: string, keyId: string): Option<string> {
    if keyId !in ring.byId then None
    else
      var raw := OpenBytes(c.derive, wrapped, ring.byId[keyId]);
      if raw.Some? then Some(BytesText(raw.value)) else None
  }

  function Opened(c: Crypto, w: World, id: string, row: Row): Content {
    if id !in w.files then Unreadable
    else if w.kind == Disk || row.contentKey == "" then Unseal(c, w.ring, w.files[id], row.keyId)
    else
      var raw := Unwrap(c, w.ring, row.contentKey, row.keyId);
      if raw.None? || ParseKey(raw.value).None? then Unreadable
      else UnsealWith(c, ParseKey(raw.value).value, w.files[id])
  }

  function ContentOf(c: Crypto, w: World, id: string): Content {
    if id !in w.rows then NoSuchBackup
    else if w.rows[id].state != Ready then NotReady
    else Opened(c, w, id, w.rows[id])
  }

  // ----- the calls -----

  /** The object store has each backup keyed when it is created, if the ring seals at all. */
  function Created(c: Crypto, w: World, id: string, node: string, content: Key, salt: Bytes): World {
    var keyed := w.kind == Objects && w.ring.active.Some?;
    var row :=
      if keyed then Row(node, Pending, 0, "", ActiveId(c, w.ring), Wrap(c, content, w.ring.active.value, salt))
      else Row(node, Pending, 0, "", "", "");
    w.(rows := w.rows[id := row])
  }

  /** The key a node is to seal with, empty for none; no answer on an error. */
  function Transfer(c: Crypto, w: World, id: string, node: string): Option<string> {
    if w.kind == Disk || id !in w.rows || w.rows[id].node != node then None
    else if w.rows[id].contentKey == "" then Some("")
    else Unwrap(c, w.ring, w.rows[id].contentKey, w.rows[id].keyId)
  }

  /** What a node told this key uploads, sealed under which key. */
  function SealForUpload(text: string, p: Bytes): Option<Option<Key>> {
    if |p| > MAX_DIRECT_BYTES then None
    else if text == "" then Some(None)
    else if ParseKey(text).Some? then Some(Some(ParseKey(text).value))
    else None
  }

  function Mark(w: World, id: string, state: State, size: nat, checksum: string, keyId: string): World
    requires id in w.rows
  {
    w.(rows := w.rows[id := w.rows[id].(state := state, size := size, checksum := checksum, keyId := keyId)])
  }

  function MarkedUploaded(w: World, id: string, node: string, size: int, checksum: string): World {
    if id !in w.rows || w.rows[id].node != node || w.rows[id].state == Ready || size <= 0 || |checksum| != 64 then w
    else Mark(w, id, Ready, size, checksum, w.rows[id].keyId)
  }

  predicate Lands(w: World, id: string, node: string, p: Bytes, written: bool) {
    id in w.rows && w.rows[id].node == node && w.rows[id].state != Ready && written && |p| <= MAX_BYTES
  }

  /** `written` is false when the vault reports an error of its own. */
  function Stored(c: Crypto, w: World, id: string, node: string, p: Bytes, salt: Bytes, written: bool): World {
    if id !in w.rows || w.rows[id].node != node || w.rows[id].state == Ready then w
    else if !written || |p| > MAX_BYTES then Mark(w, id, Failed, 0, "", "")
    else
      var now := Mark(w, id, Ready, |p|, c.digest(p), ActiveId(c, w.ring));
      now.(files := w.files[id := Body(c, w.ring.active, p, salt)])
  }

  /** No guard on the state; and the row forgets its key. */
  function FailedBackup(w: World, id: string, node: string): World {
    if id !in w.rows || w.rows[id].node != node then w else Mark(w, id, Failed, 0, "", "")
  }

  // ----- runs -----

  datatype Step =
    | Create(id: string, node: string, content: Key, salt: Bytes)
    | Upload(id: string, node: string, p: Bytes, salt: Bytes)
    | Uploaded(id: string, node: string)
    | Store(id: string, node: string, p: Bytes, salt: Bytes, written: bool)
    | Fail(id: string, node: string)
    | Remove(id: string)
    | Rotate(ring: Ring)

  /** What was written last under an id, under which key and salt, and whether the node put it there itself. */
  datatype Landed = Landed(p: Bytes, key: Option<Key>, salt: Bytes, direct: bool)

  /** The content key of a row, and the key and salt it was wrapped with. */
  datatype Minted = Minted(content: Key, operator: Key, salt: Bytes)

  /** A world and its history. */
  datatype Trace = Trace(w: World, landed: map<string, Landed>, minted: map<string, Minted>)

  function Put(c: Crypto, t: Trace, id: string, p: Bytes, k: Option<Key>, salt: Bytes): Trace {
    t.(w := t.w.(files := t.w.files[id := Body(c, k, p, salt)]), landed := t.landed[id := Landed(p, k, salt, true)])
  }

  function Stepped(c: Crypto, t: Trace, st: Step): Trace {
    match st
    case Create(id, node, content, salt) =>
      Trace(Created(c, t.w, id, node, content, salt), t.landed,
        if t.w.kind == Objects && t.w.ring.active.Some?
          then t.minted[id := Minted(content, t.w.ring.active.value, salt)]
          else t.minted)
    case Upload(id, node, p, salt) =>
      var text := Transfer(c, t.w, id, node);
      if text.None? || SealForUpload(text.value, p).None? then t
      else Put(c, t, id, p, SealForUpload(text.value, p).value, salt)
    case Uploaded(id, node) =>
      var put := if id in t.landed then t.landed[id].p else [];
      t.(w := MarkedUploaded(t.w, id, node, |put|, c.digest(put)))
    case Store(id, node, p, salt, written) =>
      t.(w := Stored(c, t.w, id, node, p, salt, written),
        landed := if Lands(t.w, id, node, p, written) then t.landed[id := Landed(p, t.w.ring.active, salt, false)]
          else t.landed)
    case Fail(id, node) => t.(w := FailedBackup(t.w, id, node))
    case Remove(id) =>
      Trace(t.w.(rows := t.w.rows - {id}, files := t.w.files - {id}), t.landed - {id}, t.minted - {id})
    case Rotate(ring) => t.(w := t.w.(ring := ring))
  }

  // ----- what every step keeps -----

  ghost predicate BodyOk(c: Crypto, l: Landed, file: Bytes) {
    |l.salt| == Sealed.SALT && file == Body(c, l.key, l.p, l.salt)
  }

  ghost predicate WrapOk(c: Crypto, m: Minted, wrapped: string) {
    && |m.content| == Sealed.KEY_BYTES && |m.salt| == Sealed.SALT
    && wrapped == Wrap(c, m.content, m.operator, m.salt)
  }

  ghost predicate KeyedOk(c: Crypto, kind: Kind, row: Row, minted: Option<Minted>) {
    row.contentKey != "" ==> kind == Objects && minted.Some? && WrapOk(c, minted.value, row.contentKey)
  }

  /** What lies under the id is what landed last; what a node put there is under the content key. */
  ghost predicate LandedOk(c: Crypto, kind: Kind, row: Row, file: Option<Bytes>, landed: Option<Landed>,
                           minted: Option<Minted>) {
    landed.Some? ==>
      && file.Some? && BodyOk(c, landed.value, file.value)
      && (landed.value.direct ==> kind == Objects && (row.contentKey == "" ==> landed.value.key.None?))
      && (landed.value.direct && row.contentKey != "" ==>
        minted.Some? && landed.value.key == Some(minted.value.content))
  }

  /** The name of the key the row was created with, or none if it has failed since. */
  ghost predicate KeepsName(c: Crypto, row: Row, minted: Option<Minted>) {
    row.keyId == "" || (row.contentKey != "" && minted.Some? && row.keyId == c.ident(minted.value.operator))
  }

  ghost predicate NamedOk(c: Crypto, row: Row, landed: Option<Landed>, minted: Option<Minted>) {
    if row.state != Ready then KeepsName(c, row, minted)
    else
      && landed.Some? && row.size == |landed.value.p| && row.checksum == c.digest(landed.value.p)
      && (if landed.value.direct then KeepsName(c, row, minted) else row.keyId == IdOf(c, landed.value.key))
  }

  ghost predicate RowInv(c: Crypto, kind: Kind, row: Row, file: Option<Bytes>, landed: Option<Landed>,
                         minted: Option<Minted>) {
    && KeyedOk(c, kind, row, minted)
    && LandedOk(c, kind, row, file, landed, minted)
    && NamedOk(c, row, landed, minted)
  }

  ghost predicate At(c: Crypto, t: Trace, id: string) {
    id in t.w.rows ==>
      RowInv(c, t.w.kind, t.w.rows[id], Lookup(t.w.files, id), Lookup(t.landed, id), Lookup(t.minted, id))
  }

  ghost predicate Inv(c: Crypto, t: Trace) {
    RingOk(c, t.w.ring) && t.landed.Keys <= t.w.rows.Keys && forall id :: At(c, t, id)
  }

  /** Ids and salts are new; a node reports only what it put there itself, and puts nothing over a ready copy. */
  ghost predicate Permitted(c: Crypto, t: Trace, st: Step) {
    match st
    case Create(id, _, content, salt) => id !in t.w.rows && |content| == Sealed.KEY_BYTES && |salt| == Sealed.SALT
    case Upload(id, _, _, salt) => |salt| == Sealed.SALT && (id in t.w.rows ==> t.w.rows[id].state != Ready)
    case Uploaded(id, _) => id in t.landed ==> t.landed[id].direct
    case Store(_, _, _, salt, _) => |salt| == Sealed.SALT
    case Rotate(ring) => RingOk(c, ring)
    case _ => true
  }

  lemma {:induction false} HexIsAscii(b: Bytes)
    ensures forall i | 0 <= i < |Hex(b)| :: Hex(b)[i] as int < 128
  {
    if b != [] {
      HexIsAscii(b[1..]);
      assert Digit(b[0] / 16) as int < 128 && Digit(b[0] % 16) as int < 128;
    }
  }

  lemma TextRoundTrip(s: string)
    requires forall i | 0 <= i < |s| :: s[i] as int < 128
    ensures BytesText(TextBytes(s)) == s
  {
    var t := BytesText(TextBytes(s));
    forall i | 0 <= i < |s| ensures t[i] == s[i] {
      assert TextBytes(s)[i] == s[i] as int;
    }
  }

  lemma KeyTextParses(k: Key)
    requires |k| == Sealed.KEY_BYTES
    ensures ParseKey(Hex(k)) == Some(k)
  {
    KeyTextRoundTrip("", k, "");
    assert "" + Hex(k) + "" == Hex(k);
  }

  lemma ContentKeyText(k: Key)
    requires |k| == Sealed.KEY_BYTES
    ensures BytesText(TextBytes(Hex(k))) == Hex(k) && Hex(k) != "" && ParseKey(Hex(k)) == Some(k)
  {
    HexIsAscii(k);
    TextRoundTrip(Hex(k));
    HexHasNoSpace(k);
    KeyTextParses(k);
  }

  /** A ring with the wrapping key gives the content key back; any other ring gives nothing. */
  lemma UnwrapIff(c: Crypto, ring: Ring, m: Minted, wrapped: string)
    requires Sound(c) && RingOk(c, ring) && WrapOk(c, m, wrapped)
    ensures Unwrap(c, ring, wrapped, c.ident(m.operator)) == if c.ident(m.operator) in ring.byId
      then Some(Hex(m.content)) else None
  {
    SealedBytesRoundTrip(c.derive, TextBytes(Hex(m.content)), m.operator, m.salt);
    ContentKeyText(m.content);
  }

  lemma NoEmptyName(c: Crypto, ring: Ring)
    requires Sound(c) && RingOk(c, ring)
    ensures "" !in ring.byId
  {
  }

  lemma WrapIsText(c: Crypto, content: Key, operator: Key, salt: Bytes)
    requires Sound(c) && |salt| == Sealed.SALT
    ensures Wrap(c, content, operator, salt) != ""
  {
    SealedBytesRoundTrip(c.derive, TextBytes(Hex(content)), operator, salt);
  }

  lemma CreateKeepsInv(c: Crypto, t: Trace, id: string, node: string, content: Key, salt: Bytes)
    requires Sound(c) && Inv(c, t) && Permitted(c, t, Create(id, node, content, salt))
    ensures Inv(c, Stepped(c, t, Create(id, node, content, salt)))
  {
    var now := Stepped(c, t, Create(id, node, content, salt));
    if t.w.ring.active.Some? {
      WrapIsText(c, content, t.w.ring.active.value, salt);
      assert WrapOk(c, Minted(content, t.w.ring.active.value, salt), Wrap(c, content, t.w.ring.active.value, salt));
    }
    forall other ensures At(c, now, other) {
      assert At(c, t, other);
    }
  }

  /** What a node seals with is the content key of the row, or none if the row has none. */
  lemma UploadKey(c: Crypto, w: World, id: string, node: string, p: Bytes, minted: Option<Minted>)
    requires Sound(c) && RingOk(c, w.ring) && id in w.rows
    requires KeyedOk(c, w.kind, w.rows[id], minted) && KeepsName(c, w.rows[id], minted)
    requires Transfer(c, w, id, node).Some? && SealForUpload(Transfer(c, w, id, node).value, p).Some?
    ensures SealForUpload(Transfer(c, w, id, node).value, p).value ==
      if w.rows[id].contentKey == "" then None else Some(minted.value.content)
  {
    var row := w.rows[id];
    NoEmptyName(c, w.ring);
    if row.contentKey != "" {
      UnwrapIff(c, w.ring, minted.value, row.contentKey);
      ContentKeyText(minted.value.content);
    }
  }

  lemma PutKeepsInv(c: Crypto, t: Trace, id: string, p: Bytes, k: Option<Key>, salt: Bytes)
    requires Inv(c, t) && id in t.w.rows && t.w.rows[id].state != Ready && t.w.kind == Objects && |salt| == Sealed.SALT
    requires t.w.rows[id].contentKey != "" ==> id in t.minted && k == Some(t.minted[id].content)
    requires t.w.rows[id].contentKey == "" ==> k.None?
    ensures Inv(c, Put(c, t, id, p, k, salt))
  {
    var now := Put(c, t, id, p, k, salt);
    assert BodyOk(c, Landed(p, k, salt, true), Body(c, k, p, salt));
    forall other ensures At(c, now, other) {
      assert At(c, t, other);
    }
  }

  lemma UploadKeepsInv(c: Crypto, t: Trace, id: string, node: string, p: Bytes, salt: Bytes)
    requires Sound(c) && Inv(c, t) && Permitted(c, t, Upload(id, node, p, salt))
    ensures Inv(c, Stepped(c, t, Upload(id, node, p, salt)))
  {
    var text := Transfer(c, t.w, id, node);
    if text.Some? && SealForUpload(text.value, p).Some? {
      assert At(c, t, id);
      UploadKey(c, t.w, id, node, p, Lookup(t.minted, id));
      PutKeepsInv(c, t, id, p, SealForUpload(text.value, p).value, salt);
    }
  }

  lemma LandKeepsInv(c: Crypto, t: Trace, id: string, node: string, p: Bytes, salt: Bytes)
    requires Inv(c, t) && |salt| == Sealed.SALT && Lands(t.w, id, node, p, true)
    ensures Inv(c, Stepped(c, t, Store(id, node, p, salt, true)))
  {
    var now := Stepped(c, t, Store(id, node, p, salt, true));
    assert At(c, now, id) by {
      assert At(c, t, id);
      assert BodyOk(c, Landed(p, t.w.ring.active, salt, false), Body(c, t.w.ring.active, p, salt));
    }
    forall other | other != id ensures At(c, now, other) {
      assert At(c, t, other);
    }
  }

  lemma StoreKeepsInv(c: Crypto, t: Trace, id: string, node: string, p: Bytes, salt: Bytes, written: bool)
    requires Inv(c, t) && |salt| == Sealed.SALT
    ensures Inv(c, Stepped(c, t, Store(id, node, p, salt, written)))
  {
    if Lands(t.w, id, node, p, written) {
      LandKeepsInv(c, t, id, node, p, salt);
    } else {
      var now := Stepped(c, t, Store(id, node, p, salt, written));
      forall other ensures At(c, now, other) {
        assert At(c, t, other);
      }
    }
  }

  lemma StepKeepsInv(c: Crypto, t: Trace, st: Step)
    requires Sound(c) && Inv(c, t) && Permitted(c, t, st)
    ensures Inv(c, Stepped(c, t, st))
  {
    match st
    case Create(id, node, content, salt) => CreateKeepsInv(c, t, id, node, content, salt);
    case Upload(id, node, p, salt) => UploadKeepsInv(c, t, id, node, p, salt);
    case Store(id, node, p, salt, written) => StoreKeepsInv(c, t, id, node, p, salt, written);
    case _ =>
      var now := Stepped(c, t, st);
      forall other ensures At(c, now, other) {
        assert At(c, t, other);
      }
  }

  function RunSteps(c: Crypto, kind: Kind, steps: seq<Step>): Trace
    decreases |steps|
  {
    if steps == [] then Trace(World(kind, Ring(None, map[]), map[], map[]), map[], map[])
    else Stepped(c, RunSteps(c, kind, steps[..|steps| - 1]), steps[|steps| - 1])
  }

  ghost predicate AllPermitted(c: Crypto, kind: Kind, steps: seq<Step>)
    decreases |steps|
  {
    steps == [] || (
      && AllPermitted(c, kind, steps[..|steps| - 1])
      && Permitted(c, RunSteps(c, kind, steps[..|steps| - 1]), steps[|steps| - 1]))
  }

  lemma {:induction false} RunKeepsInv(c: Crypto, kind: Kind, steps: seq<Step>)
    requires Sound(c) && AllPermitted(c, kind, steps)
    ensures Inv(c, RunSteps(c, kind, steps)) && RunSteps(c, kind, steps).w.kind == kind
    decreases |steps|
  {
    if steps != [] {
      RunKeepsInv(c, kind, steps[..|steps| - 1]);
      StepKeepsInv(c, RunSteps(c, kind, steps[..|steps| - 1]), steps[|steps| - 1]);
    }
  }

  // ----- what is read back -----

  /** This one stream, sealed under `a` with the salt drawn for it, does not open under `b`. */
  ghost predicate Apart(c: Crypto, a: Key, b: Key, salt: Bytes, p: Bytes) {
    !Sealed.Unsealed(c.derive, b, Sealed.SealedUnder(c.derive, a, salt, p)).1.Eof?
  }

  /** The row still knows the key that leads to what landed, and the ring holds it. */
  ghost predicate Readable(ring: Ring, row: Row, landed: Landed) {
    if row.contentKey == "" then row.keyId == "" || row.keyId in ring.byId
    else landed.direct && row.keyId in ring.byId
  }

  lemma OpensUnder(c: Crypto, k: Key, l: Landed, file: Bytes)
    requires Sound(c) && BodyOk(c, l, file) && l.key == Some(k)
    ensures UnsealWith(c, k, file) == Reader(l.p, Sealed.Eof)
  {
    Sealed.StreamRoundTrip(c.derive, k, l.salt, l.p);
  }

  lemma CrossedFails(c: Crypto, k: Key, l: Landed, file: Bytes)
    requires BodyOk(c, l, file) && l.key.Some? && Apart(c, l.key.value, k, l.salt, l.p)
    ensures UnsealWith(c, k, file) != Reader(l.p, Sealed.Eof)
  {
  }

  lemma CrossedUnwrapFails(c: Crypto, ring: Ring, m: Minted, wrapped: string, k: Key)
    requires Sound(c) && RingOk(c, ring) && WrapOk(c, m, wrapped)
      && Apart(c, m.operator, k, m.salt, TextBytes(Hex(m.content)))
    ensures Unwrap(c, ring, wrapped, c.ident(k)).None?
  {
    HexRoundTrip(Sealed.SealedUnder(c.derive, m.operator, m.salt, TextBytes(Hex(m.content))));
  }

  lemma UnkeyedReadsIff(c: Crypto, w: World, id: string, row: Row, landed: Landed)
    requires Sound(c) && RingOk(c, w.ring) && row.contentKey == "" && id in w.files
    requires BodyOk(c, landed, w.files[id]) && row.keyId == IdOf(c, landed.key)
    ensures Opened(c, w, id, row) == Reader(landed.p, Sealed.Eof) <==> Readable(w.ring, row, landed)
  {
    if row.keyId in w.ring.byId {
      OpensUnder(c, landed.key.value, landed, w.files[id]);
    }
  }

  lemma KeyedReadsIff(c: Crypto, w: World, id: string, row: Row, landed: Landed, m: Minted)
    requires Sound(c) && RingOk(c, w.ring) && row.contentKey != "" && w.kind == Objects && id in w.files
    requires BodyOk(c, landed, w.files[id]) && landed.direct && landed.key == Some(m.content)
      && WrapOk(c, m, row.contentKey)
    requires row.keyId == "" || row.keyId == c.ident(m.operator)
    ensures Opened(c, w, id, row) == Reader(landed.p, Sealed.Eof) <==> Readable(w.ring, row, landed)
  {
    NoEmptyName(c, w.ring);
    UnwrapIff(c, w.ring, m, row.contentKey);
    ContentKeyText(m.content);
    OpensUnder(c, m.content, landed, w.files[id]);
  }

  /** The key a copy was stored under does not open what is under the keys made for the row, nor the reverse. */
  ghost predicate OwnKeys(c: Crypto, landed: Landed, m: Minted) {
    landed.key.Some? ==>
      && Apart(c, landed.key.value, m.content, landed.salt, landed.p)
      && (landed.key.value != m.operator ==> Apart(c, m.operator, landed.key.value, m.salt, TextBytes(Hex(m.content))))
  }

  /** Sealed with the operator's key beside a content key, a copy is opened with the wrong one. */
  lemma StoredBesideContentKey(c: Crypto, w: World, id: string, row: Row, landed: Landed, m: Minted)
    requires Sound(c) && RingOk(c, w.ring) && row.contentKey != "" && w.kind == Objects && id in w.files
    requires BodyOk(c, landed, w.files[id]) && WrapOk(c, m, row.contentKey) && OwnKeys(c, landed, m)
    requires row.keyId == IdOf(c, landed.key)
    ensures Opened(c, w, id, row) != Reader(landed.p, Sealed.Eof)
  {
    NoEmptyName(c, w.ring);
    if landed.key.Some? {
      if landed.key.value == m.operator {
        UnwrapIff(c, w.ring, m, row.contentKey);
        ContentKeyText(m.content);
        CrossedFails(c, m.content, landed, w.files[id]);
      } else {
        CrossedUnwrapFails(c, w.ring, m, row.contentKey, landed.key.value);
      }
    }
  }

  /**
   After every run, for every ready backup and under every ring: its content is exactly what landed
   last if and only if the row leads to a key the ring holds, and it did not land beside a content
   key made for someone else. Which key is active does not matter.
   */
  lemma ReadsBackIff(c: Crypto, kind: Kind, steps: seq<Step>, id: string, ring: Ring)
    requires Sound(c) && AllPermitted(c, kind, steps) && RingOk(c, ring)
    requires
      var t := RunSteps(c, kind, steps);
      && id in t.w.rows && t.w.rows[id].state == Ready
      && (t.w.rows[id].contentKey != "" && id in t.landed && !t.landed[id].direct && id in t.minted ==>
            OwnKeys(c, t.landed[id], t.minted[id]))
    ensures
      var t := RunSteps(c, kind, steps);
      && id in t.landed && t.w.rows[id].checksum == c.digest(t.landed[id].p)
      && (ContentOf(c, t.w.(ring := ring), id) == Reader(t.landed[id].p, Sealed.Eof)
        <==> Readable(ring, t.w.rows[id], t.landed[id]))
  {
    var t := RunSteps(c, kind, steps);
    assert Inv(c, t) by { RunKeepsInv(c, kind, steps); }
    assert At(c, t, id);
    var w, row := t.w.(ring := ring), t.w.rows[id];
    if row.contentKey == "" {
      UnkeyedReadsIff(c, w, id, row, t.landed[id]);
    } else if t.landed[id].direct {
      KeyedReadsIff(c, w, id, row, t.landed[id], t.minted[id]);
    } else {
      StoredBesideContentKey(c, w, id, row, t.landed[id], t.minted[id]);
    }
  }

  /** On disk every accepted upload reads back under every ring that still holds the key it was sealed with. */
  lemma DiskReadsBack(c: Crypto, steps: seq<Step>, id: string, ring: Ring)
    requires Sound(c) && AllPermitted(c, Disk, steps) && RingOk(c, ring)
    requires
      var t := RunSteps(c, Disk, steps);
      id in t.w.rows && t.w.rows[id].state == Ready
    ensures
      var t := RunSteps(c, Disk, steps);
      && id in t.landed
      && (ContentOf(c, t.w.(ring := ring), id) == Reader(t.landed[id].p, Sealed.Eof)
        <==> t.landed[id].key.None? || Holds(ring, c.ident, t.landed[id].key.value))
  {
    var t := RunSteps(c, Disk, steps);
    assert Inv(c, t) && t.w.kind == Disk by { RunKeepsInv(c, Disk, steps); }
    assert At(c, t, id);
    UnkeyedReadsIff(c, t.w.(ring := ring), id, t.w.rows[id], t.landed[id]);
  }

  /**
   A failure reported between a node's upload and its word that it uploaded: the row forgets which
   key wraps its content key, becomes ready all the same, and no ring can read it.
   */
  lemma FailureForgetsTheKey(c: Crypto, t: Trace, id: string, node: string, later: Ring)
    requires Sound(c) && RingOk(c, later) && t.w.kind == Objects
    requires id in t.w.rows && t.w.rows[id].node == node && t.w.rows[id].contentKey != ""
    requires id in t.landed && |t.landed[id].p| > 0
    ensures
      var after := Stepped(c, Stepped(c, t, Fail(id, node)), Uploaded(id, node));
      && id in after.w.rows && after.w.rows[id].state == Ready && after.w.rows[id].size == |t.landed[id].p|
      && ContentOf(c, after.w.(ring := later), id) == Unreadable
  {
    NoEmptyName(c, later);
  }

  // ----- what is sealed -----

  /**
   The node of a backup created under an active key is told exactly the content key made for it, as long
   as the ring holds the key that wrapped it; without an active key it is told to seal with none. Any
   other node, and every node of a store on disk, is told nothing.
   */
  lemma TransferAfterCreate(c: Crypto, w: World, id: string, node: string, asking: string, content: Key, salt: Bytes,
                            later: Ring)
    requires Sound(c) && RingOk(c, w.ring) && RingOk(c, later)
    requires |content| == Sealed.KEY_BYTES && |salt| == Sealed.SALT
    ensures Transfer(c, Created(c, w, id, node, content, salt).(ring := later), id, asking) ==
      if w.kind == Disk || asking != node then None
      else if w.ring.active.None? then Some("")
      else if Holds(later, c.ident, w.ring.active.value) then Some(Hex(content))
      else None
  {
    if w.ring.active.Some? {
      var operator := w.ring.active.value;
      WrapIsText(c, content, operator, salt);
      UnwrapIff(c, later, Minted(content, operator, salt), Wrap(c, content, operator, salt));
    }
  }

  /** Backups are created and stored only while there is an active key. */
  ghost predicate SealsThroughout(c: Crypto, kind: Kind, steps: seq<Step>)
    decreases |steps|
  {
    steps == [] || (
      && SealsThroughout(c, kind, steps[..|steps| - 1])
      && (steps[|steps| - 1].Create? || steps[|steps| - 1].Store? ==>
            RunSteps(c, kind, steps[..|steps| - 1]).w.ring.active.Some?))
  }

  /** In the object store every row has its content key, and what landed anywhere is under a key. */
  ghost predicate AllSealed(t: Trace) {
    && (t.w.kind == Objects ==> forall id | id in t.w.rows :: t.w.rows[id].contentKey != "")
    && (forall id | id in t.landed :: t.landed[id].key.Some?)
  }

  lemma StepKeepsSealed(c: Crypto, t: Trace, st: Step)
    requires Sound(c) && Inv(c, t) && Permitted(c, t, st) && AllSealed(t)
    requires st.Create? || st.Store? ==> t.w.ring.active.Some?
    ensures AllSealed(Stepped(c, t, st))
  {
    match st
    case Create(id, node, content, salt) => WrapIsText(c, content, t.w.ring.active.value, salt);
    case Upload(id, node, p, salt) =>
      var text := Transfer(c, t.w, id, node);
      if text.Some? && SealForUpload(text.value, p).Some? {
        assert At(c, t, id);
        UploadKey(c, t.w, id, node, p, Lookup(t.minted, id));
      }
    case _ =>
  }

  /**
   If every backup is created and stored under an active key, nothing lies anywhere in the clear after
   any run: each file is the sealed stream, under some key, of what landed last.
   */
  lemma {:induction false} EverythingIsSealed(c: Crypto, kind: Kind, steps: seq<Step>)
    requires Sound(c) && AllPermitted(c, kind, steps) && SealsThroughout(c, kind, steps)
    ensures
      var t := RunSteps(c, kind, steps);
      && AllSealed(t)
      && forall id | id in t.landed ::
        && id in t.w.files && t.landed[id].key.Some? && |t.landed[id].salt| == Sealed.SALT
        && t.w.files[id] ==
           Sealed.SealedUnder(c.derive, t.landed[id].key.value, t.landed[id].salt, t.landed[id].p)
    decreases |steps|
  {
    var t := RunSteps(c, kind, steps);
    if steps != [] {
      var earlier := steps[..|steps| - 1];
      EverythingIsSealed(c, kind, earlier);
      RunKeepsInv(c, kind, earlier);
      StepKeepsSealed(c, RunSteps(c, kind, earlier), steps[|steps| - 1]);
    }
    RunKeepsInv(c, kind, steps);
    forall id | id in t.landed
      ensures id in t.w.files && BodyOk(c, t.landed[id], t.w.files[id])
    {
      assert At(c, t, id);
    }
  }

  // ----- what each call comes to -----

  /** Created, uploaded by its node and reported: the copy reads back under exactly the rings that hold the key. */
  lemma UploadedReadsBackIff(c: Crypto, t: Trace, id: string, node: string, content: Key, wrapSalt: Bytes, p: Bytes,
                             salt: Bytes, later: Ring)
    requires Sound(c) && Inv(c, t) && RingOk(c, later) && t.w.kind == Objects && id !in t.w.rows
    requires |content| == Sealed.KEY_BYTES && |wrapSalt| == Sealed.SALT == |salt| && 0 < |p| <= MAX_DIRECT_BYTES
    requires t.w.ring.active.Some? ==> Holds(t.w.ring, c.ident, t.w.ring.active.value)
    ensures
      var put := Stepped(c, Stepped(c, t, Create(id, node, content, wrapSalt)), Upload(id, node, p, salt));
      var after := Stepped(c, put, Uploaded(id, node));
      && id in after.w.rows && after.w.rows[id].state == Ready && after.w.rows[id].size == |p|
      && id in after.landed && after.landed[id].p == p
      && (ContentOf(c, after.w.(ring := later), id) == Reader(p, Sealed.Eof)
        <==> t.w.ring.active.None? || Holds(later, c.ident, t.w.ring.active.value))
  {
    var created := Stepped(c, t, Create(id, node, content, wrapSalt));
    var put := Stepped(c, created, Upload(id, node, p, salt));
    var after := Stepped(c, put, Uploaded(id, node));
    TransferAfterCreate(c, t.w, id, node, node, content, wrapSalt, t.w.ring);
    assert created.w == created.w.(ring := t.w.ring);
    if t.w.ring.active.Some? { ContentKeyText(content); }
    var k := if t.w.ring.active.Some? then Some(content) else None;
    assert put == Put(c, created, id, p, k, salt);
    assert |c.digest(p)| == 64;
    assert after.w.rows[id] == created.w.rows[id].(state := Ready, size := |p|, checksum := c.digest(p));
    LandedReads(c, after.w.(ring := later), id, after.w.rows[id], Landed(p, k, salt, true),
                Minted(content, if t.w.ring.active.Some? then t.w.ring.active.value else [], wrapSalt));
    if t.w.ring.active.Some? { WrapIsText(c, content, t.w.ring.active.value, wrapSalt); }
  }

  lemma LandedReads(c: Crypto, w: World, id: string, row: Row, landed: Landed, m: Minted)
    requires Sound(c) && RingOk(c, w.ring) && id in w.files && BodyOk(c, landed, w.files[id])
    requires landed.direct && w.kind == Objects
    requires if row.contentKey == "" then row.keyId == "" && landed.key.None?
      else landed.key == Some(m.content) && WrapOk(c, m, row.contentKey) && row.keyId == c.ident(m.operator)
    ensures Opened(c, w, id, row) == Reader(landed.p, Sealed.Eof) <==> Readable(w.ring, row, landed)
  {
    if row.contentKey == "" {
      UnkeyedReadsIff(c, w, id, row, landed);
    } else {
      KeyedReadsIff(c, w, id, row, landed, m);
    }
  }

  /** A copy stored for a row without a content key reads back under exactly the rings that hold its key. */
  lemma StoredReadsBackIff(c: Crypto, w: World, id: string, node: string, p: Bytes, salt: Bytes, later: Ring)
    requires Sound(c) && RingOk(c, later) && |salt| == Sealed.SALT && Lands(w, id, node, p, true)
    requires w.rows[id].contentKey == ""
    ensures
      var after := Stored(c, w, id, node, p, salt, true);
      && after.rows[id].state == Ready && after.rows[id].size == |p| && after.rows[id].checksum == c.digest(p)
      && (ContentOf(c, after.(ring := later), id) == Reader(p, Sealed.Eof)
        <==> w.ring.active.None? || Holds(later, c.ident, w.ring.active.value))
  {
    var after := Stored(c, w, id, node, p, salt, true);
    UnkeyedReadsIff(c, after.(ring := later), id, after.rows[id], Landed(p, w.ring.active, salt, false));
  }

  /**
   A store by the row's node leaves the row ready exactly if it was or the copy is within the limit and
   written, and otherwise failed; a node's report makes it ready exactly if it was or names a size and a
   whole digest, and otherwise changes nothing; a failure leaves it failed, whatever it was.
   */
  lemma OutcomeIff(c: Crypto, w: World, id: string, node: string, p: Bytes, salt: Bytes, written: bool, size: int,
                   checksum: string)
    requires id in w.rows && w.rows[id].node == node
    ensures
      var stored, marked := Stored(c, w, id, node, p, salt, written), MarkedUploaded(w, id, node, size, checksum);
      var failed, was := FailedBackup(w, id, node), w.rows[id].state;
      && stored.rows.Keys == marked.rows.Keys == failed.rows.Keys == w.rows.Keys
      && (stored.rows[id].state == Ready <==> was == Ready || (written && |p| <= MAX_BYTES))
      && (stored.rows[id].state != Ready ==> stored.rows[id].state == Failed && stored.files == w.files)
      && (marked.rows[id].state == Ready <==> was == Ready || (size > 0 && |checksum| == 64))
      && (marked.rows[id].state != Ready ==> marked == w)
      && (was != Ready && marked.rows[id].state == Ready ==>
          marked.rows[id] == w.rows[id].(state := Ready, size := size, checksum := checksum))
      && failed.rows[id].state == Failed && failed.rows[id].keyId == ""
  {
  }

  function Target(st: Step): Option<string> {
    match st
    case Rotate(_) => None
    case Create(id, _, _, _) => Some(id)
    case Upload(id, _, _, _) => Some(id)
    case Uploaded(id, _) => Some(id)
    case Store(id, _, _, _, _) => Some(id)
    case Fail(id, _) => Some(id)
    case Remove(id) => Some(id)
  }

  /** A node that a backup is not kept on. */
  predicate ByAnother(t: Trace, st: Step) {
    match st
    case Upload(id, node, _, _) => id in t.w.rows ==> t.w.rows[id].node != node
    case Uploaded(id, node) => id in t.w.rows ==> t.w.rows[id].node != node
    case Store(id, node, _, _, _) => id in t.w.rows ==> t.w.rows[id].node != node
    case Fail(id, node) => id in t.w.rows ==> t.w.rows[id].node != node
    case _ => false
  }

  /**
   Every step touches at most its own backup; one by another node touches nothing; and what a removed
   one held is gone.
   */
  lemma StepTouchesItsOwn(c: Crypto, t: Trace, st: Step, other: string)
    ensures
      var now := Stepped(c, t, st);
      && (Target(st) != Some(other) ==>
          Lookup(now.w.rows, other) == Lookup(t.w.rows, other)
          && Lookup(now.w.files, other) == Lookup(t.w.files, other))
      && (Target(st).Some? && Target(st) != Some(other) ==> ContentOf(c, now.w, other) == ContentOf(c, t.w, other))
      && (ByAnother(t, st) ==> now == t)
      && (st.Remove? ==> ContentOf(c, now.w, st.id) == NoSuchBackup && st.id !in now.w.files)
      && (!st.Rotate? ==> now.w.ring == t.w.ring)
  {
  }

  /**
   After every run: nothing is given of a copy that is not ready, and any that is ready has landed.
   */
  lemma OnlyReadyIsGiven(c: Crypto, kind: Kind, steps: seq<Step>, id: string)
    requires Sound(c) && AllPermitted(c, kind, steps)
    ensures
      var w := RunSteps(c, kind, steps).w;
      && (ContentOf(c, w, id) == NoSuchBackup <==> id !in w.rows)
      && (ContentOf(c, w, id) == NotReady <==> id in w.rows && w.rows[id].state != Ready)
      && (ContentOf(c, w, id).Reader? ==>
          id in w.rows && w.rows[id].state == Ready && id in w.files && id in RunSteps(c, kind, steps).landed)
  {
    var t := RunSteps(c, kind, steps);
    RunKeepsInv(c, kind, steps);
    assert At(c, t, id);
  }

  // ----- the assumptions can be met -----

  function MarkedTag(mine: bool, flag: Byte): (tag: Bytes)
    ensures |tag| == Sealed.TAG
  {
    [if mine then 1 else 0, flag] + seq(Sealed.TAG - 2, _ => 0)
  }

  /** Seals by appending a tag that tells the flag, and one set of keys from the others. */
  function MarkedAead(mine: bool): Sealed.Aead {
    Sealed.Aead(
      (nonce: Bytes, plain: Bytes, flag: Byte) => plain + MarkedTag(mine, flag),
      (nonce: Bytes, c: Bytes, flag: Byte) =>
        if |c| >= Sealed.TAG && c[|c| - Sealed.TAG..] == MarkedTag(mine, flag) then Some(c[..|c| - Sealed.TAG])
        else None)
  }

  /** A frame sealed as last opens only as last, and one sealed as not last only as that. */
  ghost predicate TellsFlags(a: Sealed.Aead) {
    forall nonce: Bytes, plain: Bytes, flag: Byte, other: Byte | flag != other ::
      a.open(nonce, a.seal(nonce, plain, flag), other).None?
  }

  lemma MarkedAeadIsCorrect(mine: bool)
    ensures Sealed.CorrectAead(MarkedAead(mine)) && TellsFlags(MarkedAead(mine))
  {
    var a := MarkedAead(mine);
    forall nonce: Bytes, plain: Bytes, flag: Byte
      ensures |a.seal(nonce, plain, flag)| == |plain| + Sealed.TAG
      ensures a.open(nonce, a.seal(nonce, plain, flag), flag) == Some(plain)
      ensures forall other: Byte | other != flag :: a.open(nonce, a.seal(nonce, plain, flag), other).None?
    {
      MarkedOpens(plain, mine, flag);
    }
  }

  lemma MarkedOpens(plain: Bytes, mine: bool, flag: Byte)
    ensures
      var c := plain + MarkedTag(mine, flag);
      && c[|c| - Sealed.TAG..] == MarkedTag(mine, flag) && c[..|c| - Sealed.TAG] == plain
    ensures forall theirs: bool, other: Byte ::
      MarkedTag(mine, flag) == MarkedTag(theirs, other) <==> mine == theirs && flag == other
  {
    forall theirs: bool, other: Byte | MarkedTag(mine, flag) == MarkedTag(theirs, other)
      ensures mine == theirs && flag == other
    {
      assert MarkedTag(mine, flag)[0] == MarkedTag(theirs, other)[0];
      assert MarkedTag(mine, flag)[1] == MarkedTag(theirs, other)[1];
    }
  }

  /** The other keys see only tags that are not theirs, already in the first frame. */
  lemma MarkedFramesDoNotCross(mine: bool, p: Bytes)
    ensures
      !Sealed.Opened(Sealed.ByFrame(MarkedAead(!mine)), Sealed.Frames(Sealed.ByFrame(MarkedAead(mine)), p, 0), 0).1.Eof?
  {
    var a, b := Sealed.ByFrame(MarkedAead(mine)), Sealed.ByFrame(MarkedAead(!mine));
    var s := Sealed.Frames(a, p, 0);
    var flag: Byte := if |p| < Sealed.FRAME then 1 else 0;
    var first := if |p| < Sealed.FRAME then p else p[..Sealed.FRAME];
    var frame := first + MarkedTag(mine, flag);
    MarkedOpens(first, mine, flag);
    assert a.seal(0, first, flag) == frame;
    assert b.open(0, frame, 0).None? && b.open(0, frame, 1).None?;
    if |p| >= Sealed.FRAME {
      assert s == frame + Sealed.Frames(a, p[Sealed.FRAME..], 1);
      assert s[..Sealed.FRAME + Sealed.TAG] == frame;
    }
  }

  /**
   For every key there is a sound choice, with a cipher that authenticates flags, that keeps it apart
   from all others; with it every copy stored under that key meets what `ReadsBackIff` assumes.
   */
  lemma KeysCanBeApart(a: Key) returns (c: Crypto)
    ensures Sound(c) && (forall k, salt :: TellsFlags(c.derive(k, salt)))
    ensures forall b, p, salt: Bytes | b != a && |salt| == Sealed.SALT ::
      Apart(c, a, b, salt, p) && Apart(c, b, a, salt, p)
    ensures forall landed: Landed, m: Minted |
      landed.key == Some(a) && m.content != a && |landed.salt| == |m.salt| == Sealed.SALT :: OwnKeys(c, landed, m)
  {
    c := Crypto(
      (k: Bytes, salt: Bytes) => MarkedAead(k == a), (k: Key) => "k" + Hex(k), (p: Bytes) => seq(64, _ => '0'));
    MarkedAeadIsCorrect(true);
    MarkedAeadIsCorrect(false);
    forall k, l | c.ident(k) == c.ident(l) ensures k == l {
      HexRoundTrip(k);
      HexRoundTrip(l);
      assert c.ident(k)[1..] == Hex(k) && c.ident(l)[1..] == Hex(l);
    }
    forall b, p, salt: Bytes | b != a && |salt| == Sealed.SALT
      ensures Apart(c, a, b, salt, p) && Apart(c, b, a, salt, p)
    {
      MarkedFramesDoNotCross(true, p);
      MarkedFramesDoNotCross(false, p);
      Sealed.HeaderReads(salt, Sealed.Frames(Sealed.ByFrame(MarkedAead(true)), p, 0));
      Sealed.HeaderReads(salt, Sealed.Frames(Sealed.ByFrame(MarkedAead(false)), p, 0));
    }
  }

  // ----- the service -----

  /** What is written for `src`, measured; a stream over the limit is refused. */
  method Pour(c: Crypto, ring: Ring, src: Bytes, limit: nat, salt: Bytes)
    returns (dst: Bytes, size: nat, checksum: string, ok: bool)
    ensures ok <==> |src| <= limit
    ensures ok ==> dst == Body(c, ring.active, src, salt) && size == |src| && checksum == c.digest(src)
  {
    var bounded := src[..Min(limit + 1, |src|)];
    if ring.active.Some? {
      dst, size, ok := Sealed.Seal(bounded, false, salt, Sealed.ByFrame(c.derive(ring.active.value, salt)));
    } else {
      dst, size, ok := bounded, |bounded|, true;
    }
    checksum := c.digest(bounded);
    ok := ok && size <= limit;
    assert |src| <= limit ==> bounded == src;
  }

  class Service {
    const c: Crypto
    const kind: Kind
    var ring: Ring
    var rows: map<string, Row>
    var files: map<string, Bytes>

    constructor (c: Crypto, kind: Kind, ring: Ring)
      ensures this.c == c && Contents() == World(kind, ring, map[], map[])
    {
      this.c, this.kind, this.ring, rows, files := c, kind, ring, map[], map[];
    }

    ghost function Contents(): World
      reads this
    {
      World(kind, ring, rows, files)
    }

    method MarkRow(id: string, state: State, size: nat, checksum: string, keyId: string)
      requires id in rows
      modifies this`rows
      ensures Contents() == Mark(old(Contents()), id, state, size, checksum, keyId)
    {
      rows := rows[id := rows[id].(state := state, size := size, checksum := checksum, keyId := keyId)];
    }

    method CreateBackup(id: string, node: string, content: Key, salt: Bytes)
      modifies this`rows
      ensures Contents() == Created(c, old(Contents()), id, node, content, salt)
    {
      var row := Row(node, Pending, 0, "", "", "");
      if kind == Objects && ring.active.Some? {
        row := row.(contentKey := Wrap(c, content, ring.active.value, salt), keyId := ActiveId(c, ring));
      }
      rows := rows[id := row];
    }

    method MarkUploaded(id: string, node: string, size: int, checksum: string) returns (ok: bool)
      modifies this`rows
      ensures Contents() == MarkedUploaded(old(Contents()), id, node, size, checksum)
      ensures ok <==>
        && id in old(rows) && old(rows)[id].node == node
        && (old(rows)[id].state == Ready || (size > 0 && |checksum| == 64))
    {
      if id !in rows || rows[id].node != node {
        return false;
      }
      if rows[id].state == Ready {
        return true;
      }
      if size <= 0 || |checksum| != 64 {
        return false;
      }
      MarkRow(id, Ready, size, checksum, rows[id].keyId);
      ok := true;
    }

    /** The vault writes beside and renames into place, so a failed write leaves what was there. */
    method StoreContent(id: string, node: string, content: Bytes, salt: Bytes, written: bool) returns (ok: bool)
      modifies this`rows, this`files
      ensures Contents() == Stored(c, old(Contents()), id, node, content, salt, written)
      ensures ok <==> id in rows && rows[id].node == node && rows[id].state == Ready
    {
      if id !in rows || rows[id].node != node {
        return false;
      }
      if rows[id].state == Ready {
        return true;
      }
      var dst, size, checksum, poured := Pour(c, ring, content, MAX_BYTES, salt);
      if !poured || !written {
        MarkRow(id, Failed, 0, "", "");
        return false;
      }
      files := files[id := dst];
      MarkRow(id, Ready, size, checksum, ActiveId(c, ring));
      ok := true;
    }

    method FailBackup(id: string, node: string) returns (ok: bool)
      modifies this`rows
      ensures Contents() == FailedBackup(old(Contents()), id, node)
      ensures ok <==> id in old(rows) && old(rows)[id].node == node
    {
      ok := id in rows && rows[id].node == node;
      if ok {
        MarkRow(id, Failed, 0, "", "");
      }
    }
  }
}
