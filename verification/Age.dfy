/** Whole age files for one X25519 recipient: header, MAC and payload together. */
module Age {
  import opened Types
  import Base64
  import opened AgeHeader
  import Stream

  /** The primitives, taken as given. */
  datatype Prims = Prims(
    aead: Stream.Aead,
    xPub: Bytes -> Bytes, xShared: (Bytes, Bytes) -> Bytes,
    hkdf: (Bytes, Bytes, Bytes) -> Bytes, hmac: (Bytes, Bytes) -> Bytes)

  ghost predicate PrimsOk(p: Prims) {
    && Stream.AeadOk(p.aead)
    && (forall a :: |p.xPub(a)| == 32)
    && (forall a, b :: p.xShared(a, p.xPub(b)) == p.xShared(b, p.xPub(a)))
    && (forall k, d :: |p.hmac(k, d)| == 32)
  }

  /** "X25519", and the labels keys are derived under. */
  const X25519: Bytes := [88, 50, 53, 53, 49, 57]
  const WRAP: Bytes := VERSION + [47] + X25519
  const HEADER: Bytes := [104, 101, 97, 100, 101, 114]
  const PAYLOAD: Bytes := [112, 97, 121, 108, 111, 97, 100]

  function Zeros(n: nat): (z: Bytes)
    ensures |z| == n
  {
    seq(n, _ => 0)
  }

  datatype AgeError = HeaderFailure | NoMatch | HmacFailure | PayloadFailure(released: Bytes)

  // ------------------------------------------------------------ decrypting

  function WrapKey(p: Prims, shared: Bytes, share: Bytes, recipient: Bytes): Bytes {
    p.hkdf(shared, WRAP, share + recipient)
  }

  /** The file key, or none when the stanza is not for this identity. */
  function Unwrap(p: Prims, s: Stanza, identity: Bytes): Result<Option<Bytes>, AgeError> {
    if |s.args| != 2 then Err(HeaderFailure) else
      match Base64.Decode(s.args[1])
      case None => Err(HeaderFailure)
      case Some(share) =>
        if |share| != 32 || |s.body| != 32 then Err(HeaderFailure) else
          var shared := p.xShared(identity, share);
          if shared == Zeros(32) then Err(HeaderFailure)
          else Ok(p.aead.open(WrapKey(p, shared, share, p.xPub(identity)), Zeros(12), s.body))
  }

  /** The first X25519 stanza that opens; a malformed one before it is an error. */
  function FileKey(p: Prims, stanzas: seq<Stanza>, identity: Bytes): Result<Option<Bytes>, AgeError> {
    if stanzas == [] then Ok(None)
    else if stanzas[0].args == [] || stanzas[0].args[0] != X25519 then FileKey(p, stanzas[1..], identity)
    else
      match Unwrap(p, stanzas[0], identity)
      case Err(e) => Err(e)
      case Ok(Some(k)) => Ok(Some(k))
      case Ok(None) => FileKey(p, stanzas[1..], identity)
  }

  function MacOf(p: Prims, fileKey: Bytes, input: Bytes): Bytes {
    p.hmac(p.hkdf(fileKey, HEADER, []), input)
  }

  function OpenPayload(p: Prims, fileKey: Bytes, payload: Bytes): Result<Bytes, AgeError> {
    if |payload| < 16 then Err(HeaderFailure) else
      match Stream.Open(p.aead, p.hkdf(fileKey, PAYLOAD, payload[..16]), payload[16..], 0)
      case Whole(plain) => Ok(plain)
      case Broken(released) => Err(PayloadFailure(released))
  }

  /** What a file's header leads to. */
  function DecryptParsed(p: Prims, stanzas: seq<Stanza>, macInput: Bytes, mac: Bytes, payload: Bytes, identity: Bytes)
    : Result<Bytes, AgeError>
  {
    match FileKey(p, stanzas, identity)
    case Err(e) => Err(e)
    case Ok(None) => Err(NoMatch)
    case Ok(Some(fileKey)) =>
      if MacOf(p, fileKey, macInput) != mac then Err(HmacFailure) else OpenPayload(p, fileKey, payload)
  }

  ghost function Decrypted(p: Prims, data: Bytes, identity: Bytes): Result<Bytes, AgeError> {
    match Parse(data)
    case None => Err(HeaderFailure)
    case Some(h) =>
      ParsedFits(data);
      DecryptParsed(p, h.stanzas, MacInput(data, h), h.mac, h.payload, identity)
  }

  lemma ParsedFits(data: Bytes)
    requires Parse(data).Some?
    ensures var h := Parse(data).value; 3 <= |h.macLine| <= |data| && |h.mac| == 32
  {
    hide Line, Stanzas, Base64.Encode, Base64.Decode;
    LineIs(data);
    var (_, rest) := Line(data).value;
    StanzasIs(rest);
    MacIs32(rest);
  }

  lemma {:induction false} MacIs32(s: Bytes)
    requires Stanzas(s).Some?
    ensures |Stanzas(s).value.mac| == 32
    decreases |s|
  {
    hide Line, BodyText, Base64.Encode, Base64.Decode, Split, ArgsOk, ArgOk;
    LineIs(s);
    var (line, rest) := Line(s).value;
    if DASHES <= line {
      Base64.DecodedIsCanonical(line[4..]);
      Base64.SpelledEncode(Stanzas(s).value.mac);
    } else {
      BodyTextIs(rest);
      MacIs32(BodyText(rest).value.1);
    }
  }

  /** Decrypt a file: read the header, try its stanzas in order, check the MAC, open the payload. */
  method Decrypt(p: Prims, data: Bytes, identity: Bytes) returns (r: Result<Bytes, AgeError>)
    ensures r == Decrypted(p, data, identity)
  {
    hide Parse, Unwrap, MacOf, Stream.Open;
    var parsed := ParseHeader(data);
    if parsed.None? {
      return Err(HeaderFailure);
    }
    var stanzas := parsed.value.stanzas;
    var fileKey: Option<Bytes> := None;
    var i := 0;
    assert stanzas[0..] == stanzas;
    while i < |stanzas| && fileKey.None?
      invariant 0 <= i <= |stanzas|
      invariant FileKey(p, stanzas, identity) ==
                if fileKey.Some? then Ok(fileKey) else FileKey(p, stanzas[i..], identity)
    {
      var s := stanzas[i];
      assert stanzas[i..][1..] == stanzas[i + 1..];
      i := i + 1;
      if s.args == [] || s.args[0] != X25519 {
        continue;
      }
      var key := Unwrap(p, s, identity);
      if key.Err? {
        return Err(key.error);
      }
      fileKey := key.value;
    }
    if fileKey.None? {
      return Err(NoMatch);
    }
    if MacOf(p, fileKey.value, parsed.value.macInput) != parsed.value.mac {
      return Err(HmacFailure);
    }
    var payload := data[parsed.value.payloadAt..];
    if |payload| < 16 {
      return Err(HeaderFailure);
    }
    var o := Stream.OpenStream(p.aead, p.hkdf(fileKey.value, PAYLOAD, payload[..16]), payload[16..]);
    match o
    case Whole(plain) => return Ok(plain);
    case Broken(released) => return Err(PayloadFailure(released));
  }

  // ------------------------------------------------------------ encrypting

  function StanzaFor(p: Prims, recipient: Bytes, fileKey: Bytes, ephemeral: Bytes): Stanza {
    var share := p.xPub(ephemeral);
    var key := WrapKey(p, p.xShared(ephemeral, recipient), share, recipient);
    Stanza([X25519, Base64.Encode(share)], p.aead.seal(key, Zeros(12), fileKey))
  }

  function MacFor(p: Prims, stanza: Stanza, fileKey: Bytes): Bytes
    requires stanza.args != []
  {
    MacOf(p, fileKey, VERSION + [NEWLINE] + RenderStanza(stanza) + DASHES)
  }

  function HeaderFor(p: Prims, recipient: Bytes, fileKey: Bytes, ephemeral: Bytes): Bytes {
    var stanza := StanzaFor(p, recipient, fileKey, ephemeral);
    Render([stanza], MacFor(p, stanza, fileKey))
  }

  /** The file; none only when the plaintext has more chunks than the counter can number. */
  function Encrypted(p: Prims, recipient: Bytes, plain: Bytes, fileKey: Bytes, ephemeral: Bytes,
                     nonce: Bytes): Option<Bytes> {
    match Stream.Sealed(p.aead, p.hkdf(fileKey, PAYLOAD, nonce), plain, 0)
    case None => None
    case Some(payload) => Some(HeaderFor(p, recipient, fileKey, ephemeral) + (nonce + payload))
  }

  /** The lines of a stanza body, a short one last. */
  method WrapLines(text: Bytes) returns (out: Bytes)
    ensures out == Wrapped(text)
  {
    hide Wrapped;
    out := [];
    var i: nat := 0;
    assert text[0..] == text;
    while |text| - i >= COLUMNS
      invariant i <= |text| && out + Wrapped(text[i..]) == Wrapped(text)
    {
      var line := text[i..i + COLUMNS];
      WrappedStep(text, i);
      Regroup(out, line, [NEWLINE], Wrapped(text[i + COLUMNS..]));
      out := out + line + [NEWLINE];
      i := i + COLUMNS;
    }
    WrappedLast(text[i..]);
    Regroup(out, text[i..], [NEWLINE], []);
    out := out + text[i..] + [NEWLINE];
  }

  lemma Regroup(a: Bytes, b: Bytes, c: Bytes, d: Bytes)
    ensures a + (b + c + d) == a + b + c + d && a + (b + c) == a + b + c
  {
  }

  lemma WrappedLast(text: Bytes)
    requires |text| < COLUMNS
    ensures Wrapped(text) == text + [NEWLINE]
  {
  }

  lemma WrappedStep(text: Bytes, i: nat)
    requires i + COLUMNS <= |text|
    ensures Wrapped(text[i..]) == text[i..i + COLUMNS] + [NEWLINE] + Wrapped(text[i + COLUMNS..])
  {
    assert text[i..][..COLUMNS] == text[i..i + COLUMNS];
    assert text[i..][COLUMNS..] == text[i + COLUMNS..];
  }

  /** Encrypt for one recipient; the randomness is given. */
  method Encrypt(p: Prims, recipient: Bytes, plain: Bytes, fileKey: Bytes, ephemeral: Bytes, nonce: Bytes)
    returns (file: Option<Bytes>)
    ensures file == Encrypted(p, recipient, plain, fileKey, ephemeral, nonce)
  {
    hide Base64.Encode, Wrapped, MacOf, WrapKey, Stream.Sealed, Zeros;
    var share := p.xPub(ephemeral);
    var shared := p.xShared(ephemeral, recipient);
    var key := WrapKey(p, shared, share, recipient);
    var body := p.aead.seal(key, Zeros(12), fileKey);
    var lines := WrapLines(Base64.Encode(body));
    var header := VERSION + [NEWLINE] + ARROW + X25519 + [SPACE] + Base64.Encode(share) + [NEWLINE] + lines + DASHES;
    ghost var stanza := StanzaFor(p, recipient, fileKey, ephemeral);
    StanzaText(stanza, share);
    HeaderPieces(RenderStanza(stanza), Base64.Encode(share), lines);
    var mac := MacOf(p, fileKey, header);
    var payload := Stream.SealStream(p.aead, p.hkdf(fileKey, PAYLOAD, nonce), plain);
    if payload.None? {
      return None;
    }
    file := Some(header + [SPACE] + Base64.Encode(mac) + [NEWLINE] + nonce + payload.value);
    HeaderText(stanza, mac);
    var head := header + [SPACE] + Base64.Encode(mac) + [NEWLINE];
    assert head + nonce + payload.value == head + (nonce + payload.value);
  }

  lemma StanzaText(stanza: Stanza, share: Bytes)
    requires stanza.args == [X25519, Base64.Encode(share)]
    ensures RenderStanza(stanza) ==
            ARROW + X25519 + [SPACE] + Base64.Encode(share) + [NEWLINE] + Wrapped(Base64.Encode(stanza.body))
  {
    hide Base64.Encode, Wrapped;
    var e := Base64.Encode(share);
    assert stanza.args[1..] == [e];
    assert Join([e]) == e;
    assert Join(stanza.args) == X25519 + [SPACE] + e;
    assert ARROW + (X25519 + [SPACE] + e) == ARROW + X25519 + [SPACE] + e;
  }

  lemma HeaderPieces(t: Bytes, e: Bytes, lines: Bytes)
    requires t == ARROW + X25519 + [SPACE] + e + [NEWLINE] + lines
    ensures VERSION + [NEWLINE] + ARROW + X25519 + [SPACE] + e + [NEWLINE] + lines + DASHES
            == VERSION + [NEWLINE] + t + DASHES
  {
  }

  lemma MacAfter(head: Bytes, e: Bytes)
    ensures head + (MACMARK + e + [NEWLINE]) == head + DASHES + [SPACE] + e + [NEWLINE]
  {
  }

  lemma HeaderText(stanza: Stanza, mac: Bytes)
    requires stanza.args != []
    ensures Render([stanza], mac) ==
            VERSION + [NEWLINE] + RenderStanza(stanza) + DASHES + [SPACE] + Base64.Encode(mac) + [NEWLINE]
  {
    hide Base64.Encode, RenderStanza;
    assert [stanza][1..] == [];
    var t := RenderStanza(stanza);
    assert RenderStanzas([stanza]) == t + [] == t;
    assert MACMARK == DASHES + [SPACE];
    MacAfter(VERSION + [NEWLINE] + t, Base64.Encode(mac));
  }

  // ------------------------------------------------------------ round trip and truncation

  /** What the header of an encrypted file reads as, whatever payload follows it. */
  lemma HeaderReads(p: Prims, recipient: Bytes, fileKey: Bytes, ephemeral: Bytes, payload: Bytes)
    requires PrimsOk(p)
    ensures var stanza := StanzaFor(p, recipient, fileKey, ephemeral);
            var mac := MacFor(p, stanza, fileKey);
            var data := HeaderFor(p, recipient, fileKey, ephemeral) + payload;
            && Parse(data) == Some(Header([stanza], mac, RenderMac(mac) + payload, payload))
            && 3 <= |RenderMac(mac) + payload| <= |data|
            && MacInput(data, Parse(data).value) == VERSION + [NEWLINE] + RenderStanza(stanza) + DASHES
  {
    hide Base64.Encode, Parse, RenderStanza, WrapKey;
    var stanza := StanzaFor(p, recipient, fileKey, ephemeral);
    var mac := MacFor(p, stanza, fileKey);
    ShareIsArg(p.xPub(ephemeral));
    assert StanzasOk([stanza]);
    ParseUndoesRender([stanza], mac, payload);
    var t := RenderStanza(stanza);
    assert [stanza][1..] == [];
    assert RenderStanzas([stanza]) == t + [] == t;
    CoveredByMac(VERSION + [NEWLINE] + t, Base64.Encode(mac), payload);
  }

  lemma CoveredByMac(head: Bytes, e: Bytes, payload: Bytes)
    ensures var tail := MACMARK + e + [NEWLINE] + payload;
            var data := head + (MACMARK + e + [NEWLINE]) + payload;
            && |data| == |head| + |tail| && data[..|data| - |tail| + 3] == head + DASHES
  {
    assert MACMARK[..3] == DASHES;
  }

  lemma ShareIsArg(share: Bytes)
    requires |share| == 32
    ensures ArgsOk([X25519, Base64.Encode(share)])
  {
    hide Base64.Encode, Base64.Spelled;
    Base64.SpelledEncode(share);
  }

  lemma KeyIsFound(p: Prims, identity: Bytes, fileKey: Bytes, ephemeral: Bytes)
    requires PrimsOk(p) && |fileKey| == 16
    ensures var stanza := StanzaFor(p, p.xPub(identity), fileKey, ephemeral);
            FileKey(p, [stanza], identity) ==
            if p.xShared(ephemeral, p.xPub(identity)) == Zeros(32) then Err(HeaderFailure) else Ok(Some(fileKey))
  {
    hide Base64.Encode, Base64.Decode, Zeros, WrapKey;
    Base64.DecodeUndoesEncode(p.xPub(ephemeral));
  }

  /** Decrypting undoes encrypting for every plaintext, the empty one and exact multiples of a chunk
  included, exactly when the two keys' shared secret is not zero; a file made under a zero secret is
  always refused. */
  lemma DecryptUndoesEncrypt(p: Prims, identity: Bytes, plain: Bytes, fileKey: Bytes, ephemeral: Bytes, nonce: Bytes)
    requires PrimsOk(p) && |fileKey| == 16 && |nonce| == 16
    requires Encrypted(p, p.xPub(identity), plain, fileKey, ephemeral, nonce).Some?
    ensures Decrypted(p, Encrypted(p, p.xPub(identity), plain, fileKey, ephemeral, nonce).value, identity) ==
            if p.xShared(ephemeral, p.xPub(identity)) == Zeros(32) then Err(HeaderFailure) else Ok(plain)
  {
    hide PrimsOk, Parse, HeaderFor, RenderStanza, FileKey, MacOf, Stream.Sealed, Stream.Open, Zeros, StanzaFor;
    var key := p.hkdf(fileKey, PAYLOAD, nonce);
    var payload := Stream.Sealed(p.aead, key, plain, 0).value;
    AeadIsOk(p);
    Stream.OpenUndoesSealed(p.aead, key, plain, 0);
    HeaderReads(p, p.xPub(identity), fileKey, ephemeral, nonce + payload);
    KeyIsFound(p, identity, fileKey, ephemeral);
    assert (nonce + payload)[..16] == nonce && (nonce + payload)[16..] == payload;
  }

  lemma AeadIsOk(p: Prims)
    requires PrimsOk(p)
    ensures Stream.AeadOk(p.aead)
  {
  }

  /** Cut anywhere short of its header's end, a file has no header. */
  lemma CutHeader(p: Prims, recipient: Bytes, fileKey: Bytes, ephemeral: Bytes, payload: Bytes, n: nat)
    requires PrimsOk(p) && n < |HeaderFor(p, recipient, fileKey, ephemeral)|
    ensures Parse((HeaderFor(p, recipient, fileKey, ephemeral) + payload)[..n]) == None
  {
    hide Parse, HeaderFor, PrimsOk, Base64.Encode, RenderStanza;
    var data := HeaderFor(p, recipient, fileKey, ephemeral) + payload;
    HeaderReads(p, recipient, fileKey, ephemeral, payload);
    if Parse(data[..n]).Some? {
      PrefixReadsAlike(data, n);
      assert false;
    }
  }

  /** A header once complete reads the same however much follows it. */
  lemma PrefixReadsAlike(data: Bytes, n: nat)
    requires n <= |data| && Parse(data[..n]).Some?
    ensures var h := Parse(data[..n]).value;
            Parse(data) == Some(Header(h.stanzas, h.mac, RenderMac(h.mac) + (h.payload + data[n..]),
                h.payload + data[n..]))
    ensures |Parse(data[..n]).value.payload| <= n
  {
    hide Parse, Base64.Encode, RenderStanzas, RenderMac;
    ParsedIsCanonical(data[..n]);
    ParsedFits(data[..n]);
    var h := Parse(data[..n]).value;
    ParseUndoesRender(h.stanzas, h.mac, h.payload + data[n..]);
    assert data == data[..n] + data[n..];
    assert data == Render(h.stanzas, h.mac) + (h.payload + data[n..]);
  }

  /** Cut to `n` bytes, the payload after the header and the nonce offers no forged chunk. */
  ghost predicate Unforged(p: Prims, head: Bytes, plain: Bytes, fileKey: Bytes, nonce: Bytes, n: nat) {
    var key := p.hkdf(fileKey, PAYLOAD, nonce);
    var stream := Stream.Sealed(p.aead, key, plain, 0);
    stream.Some? && |head| + 16 <= n <= |head| + 16 + |stream.value| ==>
      Stream.Ideal(p.aead, key, plain, stream.value[..n - |head| - 16])
  }

  /** Every proper truncation of a file is refused, and releases only a beginning of the plaintext. */
  lemma TruncatedFileFails(p: Prims, identity: Bytes, plain: Bytes, fileKey: Bytes, ephemeral: Bytes, nonce: Bytes,
                        n: nat)
    requires PrimsOk(p) && |fileKey| == 16 && |nonce| == 16
    requires var file := Encrypted(p, p.xPub(identity), plain, fileKey, ephemeral, nonce);
             file.Some? && n < |file.value|
    requires Unforged(p, HeaderFor(p, p.xPub(identity), fileKey, ephemeral), plain, fileKey, nonce, n)
    ensures var file := Encrypted(p, p.xPub(identity), plain, fileKey, ephemeral, nonce).value;
            var r := Decrypted(p, file[..n], identity);
            r.Err? && (r.error.PayloadFailure? ==> r.error.released <= plain)
  {
    hide PrimsOk, Parse, HeaderFor, RenderStanza, FileKey, MacOf, Stream.Sealed, Stream.Open, Zeros, StanzaFor,
         Stream.Ideal;
    var head := HeaderFor(p, p.xPub(identity), fileKey, ephemeral);
    var key := p.hkdf(fileKey, PAYLOAD, nonce);
    var stream := Stream.Sealed(p.aead, key, plain, 0).value;
    var payload := nonce + stream;
    if n < |head| {
      CutHeader(p, p.xPub(identity), fileKey, ephemeral, payload, n);
    } else {
      var cut := payload[..n - |head|];
      assert (head + payload)[..n] == head + cut;
      HeaderReads(p, p.xPub(identity), fileKey, ephemeral, cut);
      KeyIsFound(p, identity, fileKey, ephemeral);
      if |cut| >= 16 {
        assert cut[..16] == nonce && cut[16..] == stream[..|cut| - 16];
        AeadIsOk(p);
        Stream.TruncationFails(p.aead, key, plain, |cut| - 16);
      }
    }
  }
}
