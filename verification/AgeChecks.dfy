/** What decrypting an age file turns on: which stanza gives the file key, and that the MAC covers the whole
header. */
module AgeChecks {
  import opened Types
  import Base64
  import opened AgeHeader
  import opened Age
  import Stream

  // ------------------------------------------------------------ one stanza

  /** An X25519 stanza as the specification has it: a share of 32 bytes in canonical base64, and a wrapped
  file key of 32. */
  ghost predicate Proper(s: Stanza, share: Bytes) {
    |s.args| == 2 && s.args[1] == Base64.Encode(share) && |share| == 32 && |s.body| == 32
  }

  /** A proper stanza opens, or does not, under the key both sides derive; one that is not proper, or whose
  shared secret is zero, is a header failure. */
  lemma UnwrapExactly(p: Prims, s: Stanza, identity: Bytes, share: Bytes)
    ensures Proper(s, share) ==>
              var shared := p.xShared(identity, share);
              Unwrap(p, s, identity) ==
              if shared == Zeros(32) then Err(HeaderFailure)
              else Ok(p.aead.open(p.hkdf(shared, VERSION + [47] + X25519, share + p.xPub(identity)), Zeros(12), s.body))
    ensures (forall share' :: !Proper(s, share')) ==> Unwrap(p, s, identity) == Err(HeaderFailure)
  {
    hide Base64.Encode, Base64.Decode, Zeros;
    if Proper(s, share) {
      Base64.DecodeUndoesEncode(share);
    }
    if |s.args| == 2 && Base64.Decode(s.args[1]).Some? {
      var share' := Base64.Decode(s.args[1]).value;
      Base64.DecodedIsCanonical(s.args[1]);
      assert |share'| == 32 && |s.body| == 32 ==> Proper(s, share');
    }
  }

  // ------------------------------------------------------------ all stanzas

  ghost predicate ForX25519(s: Stanza) {
    s.args != [] && s.args[0] == X25519
  }

  /** The stanza is somebody else's. */
  ghost predicate Passed(p: Prims, s: Stanza, identity: Bytes) {
    ForX25519(s) ==> Unwrap(p, s, identity) == Ok(None)
  }

  /** The first X25519 stanza that is not passed decides: it gives the file key, or is malformed. If all are
  passed there is none. */
  lemma {:induction false} FirstDecides(p: Prims, stanzas: seq<Stanza>, identity: Bytes, i: nat)
    requires i <= |stanzas| && forall j :: 0 <= j < i ==> Passed(p, stanzas[j], identity)
    ensures i == |stanzas| ==> FileKey(p, stanzas, identity) == Ok(None)
    ensures i < |stanzas| && !Passed(p, stanzas[i], identity) ==>
              FileKey(p, stanzas, identity) == Unwrap(p, stanzas[i], identity)
    decreases |stanzas|
  {
    hide Unwrap;
    if i > 0 {
      assert Passed(p, stanzas[0], identity);
      FirstDecides(p, stanzas[1..], identity, i - 1);
    }
  }

  // ------------------------------------------------------------ the MAC

  /** What the MAC covers: the whole header up to and including the dashes. */
  ghost function Covered(stanzas: seq<Stanza>): Bytes
    requires forall i :: 0 <= i < |stanzas| ==> stanzas[i].args != []
  {
    VERSION + [NEWLINE] + RenderStanzas(stanzas) + DASHES
  }

  lemma CoveredIs(data: Bytes)
    requires Parse(data).Some?
    ensures var h := Parse(data).value;
            && StanzasOk(h.stanzas) && 3 <= |h.macLine| <= |data| && MacInput(data, h) == Covered(h.stanzas)
  {
    hide Line, Stanzas, RenderStanzas, Base64.Encode, ArgOk;
    LineIs(data);
    var (line, rest) := Line(data).value;
    StanzasIs(rest);
    var h := Parse(data).value;
    var t := RenderStanzas(h.stanzas);
    CoveredByMac(VERSION + [NEWLINE] + t, Base64.Encode(h.mac), h.payload);
    assert data == VERSION + [NEWLINE] + t + (MACMARK + Base64.Encode(h.mac) + [NEWLINE]) + h.payload;
  }

  /** A file that decrypts carries the MAC of its whole header under the key its stanzas give. */
  lemma MacIsChecked(p: Prims, data: Bytes, identity: Bytes)
    requires Decrypted(p, data, identity).Ok?
    ensures Parse(data).Some?
    ensures var h := Parse(data).value;
            && StanzasOk(h.stanzas)
            && var key := FileKey(p, h.stanzas, identity);
               && key.Ok? && key.value.Some?
               && h.mac == p.hmac(p.hkdf(key.value.value, HEADER, []), Covered(h.stanzas))
  {
    hide Parse, FileKey, OpenPayload, RenderStanzas, ArgOk;
    CoveredIs(data);
  }

  /** What any well-formed file decrypts to: decided by its stanzas, then by its MAC, then by its payload. */
  lemma DecryptsTo(p: Prims, stanzas: seq<Stanza>, mac: Bytes, payload: Bytes, identity: Bytes)
    requires StanzasOk(stanzas) && |mac| == 32
    ensures Decrypted(p, Render(stanzas, mac) + payload, identity) ==
            match FileKey(p, stanzas, identity)
            case Err(e) => Err(e)
            case Ok(None) => Err(NoMatch)
            case Ok(Some(key)) =>
              if p.hmac(p.hkdf(key, HEADER, []), Covered(stanzas)) != mac then Err(HmacFailure)
              else OpenPayload(p, key, payload)
  {
    hide Parse, FileKey, OpenPayload, Render, RenderMac, ArgOk, MacInput;
    ParseUndoesRender(stanzas, mac, payload);
    CoveredIs(Render(stanzas, mac) + payload);
  }

  /** Two headers that differ in a stanza differ in what their MACs cover. */
  lemma CoveredDiffers(stanzas: seq<Stanza>, stanzas': seq<Stanza>)
    requires StanzasOk(stanzas) && StanzasOk(stanzas') && stanzas != stanzas'
    ensures Covered(stanzas) != Covered(stanzas')
  {
    hide RenderStanzas, ArgOk, Parse;
    if Covered(stanzas) == Covered(stanzas') {
      var mac: Bytes := Zeros(32);
      CoveredAndTail(stanzas, mac);
      CoveredAndTail(stanzas', mac);
      ParseUndoesRender(stanzas, mac, []);
      ParseUndoesRender(stanzas', mac, []);
    }
  }

  lemma CoveredAndTail(stanzas: seq<Stanza>, mac: Bytes)
    requires forall i :: 0 <= i < |stanzas| ==> stanzas[i].args != []
    ensures Render(stanzas, mac) == Covered(stanzas) + ([SPACE] + Base64.Encode(mac) + [NEWLINE])
  {
    hide RenderStanzas, Base64.Encode;
    var head, e := VERSION + [NEWLINE] + RenderStanzas(stanzas), Base64.Encode(mac);
    assert MACMARK == DASHES + [SPACE];
    assert head + (MACMARK + e + [NEWLINE]) == head + DASHES + ([SPACE] + e + [NEWLINE]);
  }

  // ------------------------------------------------------------ what decrypts

  /** A file made for the holder, by whoever knows the file key its stanzas give. */
  ghost predicate MadeFor(p: Prims, data: Bytes, identity: Bytes, plain: Bytes, stanzas: seq<Stanza>, key: Bytes,
                          nonce: Bytes)
  {
    && StanzasOk(stanzas) && FileKey(p, stanzas, identity) == Ok(Some(key)) && |nonce| == 16
    && var payload := Stream.Sealed(p.aead, p.hkdf(key, PAYLOAD, nonce), plain, 0);
       && payload.Some?
       && data == Render(stanzas, p.hmac(p.hkdf(key, HEADER, []), Covered(stanzas))) + (nonce + payload.value)
  }

  /** A file decrypts to a plaintext if and only if it is a header with its MAC, then a nonce, then that
  plaintext sealed under the key derived from both. */
  lemma DecryptsExactly(p: Prims, data: Bytes, identity: Bytes, plain: Bytes)
    requires PrimsOk(p) && Stream.Tight(p.aead)
    ensures Decrypted(p, data, identity) == Ok(plain) <==>
              exists stanzas, key, nonce :: MadeFor(p, data, identity, plain, stanzas, key, nonce)
  {
    hide PrimsOk, MadeFor, Decrypted, Stream.Tight;
    if Decrypted(p, data, identity) == Ok(plain) {
      var stanzas, key, nonce := DecryptedIsMade(p, data, identity, plain);
    }
    forall stanzas, key, nonce | MadeFor(p, data, identity, plain, stanzas, key, nonce)
      ensures Decrypted(p, data, identity) == Ok(plain)
    {
      MadeDecrypts(p, data, identity, plain, stanzas, key, nonce);
    }
  }

  lemma MadeDecrypts(p: Prims, data: Bytes, identity: Bytes, plain: Bytes, stanzas: seq<Stanza>, key: Bytes,
                     nonce: Bytes)
    requires PrimsOk(p) && MadeFor(p, data, identity, plain, stanzas, key, nonce)
    ensures Decrypted(p, data, identity) == Ok(plain)
  {
    hide Decrypted, FileKey, Render, Covered, Stream.Sealed, OpenPayload, PrimsOk, ArgOk;
    var stream := Stream.Sealed(p.aead, p.hkdf(key, PAYLOAD, nonce), plain, 0).value;
    var macKey := p.hkdf(key, HEADER, []);
    MacSize(p, macKey, Covered(stanzas));
    DecryptsTo(p, stanzas, p.hmac(macKey, Covered(stanzas)), nonce + stream, identity);
    PayloadOpens(p, key, nonce, plain);
  }

  lemma PayloadOpens(p: Prims, fileKey: Bytes, nonce: Bytes, plain: Bytes)
    requires PrimsOk(p) && |nonce| == 16 && Stream.Sealed(p.aead, p.hkdf(fileKey, PAYLOAD, nonce), plain, 0).Some?
    ensures OpenPayload(p, fileKey, nonce + Stream.Sealed(p.aead, p.hkdf(fileKey, PAYLOAD, nonce), plain, 0).value)
            == Ok(plain)
  {
    hide PrimsOk, Stream.Sealed, Stream.Open;
    var key := p.hkdf(fileKey, PAYLOAD, nonce);
    var stream := Stream.Sealed(p.aead, key, plain, 0).value;
    AeadIsOk(p);
    Stream.OpenUndoesSealed(p.aead, key, plain, 0);
    assert (nonce + stream)[..16] == nonce && (nonce + stream)[16..] == stream;
  }

  lemma DecryptedIsMade(p: Prims, data: Bytes, identity: Bytes, plain: Bytes)
    returns (stanzas: seq<Stanza>, key: Bytes, nonce: Bytes)
    requires PrimsOk(p) && Stream.Tight(p.aead) && Decrypted(p, data, identity) == Ok(plain)
    ensures MadeFor(p, data, identity, plain, stanzas, key, nonce)
  {
    hide Parse, FileKey, Render, RenderStanzas, Stream.Sealed, Stream.Open, PrimsOk, ArgOk, Stream.Tight;
    MacIsChecked(p, data, identity);
    ParsedIsCanonical(data);
    var h := Parse(data).value;
    stanzas := h.stanzas;
    key := FileKey(p, stanzas, identity).value.value;
    nonce := h.payload[..16];
    AeadIsOk(p);
    Stream.OpenedIsSealed(p.aead, p.hkdf(key, PAYLOAD, nonce), h.payload[16..], 0);
    assert h.payload == nonce + h.payload[16..];
  }

  // ------------------------------------------------------------ tampering

  /** The file decrypts with the MAC of its header, and with any other is an HMAC failure. */
  ghost predicate MacDecides(p: Prims, stanzas: seq<Stanza>, mac: Bytes, payload: Bytes, identity: Bytes, key: Bytes,
                             plain: Bytes)
    requires forall i :: 0 <= i < |stanzas| ==> stanzas[i].args != []
  {
    Decrypted(p, Render(stanzas, mac) + payload, identity) ==
    if mac == p.hmac(p.hkdf(key, HEADER, []), Covered(stanzas)) then Ok(plain) else Err(HmacFailure)
  }

  /** An encrypted file whose MAC is replaced decrypts exactly when it is replaced by itself. */
  lemma ReplacedMac(p: Prims, identity: Bytes, plain: Bytes, fileKey: Bytes, ephemeral: Bytes, nonce: Bytes, mac: Bytes)
    requires PrimsOk(p) && |fileKey| == 16 && |nonce| == 16 && |mac| == 32
    requires p.xShared(ephemeral, p.xPub(identity)) != Zeros(32)
    requires Stream.Sealed(p.aead, p.hkdf(fileKey, PAYLOAD, nonce), plain, 0).Some?
    ensures var stanza := StanzaFor(p, p.xPub(identity), fileKey, ephemeral);
            var payload := nonce + Stream.Sealed(p.aead, p.hkdf(fileKey, PAYLOAD, nonce), plain, 0).value;
            MacDecides(p, [stanza], mac, payload, identity, fileKey, plain)
  {
    hide Decrypted, FileKey, Render, Covered, Stream.Sealed, OpenPayload, WrapKey, PrimsOk, Zeros, ArgOk;
    var stanza := StanzaFor(p, p.xPub(identity), fileKey, ephemeral);
    KeyIsFound(p, identity, fileKey, ephemeral);
    ShareSize(p, ephemeral);
    ShareIsArg(p.xPub(ephemeral));
    var stream := Stream.Sealed(p.aead, p.hkdf(fileKey, PAYLOAD, nonce), plain, 0).value;
    DecryptsTo(p, [stanza], mac, nonce + stream, identity);
    PayloadOpens(p, fileKey, nonce, plain);
  }

  lemma ShareSize(p: Prims, ephemeral: Bytes)
    requires PrimsOk(p)
    ensures |p.xPub(ephemeral)| == 32
  {
  }

  /** With its stanzas altered so that they still give the file key, a file fails too, unless what its MAC
  now covers collides with what it covered. */
  lemma AlteredHeader(p: Prims, stanzas: seq<Stanza>, stanzas': seq<Stanza>, payload: Bytes, identity: Bytes,
                      fileKey: Bytes)
    requires StanzasOk(stanzas) && StanzasOk(stanzas') && stanzas != stanzas' && PrimsOk(p)
    requires FileKey(p, stanzas', identity) == Ok(Some(fileKey))
    ensures var macKey := p.hkdf(fileKey, HEADER, []);
            var mac := p.hmac(macKey, Covered(stanzas));
            && Covered(stanzas') != Covered(stanzas)
            && (Decrypted(p, Render(stanzas', mac) + payload, identity) == Err(HmacFailure) <==>
                  p.hmac(macKey, Covered(stanzas')) != p.hmac(macKey, Covered(stanzas)))
  {
    hide FileKey, Covered, Render, ArgOk, Stream.Open, RenderStanzas;
    var mac := p.hmac(p.hkdf(fileKey, HEADER, []), Covered(stanzas));
    CoveredDiffers(stanzas, stanzas');
    DecryptsTo(p, stanzas', mac, payload, identity);
  }

  // ------------------------------------------------------------ several recipients

  /** A file for several recipients decrypts for each: with the stanzas before ours passed, whatever comes
  after it. */
  lemma DecryptsAmongMany(p: Prims, identity: Bytes, before: seq<Stanza>, after: seq<Stanza>, plain: Bytes,
                          fileKey: Bytes, ephemeral: Bytes, nonce: Bytes)
    requires PrimsOk(p) && |fileKey| == 16 && |nonce| == 16 && StanzasOk(before) && StanzasOk(after)
    requires forall j :: 0 <= j < |before| ==> Passed(p, before[j], identity)
    requires p.xShared(ephemeral, p.xPub(identity)) != Zeros(32)
    requires Stream.Sealed(p.aead, p.hkdf(fileKey, PAYLOAD, nonce), plain, 0).Some?
    ensures var stanzas := before + [StanzaFor(p, p.xPub(identity), fileKey, ephemeral)] + after;
            && StanzasOk(stanzas)
            && var mac := p.hmac(p.hkdf(fileKey, HEADER, []), Covered(stanzas));
               var payload := nonce + Stream.Sealed(p.aead, p.hkdf(fileKey, PAYLOAD, nonce), plain, 0).value;
               Decrypted(p, Render(stanzas, mac) + payload, identity) == Ok(plain)
  {
    hide Decrypted, FileKey, Render, Covered, Stream.Sealed, OpenPayload, WrapKey, PrimsOk, Zeros, Passed, Unwrap;
    var ours := StanzaFor(p, p.xPub(identity), fileKey, ephemeral);
    var stanzas := before + [ours] + after;
    var stream := Stream.Sealed(p.aead, p.hkdf(fileKey, PAYLOAD, nonce), plain, 0).value;
    ShareSize(p, ephemeral);
    ShareIsArg(p.xPub(ephemeral));
    KeyIsFound(p, identity, fileKey, ephemeral);
    OneStanzaKey(p, ours, identity);
    assert stanzas[|before|] == ours;
    OursIsNotPassed(p, ours, identity);
    FirstDecides(p, stanzas, identity, |before|);
    MacSize(p, p.hkdf(fileKey, HEADER, []), Covered(stanzas));
    DecryptsTo(p, stanzas, p.hmac(p.hkdf(fileKey, HEADER, []), Covered(stanzas)), nonce + stream, identity);
    PayloadOpens(p, fileKey, nonce, plain);
  }

  lemma OursIsNotPassed(p: Prims, s: Stanza, identity: Bytes)
    requires ForX25519(s) && Unwrap(p, s, identity) != Ok(None)
    ensures !Passed(p, s, identity)
  {
    hide Unwrap;
  }

  lemma MacSize(p: Prims, k: Bytes, d: Bytes)
    requires PrimsOk(p)
    ensures |p.hmac(k, d)| == 32
  {
  }

  lemma OneStanzaKey(p: Prims, s: Stanza, identity: Bytes)
    requires ForX25519(s)
    ensures FileKey(p, [s], identity) == Unwrap(p, s, identity)
  {
    hide Unwrap;
  }
}
