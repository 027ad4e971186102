/** Key bundles: the plaintext a holder's seal carries, and who may open what. */
module Bundles {
  import opened Types
  import Stream

  const ZERO16: Bytes := [0, 0, 0, 0, 0, 0, 0, 0, 0, 0, 0, 0, 0, 0, 0, 0]

  type Id16 = b: Bytes | |b| == 16 witness ZERO16
  type Key32 = b: Bytes | |b| == 32 witness ZERO16 + ZERO16
  type u32 = x: int | 0 <= x < 0x1_0000_0000

  const VERSION: byte := 2
  const CHILD: byte := 7
  const HEADER: nat := 38

  /** The token id an owner's own bundle and a child key carry. */
  const OwnerToken: Id16 := ZERO16

  datatype Bundle =
    | NamesOnly(generation: u32, nameKey: Key32)
    | Appender(generation: u32, nameKey: Key32, secretWriter: Key32, configWriter: Key32)
    | ConfigReader(generation: u32, nameKey: Key32, configSecret: Key32)
    | ConfigEditor(generation: u32, nameKey: Key32, configSecret: Key32, configWriter: Key32)
    | Reader(generation: u32, nameKey: Key32, vaultSecret: Key32, configSecret: Key32)
    | Full(generation: u32, nameKey: Key32, vaultSecret: Key32, configSecret: Key32, secretWriter: Key32,
        configWriter: Key32)
  {
    function Kind(): byte {
      match this
      case NamesOnly(_, _) => 1
      case Appender(_, _, _, _) => 2
      case ConfigReader(_, _, _) => 3
      case ConfigEditor(_, _, _, _) => 4
      case Reader(_, _, _, _) => 5
      case Full(_, _, _, _, _, _) => 6
    }

    /** The key that opens secrets, where it is held. */
    function VaultSecret(): Option<Key32> {
      if Reader? || Full? then Some(vaultSecret) else None
    }

    /** Likewise for configs. */
    function ConfigSecret(): Option<Key32> {
      if ConfigReader? || ConfigEditor? || Reader? || Full? then Some(configSecret) else None
    }

    /** The key that signs secrets. */
    function SecretWriter(): Option<Key32> {
      if Appender? || Full? then Some(secretWriter) else None
    }

    /** The key that signs configs. */
    function ConfigWriter(): Option<Key32> {
      if Appender? || ConfigEditor? || Full? then Some(configWriter) else None
    }

    /** The keys, in the order they are written. */
    function Keys(): seq<Key32> {
      match this
      case NamesOnly(_, n) => [n]
      case Appender(_, n, s, c) => [n, s, c]
      case ConfigReader(_, n, c) => [n, c]
      case ConfigEditor(_, n, c, w) => [n, c, w]
      case Reader(_, n, v, c) => [n, v, c]
      case Full(_, n, v, c, s, w) => [n, v, c, s, w]
    }
  }

  /** Whom a plaintext is for. */
  datatype Binding = Binding(vault: Id16, token: Id16, generation: u32)

  datatype KeyError = Truncated | UnknownVersion(v: byte) | WrongKind | Unbound | BadLength | UnknownKind(k: byte)

  // ------------------------------------------------------------ writing

  function Concat(keys: seq<Key32>): (b: Bytes)
    ensures |b| == 32 * |keys|
  {
    if keys == [] then [] else keys[0] + Concat(keys[1..])
  }

  function Head(kind: byte, b: Binding): (h: Bytes)
    ensures |h| == HEADER
  {
    [VERSION, kind] + b.vault + b.token + Stream.BigEndian(b.generation, 4)
  }

  function Plaintext(kind: byte, b: Binding, keys: seq<Key32>): Bytes {
    Head(kind, b) + Concat(keys)
  }

  function Encode(bundle: Bundle, vault: Id16, token: Id16): Bytes {
    Plaintext(bundle.Kind(), Binding(vault, token, bundle.generation), bundle.Keys())
  }

  function EncodeChild(key: Key32, parent: Id16): Bytes {
    Plaintext(CHILD, Binding(parent, OwnerToken, 0), [key])
  }

  lemma {:induction false} ConcatSnoc(keys: seq<Key32>, key: Key32)
    ensures Concat(keys + [key]) == Concat(keys) + key
    decreases |keys|
  {
    if keys == [] {
      assert keys + [key] == [key];
      assert [key][1..] == [];
    } else {
      assert (keys + [key])[1..] == keys[1..] + [key];
      ConcatSnoc(keys[1..], key);
    }
  }

  /** The buffer, filled piece by piece. */
  method WritePlaintext(kind: byte, b: Binding, keys: seq<Key32>) returns (p: Bytes)
    ensures p == Plaintext(kind, b, keys)
  {
    p := [VERSION, kind];
    p := p + b.vault;
    p := p + b.token;
    p := p + Stream.BigEndian(b.generation, 4);
    for i := 0 to |keys|
      invariant p == Head(kind, b) + Concat(keys[..i])
    {
      assert keys[..i + 1] == keys[..i] + [keys[i]];
      ConcatSnoc(keys[..i], keys[i]);
      p := p + keys[i];
    }
    assert keys[..|keys|] == keys;
  }

  // ------------------------------------------------------------ reading

  function KeyAt(p: Bytes, i: nat): Key32
    requires |p| >= HEADER + 32 * (i + 1)
  {
    p[HEADER + 32 * i..HEADER + 32 * (i + 1)]
  }

  /** The version first, so that an unknown one is refused whatever its length. */
  function CheckHead(p: Bytes): Result<(), KeyError> {
    if p == [] then Err(Truncated)
    else if p[0] != VERSION then Err(UnknownVersion(p[0]))
    else if |p| < HEADER then Err(Truncated)
    else Ok(())
  }

  function CheckBinding(p: Bytes, b: Binding): Result<(), KeyError>
    requires |p| >= HEADER
  {
    if p[2..18] != b.vault || p[18..34] != b.token || p[34..38] != Stream.BigEndian(b.generation, 4)
    then Err(Unbound) else Ok(())
  }

  function Open(p: Bytes, b: Binding): Result<Bundle, KeyError> {
    var _ :- CheckHead(p);
    if p[1] == CHILD then Err(WrongKind) else
      var _ :- CheckBinding(p, b);
      var body := |p| - HEADER;
      var g := b.generation;
      if p[1] == 1 && body == 32 then Ok(NamesOnly(g, KeyAt(p, 0)))
      else if p[1] == 2 && body == 96 then Ok(Appender(g, KeyAt(p, 0), KeyAt(p, 1), KeyAt(p, 2)))
      else if p[1] == 3 && body == 64 then Ok(ConfigReader(g, KeyAt(p, 0), KeyAt(p, 1)))
      else if p[1] == 4 && body == 96 then Ok(ConfigEditor(g, KeyAt(p, 0), KeyAt(p, 1), KeyAt(p, 2)))
      else if p[1] == 5 && body == 96 then Ok(Reader(g, KeyAt(p, 0), KeyAt(p, 1), KeyAt(p, 2)))
      else if p[1] == 6 && body == 160 then
        Ok(Full(g, KeyAt(p, 0), KeyAt(p, 1), KeyAt(p, 2), KeyAt(p, 3), KeyAt(p, 4)))
      else if 1 <= p[1] <= 6 then Err(BadLength)
      else Err(UnknownKind(p[1]))
  }

  function OpenChild(p: Bytes, parent: Id16): Result<Key32, KeyError> {
    var _ :- CheckHead(p);
    if p[1] != CHILD then Err(WrongKind) else
      var _ :- CheckBinding(p, Binding(parent, OwnerToken, 0));
      if |p| != HEADER + 32 then Err(BadLength) else Ok(KeyAt(p, 0))
  }

  // ------------------------------------------------------------ the round trip

  /** The header checks hold exactly of what begins with that header. */
  lemma HeadIs(p: Bytes, b: Binding)
    ensures CheckHead(p).Ok? && CheckBinding(p, b).Ok? <==> |p| >= HEADER && p[..HEADER] == Head(p[1], b)
  {
    var g := Stream.BigEndian(b.generation, 4);
    if |p| >= HEADER {
      var h := Head(p[1], b);
      assert h[2..18] == b.vault && h[18..34] == b.token && h[34..38] == g;
      assert p[..HEADER][2..18] == p[2..18] && p[..HEADER][18..34] == p[18..34] && p[..HEADER][34..38] == p[34..38];
      assert p[..HEADER] == [p[0], p[1]] + p[2..18] + p[18..34] + p[34..38];
    }
  }

  lemma {:induction false} ConcatAt(keys: seq<Key32>, i: nat)
    requires i < |keys|
    ensures Concat(keys)[32 * i..32 * (i + 1)] == keys[i]
    decreases i
  {
    var c, rest := Concat(keys), Concat(keys[1..]);
    if i > 0 {
      ConcatAt(keys[1..], i - 1);
      assert c[32 * i..32 * (i + 1)] == rest[32 * (i - 1)..32 * i];
    }
  }

  lemma KeyRead(kind: byte, b: Binding, keys: seq<Key32>, i: nat)
    requires i < |keys|
    ensures var p := Plaintext(kind, b, keys); |p| == HEADER + 32 * |keys| && KeyAt(p, i) == keys[i]
  {
    hide Head, Concat;
    ConcatAt(keys, i);
    var h, c := Head(kind, b), Concat(keys);
    assert (h + c)[HEADER + 32 * i..HEADER + 32 * (i + 1)] == c[32 * i..32 * (i + 1)];
  }

  lemma HeadRead(kind: byte, b: Binding, keys: seq<Key32>)
    ensures var p := Plaintext(kind, b, keys);
            |p| == HEADER + 32 * |keys| && p[1] == kind && p[..HEADER] == Head(kind, b)
  {
    hide Concat;
  }

  /** Where everything is in a plaintext. */
  ghost predicate LaidOut(p: Bytes, kind: int, vault: Id16, token: Id16, generation: u32, body: Bytes) {
    && |p| == 38 + |body| && p[0] == 2 && p[1] as int == kind && p[2..18] == vault && p[18..34] == token
    && p[34] as int * 16777216 + p[35] as int * 65536 + p[36] as int * 256 + p[37] as int == generation
    && p[38..] == body
  }

  lemma PlaintextIs(kind: byte, b: Binding, keys: seq<Key32>)
    ensures LaidOut(Plaintext(kind, b, keys), kind as int, b.vault, b.token, b.generation, Concat(keys))
  {
    hide Concat;
    var p, g := Plaintext(kind, b, keys), Stream.BigEndian(b.generation, 4);
    FourBytes(b.generation);
    assert p == [VERSION, kind] + b.vault + b.token + g + Concat(keys);
    assert p[34] == g[0] && p[35] == g[1] && p[36] == g[2] && p[37] == g[3];
  }

  lemma FourBytes(x: u32)
    ensures var g := Stream.BigEndian(x, 4);
            g[0] as int * 16777216 + g[1] as int * 65536 + g[2] as int * 256 + g[3] as int == x
  {
    var a, b, c := x / 256, x / 256 / 256, x / 256 / 256 / 256;
    assert Stream.BigEndian(c, 1) == [c as byte];
    assert Stream.BigEndian(b, 2) == [c as byte, (b % 256) as byte];
    assert Stream.BigEndian(a, 3) == [c as byte, (b % 256) as byte, (a % 256) as byte];
  }

  /** The format, byte by byte: version 2, the kind's number, the binding, and each kind's keys in order. */
  lemma Layout(bundle: Bundle, vault: Id16, token: Id16)
    ensures var p, g := Encode(bundle, vault, token), bundle.generation;
            match bundle
            case NamesOnly(_, n) => LaidOut(p, 1, vault, token, g, n)
            case Appender(_, n, s, c) => LaidOut(p, 2, vault, token, g, n + s + c)
            case ConfigReader(_, n, c) => LaidOut(p, 3, vault, token, g, n + c)
            case ConfigEditor(_, n, c, w) => LaidOut(p, 4, vault, token, g, n + c + w)
            case Reader(_, n, v, c) => LaidOut(p, 5, vault, token, g, n + v + c)
            case Full(_, n, v, c, s, w) => LaidOut(p, 6, vault, token, g, n + v + c + s + w)
  {
    hide LaidOut, Plaintext;
    PlaintextIs(bundle.Kind(), Binding(vault, token, bundle.generation), bundle.Keys());
    match bundle
    case NamesOnly(_, n) => ConcatIs(n, n, n, n, n);
    case Appender(_, n, s, c) => ConcatIs(n, s, c, n, n);
    case ConfigReader(_, n, c) => ConcatIs(n, c, n, n, n);
    case ConfigEditor(_, n, c, w) => ConcatIs(n, c, w, n, n);
    case Reader(_, n, v, c) => ConcatIs(n, v, c, n, n);
    case Full(_, n, v, c, s, w) => ConcatIs(n, v, c, s, w);
  }

  lemma ChildLayout(key: Key32, parent: Id16)
    ensures LaidOut(EncodeChild(key, parent), 7, parent, seq(16, _ => 0), 0, key)
  {
    hide LaidOut, Plaintext;
    PlaintextIs(CHILD, Binding(parent, OwnerToken, 0), [key]);
    ConcatIs(key, key, key, key, key);
    assert OwnerToken == seq(16, _ => 0);
  }

  lemma ConcatIs(a: Bytes, b: Bytes, c: Bytes, d: Bytes, e: Bytes)
    requires |a| == |b| == |c| == |d| == |e| == 32
    ensures Concat([a]) == a && Concat([a, b]) == a + b && Concat([a, b, c]) == a + b + c
    ensures Concat([a, b, c, d, e]) == a + b + c + d + e
  {
    assert [a, b] == [a] + [b] && [a, b, c] == [a, b] + [c];
    assert [a, b, c, d] == [a, b, c] + [d] && [a, b, c, d, e] == [a, b, c, d] + [e];
    ConcatSnoc([], a);
    ConcatSnoc([a], b);
    ConcatSnoc([a, b], c);
    ConcatSnoc([a, b, c], d);
    ConcatSnoc([a, b, c, d], e);
  }

  /** Opening an encoded bundle under its own binding gives it back. */
  lemma OpenUndoesEncode(bundle: Bundle, vault: Id16, token: Id16)
    ensures Open(Encode(bundle, vault, token), Binding(vault, token, bundle.generation)) == Ok(bundle)
  {
    hide Plaintext, CheckHead, CheckBinding, KeyAt;
    var b := Binding(vault, token, bundle.generation);
    var keys := bundle.Keys();
    HeadRead(bundle.Kind(), b, keys);
    HeadIs(Encode(bundle, vault, token), b);
    KeyRead(bundle.Kind(), b, keys, 0);
    if |keys| > 1 {
      KeyRead(bundle.Kind(), b, keys, 1);
    }
    if |keys| > 2 {
      KeyRead(bundle.Kind(), b, keys, 2);
    }
    if |keys| > 3 {
      KeyRead(bundle.Kind(), b, keys, 3);
      KeyRead(bundle.Kind(), b, keys, 4);
    }
  }

  /** The first `n` keys of a plaintext. */
  function KeysOf(p: Bytes, n: nat): (keys: seq<Key32>)
    requires |p| >= HEADER + 32 * n
    ensures |keys| == n && forall i :: 0 <= i < n ==> keys[i] == KeyAt(p, i)
    decreases n
  {
    if n == 0 then [] else KeysOf(p, n - 1) + [KeyAt(p, n - 1)]
  }

  lemma {:induction false} KeysCover(p: Bytes, n: nat)
    requires |p| >= HEADER + 32 * n
    ensures Concat(KeysOf(p, n)) == p[HEADER..HEADER + 32 * n]
    decreases n
  {
    if n > 0 {
      KeysCover(p, n - 1);
      ConcatSnoc(KeysOf(p, n - 1), KeyAt(p, n - 1));
      assert p[HEADER..HEADER + 32 * n] == p[HEADER..HEADER + 32 * (n - 1)] + p[HEADER + 32 * (n - 1)..HEADER + 32 * n];
    }
  }

  lemma Rewritten(p: Bytes, b: Binding, n: nat)
    requires |p| == HEADER + 32 * n && p[..HEADER] == Head(p[1], b)
    ensures p == Plaintext(p[1], b, KeysOf(p, n))
  {
    hide Head, Concat, KeysOf;
    KeysCover(p, n);
    assert p == p[..HEADER] + p[HEADER..HEADER + 32 * n];
  }

  /** An accepted plaintext is exactly what encoding the bundle gives. */
  lemma OpenedIsCanonical(p: Bytes, b: Binding)
    requires Open(p, b).Ok?
    ensures Encode(Open(p, b).value, b.vault, b.token) == p && Open(p, b).value.generation == b.generation
  {
    hide Plaintext, CheckHead, CheckBinding, KeyAt;
    HeadIs(p, b);
    var bundle := Open(p, b).value;
    var n := |bundle.Keys()|;
    Rewritten(p, b, n);
    assert KeysOf(p, n) == bundle.Keys();
  }

  /** So a plaintext opens under a binding exactly when it is that bundle's encoding under it. */
  lemma OpensExactly(p: Bytes, b: Binding, bundle: Bundle)
    ensures Open(p, b) == Ok(bundle) <==> p == Encode(bundle, b.vault, b.token) && bundle.generation == b.generation
  {
    hide Open, Encode;
    if Open(p, b) == Ok(bundle) {
      OpenedIsCanonical(p, b);
    }
    OpenUndoesEncode(bundle, b.vault, b.token);
  }

  lemma ChildOpensExactly(p: Bytes, parent: Id16, key: Key32)
    ensures OpenChild(p, parent) == Ok(key) <==> p == EncodeChild(key, parent)
  {
    hide Plaintext, CheckHead, CheckBinding, KeyAt;
    var b := Binding(parent, OwnerToken, 0);
    HeadIs(p, b);
    if OpenChild(p, parent) == Ok(key) {
      Rewritten(p, b, 1);
      assert KeysOf(p, 1) == [key];
    }
    if p == EncodeChild(key, parent) {
      HeadRead(CHILD, b, [key]);
      KeyRead(CHILD, b, [key], 0);
    }
  }

  /** No plaintext is both a bundle and a child key, whatever it is opened as. */
  lemma NeverBoth(p: Bytes, b: Binding, parent: Id16)
    ensures !(Open(p, b).Ok? && OpenChild(p, parent).Ok?)
  {
  }

  lemma BigEndianApart(x: u32, y: u32)
    requires Stream.BigEndian(x, 4) == Stream.BigEndian(y, 4)
    ensures x == y
  {
    assert Stream.Power(4) == 0x1_0000_0000;
    Stream.BigEndianIsInjective(x, y, 4);
  }

  /** A plaintext opens under one binding at most: no bundle moves between vaults, tokens or generations. */
  lemma OneBinding(p: Bytes, b: Binding, b': Binding)
    requires Open(p, b).Ok? && Open(p, b').Ok?
    ensures b == b'
  {
    hide KeyAt, Stream.BigEndian;
    BigEndianApartIf(b.generation, b'.generation);
  }

  lemma BigEndianApartIf(x: u32, y: u32)
    ensures Stream.BigEndian(x, 4) == Stream.BigEndian(y, 4) ==> x == y
  {
    hide Stream.BigEndian;
    if Stream.BigEndian(x, 4) == Stream.BigEndian(y, 4) {
      BigEndianApart(x, y);
    }
  }

  // ------------------------------------------------------------ scopes

  function ForScope(full: Bundle, scope: Scope): Bundle
    requires full.Full?
  {
    match scope
    case Meta => NamesOnly(full.generation, full.nameKey)
    case Append => Appender(full.generation, full.nameKey, full.secretWriter, full.configWriter)
    case ConfigRead => ConfigReader(full.generation, full.nameKey, full.configSecret)
    case ConfigWrite => ConfigEditor(full.generation, full.nameKey, full.configSecret, full.configWriter)
    case ReadOnly => Reader(full.generation, full.nameKey, full.vaultSecret, full.configSecret)
    case Admin => full
  }

  function ScopeKind(scope: Scope): byte {
    match scope
    case Meta => 1 case Append => 2 case ConfigRead => 3
    case ConfigWrite => 4 case ReadOnly => 5 case Admin => 6
  }

  predicate ExpectScope(bundle: Bundle, scope: Scope) {
    bundle.Kind() == ScopeKind(scope)
  }

  /** A minted plaintext is accepted by exactly the holder it was minted for: same vault, same token, same
  generation, same scope; and it then carries the scope's own keys and no others. */
  lemma MintedForOne(full: Bundle, scope: Scope, vault: Id16, token: Id16, b: Binding, scope': Scope)
    requires full.Full?
    ensures var p := Encode(ForScope(full, scope), vault, token);
            var o := Open(p, b);
            && (o.Ok? && ExpectScope(o.value, scope') <==>
                b == Binding(vault, token, full.generation) && scope' == scope)
            && (o.Ok? ==> o.value == ForScope(full, scope))
  {
    hide Open, Encode;
    var bundle := ForScope(full, scope);
    var own := Binding(vault, token, full.generation);
    var p := Encode(bundle, vault, token);
    OpenUndoesEncode(bundle, vault, token);
    if Open(p, b).Ok? {
      OneBinding(p, b, own);
    }
  }

  /** What a token reads out of the plaintext minted for its scope: the name key and, of the four others,
  exactly those of its scope, each the generation's own. Only `read` and `admin` open secrets, `meta` and
  `append` open nothing, and only `append` and `admin` write secrets. */
  lemma ScopeHolds(full: Bundle, scope: Scope, vault: Id16, token: Id16)
    requires full.Full?
    ensures var o := Open(Encode(ForScope(full, scope), vault, token), Binding(vault, token, full.generation));
            && o.Ok? && o.value.nameKey == full.nameKey && o.value.generation == full.generation
            && o.value.VaultSecret() == (if scope in {ReadOnly, Admin} then Some(full.vaultSecret) else None)
            && o.value.ConfigSecret() == (if scope in {Meta, Append} then None else Some(full.configSecret))
            && o.value.SecretWriter() == (if scope in {Append, Admin} then Some(full.secretWriter) else None)
            && o.value.ConfigWriter()
                == (if scope in {Append, ConfigWrite, Admin} then Some(full.configWriter) else None)
  {
    hide Open, Encode;
    OpenUndoesEncode(ForScope(full, scope), vault, token);
  }
}
