/** The payload of an age file: chunks of 64 KiB, each sealed under a nonce that counts them and marks the
last. */
module Stream {
  import opened Types

  const CHUNK: nat := 65536
  const TAG: nat := 16
  const SIZE: nat := 65552

  /** The AEAD, under one nonce at a time. */
  datatype Aead = Aead(seal: (Bytes, Bytes, Bytes) -> Bytes, open: (Bytes, Bytes, Bytes) -> Option<Bytes>)

  /** What is sealed opens under the same key and nonce and no other nonce, and grows by its tag. */
  ghost predicate AeadOk(a: Aead) {
    && (forall k, n, p :: |a.seal(k, n, p)| == |p| + TAG)
    && (forall k, n, p :: |n| == 12 ==> a.open(k, n, a.seal(k, n, p)) == Some(p))
    && (forall k, n, m, p :: |n| == 12 && |m| == 12 && n != m ==> a.open(k, m, a.seal(k, n, p)) == None)
  }

  // ------------------------------------------------------------ nonces

  function Power(n: nat): (p: nat)
    ensures p > 0
  {
    if n == 0 then 1 else 256 * Power(n - 1)
  }

  function BigEndian(x: nat, n: nat): (b: Bytes)
    ensures |b| == n
  {
    if n == 0 then [] else BigEndian(x / 256, n - 1) + [(x % 256) as byte]
  }

  /** The nonce of a chunk; none once the counter no longer fits its eleven bytes. */
  function NonceOf(counter: nat, last: bool): (n: Option<Bytes>)
    ensures n.Some? ==> |n.value| == 12
  {
    if counter < Power(11) then Some(BigEndian(counter, 11) + [if last then 1 else 0]) else None
  }

  lemma {:induction false} BigEndianIsInjective(x: nat, y: nat, n: nat)
    requires x < Power(n) && y < Power(n) && BigEndian(x, n) == BigEndian(y, n)
    ensures x == y
    decreases n
  {
    if n > 0 {
      var a, b := BigEndian(x, n), BigEndian(y, n);
      assert a[n - 1] == (x % 256) as byte && b[n - 1] == (y % 256) as byte;
      assert a[..n - 1] == BigEndian(x / 256, n - 1) && b[..n - 1] == BigEndian(y / 256, n - 1);
      BigEndianIsInjective(x / 256, y / 256, n - 1);
    }
  }

  /** No two chunks of one stream share a nonce, and none's is another's with the mark changed. */
  lemma NoncesDiffer(i: nat, last: bool, j: nat, last': bool)
    requires NonceOf(i, last).Some? && NonceOf(i, last) == NonceOf(j, last')
    ensures i == j && last == last'
  {
    var n := NonceOf(i, last).value;
    assert n[11] == (if last then 1 else 0) && n[11] == (if last' then 1 else 0);
    assert n[..11] == BigEndian(i, 11) && n[..11] == BigEndian(j, 11);
    BigEndianIsInjective(i, j, 11);
  }

  lemma {:induction false} BigEndianAt(x: nat, n: nat, i: nat)
    requires i < n
    ensures BigEndian(x, n)[i] as int == x / Power(n - 1 - i) % 256
    decreases n
  {
    if i < n - 1 {
      BigEndianAt(x / 256, n - 1, i);
      DivTwice(x, Power(n - 2 - i));
    }
  }

  lemma DivTwice(x: nat, b: nat)
    requires b > 0
    ensures x / 256 / b == x / (256 * b)
  {
    var q := x / 256;
    var k := q / b;
    var r := 256 * (q % b) + x % 256;
    assert q == b * k + q % b;
    assert x == 256 * b * k + r;
    QuotientIs(x, 256 * b, k, r);
  }

  lemma QuotientIs(x: nat, d: nat, q: nat, r: nat)
    requires x == d * q + r && r < d
    ensures x / d == q
  {
    var p := x / d;
    assert x == d * p + x % d;
    assert d * (p - q) == r - x % d;
    AtLeastOnce(d, p - q);
    AtLeastOnce(d, q - p);
  }

  lemma AtLeastOnce(d: nat, k: int)
    ensures k >= 1 ==> d * k >= d
  {
  }

  /** A nonce is the counter in eleven bytes, the highest first, then the mark. */
  lemma NonceIs(counter: nat, last: bool, i: nat)
    requires counter < Power(11) && i < 11
    ensures var n := NonceOf(counter, last);
            n.Some? && n.value[i] as int == counter / Power(10 - i) % 256 && n.value[11] == (if last then 1 else 0)
  {
    BigEndianAt(counter, 11, i);
  }

  // ------------------------------------------------------------ sealing

  /** The chunks of `plain` sealed one after another, the first under `counter`. */
  function Sealed(a: Aead, key: Bytes, plain: Bytes, counter: nat): Option<Bytes>
    decreases |plain|
  {
    if |plain| <= CHUNK then
      match NonceOf(counter, true)
      case None => None
      case Some(n) => Some(a.seal(key, n, plain))
    else
      match (NonceOf(counter, false), Sealed(a, key, plain[CHUNK..], counter + 1))
      case (Some(n), Some(rest)) => Some(a.seal(key, n, plain[..CHUNK]) + rest)
      case _ => None
  }

  // ------------------------------------------------------------ opening

  datatype Opened = Whole(plain: Bytes) | Broken(released: Bytes)

  function Released(o: Opened): Bytes {
    match o case Whole(p) => p case Broken(p) => p
  }

  function After(p: Bytes, o: Opened): Opened {
    match o case Whole(q) => Whole(p + q) case Broken(q) => Broken(p + q)
  }

  function TryOpen(a: Aead, key: Bytes, counter: nat, last: bool, chunk: Bytes): Option<Bytes> {
    match NonceOf(counter, last)
    case None => None
    case Some(n) => a.open(key, n, chunk)
  }

  /** Opening what is left of a stream, the next chunk being number `counter`. */
  function Open(a: Aead, key: Bytes, ct: Bytes, counter: nat): Opened
    decreases |ct|
  {
    if |ct| < SIZE then
      if |ct| < TAG || (|ct| == TAG && counter > 0) then Broken([]) else
        match TryOpen(a, key, counter, true, ct)
        case None => Broken([])
        case Some(p) => Whole(p)
    else
      match TryOpen(a, key, counter, false, ct[..SIZE])
      case Some(p) => After(p, Open(a, key, ct[SIZE..], counter + 1))
      case None =>
        match TryOpen(a, key, counter, true, ct[..SIZE])
        case None => Broken([])
        case Some(p) => if |ct| == SIZE then Whole(p) else Broken(p)
  }

  /** Opening undoes sealing, whatever the length. */
  lemma {:induction false} OpenUndoesSealed(a: Aead, key: Bytes, plain: Bytes, counter: nat)
    requires AeadOk(a) && Sealed(a, key, plain, counter).Some?
    requires |plain| == 0 ==> counter == 0
    ensures Open(a, key, Sealed(a, key, plain, counter).value, counter) == Whole(plain)
    decreases |plain|
  {
    hide Power, BigEndian;
    var ct := Sealed(a, key, plain, counter).value;
    if |plain| <= CHUNK {
      var n := NonceOf(counter, true).value;
      if |plain| == CHUNK {
        assert ct[..SIZE] == ct;
        LastIsNotMore(counter);
      }
    } else {
      var first := a.seal(key, NonceOf(counter, false).value, plain[..CHUNK]);
      var rest := Sealed(a, key, plain[CHUNK..], counter + 1).value;
      assert ct[..SIZE] == first && ct[SIZE..] == rest;
      OpenUndoesSealed(a, key, plain[CHUNK..], counter + 1);
      assert plain[..CHUNK] + plain[CHUNK..] == plain;
    }
  }

  lemma LastIsNotMore(counter: nat)
    requires NonceOf(counter, true).Some?
    ensures NonceOf(counter, false).Some? && NonceOf(counter, false) != NonceOf(counter, true)
  {
    if NonceOf(counter, false) == NonceOf(counter, true) {
      NoncesDiffer(counter, false, counter, true);
    }
  }

  // ------------------------------------------------------------ what else opens

  /** Chunk number `i` of `plain`, counted from `counter`, is `p`, and `last` marks whether it is the last. */
  ghost predicate Made(plain: Bytes, counter: nat, i: nat, last: bool, p: Bytes)
    decreases |plain|
  {
    if |plain| <= CHUNK then i == counter && last && p == plain
    else (i == counter && !last && p == plain[..CHUNK]) || Made(plain[CHUNK..], counter + 1, i, last, p)
  }

  ghost predicate MadeUnder(plain: Bytes, n: Bytes, p: Bytes) {
    exists i: nat, last: bool :: NonceOf(i, last) == Some(n) && Made(plain, 0, i, last, p)
  }

  /** The chunks a reader cuts a stream into. */
  function Offered(ct: Bytes): seq<Bytes> {
    if |ct| <= SIZE then [ct] else [ct[..SIZE]] + Offered(ct[SIZE..])
  }

  /** No chunk of the offered stream is forged: under this key none opens but the chunks of `plain`, as
  they were sealed. */
  ghost predicate Ideal(a: Aead, key: Bytes, plain: Bytes, ct: Bytes) {
    forall n, c, p :: c in Offered(ct) && a.open(key, n, c) == Some(p) ==>
        c == a.seal(key, n, p) && MadeUnder(plain, n, p)
  }

  /** The same, for the chunks from `counter` on. */
  ghost predicate Unforged(a: Aead, key: Bytes, plain: Bytes, counter: nat, ct: Bytes) {
    forall i: nat, last, c, p :: i >= counter && c in Offered(ct) && TryOpen(a, key, i, last, c) == Some(p) ==>
      Made(plain, counter, i, last, p) && NonceOf(i, last).Some? && c == a.seal(key, NonceOf(i, last).value, p)
  }

  lemma IdealIsUnforged(a: Aead, key: Bytes, plain: Bytes, ct: Bytes)
    requires Ideal(a, key, plain, ct)
    ensures Unforged(a, key, plain, 0, ct)
  {
    hide NonceOf, Made, Offered;
    forall i: nat, last, c, p | c in Offered(ct) && TryOpen(a, key, i, last, c) == Some(p)
      ensures Made(plain, 0, i, last, p) && NonceOf(i, last).Some? && c == a.seal(key, NonceOf(i, last).value, p)
    {
      var n := NonceOf(i, last).value;
      assert MadeUnder(plain, n, p);
      var j: nat, last' :| NonceOf(j, last') == Some(n) && Made(plain, 0, j, last', p);
      NoncesDiffer(i, last, j, last');
    }
  }

  lemma UnforgedRest(a: Aead, key: Bytes, plain: Bytes, counter: nat, ct: Bytes)
    requires Unforged(a, key, plain, counter, ct) && |plain| > CHUNK && |ct| > SIZE
    ensures Unforged(a, key, plain[CHUNK..], counter + 1, ct[SIZE..])
  {
    hide NonceOf, TryOpen;
    assert forall c :: c in Offered(ct[SIZE..]) ==> c in Offered(ct);
  }

  lemma {:induction false} MadeHere(plain: Bytes, counter: nat, i: nat, last: bool, p: Bytes)
    requires Made(plain, counter, i, last, p)
    ensures i >= counter
    ensures i == counter ==> last == (|plain| <= CHUNK) && p == if last then plain else plain[..CHUNK]
    decreases |plain|
  {
    if |plain| > CHUNK && Made(plain[CHUNK..], counter + 1, i, last, p) {
      MadeHere(plain[CHUNK..], counter + 1, i, last, p);
    }
  }

  /** Whatever stream is offered instead, with no chunk of it forged: it opens whole exactly when it is the
  one that was sealed, and what is released before a failure is the beginning of what was sealed. */
  lemma {:induction false} OpensOnlySealed(a: Aead, key: Bytes, plain: Bytes, counter: nat, ct: Bytes)
    requires AeadOk(a) && Unforged(a, key, plain, counter, ct) && Sealed(a, key, plain, counter).Some?
    requires |plain| == 0 ==> counter == 0
    ensures var o := Open(a, key, ct, counter);
            && (o.Whole? <==> Some(ct) == Sealed(a, key, plain, counter))
            && Released(o) <= plain
    decreases |plain|
  {
    hide NonceOf, Unforged, Offered;
    if Some(ct) == Sealed(a, key, plain, counter) {
      OpenUndoesSealed(a, key, plain, counter);
    } else if |ct| < SIZE {
      OpenedHere(a, key, plain, counter, true, ct);
    } else {
      var t := TryOpen(a, key, counter, false, ct[..SIZE]);
      OpenedHere(a, key, plain, counter, false, ct);
      OpenedHere(a, key, plain, counter, true, ct);
      if t.Some? {
        OpenRest(a, key, plain, counter, ct);
        if |ct| > SIZE {
          OpensOnlySealed(a, key, plain[CHUNK..], counter + 1, ct[SIZE..]);
        }
        assert ct == ct[..SIZE] + ct[SIZE..];
        assert plain == plain[..CHUNK] + plain[CHUNK..];
      } else if |ct| == SIZE {
        assert ct[..SIZE] == ct;
      }
    }
  }

  /** After a chunk that is not the last there is more to come: the end of the stream is no end here. */
  lemma OpenRest(a: Aead, key: Bytes, plain: Bytes, counter: nat, ct: Bytes)
    requires AeadOk(a) && Unforged(a, key, plain, counter, ct) && |plain| > CHUNK && |ct| >= SIZE
    requires Sealed(a, key, plain, counter).Some?
    ensures |ct| > SIZE ==> Unforged(a, key, plain[CHUNK..], counter + 1, ct[SIZE..])
    ensures |ct| == SIZE ==>
              && ct[SIZE..] == [] && Open(a, key, [], counter + 1) == Broken([])
              && Sealed(a, key, plain[CHUNK..], counter + 1) != Some([])
  {
    hide Unforged, NonceOf;
    if |ct| > SIZE {
      UnforgedRest(a, key, plain, counter, ct);
    }
  }

  lemma OpenedHere(a: Aead, key: Bytes, plain: Bytes, counter: nat, last: bool, ct: Bytes)
    requires Unforged(a, key, plain, counter, ct)
    ensures var chunk := if |ct| < SIZE then ct else ct[..SIZE];
            var t := TryOpen(a, key, counter, last, chunk);
            t.Some? ==>
              && NonceOf(counter, last).Some? && chunk == a.seal(key, NonceOf(counter, last).value, t.value)
              && last == (|plain| <= CHUNK) && t.value == if last then plain else plain[..CHUNK]
  {
    hide NonceOf, TryOpen;
    var chunk := if |ct| < SIZE then ct else ct[..SIZE];
    var t := TryOpen(a, key, counter, last, chunk);
    assert chunk == Offered(ct)[0];
    if t.Some? {
      MadeHere(plain, counter, counter, last, t.value);
    }
  }

  /** A stream cut short anywhere fails, and releases only a beginning of the plaintext. */
  lemma TruncationFails(a: Aead, key: Bytes, plain: Bytes, n: nat)
    requires AeadOk(a) && Sealed(a, key, plain, 0).Some? && n < |Sealed(a, key, plain, 0).value|
    requires Ideal(a, key, plain, Sealed(a, key, plain, 0).value[..n])
    ensures var o := Open(a, key, Sealed(a, key, plain, 0).value[..n], 0); o.Broken? && o.released <= plain
  {
    hide Ideal, Unforged, Sealed, Open;
    var cut := Sealed(a, key, plain, 0).value[..n];
    IdealIsUnforged(a, key, plain, cut);
    OpensOnlySealed(a, key, plain, 0, cut);
  }

  // ------------------------------------------------------------ the assumptions can be met

  /** A stand-in for an AEAD: a tag that names the nonce and the length. It hides nothing; it is here to
  show that what is asked of an AEAD above can be had, for every plaintext and every cut. */
  function Label(n: Bytes, length: nat): (tag: Bytes)
    ensures |n| == 12 ==> |tag| == TAG
  {
    n + BigEndian(length % Power(4), 4)
  }

  function Labelled(n: Bytes, p: Bytes): (c: Bytes)
    ensures |c| == |p| + TAG
  {
    (if |n| == 12 then Label(n, |p|) else BigEndian(0, TAG)) + p
  }

  function Unlabelled(n: Bytes, c: Bytes): Option<Bytes> {
    if |n| == 12 && |c| >= TAG && c[..TAG] == Label(n, |c| - TAG) then Some(c[TAG..]) else None
  }

  function Labelling(): Aead {
    Aead((k: Bytes, n: Bytes, p: Bytes) => Labelled(n, p), (k: Bytes, n: Bytes, c: Bytes) => Unlabelled(n, c))
  }

  lemma LabelsDiffer(n: Bytes, i: nat, m: Bytes, j: nat)
    requires |n| == 12 && |m| == 12 && i <= CHUNK && j <= CHUNK && Label(n, i) == Label(m, j)
    ensures n == m && i == j
  {
    assert Power(4) == 0x1_0000_0000;
    var t := Label(n, i);
    assert t[..12] == n && t[..12] == m;
    assert t[12..] == BigEndian(i % Power(4), 4) && t[12..] == BigEndian(j % Power(4), 4);
    BigEndianIsInjective(i % Power(4), j % Power(4), 4);
  }

  lemma UnlabelledIs(n: Bytes, m: Bytes, p: Bytes)
    requires |n| == 12 && |m| == 12
    ensures Unlabelled(m, Labelled(n, p)) == if m == n then Some(p) else None
  {
    hide BigEndian, Power;
    var c := Labelled(n, p);
    assert c[..TAG] == Label(n, |p|) && c[TAG..] == p;
    assert Label(n, |p|)[..12] == n && Label(m, |p|)[..12] == m;
  }

  lemma LabellingIsOk()
    ensures AeadOk(Labelling())
  {
    hide Label, Labelled, Unlabelled;
    var a := Labelling();
    forall k: Bytes, n: Bytes, p: Bytes
      ensures |a.seal(k, n, p)| == |p| + TAG
    {
      LabelledSize(n, p);
    }
    forall k: Bytes, n: Bytes, m: Bytes, p: Bytes | |n| == 12 && |m| == 12
      ensures a.open(k, m, a.seal(k, n, p)) == if m == n then Some(p) else None
    {
      UnlabelledIs(n, m, p);
    }
  }

  lemma LabelledSize(n: Bytes, p: Bytes)
    ensures |Labelled(n, p)| == |p| + TAG
  {
  }

  /** A cut sealed chunk opens only if nothing was cut off, and then only as what it was. */
  lemma CutOpens(key: Bytes, n: Bytes, p: Bytes, length: nat, m: Bytes, q: Bytes)
    requires |n| == 12 && |p| <= CHUNK && length <= |p| + TAG
    requires Labelling().open(key, m, Labelling().seal(key, n, p)[..length]) == Some(q)
    ensures length == |p| + TAG && m == n && q == p
        && Labelling().seal(key, n, p)[..length] == Labelling().seal(key, n, p)
  {
    hide BigEndian, Power;
    var c := Labelling().seal(key, n, p);
    var cut := c[..length];
    assert c[..TAG] == Label(n, |p|);
    assert cut[..TAG] == c[..TAG];
    LabelsDiffer(n, |p|, m, length - TAG);
    assert cut == c && c[TAG..] == p;
  }

  ghost predicate MadeFrom(plain: Bytes, counter: nat, n: Bytes, p: Bytes) {
    exists i: nat, last: bool :: NonceOf(i, last) == Some(n) && Made(plain, counter, i, last, p)
  }

  lemma MadeLater(plain: Bytes, counter: nat, n: Bytes, p: Bytes)
    requires |plain| > CHUNK && MadeFrom(plain[CHUNK..], counter + 1, n, p)
    ensures MadeFrom(plain, counter, n, p)
  {
    hide NonceOf;
    var i: nat, last :| NonceOf(i, last) == Some(n) && Made(plain[CHUNK..], counter + 1, i, last, p);
    assert Made(plain, counter, i, last, p);
  }

  lemma {:induction false} CutChunkIsUnforged(key: Bytes, plain: Bytes, counter: nat, length: nat, n: Bytes, c: Bytes,
                        p: Bytes)
    requires Sealed(Labelling(), key, plain, counter).Some?
        && length <= |Sealed(Labelling(), key, plain, counter).value|
    requires c in Offered(Sealed(Labelling(), key, plain, counter).value[..length])
    requires Labelling().open(key, n, c) == Some(p)
    ensures c == Labelling().seal(key, n, p) && MadeFrom(plain, counter, n, p)
    decreases |plain|
  {
    hide BigEndian, Power, Labelling, NonceOf;
    LabellingIsOk();
    var a := Labelling();
    var ct := Sealed(a, key, plain, counter).value;
    var cut := ct[..length];
    var last := |plain| <= CHUNK;
    var first := if last then plain else plain[..CHUNK];
    var n0 := NonceOf(counter, last).value;
    var sealed := a.seal(key, n0, first);
    if length <= SIZE {
      assert cut == sealed[..length];
      CutOpens(key, n0, first, length, n, p);
      assert Made(plain, counter, counter, last, p);
    } else {
      var rest := Sealed(a, key, plain[CHUNK..], counter + 1).value;
      assert cut[..SIZE] == sealed[..SIZE] && cut[SIZE..] == rest[..length - SIZE];
      if c == cut[..SIZE] {
        CutOpens(key, n0, first, SIZE, n, p);
        assert Made(plain, counter, counter, last, p);
      } else {
        CutChunkIsUnforged(key, plain[CHUNK..], counter + 1, length - SIZE, n, c, p);
        MadeLater(plain, counter, n, p);
      }
    }
  }

  /** So the statement about truncation speaks of something: with the stand-in every cut of every stream
  meets its assumptions. */
  lemma AssumptionsCanBeMet(key: Bytes, plain: Bytes, length: nat)
    requires Sealed(Labelling(), key, plain, 0).Some? && length <= |Sealed(Labelling(), key, plain, 0).value|
    ensures AeadOk(Labelling()) && Ideal(Labelling(), key, plain, Sealed(Labelling(), key, plain, 0).value[..length])
  {
    hide Labelling, Sealed, Offered, NonceOf, Made;
    LabellingIsOk();
    var a := Labelling();
    var cut := Sealed(a, key, plain, 0).value[..length];
    forall n, c, p | c in Offered(cut) && a.open(key, n, c) == Some(p)
      ensures c == a.seal(key, n, p) && MadeUnder(plain, n, p)
    {
      CutChunkIsUnforged(key, plain, 0, length, n, c, p);
    }
  }

  // ------------------------------------------------------------ one stream for one plaintext

  /** What opens is what sealing gives: sealing is a function, and nothing else opens to the same. */
  ghost predicate Tight(a: Aead) {
    forall k, n, c, p :: |n| == 12 && a.open(k, n, c) == Some(p) ==> c == a.seal(k, n, p)
  }

  lemma TightHere(a: Aead, key: Bytes, counter: nat, last: bool, chunk: Bytes)
    requires AeadOk(a) && Tight(a)
    ensures var t := TryOpen(a, key, counter, last, chunk);
            t.Some? ==>
              && NonceOf(counter, last).Some? && chunk == a.seal(key, NonceOf(counter, last).value, t.value)
              && |chunk| == |t.value| + TAG
  {
    hide Power, BigEndian;
  }

  /** Whoever made it, a stream that opens whole is the one stream its plaintext is sealed as: chunks are
  full but for the last, which is empty only if it is the first, and marked, and nothing follows it. */
  lemma {:induction false} OpenedIsSealed(a: Aead, key: Bytes, ct: Bytes, counter: nat)
    requires AeadOk(a) && Tight(a) && Open(a, key, ct, counter).Whole?
    ensures Sealed(a, key, Open(a, key, ct, counter).plain, counter) == Some(ct)
    ensures Open(a, key, ct, counter).plain == [] ==> counter == 0
    decreases |ct|
  {
    hide NonceOf, AeadOk, Tight;
    if |ct| < SIZE {
      TightHere(a, key, counter, true, ct);
    } else {
      var t := TryOpen(a, key, counter, false, ct[..SIZE]);
      TightHere(a, key, counter, false, ct[..SIZE]);
      TightHere(a, key, counter, true, ct[..SIZE]);
      if t.Some? {
        OpenedIsSealed(a, key, ct[SIZE..], counter + 1);
        var rest := Open(a, key, ct[SIZE..], counter + 1).plain;
        var plain := t.value + rest;
        assert plain[..CHUNK] == t.value && plain[CHUNK..] == rest;
        assert ct == ct[..SIZE] + ct[SIZE..];
      } else {
        assert ct[..SIZE] == ct;
      }
    }
  }

  /** The stand-in is tight. */
  lemma LabellingIsTight()
    ensures Tight(Labelling())
  {
    hide BigEndian, Power;
    var a := Labelling();
    forall k: Bytes, n: Bytes, c: Bytes, p: Bytes | |n| == 12 && a.open(k, n, c) == Some(p)
      ensures c == a.seal(k, n, p)
    {
      assert c == c[..TAG] + c[TAG..];
    }
  }

  // ------------------------------------------------------------ the loops

  function Chunks(plain: Bytes): (chunks: seq<Bytes>)
    ensures chunks != []
  {
    if |plain| <= CHUNK then [plain] else [plain[..CHUNK]] + Chunks(plain[CHUNK..])
  }

  /** Chunks sealed one after another, the last one marked. */
  function SealList(a: Aead, key: Bytes, chunks: seq<Bytes>, counter: nat): Option<Bytes> {
    if chunks == [] then Some([]) else
      match (NonceOf(counter, |chunks| == 1), SealList(a, key, chunks[1..], counter + 1))
      case (Some(n), Some(rest)) => Some(a.seal(key, n, chunks[0]) + rest)
      case _ => None
  }

  lemma {:induction false} SealListIs(a: Aead, key: Bytes, plain: Bytes, counter: nat)
    ensures SealList(a, key, Chunks(plain), counter) == Sealed(a, key, plain, counter)
    decreases |plain|
  {
    hide NonceOf;
    if |plain| <= CHUNK {
      assert Chunks(plain)[1..] == [];
      if NonceOf(counter, true).Some? {
        var c := a.seal(key, NonceOf(counter, true).value, plain);
        assert c + [] == c;
      }
    } else {
      assert Chunks(plain)[1..] == Chunks(plain[CHUNK..]);
      SealListIs(a, key, plain[CHUNK..], counter + 1);
    }
  }

  function Joined(out: Bytes, rest: Option<Bytes>): Option<Bytes> {
    match rest case None => None case Some(r) => Some(out + r)
  }

  /** Cut a plaintext into chunks, one empty one if there is nothing in it. */
  method CutChunks(plain: Bytes) returns (chunks: seq<Bytes>)
    ensures chunks == Chunks(plain)
  {
    chunks := [];
    var i: nat := 0;
    while i < |plain|
      invariant i < |plain| ==> chunks + Chunks(plain[i..]) == Chunks(plain)
      invariant i >= |plain| ==> chunks == if plain == [] then [] else Chunks(plain)
      decreases |plain| - i
    {
      var rest := plain[i..];
      var chunk := if |rest| <= CHUNK then rest else rest[..CHUNK];
      assert |rest| > CHUNK ==> rest[CHUNK..] == plain[i + CHUNK..];
      assert |rest| > CHUNK ==> Chunks(rest) == [chunk] + Chunks(plain[i + CHUNK..]);
      assert |rest| <= CHUNK ==> Chunks(rest) == [chunk];
      chunks := chunks + [chunk];
      i := i + CHUNK;
    }
    if chunks == [] {
      chunks := [[]];
    }
  }

  /** Seal a plaintext chunk by chunk. */
  method SealStream(a: Aead, key: Bytes, plain: Bytes) returns (out: Option<Bytes>)
    ensures out == Sealed(a, key, plain, 0)
  {
    hide NonceOf, Chunks;
    var chunks := CutChunks(plain);
    SealListIs(a, key, plain, 0);
    var done: Bytes := [];
    assert chunks[0..] == chunks;
    JoinedNothing(SealList(a, key, chunks, 0));
    for counter := 0 to |chunks|
      invariant Sealed(a, key, plain, 0) == Joined(done, SealList(a, key, chunks[counter..], counter))
    {
      assert chunks[counter..][1..] == chunks[counter + 1..];
      SealListStep(a, key, chunks[counter..], counter, done);
      var n := NonceOf(counter, counter == |chunks| - 1);
      if n.None? {
        return None;
      }
      done := done + a.seal(key, n.value, chunks[counter]);
    }
    assert chunks[|chunks|..] == [];
    assert done + [] == done;
    return Some(done);
  }

  lemma JoinedNothing(rest: Option<Bytes>)
    ensures Joined([], rest) == rest
  {
    if rest.Some? {
      assert [] + rest.value == rest.value;
    }
  }

  lemma SealListStep(a: Aead, key: Bytes, chunks: seq<Bytes>, counter: nat, done: Bytes)
    requires chunks != []
    ensures Joined(done, SealList(a, key, chunks, counter)) ==
            match NonceOf(counter, |chunks| == 1)
            case None => None
            case Some(n) => Joined(done + a.seal(key, n, chunks[0]), SealList(a, key, chunks[1..], counter + 1))
  {
    hide NonceOf;
    var n, rest := NonceOf(counter, |chunks| == 1), SealList(a, key, chunks[1..], counter + 1);
    if n.Some? && rest.Some? {
      var c := a.seal(key, n.value, chunks[0]);
      assert done + (c + rest.value) == done + c + rest.value;
    }
  }

  /** Open a stream chunk by chunk, releasing each one as it authenticates. */
  method OpenStream(a: Aead, key: Bytes, ct: Bytes) returns (o: Opened)
    ensures o == Open(a, key, ct, 0)
  {
    hide NonceOf, TryOpen;
    var released: Bytes := [];
    var pos: nat, counter: nat := 0, 0;
    assert ct[0..] == ct;
    while true
      invariant pos <= |ct|
      invariant Open(a, key, ct, 0) == After(released, Open(a, key, ct[pos..], counter))
      decreases |ct| - pos
    {
      var chunk := if pos + SIZE <= |ct| then ct[pos..pos + SIZE] else ct[pos..];
      if chunk == [] {
        return Broken(released);
      }
      if |chunk| < SIZE {
        if |chunk| < TAG {
          return Broken(released);
        }
        if |chunk| == TAG && counter > 0 {
          return Broken(released);
        }
        var p := TryOpen(a, key, counter, true, chunk);
        if p.None? {
          return Broken(released);
        }
        return Whole(released + p.value);
      }
      assert ct[pos..][..SIZE] == chunk;
      assert ct[pos..][SIZE..] == ct[pos + SIZE..];
      var p := TryOpen(a, key, counter, false, chunk);
      if p.None? {
        p := TryOpen(a, key, counter, true, chunk);
        if p.None? {
          return Broken(released);
        }
        released := released + p.value;
        if pos + SIZE != |ct| {
          return Broken(released);
        }
        return Whole(released);
      }
      AfterAfter(released, p.value, Open(a, key, ct[pos + SIZE..], counter + 1));
      released := released + p.value;
      pos, counter := pos + SIZE, counter + 1;
    }
  }

  lemma AfterAfter(p: Bytes, q: Bytes, o: Opened)
    ensures After(p, After(q, o)) == After(p + q, o)
  {
    assert p + (q + Released(o)) == p + q + Released(o);
  }
}
