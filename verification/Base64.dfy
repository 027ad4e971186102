/** Unpadded base64 with the standard alphabet, read only in its canonical form. */
module Base64 {
  import opened Types

  type sextet = x: int | 0 <= x < 64

  function Letter(v: sextet): byte {
    if v < 26 then (65 + v) as byte
    else if v < 52 then (71 + v) as byte
    else if v < 62 then (v - 4) as byte
    else if v == 62 then 43 else 47
  }

  function Value(c: byte): Option<sextet> {
    var x := c as int;
    if 65 <= x <= 90 then Some(x - 65)
    else if 97 <= x <= 122 then Some(x - 71)
    else if 48 <= x <= 57 then Some(x + 4)
    else if x == 43 then Some(62)
    else if x == 47 then Some(63)
    else None
  }

  predicate InAlphabet(text: Bytes) {
    forall i :: 0 <= i < |text| ==> Value(text[i]).Some?
  }

  function Group(a: int, b: int, c: int): seq<sextet>
    requires 0 <= a < 256 && 0 <= b < 256 && 0 <= c < 256
  {
    [a / 4, (a % 4) * 16 + b / 16, (b % 16) * 4 + c / 64, c % 64]
  }

  function Letters(vs: seq<sextet>): (text: Bytes)
    ensures |text| == |vs| && forall i :: 0 <= i < |vs| ==> text[i] == Letter(vs[i])
  {
    seq(|vs|, i requires 0 <= i < |vs| => Letter(vs[i]))
  }

  function Encode(data: Bytes): Bytes {
    if data == [] then []
    else if |data| == 1 then Letters(Group(data[0] as int, 0, 0)[..2])
    else if |data| == 2 then Letters(Group(data[0] as int, data[1] as int, 0)[..3])
    else Letters(Group(data[0] as int, data[1] as int, data[2] as int)) + Encode(data[3..])
  }

  function V(c: byte): sextet {
    match Value(c) case Some(v) => v case None => 0
  }

  function First(t: Bytes): byte
    requires |t| >= 2
  {
    (V(t[0]) * 4 + V(t[1]) / 16) as byte
  }

  function Second(t: Bytes): byte
    requires |t| >= 3
  {
    (V(t[1]) % 16 * 16 + V(t[2]) / 4) as byte
  }

  function Third(t: Bytes): byte
    requires |t| >= 4
  {
    (V(t[2]) % 4 * 64 + V(t[3])) as byte
  }

  /** The bytes the letters spell, low bits left over at the end dropped. */
  function Spelled(text: Bytes): Bytes {
    if |text| < 2 then []
    else if |text| == 2 then [First(text)]
    else if |text| == 3 then [First(text), Second(text)]
    else [First(text), Second(text), Third(text)] + Spelled(text[4..])
  }

  /** Read a text that is exactly how its bytes are written. */
  function Decode(text: Bytes): Option<Bytes> {
    if !InAlphabet(text) || |text| % 4 == 1 then None
    else if Encode(Spelled(text)) != text then None
    else Some(Spelled(text))
  }

  lemma LetterValue(v: sextet)
    ensures Value(Letter(v)) == Some(v)
  {
  }

  lemma GroupSpells(a: byte, b: byte, c: byte)
    ensures var t := Letters(Group(a as int, b as int, c as int));
            |t| == 4 && InAlphabet(t) && First(t) == a && Second(t) == b && Third(t) == c
  {
    hide Letter, Value;
    var g := Group(a as int, b as int, c as int);
    LetterValue(g[0]);
    LetterValue(g[1]);
    LetterValue(g[2]);
    LetterValue(g[3]);
  }

  lemma {:induction false} SpelledEncode(data: Bytes)
    ensures InAlphabet(Encode(data)) && Spelled(Encode(data)) == data
    ensures |Encode(data)| == (|data| * 4 + 2) / 3
    decreases |data|
  {
    hide Value, Letter, Letters, Group, First, Second, Third;
    if data != [] {
      var a := data[0];
      var b: byte := if |data| > 1 then data[1] else 0;
      var c: byte := if |data| > 2 then data[2] else 0;
      GroupSpells(a, b, c);
      var t := Letters(Group(a as int, b as int, c as int));
      if |data| >= 3 {
        SpelledEncode(data[3..]);
        FullGroup(t, Encode(data[3..]));
        assert data == [a, b, c] + data[3..];
      } else {
        ShortGroup(a as int, b as int, c as int);
        assert data == if |data| == 1 then [a] else [a, b];
      }
    }
  }

  lemma FullGroup(t: Bytes, rest: Bytes)
    requires |t| == 4 && InAlphabet(t) && InAlphabet(rest)
    ensures InAlphabet(t + rest) && Spelled(t + rest) == [First(t), Second(t), Third(t)] + Spelled(rest)
  {
    hide Value, V;
    assert (t + rest)[4..] == rest;
  }

  lemma ShortGroup(a: int, b: int, c: int)
    requires 0 <= a < 256 && 0 <= b < 256 && 0 <= c < 256
    ensures var g := Group(a, b, c);
            var t := Letters(g);
            && |g| == 4 && Letters(g[..2]) == t[..2] && Letters(g[..3]) == t[..3]
            && (InAlphabet(t) ==>
                 && InAlphabet(t[..2]) && Spelled(t[..2]) == [First(t)]
                 && InAlphabet(t[..3]) && Spelled(t[..3]) == [First(t), Second(t)])
  {
    hide Value, Letter;
  }

  function ByteAt(data: Bytes, i: nat): byte {
    if i < |data| then data[i] else 0
  }

  function ValueAt(text: Bytes, i: nat): sextet {
    if i < |text| then V(text[i]) else 0
  }

  function Bytes24(a: int, b: int, c: int): int {
    a * 65536 + b * 256 + c
  }

  function Sextets24(a: int, b: int, c: int, d: int): int {
    a * 262144 + b * 4096 + c * 64 + d
  }

  /** Every three bytes and the four letters that stand for them are one number of 24 bits, the first the
  highest; what a short last group lacks counts as zero. */
  lemma {:induction false} EncodesBits(data: Bytes, k: nat)
    ensures var text := Encode(data);
            Bytes24(ByteAt(data, 3 * k) as int, ByteAt(data, 3 * k + 1) as int, ByteAt(data, 3 * k + 2) as int)
            == Sextets24(ValueAt(text, 4 * k), ValueAt(text, 4 * k + 1), ValueAt(text, 4 * k + 2),
                         ValueAt(text, 4 * k + 3))
    decreases k
  {
    hide Letter, V, Group, Bytes24, Sextets24;
    if k > 0 && |data| >= 3 {
      var text, rest := Encode(data), Encode(data[3..]);
      EncodesBits(data[3..], k - 1);
      GroupBits(data[0] as int, data[1] as int, data[2] as int);
      assert forall i :: 0 <= i ==> ValueAt(text, 4 + i) == ValueAt(rest, i);
      assert forall i :: 0 <= i ==> ByteAt(data, 3 + i) == ByteAt(data[3..], i);
    } else if k == 0 {
      FirstBits(data);
    } else {
      SpelledEncode(data);
      GroupBits(0, 0, 0);
    }
  }

  lemma FirstBits(data: Bytes)
    ensures var text := Encode(data);
            Bytes24(ByteAt(data, 0) as int, ByteAt(data, 1) as int, ByteAt(data, 2) as int)
            == Sextets24(ValueAt(text, 0), ValueAt(text, 1), ValueAt(text, 2), ValueAt(text, 3))
  {
    hide Letter, V, Group, Bytes24, Sextets24;
    var a, b, c := ByteAt(data, 0) as int, ByteAt(data, 1) as int, ByteAt(data, 2) as int;
    var g := Group(a, b, c);
    GroupBits(a, b, c);
    LettersSpell(g);
    LettersSpell(g[..2]);
    LettersSpell(g[..3]);
  }

  lemma GroupBits(a: int, b: int, c: int)
    requires 0 <= a < 256 && 0 <= b < 256 && 0 <= c < 256
    ensures var g := Group(a, b, c);
            && |g| == 4 && Bytes24(a, b, c) == Sextets24(g[0], g[1], g[2], g[3])
            && (c == 0 ==> g[3] == 0) && (b == 0 && c == 0 ==> g[2] == 0)
            && (a == 0 && b == 0 ==> g[0] == 0 && g[1] == 0)
  {
  }

  lemma LettersSpell(vs: seq<sextet>)
    ensures forall i :: 0 <= i < |vs| ==> V(Letters(vs)[i]) == vs[i]
  {
    forall i | 0 <= i < |vs|
      ensures V(Letters(vs)[i]) == vs[i]
    {
      LetterValue(vs[i]);
    }
  }

  /** Reading undoes writing, and whatever is read is exactly what writing it gives. */
  lemma DecodeUndoesEncode(data: Bytes)
    ensures Decode(Encode(data)) == Some(data)
  {
    hide Encode, Spelled, InAlphabet;
    SpelledEncode(data);
  }

  lemma DecodedIsCanonical(text: Bytes)
    ensures Decode(text).Some? ==> Encode(Decode(text).value) == text
  {
  }
}
