/** The header of an age file: a version line, recipient stanzas and a MAC, all in lines of text. */
module AgeHeader {
  import opened Types
  import Base64

  const NEWLINE: byte := 10
  const RETURN: byte := 13
  const SPACE: byte := 32
  const COLUMNS: nat := 64

  /** "age-encryption.org/v1" */
  const VERSION: Bytes :=
    [97, 103, 101, 45, 101, 110, 99, 114, 121, 112, 116, 105, 111, 110, 46, 111, 114, 103, 47, 118, 49]
  /** "-> ", "---" and "--- " */
  const ARROW: Bytes := [45, 62, 32]
  const DASHES: Bytes := [45, 45, 45]
  const MACMARK: Bytes := [45, 45, 45, 32]

  datatype Stanza = Stanza(args: seq<Bytes>, body: Bytes)

  // ------------------------------------------------------------ lines

  /** The first line of `s`, and what follows it. */
  function Line(s: Bytes): Option<(Bytes, Bytes)> {
    var end := Until(s, NEWLINE);
    if end == |s| || RETURN in s[..end] then None else Some((s[..end], s[end + 1..]))
  }

  /** Where `c` first is, or the length. */
  function Until(s: Bytes, c: byte): (n: nat)
    ensures n <= |s| && c !in s[..n] && (n < |s| ==> s[n] == c)
  {
    if s == [] || s[0] == c then 0 else
      var n := Until(s[1..], c);
      assert s[..n + 1] == [s[0]] + s[1..][..n];
      n + 1
  }

  lemma {:induction false} UntilIs(s: Bytes, c: byte, n: nat)
    requires n < |s| && s[n] == c && c !in s[..n]
    ensures Until(s, c) == n
    decreases n
  {
    if n > 0 {
      assert s[..n] == [s[0]] + s[1..][..n - 1];
      UntilIs(s[1..], c, n - 1);
    }
  }

  predicate Plain(line: Bytes) {
    NEWLINE !in line && RETURN !in line
  }

  lemma LineOf(line: Bytes, rest: Bytes)
    requires Plain(line)
    ensures Line(line + [NEWLINE] + rest) == Some((line, rest))
  {
    hide Until;
    var s := line + [NEWLINE] + rest;
    assert s[..|line|] == line;
    UntilIs(s, NEWLINE, |line|);
    assert s[|line| + 1..] == rest;
  }

  lemma LineIs(s: Bytes)
    requires Line(s).Some?
    ensures var (line, rest) := Line(s).value; Plain(line) && s == line + [NEWLINE] + rest && |rest| < |s|
  {
    hide Until;
    var end := Until(s, NEWLINE);
    assert s == s[..end] + [s[end]] + s[end + 1..];
  }

  // ------------------------------------------------------------ arguments

  /** Split at spaces. */
  function Split(s: Bytes): (args: seq<Bytes>)
    ensures args != []
    decreases |s|
  {
    var n := Until(s, SPACE);
    if n == |s| then [s] else [s[..n]] + Split(s[n + 1..])
  }

  function Join(args: seq<Bytes>): Bytes
    requires args != []
  {
    if |args| == 1 then args[0] else args[0] + [SPACE] + Join(args[1..])
  }

  predicate ArgOk(arg: Bytes) {
    arg != [] && forall i :: 0 <= i < |arg| ==> 0x21 <= arg[i] <= 0x7E
  }

  predicate ArgsOk(args: seq<Bytes>) {
    args != [] && forall i :: 0 <= i < |args| ==> ArgOk(args[i])
  }

  lemma {:induction false} JoinSplit(s: Bytes)
    ensures Join(Split(s)) == s
    decreases |s|
  {
    hide Until;
    var n := Until(s, SPACE);
    if n < |s| {
      JoinSplit(s[n + 1..]);
      assert Split(s)[1..] == Split(s[n + 1..]);
      assert s == s[..n] + [s[n]] + s[n + 1..];
    }
  }

  lemma ArgHasNo(arg: Bytes, c: byte)
    requires ArgOk(arg) && c < 0x21
    ensures c !in arg
  {
  }

  lemma {:induction false} SplitJoin(args: seq<Bytes>)
    requires ArgsOk(args)
    ensures Split(Join(args)) == args && Plain(Join(args))
    decreases |args|
  {
    hide ArgOk, Until;
    ArgHasNo(args[0], SPACE);
    ArgHasNo(args[0], NEWLINE);
    ArgHasNo(args[0], RETURN);
    if |args| == 1 {
      NoSplit(args[0]);
    } else {
      var s := Join(args);
      SplitJoin(args[1..]);
      assert s[..|args[0]|] == args[0];
      UntilIs(s, SPACE, |args[0]|);
      assert s[|args[0]| + 1..] == Join(args[1..]);
      assert args == [args[0]] + args[1..];
    }
  }

  lemma NoSplit(s: Bytes)
    requires SPACE !in s
    ensures Split(s) == [s]
  {
    var n := Until(s, SPACE);
    assert n == |s|;
  }

  // ------------------------------------------------------------ bodies

  /** Text in full lines, ended by a shorter one. */
  function Wrapped(text: Bytes): Bytes {
    if |text| < COLUMNS then text + [NEWLINE] else text[..COLUMNS] + [NEWLINE] + Wrapped(text[COLUMNS..])
  }

  /** The lines up to the first short one, joined. */
  function BodyText(s: Bytes): Option<(Bytes, Bytes)>
    decreases |s|
  {
    match Line(s)
    case None => None
    case Some((line, rest)) =>
      LineIs(s);
      if |line| > COLUMNS then None
      else if |line| < COLUMNS then Some((line, rest))
      else match BodyText(rest)
           case None => None
           case Some((more, rest')) => Some((line + more, rest'))
  }

  lemma {:induction false} BodyTextOf(text: Bytes, rest: Bytes)
    requires Plain(text)
    ensures BodyText(Wrapped(text) + rest) == Some((text, rest))
    decreases |text|
  {
    hide Line;
    if |text| < COLUMNS {
      LineOf(text, rest);
    } else {
      var line, more := text[..COLUMNS], text[COLUMNS..];
      BodyTextOf(more, rest);
      LineOf(line, Wrapped(more) + rest);
      assert Wrapped(text) + rest == line + [NEWLINE] + (Wrapped(more) + rest);
      assert line + more == text;
    }
  }

  lemma {:induction false} BodyTextIs(s: Bytes)
    requires BodyText(s).Some?
    ensures var (text, rest) := BodyText(s).value; s == Wrapped(text) + rest && |rest| < |s|
    decreases |s|
  {
    hide Line;
    LineIs(s);
    var (line, rest) := Line(s).value;
    if |line| == COLUMNS {
      BodyTextIs(rest);
      var (more, rest') := BodyText(rest).value;
      assert (line + more)[..COLUMNS] == line && (line + more)[COLUMNS..] == more;
      assert s == line + [NEWLINE] + Wrapped(more) + rest';
    }
  }

  // ------------------------------------------------------------ the header

  /** What was read: the stanzas, the MAC, and what is left from the MAC line on and after it. */
  datatype Header = Header(stanzas: seq<Stanza>, mac: Bytes, macLine: Bytes, payload: Bytes)

  function MacLine(s: Bytes, line: Bytes, rest: Bytes): Option<Header> {
    if !(MACMARK <= line) || |line| != 47 then None else
      match Base64.Decode(line[4..])
      case None => None
      case Some(mac) => Some(Header([], mac, s, rest))
  }

  /** The stanzas and the MAC line. */
  function Stanzas(s: Bytes): Option<Header>
    decreases |s|
  {
    match Line(s)
    case None => None
    case Some((line, rest)) =>
      if DASHES <= line then MacLine(s, line, rest)
      else if !(ARROW <= line) || !ArgsOk(Split(line[3..])) then None else
        match BodyText(rest)
        case None => None
        case Some((text, rest')) =>
          LineIs(s);
          BodyTextIs(rest);
          match (Base64.Decode(text), Stanzas(rest'))
          case (Some(body), Some(h)) => Some(h.(stanzas := [Stanza(Split(line[3..]), body)] + h.stanzas))
          case _ => None
  }

  function Parse(data: Bytes): Option<Header> {
    match Line(data)
    case None => None
    case Some((line, rest)) => if line == VERSION then Stanzas(rest) else None
  }

  /** What the MAC covers: everything up to and including the dashes. */
  function MacInput(data: Bytes, h: Header): Bytes
    requires 3 <= |h.macLine| <= |data|
  {
    data[..|data| - |h.macLine| + 3]
  }

  function RenderStanza(s: Stanza): Bytes
    requires s.args != []
  {
    ARROW + Join(s.args) + [NEWLINE] + Wrapped(Base64.Encode(s.body))
  }

  function RenderStanzas(stanzas: seq<Stanza>): Bytes
    requires forall i :: 0 <= i < |stanzas| ==> stanzas[i].args != []
  {
    if stanzas == [] then [] else RenderStanza(stanzas[0]) + RenderStanzas(stanzas[1..])
  }

  function RenderMac(mac: Bytes): Bytes {
    MACMARK + Base64.Encode(mac) + [NEWLINE]
  }

  ghost predicate StanzasOk(stanzas: seq<Stanza>) {
    forall i :: 0 <= i < |stanzas| ==> ArgsOk(stanzas[i].args)
  }

  lemma EncodedIsPlain(data: Bytes)
    ensures Plain(Base64.Encode(data))
  {
    hide Base64.Encode, Base64.Spelled;
    Base64.SpelledEncode(data);
  }

  lemma MacLineOf(mac: Bytes, payload: Bytes)
    requires |mac| == 32
    ensures Stanzas(RenderMac(mac) + payload) == Some(Header([], mac, RenderMac(mac) + payload, payload))
  {
    hide Base64.Encode, Base64.Decode, Line;
    EncodedIsPlain(mac);
    Base64.DecodeUndoesEncode(mac);
    Base64.SpelledEncode(mac);
    var line := MACMARK + Base64.Encode(mac);
    LineOf(line, payload);
    assert line[..3] == DASHES && line[4..] == Base64.Encode(mac);
  }

  lemma StanzaLine(args: seq<Bytes>)
    requires ArgsOk(args)
    ensures var line := ARROW + Join(args);
            Plain(line) && ARROW <= line && !(DASHES <= line) && Split(line[3..]) == args
  {
    hide ArgsOk;
    SplitJoin(args);
    var line := ARROW + Join(args);
    assert line[3..] == Join(args);
    assert line[1] == 62;
  }

  /** Reading undoes writing. */
  lemma {:induction false} StanzasOf(stanzas: seq<Stanza>, mac: Bytes, payload: Bytes)
    requires StanzasOk(stanzas) && |mac| == 32
    ensures Stanzas(RenderStanzas(stanzas) + RenderMac(mac) + payload)
            == Some(Header(stanzas, mac, RenderMac(mac) + payload, payload))
    decreases |stanzas|
  {
    hide Base64.Encode, Base64.Decode, Line, ArgOk, RenderMac, Wrapped, BodyText, Join, Split;
    var tail := RenderMac(mac) + payload;
    if stanzas == [] {
      assert RenderStanzas(stanzas) + RenderMac(mac) + payload == tail;
      MacLineOf(mac, payload);
    } else {
      var s, others := stanzas[0], stanzas[1..];
      var rest := RenderStanzas(others) + RenderMac(mac) + payload;
      StanzasOf(others, mac, payload);
      OneStanza(s, rest);
      assert RenderStanzas(stanzas) + RenderMac(mac) + payload == RenderStanza(s) + rest;
      assert stanzas == [s] + others;
    }
  }

  lemma OneStanza(s: Stanza, rest: Bytes)
    requires ArgsOk(s.args)
    ensures Stanzas(RenderStanza(s) + rest) ==
            match Stanzas(rest) case None => None case Some(h) => Some(h.(stanzas := [s] + h.stanzas))
  {
    hide Base64.Encode, Base64.Decode, Line, ArgOk, Wrapped, BodyText, Join, Split;
    var text := Base64.Encode(s.body);
    var line := ARROW + Join(s.args);
    EncodedIsPlain(s.body);
    Base64.DecodeUndoesEncode(s.body);
    StanzaLine(s.args);
    LineOf(line, Wrapped(text) + rest);
    BodyTextOf(text, rest);
    assert RenderStanza(s) + rest == line + [NEWLINE] + (Wrapped(text) + rest);
  }

  /** Whatever is read is written exactly so: no header has a second spelling. */
  lemma {:induction false} StanzasIs(s: Bytes)
    requires Stanzas(s).Some?
    ensures var h := Stanzas(s).value;
            && StanzasOk(h.stanzas) && h.macLine == RenderMac(h.mac) + h.payload
            && s == RenderStanzas(h.stanzas) + h.macLine
    decreases |s|
  {
    hide Base64.Encode, Base64.Decode, Line, ArgsOk, Wrapped, BodyText, Join, Split;
    LineIs(s);
    var (line, rest) := Line(s).value;
    if DASHES <= line {
      Base64.DecodedIsCanonical(line[4..]);
      assert line == MACMARK + line[4..];
      assert s == [] + s;
    } else {
      BodyTextIs(rest);
      var (text, rest') := BodyText(rest).value;
      StanzasIs(rest');
      Base64.DecodedIsCanonical(text);
      JoinSplit(line[3..]);
      assert line == ARROW + line[3..];
      var h, h' := Stanzas(s).value, Stanzas(rest').value;
      assert h.stanzas[1..] == h'.stanzas;
      assert s == RenderStanza(h.stanzas[0]) + rest';
    }
  }

  function Render(stanzas: seq<Stanza>, mac: Bytes): Bytes
    requires forall i :: 0 <= i < |stanzas| ==> stanzas[i].args != []
  {
    VERSION + [NEWLINE] + RenderStanzas(stanzas) + RenderMac(mac)
  }

  lemma ParseUndoesRender(stanzas: seq<Stanza>, mac: Bytes, payload: Bytes)
    requires StanzasOk(stanzas) && |mac| == 32
    ensures Parse(Render(stanzas, mac) + payload) == Some(Header(stanzas, mac, RenderMac(mac) + payload, payload))
  {
    hide Line, Stanzas, RenderStanzas, RenderMac, ArgOk;
    var rest := RenderStanzas(stanzas) + RenderMac(mac) + payload;
    StanzasOf(stanzas, mac, payload);
    LineOf(VERSION, rest);
    assert Render(stanzas, mac) + payload == VERSION + [NEWLINE] + rest;
  }

  lemma ParsedIsCanonical(data: Bytes)
    requires Parse(data).Some?
    ensures var h := Parse(data).value; StanzasOk(h.stanzas) && data == Render(h.stanzas, h.mac) + h.payload
  {
    hide Line, Stanzas, RenderStanzas, RenderMac, ArgsOk;
    LineIs(data);
    var (line, rest) := Line(data).value;
    StanzasIs(rest);
  }

  // ------------------------------------------------------------ the reader, by position

  /** The line at `pos`, and where the next one starts. */
  method ReadLine(data: Bytes, pos: nat) returns (r: Option<(Bytes, nat)>)
    requires pos <= |data|
    ensures r.None? <==> Line(data[pos..]).None?
    ensures r.Some? ==> pos < r.value.1 <= |data| && Line(data[pos..]) == Some((r.value.0, data[r.value.1..]))
  {
    var end := pos;
    while end < |data| && data[end] != NEWLINE
      invariant pos <= end <= |data|
      invariant NEWLINE !in data[pos..end]
    {
      assert data[pos..end + 1] == data[pos..end] + [data[end]];
      end := end + 1;
    }
    assert data[pos..][..end - pos] == data[pos..end];
    if end == |data| {
      NoNewline(data[pos..]);
      return None;
    }
    UntilIs(data[pos..], NEWLINE, end - pos);
    var line := data[pos..end];
    assert data[pos..][end - pos + 1..] == data[end + 1..];
    if RETURN in line {
      return None;
    }
    return Some((line, end + 1));
  }

  lemma NoNewline(s: Bytes)
    requires NEWLINE !in s
    ensures Line(s) == None
  {
  }

  function OntoText(text: Bytes, r: Option<(Bytes, Bytes)>): Option<(Bytes, Bytes)> {
    match r case None => None case Some((more, rest)) => Some((text + more, rest))
  }

  /** A stanza's body text, line by line. */
  method ReadBody(data: Bytes, start: nat) returns (r: Option<(Bytes, nat)>)
    requires start <= |data|
    ensures r.None? <==> BodyText(data[start..]).None?
    ensures r.Some? ==> start < r.value.1 <= |data| && BodyText(data[start..]) == Some((r.value.0, data[r.value.1..]))
  {
    hide Line;
    var text: Bytes := [];
    var pos := start;
    OntoNothing(BodyText(data[start..]));
    while true
      invariant start <= pos <= |data|
      invariant BodyText(data[start..]) == OntoText(text, BodyText(data[pos..]))
      decreases |data| - pos
    {
      var l := ReadLine(data, pos);
      if l.None? || |l.value.0| > COLUMNS {
        return None;
      }
      var (line, next) := l.value;
      OntoMore(text, line, BodyText(data[next..]));
      text, pos := text + line, next;
      if |line| < COLUMNS {
        return Some((text, pos));
      }
    }
  }

  lemma OntoNothing(r: Option<(Bytes, Bytes)>)
    ensures OntoText([], r) == r
  {
    if r.Some? {
      assert [] + r.value.0 == r.value.0;
    }
  }

  lemma OntoMore(text: Bytes, line: Bytes, r: Option<(Bytes, Bytes)>)
    ensures OntoText(text, OntoText(line, r)) == OntoText(text + line, r)
  {
    if r.Some? {
      assert text + (line + r.value.0) == text + line + r.value.0;
    }
  }

  function OntoStanzas(stanzas: seq<Stanza>, r: Option<Header>): Option<Header> {
    match r case None => None case Some(h) => Some(h.(stanzas := stanzas + h.stanzas))
  }

  lemma OntoOneMore(stanzas: seq<Stanza>, s: Stanza, r: Option<Header>)
    ensures OntoStanzas(stanzas, OntoStanzas([s], r)) == OntoStanzas(stanzas + [s], r)
  {
    if r.Some? {
      assert stanzas + ([s] + r.value.stanzas) == stanzas + [s] + r.value.stanzas;
    }
  }

  datatype Parsed = Parsed(stanzas: seq<Stanza>, macInput: Bytes, mac: Bytes, payloadAt: nat)

  /** The whole header, from the start of a file. */
  method ParseHeader(data: Bytes) returns (r: Option<Parsed>)
    ensures r.None? <==> Parse(data).None?
    ensures r.Some? ==>
              var h := Parse(data).value;
              && 3 <= |h.macLine| <= |data| && r.value.payloadAt <= |data|
              && r.value == Parsed(h.stanzas, MacInput(data, h), h.mac, r.value.payloadAt)
              && data[r.value.payloadAt..] == h.payload
  {
    hide Line, BodyText, Base64.Decode, Split, ArgsOk, Stanzas;
    assert data[0..] == data;
    var l := ReadLine(data, 0);
    if l.None? || l.value.0 != VERSION {
      return None;
    }
    var pos := l.value.1;
    ghost var from := pos;
    var stanzas: seq<Stanza> := [];
    assert Stanzas(data[from..]) == OntoStanzas([], Stanzas(data[from..])) by { OntoNoStanzas(Stanzas(data[from..])); }
    while true
      invariant from <= pos <= |data|
      invariant Stanzas(data[from..]) == OntoStanzas(stanzas, Stanzas(data[pos..]))
      decreases |data| - pos
    {
      var start := pos;
      l := ReadLine(data, pos);
      StanzasStep(data[start..]);
      if l.None? {
        return None;
      }
      var line := l.value.0;
      pos := l.value.1;
      if DASHES <= line {
        if !(MACMARK <= line) || |line[4..]| != 43 {
          return None;
        }
        var mac := Base64.Decode(line[4..]);
        if mac.None? {
          return None;
        }
        assert |data[start..]| >= 3 by { LineIs(data[start..]); }
        assert stanzas + [] == stanzas;
        return Some(Parsed(stanzas, data[..start + 3], mac.value, pos));
      }
      if !(ARROW <= line) || !ArgsOk(Split(line[3..])) {
        return None;
      }
      var b := ReadBody(data, pos);
      if b.None? {
        return None;
      }
      pos := b.value.1;
      var body := Base64.Decode(b.value.0);
      if body.None? {
        return None;
      }
      var s := Stanza(Split(line[3..]), body.value);
      OntoOneMore(stanzas, s, Stanzas(data[pos..]));
      stanzas := stanzas + [s];
    }
  }

  lemma OntoNoStanzas(r: Option<Header>)
    ensures OntoStanzas([], r) == r
  {
    if r.Some? {
      assert [] + r.value.stanzas == r.value.stanzas;
    }
  }

  lemma StanzasStep(s: Bytes)
    ensures Stanzas(s) ==
            match Line(s)
            case None => None
            case Some((line, rest)) =>
              if DASHES <= line then MacLine(s, line, rest)
              else if !(ARROW <= line) || !ArgsOk(Split(line[3..])) then None else
                match BodyText(rest)
                case None => None
                case Some((text, rest')) =>
                  match Base64.Decode(text)
                  case None => None
                  case Some(body) => OntoStanzas([Stanza(Split(line[3..]), body)], Stanzas(rest'))
  {
    hide Line, BodyText, Base64.Decode, Split, ArgsOk;
  }
}
