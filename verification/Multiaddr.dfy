/**
 The multiaddr codec: a sequence of components, each a protocol code and, for
 most protocols, a value, as bytes and as a slash-separated string.
 */
module Multiaddr {
  import opened Basics
  import Varint

  type Bytes = seq<Byte>

  /** Conversions of one protocol's value; None is an error. */
  datatype Transcoder = Transcoder(toBytes: string -> Option<Bytes>, toText: Bytes -> Option<string>,
                                   valid: Bytes -> bool)

  /** size is 0 for no value, positive for a fixed size in bits, and negative for
      a length-prefixed value. */
  datatype Protocol = Protocol(name: string, code: nat, size: int, path: bool, transcoder: Transcoder)

  datatype Registry = Registry(byName: map<string, Protocol>, byCode: map<nat, Protocol>)

  const MAX_INT32: nat := 0x7FFF_FFFF

  // ------------------------------------------------------------------ reading bytes

  /** ReadVarintCode: minimal varints up to 2^31 - 1. */
  function ReadCode(b: Bytes): (r: Option<Varint.Decoded>)
    ensures r.Some? ==> 0 < r.value.n <= |b|
  {
    match Varint.Decode(b)
    case None => None
    case Some(d) => if (d.n == 1 || b[d.n - 1] != 0) && d.x <= MAX_INT32 then Some(d) else None
  }

  /** Code 0 stands for "no such protocol". */
  function WithCode(reg: Registry, code: nat): Option<Protocol> {
    if code in reg.byCode && reg.byCode[code].code != 0 then Some(reg.byCode[code]) else None
  }

  function WithName(reg: Registry, name: string): Option<Protocol> {
    if name in reg.byName && reg.byName[name].code != 0 then Some(reg.byName[name]) else None
  }

  /** sizeForAddr: how many bytes the length takes, and the length. */
  function SizeFor(p: Protocol, b: Bytes): (r: Option<(nat, nat)>)
    ensures r.Some? ==> r.value.0 <= |b|
  {
    if p.size > 0 then Some((0, p.size / 8))
    else if p.size == 0 then Some((0, 0))
    else
      match ReadCode(b)
      case None => None
      case Some(d) => Some((d.n, d.x))
  }

  /** A component: its protocol, and where its value starts and ends. */
  datatype Component = Component(protocol: Protocol, offset: nat, end: nat)

  /** readComponent */
  function ReadComponent(reg: Registry, b: Bytes): (r: Option<Component>)
    ensures r.Some? ==> 0 < r.value.offset <= r.value.end <= |b|
  {
    match ReadCode(b)
    case None => None
    case Some(d) =>
      match WithCode(reg, d.x)
      case None => None
      case Some(p) =>
        if p.size == 0 then Some(Component(p, d.n, d.n)) else
        match SizeFor(p, b[d.n..])
        case None => None
        case Some((n, size)) => if d.n + n + size <= |b| then Some(Component(p, d.n + n, d.n + n + size)) else None
  }

  /** validateBytes */
  function Valid(reg: Registry, b: Bytes): bool {
    b != [] && ValidRest(reg, b)
  }

  function ValidRest(reg: Registry, b: Bytes): bool {
    if b == [] then true else
    match ReadComponent(reg, b)
    case None => false
    case Some(c) =>
      if c.protocol.size == 0 then ValidRest(reg, b[c.end..])
      else (c.protocol.path ==> c.end == |b|) && c.protocol.transcoder.valid(b[c.offset..c.end])
           && ValidRest(reg, b[c.end..])
  }

  // ------------------------------------------------------------------ printing

  /** Component.Value */
  function Value(c: Component, b: Bytes): string
    requires c.offset <= c.end <= |b|
  {
    if c.protocol.size == 0 then ""
    else match c.protocol.transcoder.toText(b[c.offset..c.end]) case None => "" case Some(t) => t
  }

  /** Component.writeTo */
  function Text(p: Protocol, value: string): string {
    "/" + p.name + (if value == "" then "" else (if p.path && value[0] == '/' then "" else "/") + value)
  }

  /** bytesToString */
  function Print(reg: Registry, b: Bytes): Option<string> {
    if b == [] then None else PrintRest(reg, b)
  }

  function PrintRest(reg: Registry, b: Bytes): Option<string> {
    if b == [] then Some("") else
    match ReadComponent(reg, b)
    case None => None
    case Some(c) =>
      match PrintRest(reg, b[c.end..])
      case None => None
      case Some(rest) => Some(Text(c.protocol, Value(c, b)) + rest)
  }

  // ------------------------------------------------------------------ parsing

  /** strings.TrimRight(s, "/") */
  function Trimmed(s: string): string {
    if s != "" && s[|s| - 1] == '/' then Trimmed(s[..|s| - 1]) else s
  }

  /** strings.Split(s, "/") */
  function Pieces(s: string): (r: seq<string>)
    ensures |r| > 0
  {
    if s == "" then [""]
    else
      if s[0] == '/' then [""] + Pieces(s[1..]) else Extended(s[0], Pieces(s[1..]))
  }

  function Extended(c: char, sp: seq<string>): (r: seq<string>)
    requires |sp| > 0
    ensures |r| == |sp|
  {
    [[c] + sp[0]] + sp[1..]
  }

  /** strings.Join(sp, "/") */
  function Joined(sp: seq<string>): string {
    if sp == [] then "" else if |sp| == 1 then sp[0] else sp[0] + "/" + Joined(sp[1..])
  }

  /** The text handed to the transcoder: the next piece, or all that is left. */
  function Argument(p: Protocol, sp: seq<string>): string
    requires |sp| >= 2
  {
    if p.path then "/" + Joined(sp[1..]) else sp[1]
  }

  /** One component from the pieces: its bytes and how many pieces it takes. */
  function ParseOne(reg: Registry, sp: seq<string>): (r: Option<(Bytes, nat)>)
    requires sp != []
    ensures r.Some? ==> 0 < r.value.1 <= |sp|
  {
    match WithName(reg, sp[0])
    case None => None
    case Some(p) =>
      if p.size == 0 then Some((Varint.Encode(p.code), 1))
      else if |sp| < 2 then None
      else
        match p.transcoder.toBytes(Argument(p, sp))
        case None => None
        case Some(a) =>
          Some((Varint.Encode(p.code) + (if p.size < 0 then Varint.Encode(|a|) else []) + a,
                if p.path then |sp| else 2))
  }

  function ParsePieces(reg: Registry, sp: seq<string>): Option<Bytes> {
    if sp == [] then Some([]) else
    match ParseOne(reg, sp)
    case None => None
    case Some((b, n)) =>
      match ParsePieces(reg, sp[n..])
      case None => None
      case Some(rest) => Some(b + rest)
  }

  /** stringToBytes */
  function Parse(reg: Registry, s: string): Option<Bytes> {
    var sp := Pieces(Trimmed(s));
    if sp[0] != "" || |sp| == 1 then None else ParsePieces(reg, sp[1..])
  }

  // ------------------------------------------------------------------ strings

  ghost predicate NoSlash(s: string) {
    '/' !in s
  }

  lemma {:induction false} PiecesOfWhole(s: string)
    requires NoSlash(s)
    ensures Pieces(s) == [s]
  {
    if s != "" {
      assert s[0] in s && forall c :: c in s[1..] ==> c in s;
      PiecesOfWhole(s[1..]);
      assert [s[0]] + s[1..] == s;
      assert Extended(s[0], [s[1..]]) == [s];
    }
  }

  lemma ExtendedAcross(c: char, a: seq<string>, b: seq<string>)
    requires |a| > 0
    ensures Extended(c, a + b) == Extended(c, a) + b
  {
  }

  lemma {:induction false} PiecesAcross(a: string, b: string)
    ensures Pieces(a + "/" + b) == Pieces(a) + Pieces(b)
  {
    hide Extended;
    var s := a + "/" + b;
    PiecesAt(s);
    if a == "" {
      assert s[1..] == b && Pieces("") == [""];
    } else {
      PiecesAt(a);
      PiecesAcross(a[1..], b);
      assert s[1..] == a[1..] + "/" + b && s[0] == a[0];
      ExtendedAcross(a[0], Pieces(a[1..]), Pieces(b));
      assert [""] + (Pieces(a[1..]) + Pieces(b)) == ([""] + Pieces(a[1..])) + Pieces(b);
    }
  }

  lemma PiecesAt(s: string)
    requires s != ""
    ensures Pieces(s) == if s[0] == '/' then [""] + Pieces(s[1..]) else Extended(s[0], Pieces(s[1..]))
  {
  }

  lemma {:induction false} JoinPieces(s: string)
    ensures Joined(Pieces(s)) == s
  {
    if s != "" {
      JoinPieces(s[1..]);
      var rest := Pieces(s[1..]);
      assert ([""] + rest)[1..] == rest;
      assert Extended(s[0], rest)[1..] == rest[1..];
    }
  }

  // ------------------------------------------------------------------ assumptions on protocols

  /** A component can carry the value: it has the announced size, or a length that
      ReadVarintCode accepts. */
  predicate Carries(p: Protocol, v: Bytes) {
    (p.size > 0 ==> |v| == p.size / 8) && (p.size < 0 ==> |v| <= MAX_INT32)
  }

  /** Valid bytes of the protocol have a text that reads back as those bytes. The
      text is not empty; it has no slash, or for a path protocol it starts with one
      and does not end in one. */
  ghost predicate RoundTrips(p: Protocol, v: Bytes) {
    var t := p.transcoder.toText(v);
    && t.Some? && t.value != "" && p.transcoder.toBytes(t.value) == Some(v)
    && (if p.path then t.value[0] == '/' && t.value[|t.value| - 1] != '/' else NoSlash(t.value))
  }

  ghost predicate ProtocolOk(p: Protocol) {
    && p.name != "" && NoSlash(p.name) && (p.path ==> p.size < 0)
    && (p.size != 0 ==>
          forall v {:trigger p.transcoder.valid(v)} :: p.transcoder.valid(v) && Carries(p, v) ==> RoundTrips(p, v))
  }

  /** What AddProtocol keeps, and sound protocols. */
  ghost predicate RegistryOk(reg: Registry) {
    forall c :: c in reg.byCode ==>
      var p := reg.byCode[c];
      p.code == c && p.name in reg.byName && reg.byName[p.name] == p && ProtocolOk(p)
  }

  // ------------------------------------------------------------------ print, then parse

  lemma CodeBytes(b: Bytes)
    requires ReadCode(b).Some?
    ensures Varint.Encode(ReadCode(b).value.x) == b[..ReadCode(b).value.n] && ReadCode(b).value.x <= MAX_INT32
  {
    Varint.EncodeDecode(b);
  }

  /** The encoding of a component with this value. */
  function Encoded(p: Protocol, v: Bytes): Bytes {
    if p.size == 0 then Varint.Encode(p.code)
    else Varint.Encode(p.code) + (if p.size < 0 then Varint.Encode(|v|) else []) + v
  }

  /** A component's bytes are the encodings of its code and length, and its value. */
  lemma ComponentBytes(reg: Registry, b: Bytes)
    requires RegistryOk(reg) && ReadComponent(reg, b).Some?
    ensures var c := ReadComponent(reg, b).value;
            && WithName(reg, c.protocol.name) == Some(c.protocol) && ProtocolOk(c.protocol)
            && b[..c.end] == Encoded(c.protocol, b[c.offset..c.end]) && Carries(c.protocol, b[c.offset..c.end])
  {
    hide Varint.Encode, ReadCode, ProtocolOk;
    var c := ReadComponent(reg, b).value;
    var n := ReadCode(b).value.n;
    CodeBytes(b);
    if c.protocol.size != 0 {
      assert b[..c.end] == b[..n] + b[n..c.offset] + b[c.offset..c.end];
      if c.protocol.size < 0 {
        CodeBytes(b[n..]);
        assert b[n..][..c.offset - n] == b[n..c.offset];
      }
    }
  }

  /** The pieces of one component parse back to its bytes. */
  lemma ParseOneBack(reg: Registry, p: Protocol, v: Bytes, sp: seq<string>)
    requires sp != [] && sp[0] == p.name && WithName(reg, p.name) == Some(p)
    requires p.size != 0 ==> |sp| >= 2 && p.transcoder.toBytes(Argument(p, sp)) == Some(v)
    ensures ParseOne(reg, sp) == Some((Encoded(p, v), if p.size == 0 then 1 else if p.path then |sp| else 2))
  {
    hide Varint.Encode;
  }

  /** The printed form, without its leading slash. */
  ghost predicate PrintsBack(reg: Registry, b: Bytes) {
    && PrintRest(reg, b).Some?
    && var s := PrintRest(reg, b).value;
       if b == [] then s == ""
       else s != "" && s[0] == '/' && s[|s| - 1] != '/' && ParsePieces(reg, Pieces(s[1..])) == Some(b)
  }

  lemma {:induction false} PrintRestBack(reg: Registry, b: Bytes)
    requires RegistryOk(reg) && ValidRest(reg, b)
    ensures PrintsBack(reg, b)
    decreases |b|
  {
    if b != [] {
      var c := ReadComponent(reg, b).value;
      ComponentBytes(reg, b);
      PrintRestBack(reg, b[c.end..]);
      if c.protocol.size == 0 {
        PlainBack(reg, b);
      } else if c.protocol.path {
        PathBack(reg, b);
      } else {
        ValueBack(reg, b);
      }
    }
  }

  /** Pieces of a component's own text followed by the text of the rest. */
  lemma PiecesAppend(own: string, rest: string)
    requires rest == "" || rest[0] == '/'
    ensures Pieces(own + rest) == Pieces(own) + (if rest == "" then [] else Pieces(rest[1..]))
  {
    if rest == "" {
      assert own + rest == own;
    } else {
      assert own + rest == own + "/" + rest[1..];
      PiecesAcross(own, rest[1..]);
    }
  }

  lemma ParseThenRest(reg: Registry, own: seq<string>, rest: seq<string>, b: Bytes, end: nat)
    requires end <= |b| && own != []
    requires ParseOne(reg, own + rest) == Some((b[..end], |own|)) && ParsePieces(reg, rest) == Some(b[end..])
    ensures ParsePieces(reg, own + rest) == Some(b)
  {
    assert (own + rest)[|own|..] == rest;
    assert b[..end] + b[end..] == b;
  }

  lemma PlainBack(reg: Registry, b: Bytes)
    requires RegistryOk(reg) && b != [] && ReadComponent(reg, b).Some?
    requires var c := ReadComponent(reg, b).value; c.protocol.size == 0 && PrintsBack(reg, b[c.end..])
    ensures PrintsBack(reg, b)
  {
    hide ReadComponent, ParseOne, ParsePieces, Pieces, Encoded, RegistryOk, WithName;
    var c := ReadComponent(reg, b).value;
    var p := c.protocol;
    ComponentBytes(reg, b);
    var rest := PrintRest(reg, b[c.end..]).value;
    var s := PrintRest(reg, b).value;
    assert s[1..] == p.name + rest;
    PiecesAppend(p.name, rest);
    PiecesOfWhole(p.name);
    var more := if rest == "" then [] else Pieces(rest[1..]);
    ParseOneBack(reg, p, b[c.offset..c.end], [p.name] + more);
    NothingToParse(reg);
    ParseThenRest(reg, [p.name], more, b, c.end);
    assert rest == "" ==> s[|s| - 1] in p.name;
  }

  lemma NothingToParse(reg: Registry)
    ensures ParsePieces(reg, []) == Some([]) && PrintRest(reg, []) == Some("")
  {
  }

  lemma ValueBack(reg: Registry, b: Bytes)
    requires RegistryOk(reg) && b != [] && ReadComponent(reg, b).Some?
    requires var c := ReadComponent(reg, b).value;
             && c.protocol.size != 0 && !c.protocol.path && PrintsBack(reg, b[c.end..])
             && c.protocol.transcoder.valid(b[c.offset..c.end])
    ensures PrintsBack(reg, b)
  {
    hide ReadComponent, ParseOne, ParsePieces, Pieces, Encoded, RegistryOk, WithName;
    var c := ReadComponent(reg, b).value;
    var p := c.protocol;
    ComponentBytes(reg, b);
    assert RoundTrips(p, b[c.offset..c.end]);
    var t := p.transcoder.toText(b[c.offset..c.end]).value;
    var rest := PrintRest(reg, b[c.end..]).value;
    var s := PrintRest(reg, b).value;
    assert s[1..] == p.name + "/" + t + rest;
    PiecesAppend(p.name + "/" + t, rest);
    PiecesAcross(p.name, t);
    PiecesOfWhole(p.name);
    PiecesOfWhole(t);
    var more := if rest == "" then [] else Pieces(rest[1..]);
    ParseOneBack(reg, p, b[c.offset..c.end], [p.name, t] + more);
    NothingToParse(reg);
    ParseThenRest(reg, [p.name, t], more, b, c.end);
    assert [p.name] + [t] == [p.name, t];
    assert rest == "" ==> s[|s| - 1] in t;
  }

  lemma PathBack(reg: Registry, b: Bytes)
    requires RegistryOk(reg) && b != [] && ReadComponent(reg, b).Some?
    requires var c := ReadComponent(reg, b).value;
             && c.protocol.path && c.end == |b| && c.protocol.transcoder.valid(b[c.offset..c.end])
    ensures PrintsBack(reg, b)
  {
    hide ReadComponent, ParseOne, ParsePieces, Pieces, Encoded, RegistryOk, WithName, Joined;
    var c := ReadComponent(reg, b).value;
    var p := c.protocol;
    ComponentBytes(reg, b);
    assert RoundTrips(p, b[c.offset..c.end]);
    assert b[c.end..] == [] && b[..c.end] == b;
    NothingToParse(reg);
    var t := p.transcoder.toText(b[c.offset..c.end]).value;
    var s := PrintRest(reg, b).value;
    assert s[1..] == p.name + "/" + t[1..];
    PiecesAcross(p.name, t[1..]);
    PiecesOfWhole(p.name);
    JoinPieces(t[1..]);
    var sp := [p.name] + Pieces(t[1..]);
    assert sp[1..] == Pieces(t[1..]) && sp + [] == sp;
    assert "/" + t[1..] == t;
    ParseOneBack(reg, p, b[c.offset..c.end], sp);
    ParseThenRest(reg, sp, [], b, |b|);
  }

  /** Printing bytes that validate succeeds, and parsing the text gives the same
      bytes. */
  lemma PrintParse(reg: Registry, b: Bytes)
    requires RegistryOk(reg) && Valid(reg, b)
    ensures Print(reg, b).Some? && Parse(reg, Print(reg, b).value) == Some(b)
  {
    PrintRestBack(reg, b);
    var s := Print(reg, b).value;
    assert s == "" + "/" + s[1..];
    PiecesAcross("", s[1..]);
    assert Pieces(s)[1..] == Pieces(s[1..]);
  }

  // ------------------------------------------------------------------ path values

  lemma {:induction false} TrimmedEnd(s: string)
    ensures Trimmed(s) <= s && (Trimmed(s) != "" ==> Trimmed(s)[|Trimmed(s)| - 1] != '/')
    ensures s != "" && s[|s| - 1] != '/' ==> Trimmed(s) == s
  {
    if s != "" && s[|s| - 1] == '/' {
      TrimmedEnd(s[..|s| - 1]);
    }
  }

  /** The value that parsing the text hands to a path protocol's transcoder. */
  function PathValue(text: string): Option<string> {
    var sp := Pieces(Trimmed(text));
    if |sp| < 3 then None else Some("/" + Joined(sp[2..]))
  }

  /** A path value survives printing and parsing if and only if it starts with a
      slash and does not end in one, which is why the transcoders insist on it. */
  lemma PathValueExactly(p: Protocol, t: string)
    requires p.path && p.name != "" && NoSlash(p.name)
    ensures PathValue(Text(p, t)) == Some(t) <==> t != "" && t[0] == '/' && t[|t| - 1] != '/'
  {
    hide Pieces, Joined, Trimmed;
    if t != "" && t[0] == '/' && t[|t| - 1] != '/' {
      PathValueKept(p, t);
    } else {
      PathValueLost(p, t);
    }
  }

  lemma PathValueKept(p: Protocol, t: string)
    requires p.path && NoSlash(p.name) && t != "" && t[0] == '/' && t[|t| - 1] != '/'
    ensures PathValue(Text(p, t)) == Some(t)
  {
    hide Pieces, Joined, Trimmed;
    var s := Text(p, t);
    TrimmedEnd(s);
    assert "/" + t[1..] == t && s[|s| - 1] == t[|t| - 1];
    assert s == "" + "/" + (p.name + "/" + t[1..]);
    PiecesAcross("", p.name + "/" + t[1..]);
    PiecesAcross(p.name, t[1..]);
    PiecesOfWhole("");
    PiecesOfWhole(p.name);
    assert Pieces(s)[2..] == Pieces(t[1..]);
    JoinPieces(t[1..]);
  }

  /** One that ends in a slash comes back without it. */
  lemma PathValueShortened(p: Protocol)
    requires p.path && NoSlash(p.name)
    ensures PathValue(Text(p, "/a/")) == Some("/a")
  {
    hide Pieces, Joined;
    PathValueKept(p, "/a");
    assert Text(p, "/a/") == Text(p, "/a") + "/";
    assert (Text(p, "/a") + "/")[..|Text(p, "/a")|] == Text(p, "/a");
  }

  lemma PathValueLost(p: Protocol, t: string)
    requires p.path && p.name != "" && NoSlash(p.name) && (t == "" || t[0] != '/' || t[|t| - 1] == '/')
    ensures PathValue(Text(p, t)) != Some(t)
  {
    hide Pieces, Joined, Trimmed;
    var s := Text(p, t);
    var sp := Pieces(Trimmed(s));
    TrimmedEnd(s);
    if t == "" {
      assert s == "" + "/" + p.name;
      PiecesAcross("", p.name);
      PiecesOfWhole("");
      PiecesOfWhole(p.name);
    } else if |sp| >= 3 {
      JoinPieces(Trimmed(s));
      JoinedLast(sp);
    }
  }

  /** With at least three pieces the last one ends the whole. */
  lemma JoinedLast(sp: seq<string>)
    requires |sp| >= 3
    ensures Joined(sp) != ""
    ensures var whole, part := Joined(sp), "/" + Joined(sp[2..]); whole[|whole| - 1] == part[|part| - 1]
  {
    assert sp[1..][1..] == sp[2..];
    assert Joined(sp) == sp[0] + "/" + (sp[1] + "/" + Joined(sp[2..]));
  }

  // ------------------------------------------------------------------ parsed bytes validate

  /** What the transcoder accepts has the size the protocol announces, and validates
      if a component can carry it. */
  ghost predicate Sound(p: Protocol) {
    p.size != 0 ==> forall t {:trigger p.transcoder.toBytes(t)} ::
      (p.transcoder.toBytes(t).Some? && (p.path ==> |t| > 1 && t[0] == '/' && t[|t| - 1] != '/')) ==>
        var a := p.transcoder.toBytes(t).value;
        (p.size > 0 ==> |a| == p.size / 8) && (Carries(p, a) ==> p.transcoder.valid(a))
  }

  ghost predicate RegistrySound(reg: Registry) {
    forall n :: n in reg.byName ==>
      var p := reg.byName[n];
      Sound(p) && p.code <= MAX_INT32 && p.code in reg.byCode && reg.byCode[p.code] == p && (p.path ==> p.size < 0)
  }

  lemma ReadEncodedCode(x: nat, rest: Bytes)
    requires x <= MAX_INT32
    ensures ReadCode(Varint.Encode(x) + rest) == Some(Varint.Decoded(x, |Varint.Encode(x)|))
  {
    Varint.DecodeEncode(x, rest);
    Varint.EncodeDecode(Varint.Encode(x) + rest);
    assert (Varint.Encode(x) + rest)[..|Varint.Encode(x)|] == Varint.Encode(x);
  }

  /** An encoded component reads back, whatever follows. */
  lemma ReadEncoded(reg: Registry, p: Protocol, v: Bytes, rest: Bytes)
    requires WithCode(reg, p.code) == Some(p) && p.code <= MAX_INT32 && Carries(p, v) && (p.size == 0 ==> v == [])
    ensures var e := |Encoded(p, v)|; ReadComponent(reg, Encoded(p, v) + rest) == Some(Component(p, e - |v|, e))
    ensures (Encoded(p, v) + rest)[|Encoded(p, v)| - |v|..|Encoded(p, v)|] == v
  {
    hide Encoded, ReadComponent, WithCode;
    if p.size == 0 {
      ReadPlain(reg, p, rest);
    } else if p.size > 0 {
      ReadFixed(reg, p, v, rest);
    } else {
      ReadPrefixed(reg, p, v, rest);
    }
  }

  lemma ReadPlain(reg: Registry, p: Protocol, rest: Bytes)
    requires WithCode(reg, p.code) == Some(p) && p.code <= MAX_INT32 && p.size == 0
    ensures var e := |Encoded(p, [])|; ReadComponent(reg, Encoded(p, []) + rest) == Some(Component(p, e, e))
  {
    hide Varint.Encode, ReadCode, WithCode;
    ReadEncodedCode(p.code, rest);
  }

  lemma ReadFixed(reg: Registry, p: Protocol, v: Bytes, rest: Bytes)
    requires WithCode(reg, p.code) == Some(p) && p.code <= MAX_INT32 && p.size > 0 && |v| == p.size / 8
    ensures var e := |Encoded(p, v)|; ReadComponent(reg, Encoded(p, v) + rest) == Some(Component(p, e - |v|, e))
    ensures (Encoded(p, v) + rest)[|Encoded(p, v)| - |v|..|Encoded(p, v)|] == v
  {
    hide Varint.Encode, ReadCode, WithCode;
    var code, tail := Varint.Encode(p.code), v + rest;
    assert Encoded(p, v) + rest == code + tail;
    ReadEncodedCode(p.code, tail);
  }

  lemma ReadPrefixed(reg: Registry, p: Protocol, v: Bytes, rest: Bytes)
    requires WithCode(reg, p.code) == Some(p) && p.code <= MAX_INT32 && p.size < 0 && |v| <= MAX_INT32
    ensures var e := |Encoded(p, v)|; ReadComponent(reg, Encoded(p, v) + rest) == Some(Component(p, e - |v|, e))
    ensures (Encoded(p, v) + rest)[|Encoded(p, v)| - |v|..|Encoded(p, v)|] == v
  {
    hide Varint.Encode, ReadCode, WithCode;
    var code, length := Varint.Encode(p.code), Varint.Encode(|v|);
    var tail := length + (v + rest);
    assert Encoded(p, v) + rest == code + tail && (code + tail)[|code|..] == tail;
    ReadEncodedCode(p.code, tail);
    ReadEncodedCode(|v|, v + rest);
  }

  /** A length above 2^31 - 1 is written but cannot be read. */
  lemma LongUnreadable(reg: Registry, p: Protocol, v: Bytes, rest: Bytes)
    requires WithCode(reg, p.code) == Some(p) && p.code <= MAX_INT32 && p.size < 0 && |v| > MAX_INT32
    ensures ReadComponent(reg, Encoded(p, v) + rest) == None
  {
    hide Varint.Encode, Varint.Decode;
    var code, length := Varint.Encode(p.code), Varint.Encode(|v|);
    var tail := length + (v + rest);
    assert Encoded(p, v) + rest == code + tail && (code + tail)[|code|..] == tail;
    ReadEncodedCode(p.code, tail);
    Varint.DecodeEncode(|v|, v + rest);
  }

  /** The last piece is not empty, as after trimming. */
  ghost predicate NoTrailing(sp: seq<string>) {
    sp != [] ==> sp[|sp| - 1] != "" && sp[|sp| - 1][|sp[|sp| - 1]| - 1] != '/'
  }

  /** No value is too long for its length to be read back. */
  predicate Short(reg: Registry, sp: seq<string>)
    requires ParsePieces(reg, sp).Some?
  {
    sp == [] || (ShortFirst(reg, sp) && Short(reg, sp[ParseOne(reg, sp).value.1..]))
  }

  predicate ShortFirst(reg: Registry, sp: seq<string>)
    requires sp != [] && ParseOne(reg, sp).Some?
  {
    var p := WithName(reg, sp[0]).value;
    p.size < 0 ==> |p.transcoder.toBytes(Argument(p, sp)).value| <= MAX_INT32
  }

  /** Parsed pieces validate, and print, if and only if every value is short enough. */
  lemma {:induction false} ParsePiecesValid(reg: Registry, sp: seq<string>)
    requires RegistrySound(reg) && NoTrailing(sp) && ParsePieces(reg, sp).Some?
    ensures ValidRest(reg, ParsePieces(reg, sp).value) <==> Short(reg, sp)
    ensures !Short(reg, sp) ==> PrintRest(reg, ParsePieces(reg, sp).value) == None
    ensures sp != [] ==> ParsePieces(reg, sp).value != []
    decreases |sp|
  {
    hide ParseOne, ShortFirst, RegistrySound, ReadComponent;
    if sp != [] {
      var (own, n) := ParseOne(reg, sp).value;
      ParsePiecesValid(reg, sp[n..]);
      ParseOneValid(reg, sp, ParsePieces(reg, sp[n..]).value);
    }
  }

  lemma ParseOneValid(reg: Registry, sp: seq<string>, rest: Bytes)
    requires RegistrySound(reg) && sp != [] && NoTrailing(sp) && ParseOne(reg, sp).Some?
    requires ParseOne(reg, sp).value.1 == |sp| ==> rest == []
    ensures var own := ParseOne(reg, sp).value.0;
            && own != [] && (ValidRest(reg, own + rest) <==> ShortFirst(reg, sp) && ValidRest(reg, rest))
            && (!ShortFirst(reg, sp) || PrintRest(reg, rest) == None ==> PrintRest(reg, own + rest) == None)
  {
    hide Varint.Encode, ReadComponent;
    var p := WithName(reg, sp[0]).value;
    var (own, n) := ParseOne(reg, sp).value;
    if p.size == 0 {
      ReadEncoded(reg, p, [], rest);
      assert (own + rest)[|own|..] == rest;
    } else {
      var a := p.transcoder.toBytes(Argument(p, sp)).value;
      if p.path {
        JoinedEnd(sp[1..]);
      }
      assert own == Encoded(p, a);
      if Carries(p, a) {
        ReadEncoded(reg, p, a, rest);
        assert (own + rest)[|own|..] == rest;
      } else {
        LongUnreadable(reg, p, a, rest);
      }
    }
  }

  lemma {:induction false} JoinedEnd(sp: seq<string>)
    requires sp != [] && NoTrailing(sp)
    ensures Joined(sp) != "" && Joined(sp)[|Joined(sp)| - 1] != '/'
  {
    if |sp| > 1 {
      JoinedEnd(sp[1..]);
    }
  }

  lemma {:induction false} PiecesEnd(s: string)
    requires s != "" && s[|s| - 1] != '/'
    ensures NoTrailing(Pieces(s))
  {
    hide Pieces;
    if |s| == 1 {
      PiecesOfWhole(s);
    } else {
      PiecesEnd(s[1..]);
      PiecesAt(s);
    }
  }

  /** What parses is a valid multiaddr in bytes if and only if no value is longer than
      2^31 - 1 bytes. */
  lemma ParseValid(reg: Registry, s: string)
    requires RegistrySound(reg) && Parse(reg, s).Some?
    ensures Valid(reg, Parse(reg, s).value) <==> Short(reg, Pieces(Trimmed(s))[1..])
    ensures !Short(reg, Pieces(Trimmed(s))[1..]) ==> Print(reg, Parse(reg, s).value) == None
  {
    TrimmedEnd(s);
    var sp := Pieces(Trimmed(s));
    PiecesEnd(Trimmed(s));
    ParsePiecesValid(reg, sp[1..]);
  }

  /** Exactly then it prints, as a canonical text for the same bytes. */
  lemma ParsePrintParse(reg: Registry, s: string)
    requires RegistryOk(reg) && RegistrySound(reg) && Parse(reg, s).Some?
    ensures Print(reg, Parse(reg, s).value).Some? <==> Short(reg, Pieces(Trimmed(s))[1..])
    ensures Print(reg, Parse(reg, s).value).Some? ==>
              Parse(reg, Print(reg, Parse(reg, s).value).value) == Parse(reg, s)
  {
    hide Parse, Print, Short, RegistryOk, RegistrySound;
    ParseValid(reg, s);
    if Valid(reg, Parse(reg, s).value) {
      PrintParse(reg, Parse(reg, s).value);
    }
  }
}
