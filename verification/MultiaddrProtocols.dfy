/**
 The protocol registry and the transcoders that do not depend on other libraries'
 encodings. Go strings are bytes, so a character stands for one byte.
 */
module MultiaddrProtocols {
  import opened Basics
  import opened Multiaddr

  // ------------------------------------------------------------------ the registry

  /** AddProtocol; None is an error. */
  function AddProtocol(reg: Registry, p: Protocol): (r: Option<Registry>)
    ensures r.Some? ==> WithName(r.value, p.name) == WithCode(r.value, p.code) == if p.code != 0 then Some(p) else None
  {
    if p.name in reg.byName || p.code in reg.byCode || (p.path && p.size >= 0) then None
    else Some(Registry(reg.byName[p.name := p], reg.byCode[p.code := p]))
  }

  function AddAll(reg: Registry, ps: seq<Protocol>): Option<Registry>
    decreases ps
  {
    if ps == [] then Some(reg) else
    match AddProtocol(reg, ps[0])
    case None => None
    case Some(next) => AddAll(next, ps[1..])
  }

  const NO_PROTOCOLS := Registry(map[], map[])

  /** No two protocols share a name or a code. */
  ghost predicate Apart(ps: seq<Protocol>) {
    forall i, j {:trigger ps[i], ps[j]} :: 0 <= i < j < |ps| ==> ps[i].name != ps[j].name && ps[i].code != ps[j].code
  }

  /** Nor one with the registry, and path protocols have no fixed size. */
  ghost predicate Addable(reg: Registry, ps: seq<Protocol>) {
    forall p :: p in ps ==> p.name !in reg.byName && p.code !in reg.byCode && (p.path ==> p.size < 0)
  }

  /** Filling a registry succeeds exactly then. */
  lemma {:induction false} AddsExactly(reg: Registry, ps: seq<Protocol>)
    ensures AddAll(reg, ps).Some? <==> Apart(ps) && Addable(reg, ps)
    decreases ps
  {
    if ps != [] {
      var p, rest := ps[0], ps[1..];
      ApartNext(ps);
      assert forall q :: q in ps <==> q == p || q in rest;
      if AddProtocol(reg, p).Some? {
        AddsExactly(AddProtocol(reg, p).value, rest);
      }
    }
  }

  lemma ApartNext(ps: seq<Protocol>)
    requires ps != []
    ensures Apart(ps) <==>
            Apart(ps[1..]) && forall q :: q in ps[1..] ==> q.name != ps[0].name && q.code != ps[0].code
  {
    var rest := ps[1..];
    assert forall i :: 0 <= i < |rest| ==> rest[i] == ps[i + 1];
    if Apart(rest) && forall q :: q in rest ==> q.name != ps[0].name && q.code != ps[0].code {
      forall i, j {:trigger ps[i], ps[j]} | 0 <= i < j < |ps|
        ensures ps[i].name != ps[j].name && ps[i].code != ps[j].code
      {
        assert ps[j] == rest[j - 1] && rest[j - 1] in rest;
        assert i > 0 ==> ps[i] == rest[i - 1];
      }
    }
    if Apart(ps) {
      forall q | q in rest
        ensures q.name != ps[0].name && q.code != ps[0].code
      {
        var i :| 0 <= i < |rest| && rest[i] == q;
        assert ps[i + 1] == q;
      }
    }
  }

  /** The laws of a protocol that the codec relies on. */
  ghost predicate Lawful(p: Protocol) {
    ProtocolOk(p) && Sound(p) && p.code <= MAX_INT32
  }

  /** A registry filled with lawful protocols serves the codec's theorems. */
  lemma {:induction false} RegistryLawful(reg: Registry, ps: seq<Protocol>)
    requires RegistryOk(reg) && RegistrySound(reg) && (forall p :: p in ps ==> Lawful(p)) && AddAll(reg, ps).Some?
    ensures RegistryOk(AddAll(reg, ps).value) && RegistrySound(AddAll(reg, ps).value)
    decreases ps
  {
    if ps != [] {
      assert ps[0] in ps;
      AddKeepsLaws(reg, ps[0]);
      RegistryLawful(AddProtocol(reg, ps[0]).value, ps[1..]);
    }
  }

  lemma AddKeepsLaws(reg: Registry, p: Protocol)
    requires RegistryOk(reg) && RegistrySound(reg) && Lawful(p) && AddProtocol(reg, p).Some?
    ensures RegistryOk(AddProtocol(reg, p).value) && RegistrySound(AddProtocol(reg, p).value)
  {
    hide ProtocolOk, Sound;
    assert p.path ==> p.size < 0;
  }

  /** Another name for a protocol that is there, as ipfs is for p2p. */
  function Aliased(reg: Registry, alias: string, name: string): Registry
    requires name in reg.byName
  {
    reg.(byName := reg.byName[alias := reg.byName[name]])
  }

  lemma AliasKeepsLaws(reg: Registry, alias: string, name: string)
    requires RegistryOk(reg) && RegistrySound(reg) && alias !in reg.byName && name in reg.byName
    ensures RegistryOk(Aliased(reg, alias, name)) && RegistrySound(Aliased(reg, alias, name))
  {
    hide ProtocolOk, Sound;
  }

  // ------------------------------------------------------------------ bytes as text

  const SLASH: Byte := 47

  function TextOf(b: Bytes): (s: string)
    ensures |s| == |b| && forall i :: 0 <= i < |b| ==> s[i] as int == b[i]
  {
    seq(|b|, i requires 0 <= i < |b| => b[i] as char)
  }

  function BytesOf(s: string): (r: Option<Bytes>)
    ensures r.Some? ==> |r.value| == |s| && forall i :: 0 <= i < |s| ==> r.value[i] == s[i] as int
  {
    if forall c :: c in s ==> c as int < 256
    then Some(seq(|s|, i requires 0 <= i < |s| => ByteOf(s, i)))
    else None
  }

  function ByteOf(s: string, i: nat): Byte
    requires i < |s| && forall c :: c in s ==> c as int < 256
  {
    assert s[i] in s;
    s[i] as int
  }

  lemma BytesBack(b: Bytes)
    ensures BytesOf(TextOf(b)) == Some(b) && ('/' in TextOf(b) <==> SLASH in b)
  {
    var s := TextOf(b);
    assert BytesOf(s).value == b by {
      forall c | c in s
        ensures c as int < 256
      {
        var i :| 0 <= i < |b| && s[i] == c;
      }
    }
    if SLASH in b {
      var i :| 0 <= i < |b| && b[i] == SLASH;
      assert s[i] == '/';
    }
  }

  function DnsValid(b: Bytes): bool {
    b != [] && SLASH !in b
  }

  function DnsBytes(s: string): Option<Bytes> {
    var b := BytesOf(s);
    if b.Some? && DnsValid(b.value) then b else None
  }

  function DnsText(b: Bytes): Option<string> {
    Some(TextOf(b))
  }

  const DNS := Transcoder(DnsBytes, DnsText, DnsValid)

  function ZoneBytes(s: string): Option<Bytes> {
    if s == "" || '/' in s then None else BytesOf(s)
  }

  function ZoneText(b: Bytes): Option<string> {
    if b == [] then None else Some(TextOf(b))
  }

  const IP6_ZONE := Transcoder(ZoneBytes, ZoneText, DnsValid)

  function UnixValid(b: Bytes): bool {
    |b| >= 2 && b[0] == SLASH && b[|b| - 1] != SLASH
  }

  const UNIX := Transcoder(BytesOf, DnsText, UnixValid)

  /** Names of hosts, zones and files: any name, code and, for files, the path flag. */
  lemma NamesLawful(p: Protocol)
    requires p.name != "" && NoSlash(p.name) && p.size < 0 && p.code <= MAX_INT32
    requires (!p.path && (p.transcoder == DNS || p.transcoder == IP6_ZONE)) || (p.path && p.transcoder == UNIX)
    ensures Lawful(p)
  {
    forall v | p.transcoder.valid(v)
      ensures RoundTrips(p, v)
    {
      BytesBack(v);
    }
    forall t | p.transcoder.toBytes(t).Some? && (p.path ==> |t| > 1 && t[0] == '/' && t[|t| - 1] != '/')
      ensures p.transcoder.valid(p.transcoder.toBytes(t).value)
    {
      if SLASH in p.transcoder.toBytes(t).value {
        var i :| 0 <= i < |t| && p.transcoder.toBytes(t).value[i] == SLASH;
        assert t[i] == '/';
      }
    }
  }

  // ------------------------------------------------------------------ numbers

  /** strconv.FormatUint in base ten. */
  function Decimal(n: nat): (s: string)
    ensures s != "" && forall c :: c in s ==> '0' <= c <= '9'
  {
    if n < 10 then [(48 + n) as char] else Decimal(n / 10) + [(48 + n % 10) as char]
  }

  /** strconv.ParseUint in base ten, before its test of the range. */
  function Number(s: string): Option<nat> {
    if s == "" then None
    else
      var c := s[|s| - 1];
      if !('0' <= c <= '9') then None
      else if |s| == 1 then Some(c as int - 48)
      else
        match Number(s[..|s| - 1])
        case None => None
        case Some(n) => Some(10 * n + (c as int - 48))
  }

  lemma {:induction false} NumberBack(n: nat)
    ensures Number(Decimal(n)) == Some(n)
  {
    if n >= 10 {
      var s := Decimal(n);
      NumberBack(n / 10);
      assert s[..|s| - 1] == Decimal(n / 10);
    }
  }

  function PortBytes(s: string): Option<Bytes> {
    match Number(s)
    case None => None
    case Some(n) => if n < 0x1_0000 then Some([n / 256, n % 256]) else None
  }

  /** Uint16 panics on fewer than two bytes, which validation never lets through. */
  function PortText(b: Bytes): Option<string> {
    if |b| < 2 then None else Some(Decimal(256 * (b[0] as int) + b[1]))
  }

  /** A transcoder without a validator accepts every value. */
  function AnyValid(b: Bytes): bool {
    true
  }

  const PORT := Transcoder(PortBytes, PortText, AnyValid)

  /** A port is two bytes, the high one first. */
  lemma PortOnWire(n: nat)
    requires n < 0x1_0000
    ensures PORT.toBytes(Decimal(n)).Some?
    ensures var b := PORT.toBytes(Decimal(n)).value; |b| == 2 && (b[0] as int) * 256 + b[1] == n
  {
    hide Decimal, Number;
    NumberBack(n);
  }

  function CidrValid(b: Bytes): bool {
    |b| == 1
  }

  function CidrBytes(s: string): Option<Bytes> {
    match Number(s)
    case None => None
    case Some(n) => if n < 256 then Some([n]) else None
  }

  function CidrText(b: Bytes): Option<string> {
    if CidrValid(b) then Some(Decimal(b[0])) else None
  }

  const IP_CIDR := Transcoder(CidrBytes, CidrText, CidrValid)

  /** Ports, though nothing validates them, and prefix lengths. */
  lemma NumbersLawful(p: Protocol)
    requires p.name != "" && NoSlash(p.name) && !p.path && p.code <= MAX_INT32
    requires (p.size == 16 && p.transcoder == PORT) || (p.size == 8 && p.transcoder == IP_CIDR)
    ensures Lawful(p)
  {
    forall v | p.transcoder.valid(v) && Carries(p, v)
      ensures RoundTrips(p, v)
    {
      var n := if p.size == 16 then 256 * (v[0] as int) + v[1] else v[0];
      NumberBack(n);
      assert p.size == 16 ==> n / 256 == v[0] && n % 256 == v[1] && v == [v[0], v[1]];
      assert p.size == 8 ==> v == [v[0]];
      assert NoSlash(Decimal(n));
    }
  }

  // ------------------------------------------------------------------ escaped paths

  function Hex(d: nat): char
    requires d < 16
  {
    if d < 10 then (48 + d) as char else (55 + d) as char
  }

  function Unhex(c: char): (r: Option<nat>)
    ensures r.Some? ==> r.value < 16
  {
    if '0' <= c <= '9' then Some(c as int - 48)
    else if 'A' <= c <= 'F' then Some(c as int - 55)
    else if 'a' <= c <= 'f' then Some(c as int - 87)
    else None
  }

  /** Letters, digits and - . _ ~ stand for themselves. */
  predicate Unreserved(x: Byte) {
    48 <= x <= 57 || 65 <= x <= 90 || 97 <= x <= 122 || x == 45 || x == 46 || x == 95 || x == 126
  }

  function EscapeByte(x: Byte): (s: string)
    ensures s != "" && '/' !in s
  {
    if x == 32 then "+" else if Unreserved(x) then [x as char] else ['%', Hex(x / 16), Hex(x % 16)]
  }

  /** url.QueryEscape */
  function Escape(b: Bytes): (s: string)
    ensures '/' !in s && (b != [] ==> s != "")
  {
    if b == [] then "" else EscapeByte(b[0]) + Escape(b[1..])
  }

  /** The first byte of an escaped text and the length of its escape. */
  function UnescapeFirst(s: string): (r: Option<(Byte, nat)>)
    requires s != ""
    ensures r.Some? ==> 0 < r.value.1 <= |s|
  {
    if s[0] == '%' then
      if |s| < 3 || Unhex(s[1]).None? || Unhex(s[2]).None? then None
      else Some((16 * Unhex(s[1]).value + Unhex(s[2]).value, 3))
    else if s[0] == '+' then Some((32, 1))
    else if s[0] as int < 256 then Some((s[0] as int, 1))
    else None
  }

  /** url.QueryUnescape */
  function Unescape(s: string): Option<Bytes> {
    if s == "" then Some([]) else
    match UnescapeFirst(s)
    case None => None
    case Some((x, n)) =>
      match Unescape(s[n..])
      case None => None
      case Some(rest) => Some([x] + rest)
  }

  lemma HexBack(d: nat)
    requires d < 16
    ensures Unhex(Hex(d)) == Some(d)
  {
  }

  lemma {:induction false} UnescapeBack(b: Bytes)
    ensures Unescape(Escape(b)) == Some(b)
  {
    hide EscapeByte, UnescapeFirst;
    if b != [] {
      var own, rest := EscapeByte(b[0]), Escape(b[1..]);
      UnescapeBack(b[1..]);
      FirstBack(b[0], rest);
      assert own + rest == Escape(b) && (own + rest)[|own|..] == rest;
      assert [b[0]] + b[1..] == b;
    }
  }

  lemma FirstBack(x: Byte, rest: string)
    ensures UnescapeFirst(EscapeByte(x) + rest) == Some((x, |EscapeByte(x)|))
  {
    var own := EscapeByte(x);
    var s := own + rest;
    HexBack(x / 16);
    HexBack(x % 16);
    assert forall i :: 0 <= i < |own| ==> s[i] == own[i];
  }

  function PathValid(b: Bytes): bool {
    b != []
  }

  function PathBytes(s: string): Option<Bytes> {
    match Unescape(s)
    case None => None
    case Some(b) => if b == [] then None else Some(b)
  }

  function PathText(b: Bytes): Option<string> {
    if b == [] then None else Some(Escape(b))
  }

  const HTTP_PATH := Transcoder(PathBytes, PathText, PathValid)

  /** Any bytes but none can be escaped, slashes included. */
  lemma PathsLawful(p: Protocol)
    requires p.name != "" && NoSlash(p.name) && !p.path && p.size < 0 && p.code <= MAX_INT32
    requires p.transcoder == HTTP_PATH
    ensures Lawful(p)
  {
    forall v | p.transcoder.valid(v)
      ensures RoundTrips(p, v)
    {
      UnescapeBack(v);
    }
  }

  // ------------------------------------------------------------------ the built-in protocols

  function NoBytes(s: string): Option<Bytes> { None }
  function NoText(b: Bytes): Option<string> { None }

  /** Stands for a nil transcoder. */
  const NIL := Transcoder(NoBytes, NoText, AnyValid)

  const PORTS := [
    Protocol("tcp", 6, 16, false, PORT), Protocol("udp", 273, 16, false, PORT), Protocol("dccp", 33, 16, false, PORT),
    Protocol("sctp", 132, 16, false, PORT), Protocol("ipcidr", 43, 8, false, IP_CIDR)]

  const NAMES := [
    Protocol("dns", 53, -1, false, DNS), Protocol("dns4", 54, -1, false, DNS), Protocol("dns6", 55, -1, false, DNS),
    Protocol("dnsaddr", 56, -1, false, DNS), Protocol("sni", 449, -1, false, DNS),
    Protocol("ip6zone", 42, -1, false, IP6_ZONE), FILES, PATHS]

  const PATHS := Protocol("http-path", 481, -1, false, HTTP_PATH)

  const FILES := Protocol("unix", 400, -1, true, UNIX)

  const TRANSPORTS := [
    Protocol("p2p-circuit", 290, 0, false, NIL), Protocol("utp", 302, 0, false, NIL),
    Protocol("udt", 301, 0, false, NIL), Protocol("quic", 460, 0, false, NIL),
    Protocol("quic-v1", 461, 0, false, NIL), Protocol("webtransport", 465, 0, false, NIL)]

  const WEB := [
    Protocol("http", 480, 0, false, NIL), Protocol("https", 443, 0, false, NIL), Protocol("ws", 477, 0, false, NIL),
    Protocol("wss", 478, 0, false, NIL), Protocol("webrtc", 281, 0, false, NIL),
    Protocol("webrtc-direct", 280, 0, false, NIL), Protocol("p2p-webrtc-direct", 276, 0, false, NIL)]

  const SECURITY := [
    Protocol("tls", 448, 0, false, NIL), Protocol("noise", 454, 0, false, NIL),
    Protocol("plaintextv2", 7367777, 0, false, NIL)]

  /** The registry that init builds, whatever the order, if the protocols whose values
      other libraries encode are lawful. */
  lemma BuiltInLawful(ps: seq<Protocol>)
    requires forall p :: p in ps ==>
               p in PORTS || p in NAMES || p in TRANSPORTS || p in WEB || p in SECURITY || Lawful(p)
    requires AddAll(NO_PROTOCOLS, ps).Some?
    ensures RegistryOk(AddAll(NO_PROTOCOLS, ps).value) && RegistrySound(AddAll(NO_PROTOCOLS, ps).value)
  {
    hide Lawful, RegistryOk, RegistrySound;
    forall p | p in ps
      ensures Lawful(p)
    {
      if p in PORTS {
        PortsLawful(p);
      } else if p in NAMES {
        NameListLawful(p);
      } else if p in TRANSPORTS {
        TransportsLawful(p);
      } else if p in WEB {
        WebLawful(p);
      } else if p in SECURITY {
        SecurityLawful(p);
      }
    }
    Nothing();
    RegistryLawful(NO_PROTOCOLS, ps);
  }

  /** And with the second name that init gives to one of them: bytes that validate
      print and parse back, and a text parses to bytes that validate if and only if no
      value is too long. */
  lemma BuiltInCodec(ps: seq<Protocol>, alias: string, name: string, b: Bytes, s: string)
    requires forall p :: p in ps ==>
               p in PORTS || p in NAMES || p in TRANSPORTS || p in WEB || p in SECURITY || Lawful(p)
    requires AddAll(NO_PROTOCOLS, ps).Some?
    requires var reg := AddAll(NO_PROTOCOLS, ps).value; name in reg.byName && alias !in reg.byName
    ensures var reg := Aliased(AddAll(NO_PROTOCOLS, ps).value, alias, name);
            && (Valid(reg, b) ==> Print(reg, b).Some? && Parse(reg, Print(reg, b).value) == Some(b))
            && (Parse(reg, s).Some? ==>
                  (Valid(reg, Parse(reg, s).value) <==> Short(reg, Pieces(Trimmed(s))[1..])))
  {
    hide RegistryOk, RegistrySound, Valid, Print, Short, Lawful;
    var reg := Aliased(AddAll(NO_PROTOCOLS, ps).value, alias, name);
    BuiltInLawful(ps);
    AliasKeepsLaws(AddAll(NO_PROTOCOLS, ps).value, alias, name);
    if Valid(reg, b) {
      PrintParse(reg, b);
    }
    if Parse(reg, s).Some? {
      ParseValid(reg, s);
    }
  }

  lemma Nothing()
    ensures RegistryOk(NO_PROTOCOLS) && RegistrySound(NO_PROTOCOLS)
  {
  }

  lemma PortsLawful(p: Protocol)
    requires p in PORTS
    ensures Lawful(p)
  {
    hide Lawful;
    NumbersLawful(p);
  }

  lemma NameListLawful(p: Protocol)
    requires p in NAMES
    ensures Lawful(p)
  {
    hide Lawful;
    if p == PATHS {
      PathsLawful(p);
    } else {
      NamesLawful(p);
    }
  }

  lemma TransportsLawful(p: Protocol)
    requires p in TRANSPORTS
    ensures Lawful(p)
  {
    hide Lawful;
    NoValueLawful(p);
  }

  lemma WebLawful(p: Protocol)
    requires p in WEB
    ensures Lawful(p)
  {
    hide Lawful;
    NoValueLawful(p);
  }

  lemma SecurityLawful(p: Protocol)
    requires p in SECURITY
    ensures Lawful(p)
  {
    hide Lawful;
    NoValueLawful(p);
  }

  lemma NoValueLawful(p: Protocol)
    requires p.name != "" && NoSlash(p.name) && p.size == 0 && !p.path && p.code <= MAX_INT32
    ensures Lawful(p)
  {
  }

  // ------------------------------------------------------------------ values that are too long

  function Letters(n: nat): (s: string)
    ensures |s| == n && forall c :: c in s ==> c == 'a'
  {
    seq(n, i => 'a')
  }

  /** A file name of n letters parses, and is valid if and only if it has fewer than
      2^31 - 1. */
  lemma LongFileName(n: nat)
    requires n > 0
    ensures var s := "/unix/" + Letters(n);
            && AddProtocol(NO_PROTOCOLS, FILES).Some?
            && var reg := AddProtocol(NO_PROTOCOLS, FILES).value;
               && Parse(reg, s).Some?
               && (Valid(reg, Parse(reg, s).value) <==> n < 2_147_483_647)
  {
    hide Valid, Trimmed, Pieces, Joined, RegistryOk, RegistrySound, Lawful;
    var name, s := Letters(n), "/unix/" + Letters(n);
    var reg := AddProtocol(NO_PROTOCOLS, FILES).value;
    NamesLawful(FILES);
    Nothing();
    AddKeepsLaws(NO_PROTOCOLS, FILES);
    assert s[|s| - 1] == name[n - 1] && name[n - 1] in name;
    TrimmedEnd(s);
    TwoPieces("unix", name);
    assert s == "/" + "unix" + "/" + name;
    FileParses(reg, name);
    ParseValid(reg, s);
  }

  lemma TwoPieces(a: string, b: string)
    requires NoSlash(a) && NoSlash(b)
    ensures Pieces("/" + a + "/" + b) == ["", a, b]
  {
    assert "/" + a + "/" + b == "" + "/" + (a + "/" + b);
    PiecesAcross("", a + "/" + b);
    PiecesAcross(a, b);
    PiecesOfWhole("");
    PiecesOfWhole(a);
    PiecesOfWhole(b);
  }

  lemma FileParses(reg: Registry, name: string)
    requires WithName(reg, "unix") == Some(FILES) && BytesOf("/" + name).Some?
    ensures ["", "unix", name][1..] == ["unix", name]
    ensures ParsePieces(reg, ["unix", name]).Some?
    ensures Short(reg, ["unix", name]) <==> 1 + |name| <= MAX_INT32
  {
    var sp := ["unix", name];
    assert sp[1..] == [name] && sp[2..] == [];
    assert Argument(FILES, sp) == "/" + name;
    NothingToParse(reg);
  }
}
