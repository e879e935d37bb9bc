/**
 The loops of the multiaddr codec, and splitting, joining, encapsulating and
 decapsulating multiaddrs in their byte form.
 */
module MultiaddrCodec {
  import opened Basics
  import opened Multiaddr
  import Varint

  function Prefixed<T>(b: seq<T>, r: Option<seq<T>>): Option<seq<T>> {
    match r case None => None case Some(rest) => Some(b + rest)
  }

  lemma PrefixedTwice<T>(a: seq<T>, b: seq<T>, r: Option<seq<T>>)
    ensures Prefixed(a, Prefixed(b, r)) == Prefixed(a + b, r)
  {
    if r.Some? {
      assert a + (b + r.value) == (a + b) + r.value;
    }
  }

  lemma PrefixedNothing<T>(b: seq<T>, r: Option<seq<T>>)
    ensures Prefixed([], r) == r && Prefixed(b, Some([])) == Some(b)
  {
    assert b + [] == b && (r.Some? ==> [] + r.value == r.value);
  }

  method StringToBytes(reg: Registry, s: string) returns (r: Option<Bytes>)
    ensures r == Parse(reg, s)
  {
    hide Varint.Encode, Pieces, Trimmed, Joined;
    var sp := Pieces(Trimmed(s));
    if sp[0] != "" {
      return None;
    }
    sp := sp[1..];
    if |sp| == 0 {
      return None;
    }
    ghost var all := sp;
    var b := [];
    PrefixedNothing(b, ParsePieces(reg, all));
    while |sp| > 0
      invariant Prefixed(b, ParsePieces(reg, sp)) == ParsePieces(reg, all)
      decreases |sp|
    {
      ghost var b0, sp0 := b, sp;
      var p := WithName(reg, sp[0]);
      if p.None? {
        return None;
      }
      b := b + Varint.Encode(p.value.code);
      sp := sp[1..];
      if p.value.size != 0 {
        if |sp| < 1 {
          return None;
        }
        if p.value.path {
          sp := ["/" + Joined(sp)];
        }
        var a := p.value.transcoder.toBytes(sp[0]);
        if a.None? {
          return None;
        }
        if p.value.size < 0 {
          b := b + Varint.Encode(|a.value|);
        }
        b := b + a.value;
        sp := sp[1..];
      }
      TakesOne(reg, sp0, b0, b, sp);
    }
    PrefixedNothing(b, None);
    return Some(b);
  }

  /** One turn of the parser appends what ParseOne says. */
  lemma TakesOne(reg: Registry, sp: seq<string>, b: Bytes, b': Bytes, sp': seq<string>)
    requires sp != [] && ParseOne(reg, sp).Some?
    requires sp' == sp[ParseOne(reg, sp).value.1..] && b' == b + ParseOne(reg, sp).value.0
    ensures Prefixed(b', ParsePieces(reg, sp')) == Prefixed(b, ParsePieces(reg, sp))
  {
    PrefixedTwice(b, ParseOne(reg, sp).value.0, ParsePieces(reg, sp'));
  }

  method ValidateBytes(reg: Registry, bytes: Bytes) returns (ok: bool)
    ensures ok == Valid(reg, bytes)
  {
    hide ReadCode, WithCode, SizeFor, ValidRest;
    if |bytes| == 0 {
      return false;
    }
    var b := bytes;
    ValidNone(reg);
    while |b| > 0
      invariant ValidRest(reg, b) == ValidRest(reg, bytes)
      decreases |b|
    {
      ghost var b0 := b;
      ValidTurn(reg, b);
      var code := ReadCode(b);
      if code.None? {
        return false;
      }
      b := b[code.value.n..];
      var p := WithCode(reg, code.value.x);
      if p.None? {
        return false;
      }
      if p.value.size != 0 {
        var size := SizeFor(p.value, b);
        if size.None? {
          return false;
        }
        b := b[size.value.0..];
        SliceAt(b0, code.value.n, size.value.0, size.value.1);
        if |b| < size.value.1 || (p.value.path && |b| != size.value.1) || !p.value.transcoder.valid(b[..size.value.1]) {
          return false;
        }
        b := b[size.value.1..];
      }
    }
    return true;
  }

  lemma ValidNone(reg: Registry)
    ensures ValidRest(reg, [])
  {
  }

  lemma ValidTurn(reg: Registry, b: Bytes)
    requires b != []
    ensures match ReadComponent(reg, b)
            case None => !ValidRest(reg, b)
            case Some(c) =>
              ValidRest(reg, b) <==>
              && (c.protocol.size != 0 ==>
                    (c.protocol.path ==> c.end == |b|) && c.protocol.transcoder.valid(b[c.offset..c.end]))
              && ValidRest(reg, b[c.end..])
  {
  }

  lemma SliceAt(b: Bytes, n: nat, skip: nat, size: nat)
    requires n + skip <= |b|
    ensures b[n..][skip..] == b[n + skip..]
    ensures n + skip + size <= |b| ==> b[n..][skip..][..size] == b[n + skip..n + skip + size]
    ensures n + skip + size <= |b| ==> b[n..][skip..][size..] == b[n + skip + size..]
  {
  }

  method BytesToString(reg: Registry, bytes: Bytes) returns (r: Option<string>)
    ensures r == Print(reg, bytes)
  {
    if |bytes| == 0 {
      return None;
    }
    var b, buf := bytes, "";
    PrefixedNothing(buf, PrintRest(reg, b));
    while |b| > 0
      invariant Prefixed(buf, PrintRest(reg, b)) == PrintRest(reg, bytes)
      decreases |b|
    {
      var c := ReadComponent(reg, b);
      if c.None? {
        return None;
      }
      var text := Text(c.value.protocol, Value(c.value, b));
      PrefixedTwice(buf, text, PrintRest(reg, b[c.value.end..]));
      b := b[c.value.end..];
      buf := buf + text;
    }
    PrefixedNothing(buf, None);
    return Some(buf);
  }

  // ------------------------------------------------------------------ components of a multiaddr

  /** The components of a multiaddr, or None if some component cannot be read. */
  function Components(reg: Registry, b: Bytes): Option<seq<Bytes>> {
    if b == [] then Some([]) else
    match ReadComponent(reg, b)
    case None => None
    case Some(c) => Prefixed([b[..c.end]], Components(reg, b[c.end..]))
  }

  function Concat(parts: seq<Bytes>): Bytes {
    if parts == [] then [] else parts[0] + Concat(parts[1..])
  }

  /** Split: nothing at all if a component cannot be read. */
  method Split(reg: Registry, m: Bytes) returns (parts: seq<Bytes>)
    ensures parts == match Components(reg, m) case None => [] case Some(p) => p
  {
    var b := m;
    parts := [];
    PrefixedNothing(parts, Components(reg, b));
    while |b| > 0
      invariant Prefixed(parts, Components(reg, b)) == Components(reg, m)
      decreases |b|
    {
      var c := ReadComponent(reg, b);
      if c.None? {
        return [];
      }
      PrefixedTwice(parts, [b[..c.value.end]], Components(reg, b[c.value.end..]));
      parts := parts + [b[..c.value.end]];
      b := b[c.value.end..];
    }
    PrefixedNothing(parts, None);
  }

  /** A component is read the same whatever follows it. */
  lemma ReadPrefix(reg: Registry, b: Bytes, more: Bytes)
    requires ReadComponent(reg, b).Some?
    ensures ReadComponent(reg, b + more) == ReadComponent(reg, b)
  {
    var d := ReadCode(b).value;
    ReadCodePrefix(b, more);
    var p := WithCode(reg, d.x).value;
    assert (b + more)[d.n..] == b[d.n..] + more;
    if p.size < 0 {
      ReadCodePrefix(b[d.n..], more);
    }
  }

  lemma ReadCodePrefix(b: Bytes, more: Bytes)
    requires ReadCode(b).Some?
    ensures ReadCode(b + more) == ReadCode(b)
  {
    DecodePrefix(b, more);
  }

  lemma {:induction false} DecodePrefix(b: Bytes, more: Bytes)
    requires Varint.Decode(b).Some?
    ensures Varint.Decode(b + more) == Varint.Decode(b)
  {
    if b[0] >= 128 {
      DecodePrefix(b[1..], more);
      assert (b + more)[1..] == b[1..] + more;
    }
  }

  /** Splitting a concatenation gives the concatenation of the splits. */
  lemma {:induction false} ComponentsConcat(reg: Registry, m: Bytes, o: Bytes)
    requires Components(reg, m).Some? && Components(reg, o).Some?
    ensures Components(reg, m + o) == Some(Components(reg, m).value + Components(reg, o).value)
    decreases |m|
  {
    hide ReadComponent, Prefixed;
    if m == [] {
      assert m + o == o;
      PrefixedNothing([], Components(reg, o));
      assert [] + Components(reg, o).value == Components(reg, o).value;
    } else {
      var c := ReadComponent(reg, m).value;
      var rest := m[c.end..];
      ReadPrefix(reg, m, o);
      PrefixedSome([m[..c.end]], Components(reg, rest));
      ComponentsConcat(reg, rest, o);
      assert (m + o)[..c.end] == m[..c.end] && (m + o)[c.end..] == rest + o;
      PrefixedSome([m[..c.end]], Components(reg, rest + o));
      assert [m[..c.end]] + (Components(reg, rest).value + Components(reg, o).value)
          == ([m[..c.end]] + Components(reg, rest).value) + Components(reg, o).value;
    }
  }

  lemma PrefixedSome<T>(b: seq<T>, r: Option<seq<T>>)
    ensures Prefixed(b, r).Some? <==> r.Some?
    ensures r.Some? ==> Prefixed(b, r).value == b + r.value
  {
  }

  lemma {:induction false} ConcatComponents(reg: Registry, m: Bytes)
    requires Components(reg, m).Some?
    ensures Concat(Components(reg, m).value) == m
    decreases |m|
  {
    if m != [] {
      hide ReadComponent;
      var c := ReadComponent(reg, m).value;
      ConcatComponents(reg, m[c.end..]);
      var parts := Components(reg, m).value;
      assert parts[1..] == Components(reg, m[c.end..]).value && parts[0] == m[..c.end];
    }
  }

  // ------------------------------------------------------------------ decapsulation

  /** right occurs in left at position i. */
  predicate OccursAt(left: seq<Bytes>, right: seq<Bytes>, i: nat) {
    right != [] && i + |right| <= |left| && left[i..i + |right|] == right
  }

  /** One position of Decapsulate's outer loop. */
  method Matches(left: seq<Bytes>, right: seq<Bytes>, i: nat) returns (found: bool)
    requires i < |left|
    ensures found <==> OccursAt(left, right, i)
  {
    found := false;
    for j := 0 to |right|
      invariant found <==> j > 0
      invariant i + j <= |left| && left[i..i + j] == right[..j]
    {
      if |left| <= i + j {
        return false;
      }
      assert i + |right| <= |left| ==> left[i..i + |right|][j] == left[i + j];
      found := right[j] == left[i + j];
      if !found {
        return;
      }
      assert left[i..i + j + 1] == left[i..i + j] + [left[i + j]] && right[..j + 1] == right[..j] + [right[j]];
    }
    assert right[..|right|] == right;
  }

  /** The last position below n at which right occurs in left, or -1. */
  function LastIndex(left: seq<Bytes>, right: seq<Bytes>, n: nat): (i: int)
    ensures -1 <= i < n || i == -1
  {
    if n == 0 then -1 else if OccursAt(left, right, n - 1) then n - 1 else LastIndex(left, right, n - 1)
  }

  function Parts(reg: Registry, m: Bytes): seq<Bytes> {
    match Components(reg, m) case None => [] case Some(p) => p
  }

  /** Everything before the last occurrence; nil is None, and what is not
      contained leaves the multiaddr as it is. */
  function Decapsulated(reg: Registry, m: Bytes, right: Bytes): Option<Bytes> {
    var left := Parts(reg, m);
    var i := LastIndex(left, Parts(reg, right), |left|);
    if i == 0 then None else if i < 0 then Some(m) else Some(Concat(left[..i]))
  }

  method Decapsulate(reg: Registry, m: Bytes, right: Bytes) returns (r: Option<Bytes>)
    ensures r == Decapsulated(reg, m, right)
  {
    hide Components, Concat, OccursAt;
    var leftParts := Split(reg, m);
    var rightParts := Split(reg, right);
    var lastIndex := -1;
    for i := 0 to |leftParts|
      invariant lastIndex == LastIndex(leftParts, rightParts, i)
    {
      var foundMatch := Matches(leftParts, rightParts, i);
      if foundMatch {
        lastIndex := i;
      }
    }
    if lastIndex == 0 {
      return None;
    }
    if lastIndex < 0 {
      return Some(m);
    }
    var joined := Join(leftParts[..lastIndex]);
    return Some(joined);
  }

  method Join(ms: seq<Bytes>) returns (b: Bytes)
    ensures b == Concat(ms)
  {
    b := [];
    for i := 0 to |ms|
      invariant b + Concat(ms[i..]) == Concat(ms)
    {
      assert ms[i..][1..] == ms[i + 1..];
      assert b + (ms[i] + Concat(ms[i + 1..])) == (b + ms[i]) + Concat(ms[i + 1..]);
      b := b + ms[i];
    }
  }

  function Encapsulate(m: Bytes, o: Bytes): Bytes {
    m + o
  }

  /** If right occurs at i and at no later position, i is the one found. */
  lemma {:induction false} LastIndexFinds(left: seq<Bytes>, right: seq<Bytes>, n: nat, i: nat)
    requires i < n && OccursAt(left, right, i) && forall k: nat :: i < k < n ==> !OccursAt(left, right, k)
    ensures LastIndex(left, right, n) == i
  {
    if n > i + 1 {
      LastIndexFinds(left, right, n - 1, i);
    }
  }

  lemma {:induction false} LastIndexMeans(left: seq<Bytes>, right: seq<Bytes>, n: nat)
    ensures var i := LastIndex(left, right, n);
            && (i >= 0 ==> OccursAt(left, right, i))
            && forall k: nat :: i < k < n ==> !OccursAt(left, right, k)
  {
    if n > 0 {
      LastIndexMeans(left, right, n - 1);
    }
  }

  /** The last occurrence and all behind it go; one at the start leaves nil, and none
      leaves all. */
  lemma DecapsulatedMeans(reg: Registry, m: Bytes, o: Bytes, i: nat)
    ensures var left, right := Parts(reg, m), Parts(reg, o);
            var last := OccursAt(left, right, i) && forall k: nat :: i < k < |left| ==> !OccursAt(left, right, k);
            && (last && i > 0 ==> Decapsulated(reg, m, o) == Some(Concat(left[..i])))
            && (last && i == 0 ==> Decapsulated(reg, m, o) == None)
            && ((forall k: nat :: k < |left| ==> !OccursAt(left, right, k)) ==> Decapsulated(reg, m, o) == Some(m))
  {
    var left, right := Parts(reg, m), Parts(reg, o);
    LastIndexMeans(left, right, |left|);
    if OccursAt(left, right, i) && forall k: nat :: i < k < |left| ==> !OccursAt(left, right, k) {
      LastIndexFinds(left, right, |left|, i);
    }
  }

  /** Decapsulating what was encapsulated gives the original back, even if it
      occurs inside the original too: the last match is the one at the end. */
  lemma DecapsulateUndoesEncapsulate(reg: Registry, m: Bytes, o: Bytes)
    requires m != [] && o != [] && Components(reg, m).Some? && Components(reg, o).Some?
    ensures Decapsulated(reg, Encapsulate(m, o), o) == Some(m)
  {
    hide Components, LastIndex;
    var x, y := Components(reg, m).value, Components(reg, o).value;
    ComponentsConcat(reg, m, o);
    ConcatComponents(reg, m);
    ConcatComponents(reg, o);
    assert (x + y)[|x|..|x| + |y|] == y && (x + y)[..|x|] == x;
    LastIndexFinds(x + y, y, |x + y|, |x|);
  }
}
