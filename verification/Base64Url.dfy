/**
 Base64url without padding (sections 3.2 and 5 of RFC 4648), computed as the tooling does it: plain
 base64, two character replacements, and the padding stripped.
 */
module Base64Url {
  import opened Common

  /** The base64 alphabet of section 4 of RFC 4648. */
  function Symbol(n: nat): (c: char) {
    if n < 26 then 'A' + n as char
    else if n < 52 then 'a' + (n - 26) as char
    else if n < 62 then '0' + (n - 52) as char
    else if n == 62 then '+' else '/'
  }

  /** The four 6-bit groups of three bytes. */
  function Group(a: Byte, b: Byte, c: Byte): (g: (nat, nat, nat, nat))
    ensures g.0 < 64 && g.1 < 64 && g.2 < 64 && g.3 < 64
  {
    (a / 4, (a % 4) * 16 + b / 16, (b % 16) * 4 + c / 64, c % 64)
  }

  /** The symbols of a byte string; a short last group takes as few symbols as hold it. */
  function Symbols(symbol: nat -> char, bytes: seq<Byte>): (s: string) {
    if bytes == [] then ""
    else if |bytes| == 1 then
      var g := Group(bytes[0], 0, 0);
      [symbol(g.0), symbol(g.1)]
    else if |bytes| == 2 then
      var g := Group(bytes[0], bytes[1], 0);
      [symbol(g.0), symbol(g.1), symbol(g.2)]
    else
      var g := Group(bytes[0], bytes[1], bytes[2]);
      [symbol(g.0), symbol(g.1), symbol(g.2), symbol(g.3)] + Symbols(symbol, bytes[3..])
  }

  function Padding(n: nat): (s: string) {
    if n % 3 == 0 then "" else if n % 3 == 1 then "==" else "="
  }

  function Base64(bytes: seq<Byte>): (s: string) {
    Symbols(Symbol, bytes) + Padding(|bytes|)
  }

  /** `replace(/c/g, d)` for single characters. */
  function ReplaceAll(s: string, c: char, d: char): (r: string)
    ensures |r| == |s|
    ensures forall i :: 0 <= i < |s| ==> r[i] == if s[i] == c then d else s[i]
  {
    seq(|s|, i requires 0 <= i < |s| => if s[i] == c then d else s[i])
  }

  /** `replace(/=+$/g, "")`. */
  function StripPadding(s: string): (r: string) {
    if s != "" && s[|s| - 1] == '=' then StripPadding(s[..|s| - 1]) else s
  }

  function EncodeSegment(bytes: seq<Byte>): (s: string) {
    StripPadding(ReplaceAll(ReplaceAll(Base64(bytes), '+', '-'), '/', '_'))
  }

  // What it computes

  /** The alphabet of section 5 of RFC 4648. */
  function UrlSymbol(n: nat): (c: char) {
    if n == 62 then '-' else if n >= 63 then '_' else Symbol(n)
  }

  /** Base64url without padding, said directly. */
  function Url(bytes: seq<Byte>): (s: string) {
    Symbols(UrlSymbol, bytes)
  }

  predicate IsUrlChar(c: char) {
    'A' <= c <= 'Z' || 'a' <= c <= 'z' || '0' <= c <= '9' || c == '-' || c == '_'
  }

  function ToUrl(c: char): (d: char) {
    if c == '+' then '-' else if c == '/' then '_' else c
  }

  lemma SymbolToUrl(n: nat)
    ensures ToUrl(Symbol(n)) == UrlSymbol(n) && IsUrlChar(UrlSymbol(n))
  {
  }

  /** A change of alphabet acts symbol by symbol. */
  lemma {:induction false} ChangeAlphabet(f: char -> char, symbol: nat -> char, other: nat -> char, bytes: seq<Byte>)
    requires forall n :: f(symbol(n)) == other(n)
    ensures var s, t := Symbols(symbol, bytes), Symbols(other, bytes);
            |s| == |t| && forall i :: 0 <= i < |s| ==> t[i] == f(s[i])
  {
    if |bytes| >= 3 {
      ChangeAlphabet(f, symbol, other, bytes[3..]);
    }
  }

  /** Every symbol comes from the alphabet. */
  lemma {:induction false} SymbolsFrom(p: char -> bool, symbol: nat -> char, bytes: seq<Byte>)
    requires forall n :: p(symbol(n))
    ensures forall i :: 0 <= i < |Symbols(symbol, bytes)| ==> p(Symbols(symbol, bytes)[i])
    ensures Symbols(symbol, bytes) == "" <==> bytes == []
  {
    if |bytes| >= 3 {
      SymbolsFrom(p, symbol, bytes[3..]);
    }
  }

  lemma {:induction false} StripPads(s: string, pad: string)
    requires forall i :: 0 <= i < |s| ==> s[i] != '='
    requires forall i :: 0 <= i < |pad| ==> pad[i] == '='
    ensures StripPadding(s + pad) == s
    decreases |pad|
  {
    if pad == "" {
      assert s + pad == s;
    } else {
      assert (s + pad)[..|s + pad| - 1] == s + pad[..|pad| - 1];
      StripPads(s, pad[..|pad| - 1]);
    }
  }

  /** The replacements and the stripping give exactly base64url without padding. */
  lemma EncodeSegmentIsUrl(bytes: seq<Byte>)
    ensures EncodeSegment(bytes) == Url(bytes)
    ensures forall i :: 0 <= i < |EncodeSegment(bytes)| ==> IsUrlChar(EncodeSegment(bytes)[i])
    ensures EncodeSegment(bytes) == "" <==> bytes == []
  {
    forall n ensures ToUrl(Symbol(n)) == UrlSymbol(n) && IsUrlChar(UrlSymbol(n)) { SymbolToUrl(n); }
    ChangeAlphabet(ToUrl, Symbol, UrlSymbol, bytes);
    SymbolsFrom(IsUrlChar, UrlSymbol, bytes);
    var replaced := ReplaceAll(ReplaceAll(Base64(bytes), '+', '-'), '/', '_');
    assert replaced == Url(bytes) + Padding(|bytes|);
    StripPads(Url(bytes), Padding(|bytes|));
  }

  // Its inverse

  function UrlValue(c: char): (r: Option<nat>)
    ensures r.Some? ==> r.value < 64
  {
    if 'A' <= c <= 'Z' then Some(c as nat - 'A' as nat)
    else if 'a' <= c <= 'z' then Some(c as nat - 'a' as nat + 26)
    else if '0' <= c <= '9' then Some(c as nat - '0' as nat + 52)
    else if c == '-' then Some(62)
    else if c == '_' then Some(63)
    else None
  }

  lemma UrlSymbolRoundTrip(n: nat)
    requires n < 64
    ensures UrlValue(UrlSymbol(n)) == Some(n)
  {
  }

  function First(p: nat, q: nat): (a: nat) {
    p * 4 + q / 16
  }

  function Second(q: nat, r: nat): (b: nat) {
    (q % 16) * 16 + r / 4
  }

  function Third(r: nat, t: nat): (c: nat) {
    (r % 4) * 64 + t
  }

  lemma GroupRoundTrip(a: Byte, b: Byte, c: Byte)
    ensures var g := Group(a, b, c);
            First(g.0, g.1) == a && Second(g.1, g.2) == b && Third(g.2, g.3) == c
  {
  }

  /** The bytes a list of 6-bit values stands for. */
  function Join(vs: seq<nat>): (r: Option<seq<nat>>) {
    if vs == [] then Some([])
    else if |vs| == 1 then None
    else if |vs| == 2 then Some([First(vs[0], vs[1])])
    else if |vs| == 3 then Some([First(vs[0], vs[1]), Second(vs[1], vs[2])])
    else match Join(vs[4..])
      case None => None
      case Some(rest) => Some([First(vs[0], vs[1]), Second(vs[1], vs[2]), Third(vs[2], vs[3])] + rest)
  }

  function Values(s: string): (r: Option<seq<nat>>) {
    if s == "" then Some([])
    else match (UrlValue(s[0]), Values(s[1..]))
      case (Some(v), Some(rest)) => Some([v] + rest)
      case _ => None
  }

  function DecodeUrl(s: string): (r: Option<seq<nat>>) {
    match Values(s)
    case None => None
    case Some(vs) => Join(vs)
  }

  /** The 6-bit values behind the symbols. */
  function Split(bytes: seq<Byte>): (vs: seq<nat>)
    ensures forall i :: 0 <= i < |vs| ==> vs[i] < 64
  {
    if bytes == [] then []
    else if |bytes| == 1 then
      var g := Group(bytes[0], 0, 0);
      [g.0, g.1]
    else if |bytes| == 2 then
      var g := Group(bytes[0], bytes[1], 0);
      [g.0, g.1, g.2]
    else
      var g := Group(bytes[0], bytes[1], bytes[2]);
      [g.0, g.1, g.2, g.3] + Split(bytes[3..])
  }

  lemma {:induction false} SymbolsOfSplit(symbol: nat -> char, bytes: seq<Byte>)
    ensures |Symbols(symbol, bytes)| == |Split(bytes)|
    ensures forall i :: 0 <= i < |Split(bytes)| ==> Symbols(symbol, bytes)[i] == symbol(Split(bytes)[i])
  {
    if |bytes| >= 3 {
      SymbolsOfSplit(symbol, bytes[3..]);
    }
  }

  lemma JoinGroup(p: nat, q: nat, r: nat, t: nat, vs: seq<nat>, bytes: seq<nat>)
    requires Join(vs) == Some(bytes)
    ensures Join([p, q, r, t] + vs) == Some([First(p, q), Second(q, r), Third(r, t)] + bytes)
  {
    assert ([p, q, r, t] + vs)[4..] == vs;
  }

  lemma JoinPair(p: nat, q: nat, r: nat)
    ensures Join([p, q]) == Some([First(p, q)]) && Join([p, q, r]) == Some([First(p, q), Second(q, r)])
  {
  }

  lemma JoinOne(a: Byte)
    ensures Join(Split([a])) == Some([a])
  {
    var g := Group(a, 0, 0);
    assert Split([a]) == [g.0, g.1];
    GroupRoundTrip(a, 0, 0);
    JoinPair(g.0, g.1, g.2);
  }

  lemma JoinTwo(a: Byte, b: Byte)
    ensures Join(Split([a, b])) == Some([a, b])
  {
    var g := Group(a, b, 0);
    assert Split([a, b]) == [g.0, g.1, g.2];
    GroupRoundTrip(a, b, 0);
    JoinPair(g.0, g.1, g.2);
  }

  lemma {:induction false} JoinSplit(bytes: seq<Byte>)
    ensures Join(Split(bytes)) == Some(bytes)
  {
    if bytes == [] {
    } else if |bytes| == 1 {
      JoinOne(bytes[0]);
      assert bytes == [bytes[0]];
    } else if |bytes| == 2 {
      JoinTwo(bytes[0], bytes[1]);
      assert bytes == [bytes[0], bytes[1]];
    } else {
      var a, b, c, rest := bytes[0], bytes[1], bytes[2], bytes[3..];
      var g := Group(a, b, c);
      JoinSplit(rest);
      GroupRoundTrip(a, b, c);
      JoinGroup(g.0, g.1, g.2, g.3, Split(rest), rest);
      assert bytes == [a, b, c] + rest;
    }
  }

  lemma {:induction false} ValuesOfSymbols(s: string, vs: seq<nat>)
    requires |s| == |vs|
    requires forall i :: 0 <= i < |vs| ==> vs[i] < 64 && s[i] == UrlSymbol(vs[i])
    ensures Values(s) == Some(vs)
  {
    if s != "" {
      UrlSymbolRoundTrip(vs[0]);
      ValuesOfSymbols(s[1..], vs[1..]);
      assert vs == [vs[0]] + vs[1..];
    }
  }

  lemma DecodeUrlInverts(bytes: seq<Byte>)
    ensures DecodeUrl(Url(bytes)) == Some(bytes)
  {
    SymbolsOfSplit(UrlSymbol, bytes);
    ValuesOfSymbols(Url(bytes), Split(bytes));
    JoinSplit(bytes);
  }

  lemma EncodeSegmentInjective(a: seq<Byte>, b: seq<Byte>)
    requires EncodeSegment(a) == EncodeSegment(b)
    ensures a == b
  {
    EncodeSegmentIsUrl(a);
    EncodeSegmentIsUrl(b);
    DecodeUrlInverts(a);
    DecodeUrlInverts(b);
  }

  // What it writes

  /** The letter of the alphabet for a number of 6 bits, by character code: A to Z, a to z, 0 to 9, dash, underscore. */
  predicate IsLetter(c: char, n: nat) {
    c as nat == if n < 26 then 65 + n else if n < 52 then 97 + (n - 26) else if n < 62 then 48 + (n - 52)
                else if n == 62 then 45 else 95
  }

  lemma UrlAlphabet(n: nat)
    requires n < 64
    ensures IsLetter(UrlSymbol(n), n)
  {
  }

  /** A group is one number of 24 bits, the first byte highest, in four digits of 6 bits, the first highest. */
  lemma GroupIsNumber(a: Byte, b: Byte, c: Byte)
    ensures var g := Group(a, b, c);
            0x4_0000 * g.0 + 0x1000 * g.1 + 0x40 * g.2 + g.3 == 0x1_0000 * a + 0x100 * b + c
  {
  }

  type Quad = (nat, nat, nat, nat)

  /** The byte at `i`, or zero beyond the end. */
  function ByteAt(bytes: seq<Byte>, i: nat): (b: Byte) {
    if i < |bytes| then bytes[i] else 0
  }

  /** How many letters hold bits of the `k`-th group. */
  function LettersOf(length: nat, k: nat): (n: nat) {
    if length == 3 * k + 1 then 2 else if length == 3 * k + 2 then 3 else 4
  }

  function GroupAt(group: (Byte, Byte, Byte) -> Quad, bytes: seq<Byte>, k: nat): (g: Quad) {
    group(ByteAt(bytes, 3 * k), ByteAt(bytes, 3 * k + 1), ByteAt(bytes, 3 * k + 2))
  }

  /** The split for any way to take three bytes apart. */
  function SplitBy(group: (Byte, Byte, Byte) -> Quad, bytes: seq<Byte>): (vs: seq<nat>) {
    if bytes == [] then []
    else
      var g := GroupAt(group, bytes, 0);
      if |bytes| == 1 then [g.0, g.1]
      else if |bytes| == 2 then [g.0, g.1, g.2]
      else [g.0, g.1, g.2, g.3] + SplitBy(group, bytes[3..])
  }

  lemma {:induction false} SplitIsSplitBy(bytes: seq<Byte>)
    ensures Split(bytes) == SplitBy(Group, bytes)
  {
    if |bytes| >= 3 {
      SplitIsSplitBy(bytes[3..]);
    }
  }

  /** From `i` on stand the first `count` numbers of `g`. */
  predicate Holds(vs: seq<nat>, i: nat, count: nat, g: Quad) {
    && 2 <= count <= 4 && i + count <= |vs| && vs[i] == g.0 && vs[i + 1] == g.1
    && (count > 2 ==> vs[i + 2] == g.2) && (count > 3 ==> vs[i + 3] == g.3)
  }

  lemma {:induction false} SplitByHolds(group: (Byte, Byte, Byte) -> Quad, bytes: seq<Byte>, k: nat)
    requires 3 * k < |bytes|
    ensures Holds(SplitBy(group, bytes), 4 * k, LettersOf(|bytes|, k), GroupAt(group, bytes, k))
    decreases |bytes|
  {
    if k > 0 {
      var rest := bytes[3..];
      SplitByHolds(group, rest, k - 1);
      assert forall i :: 0 <= i ==> ByteAt(bytes, i + 3) == ByteAt(rest, i);
      assert ByteAt(bytes, 3 * (k - 1) + 3) == ByteAt(rest, 3 * (k - 1));
      assert ByteAt(bytes, 3 * (k - 1) + 1 + 3) == ByteAt(rest, 3 * (k - 1) + 1);
      assert ByteAt(bytes, 3 * (k - 1) + 2 + 3) == ByteAt(rest, 3 * (k - 1) + 2);
    }
  }

  /**
   Of the four 6-bit digits of three bytes, the first `count` spell the whole number if the bytes they
   do not reach are zero.
   */
  lemma GroupSpells(a: Byte, b: Byte, c: Byte, count: nat)
    requires 2 <= count <= 4 && (count < 4 ==> c == 0) && (count < 3 ==> b == 0)
    ensures var g := Group(a, b, c);
            0x1_0000 * a + 0x100 * b + c ==
            0x4_0000 * g.0 + 0x1000 * g.1 + (if count > 2 then 0x40 * g.2 else 0) + (if count > 3 then g.3 else 0)
  {
    GroupIsNumber(a, b, c);
  }

  /** The values from `i` on spell the 24 bits of three bytes from the top, as far as `count` digits of 6 bits reach. */
  predicate Digits(vs: seq<nat>, i: nat, count: nat, a: nat, b: nat, c: nat) {
    && 2 <= count <= 4 && i + count <= |vs|
    && 0x1_0000 * a + 0x100 * b + c ==
       0x4_0000 * vs[i] + 0x1000 * vs[i + 1] + (if count > 2 then 0x40 * vs[i + 2] else 0) +
       (if count > 3 then vs[i + 3] else 0)
  }

  lemma SplitSpells(bytes: seq<Byte>, k: nat)
    requires 3 * k < |bytes|
    ensures Digits(Split(bytes), 4 * k, LettersOf(|bytes|, k),
                   ByteAt(bytes, 3 * k), ByteAt(bytes, 3 * k + 1), ByteAt(bytes, 3 * k + 2))
  {
    SplitIsSplitBy(bytes);
    SplitByHolds(Group, bytes, k);
    HeldDigits(Split(bytes), 4 * k, LettersOf(|bytes|, k),
               ByteAt(bytes, 3 * k), ByteAt(bytes, 3 * k + 1), ByteAt(bytes, 3 * k + 2));
  }

  lemma HeldDigits(vs: seq<nat>, i: nat, count: nat, a: Byte, b: Byte, c: Byte)
    requires Holds(vs, i, count, Group(a, b, c)) && (count < 4 ==> c == 0) && (count < 3 ==> b == 0)
    ensures Digits(vs, i, count, a, b, c)
  {
    GroupSpells(a, b, c, count);
  }

  lemma {:induction false} SplitLength(bytes: seq<Byte>)
    ensures |Split(bytes)| == (4 * |bytes| + 2) / 3
  {
    if |bytes| >= 3 {
      SplitLength(bytes[3..]);
    }
  }

  /**
   What a segment is, without reference to how it is computed.  Its letters stand for numbers of 6 bits;
   the letters of each group spell, from the top, the 24 bits of its three bytes, a short last group
   filled up with zero bits and written with as many letters as hold its own.
   */
  lemma SegmentSpells(bytes: seq<Byte>) returns (vs: seq<nat>)
    ensures var s := EncodeSegment(bytes);
            && |s| == |vs| == (4 * |bytes| + 2) / 3
            && (forall i :: 0 <= i < |s| ==> vs[i] < 64 && IsLetter(s[i], vs[i]))
            && (forall k :: 0 <= k && 3 * k < |bytes| ==>
                  Digits(vs, 4 * k, LettersOf(|bytes|, k),
                         ByteAt(bytes, 3 * k), ByteAt(bytes, 3 * k + 1), ByteAt(bytes, 3 * k + 2)))
  {
    vs := Split(bytes);
    EncodeSegmentIsUrl(bytes);
    SymbolsOfSplit(UrlSymbol, bytes);
    SplitLength(bytes);
    forall i | 0 <= i < |vs| ensures IsLetter(UrlSymbol(vs[i]), vs[i]) { UrlAlphabet(vs[i]); }
    forall k | 0 <= k && 3 * k < |bytes|
      ensures Digits(vs, 4 * k, LettersOf(|bytes|, k),
                     ByteAt(bytes, 3 * k), ByteAt(bytes, 3 * k + 1), ByteAt(bytes, 3 * k + 2))
    {
      SplitSpells(bytes, k);
    }
  }
}
