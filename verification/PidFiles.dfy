/**
 The file names under which port-forward watchdogs leave their process ids.  Names are built from a
 namespace, a pod and a port, and parsed again to find the watchdogs of a namespace.
 */
module PidFiles {
  import opened Common
  import opened Base64Url

  const PID_PREFIX := "midnight-port-forward"
  const PID_SUFFIX := ".pid"

  /** A namespace or pod name, as the bytes of its UTF-8 form. */
  type Text = seq<Byte>

  datatype PidName = PidName(namespaceEnc: string, podEnc: string, port: real)

  function Decimal(n: nat): (s: string)
    ensures s != ""
    ensures forall i :: 0 <= i < |s| ==> '0' <= s[i] <= '9'
  {
    if n < 10 then ['0' + n as char] else Decimal(n / 10) + ['0' + (n % 10) as char]
  }

  function FileName(namespace: Text, pod: Text, port: nat): (name: string) {
    PID_PREFIX + "." + EncodeSegment(namespace) + "." + EncodeSegment(pod) + "." + Decimal(port) + PID_SUFFIX
  }

  /** `split(".")`. */
  function SplitDots(s: string): (parts: seq<string>)
    ensures parts != []
  {
    if s == "" then [""]
    else
      var rest := SplitDots(s[1..]);
      if s[0] == '.' then [""] + rest else [[s[0]] + rest[0]] + rest[1..]
  }

  predicate StartsWith(s: string, prefix: string) {
    |s| >= |prefix| && s[..|prefix|] == prefix
  }

  predicate EndsWith(s: string, suffix: string) {
    |s| >= |suffix| && s[|s| - |suffix|..] == suffix
  }

  /** `toNumber` is the language's own conversion; `None` when the result is not finite. */
  function ParsePidFileName(toNumber: string -> Option<real>, name: string): (r: Option<PidName>) {
    if !StartsWith(name, PID_PREFIX + ".") then None
    else if !EndsWith(name, PID_SUFFIX) then None
    else
      var parts := SplitDots(name[..|name| - |PID_SUFFIX|]);
      if |parts| != 4 then None
      else match toNumber(parts[3])
        case None => None
        case Some(port) => Some(PidName(parts[1], parts[2], port))
  }

  /** The integers a double holds exactly; every port is one. */
  type SafeInteger = n: nat | n < 0x20_0000_0000_0000

  predicate IsDigits(s: string) {
    s != "" && forall i :: 0 <= i < |s| ==> '0' <= s[i] <= '9'
  }

  /** The number that digits spell, read from the left. */
  function Spelled(s: string): (n: nat)
    requires forall i :: 0 <= i < |s| ==> '0' <= s[i] <= '9'
  {
    if s == "" then 0 else 10 * Spelled(s[..|s| - 1]) + (s[|s| - 1] as nat - '0' as nat)
  }

  /** Digits that spell such an integer convert to it. */
  ghost predicate ConvertsDecimals(toNumber: string -> Option<real>) {
    forall s :: IsDigits(s) && Spelled(s) < 0x20_0000_0000_0000 ==> toNumber(s) == Some(Spelled(s) as real)
  }

  /** A port is written as the digits that spell it, without a leading zero. */
  lemma {:induction false} DecimalSpells(n: nat)
    ensures IsDigits(Decimal(n)) && Spelled(Decimal(n)) == n
    ensures |Decimal(n)| > 1 ==> Decimal(n)[0] != '0'
  {
    var s := Decimal(n);
    if n >= 10 {
      DecimalSpells(n / 10);
      assert s[..|s| - 1] == Decimal(n / 10);
      assert s[|s| - 1] as nat - '0' as nat == n % 10;
      assert Decimal(n / 10)[0] != '0' by {
        if |Decimal(n / 10)| == 1 { assert Decimal(n / 10) == ['0' + (n / 10) as char]; }
      }
    } else {
      assert s[..0] == "";
    }
  }

  ghost predicate DotFree(s: string) {
    forall i :: 0 <= i < |s| ==> s[i] != '.'
  }

  lemma {:induction false} SplitFirst(a: string, rest: string)
    requires DotFree(a)
    ensures SplitDots(a + "." + rest) == [a] + SplitDots(rest)
  {
    var s := a + "." + rest;
    if a == "" {
      assert s[1..] == rest;
    } else {
      assert s[1..] == a[1..] + "." + rest;
      SplitFirst(a[1..], rest);
      assert [a[0]] + a[1..] == a;
      assert ([a[1..]] + SplitDots(rest))[1..] == SplitDots(rest);
    }
  }

  lemma {:induction false} SplitWhole(a: string)
    requires DotFree(a)
    ensures SplitDots(a) == [a]
  {
    if a != "" {
      SplitWhole(a[1..]);
      assert [a[0]] + a[1..] == a;
    }
  }

  lemma SplitFour(a: string, b: string, c: string, d: string)
    requires DotFree(a) && DotFree(b) && DotFree(c) && DotFree(d)
    ensures SplitDots(a + "." + b + "." + c + "." + d) == [a, b, c, d]
  {
    RegroupFour(a, b, c, d);
    SplitFirst(a, b + "." + (c + "." + d));
    SplitFirst(b, c + "." + d);
    SplitFirst(c, d);
    SplitWhole(d);
  }

  lemma RegroupFour(a: string, b: string, c: string, d: string)
    ensures a + "." + b + "." + c + "." + d == a + "." + (b + "." + (c + "." + d))
  {
    ConcatAssociative(a + "." + b + ".", c + ".", d);
    ConcatAssociative(a + ".", b + ".", c + "." + d);
  }

  lemma SegmentsAreDotFree(text: Text, port: nat)
    ensures DotFree(EncodeSegment(text)) && DotFree(Decimal(port))
  {
    EncodeSegmentIsUrl(text);
  }

  /** Parsing inverts naming for every namespace, pod and port. */
  lemma ParseInvertsName(toNumber: string -> Option<real>, namespace: Text, pod: Text, port: SafeInteger)
    requires ConvertsDecimals(toNumber)
    ensures ParsePidFileName(toNumber, FileName(namespace, pod, port)) ==
            Some(PidName(EncodeSegment(namespace), EncodeSegment(pod), port as real))
    ensures DecodeUrl(EncodeSegment(namespace)) == Some(namespace) && DecodeUrl(EncodeSegment(pod)) == Some(pod)
  {
    var ns, pd, pt := EncodeSegment(namespace), EncodeSegment(pod), Decimal(port);
    NameShape(ns, pd, pt);
    NameSplits(namespace, pod, port);
    DecimalSpells(port);
    assert toNumber(pt) == Some(port as real);
    EncodeSegmentIsUrl(namespace);
    EncodeSegmentIsUrl(pod);
    DecodeUrlInverts(namespace);
    DecodeUrlInverts(pod);
  }

  lemma PrefixIsDotFree()
    ensures DotFree(PID_PREFIX)
  {
  }

  lemma NameSplits(namespace: Text, pod: Text, port: nat)
    ensures var ns, pd, pt := EncodeSegment(namespace), EncodeSegment(pod), Decimal(port);
            SplitDots(PID_PREFIX + "." + ns + "." + pd + "." + pt) == [PID_PREFIX, ns, pd, pt]
  {
    PrefixIsDotFree();
    SegmentsAreDotFree(namespace, port);
    SegmentsAreDotFree(pod, port);
    SplitFour(PID_PREFIX, EncodeSegment(namespace), EncodeSegment(pod), Decimal(port));
  }

  lemma NameShape(ns: string, pd: string, pt: string)
    ensures var base := PID_PREFIX + "." + ns + "." + pd + "." + pt;
            var name := base + PID_SUFFIX;
            StartsWith(name, PID_PREFIX + ".") && EndsWith(name, PID_SUFFIX) && name[..|name| - |PID_SUFFIX|] == base
  {
    var name := PID_PREFIX + "." + ns + "." + pd + "." + pt + PID_SUFFIX;
    assert name == (PID_PREFIX + ".") + (ns + "." + pd + "." + pt + PID_SUFFIX);
  }

  lemma DecimalInjective(m: nat, n: nat)
    requires Decimal(m) == Decimal(n)
    ensures m == n
  {
    DecimalSpells(m);
    DecimalSpells(n);
  }

  /** Different watchdogs leave different files, whatever their ports. */
  lemma NamesAreDistinct(ns1: Text, pod1: Text, port1: nat, ns2: Text, pod2: Text, port2: nat)
    requires FileName(ns1, pod1, port1) == FileName(ns2, pod2, port2)
    ensures ns1 == ns2 && pod1 == pod2 && port1 == port2
  {
    NameShape(EncodeSegment(ns1), EncodeSegment(pod1), Decimal(port1));
    NameShape(EncodeSegment(ns2), EncodeSegment(pod2), Decimal(port2));
    NameSplits(ns1, pod1, port1);
    NameSplits(ns2, pod2, port2);
    SameParts(PID_PREFIX, EncodeSegment(ns1), EncodeSegment(pod1), Decimal(port1),
              PID_PREFIX, EncodeSegment(ns2), EncodeSegment(pod2), Decimal(port2));
    EncodeSegmentInjective(ns1, ns2);
    EncodeSegmentInjective(pod1, pod2);
    DecimalInjective(port1, port2);
  }

  lemma SameParts(a: string, b: string, c: string, d: string, a': string, b': string, c': string, d': string)
    requires [a, b, c, d] == [a', b', c', d']
    ensures a == a' && b == b' && c == c' && d == d'
  {
    var x, y := [a, b, c, d], [a', b', c', d'];
    assert x[0] == y[0] && x[1] == y[1] && x[2] == y[2] && x[3] == y[3];
  }

  function JoinDots(parts: seq<string>): (s: string)
    requires parts != []
  {
    if |parts| == 1 then parts[0] else parts[0] + "." + JoinDots(parts[1..])
  }

  /** Splitting gives dot-free parts that join to the whole. */
  lemma {:induction false} SplitJoins(s: string)
    ensures JoinDots(SplitDots(s)) == s
    ensures forall i :: 0 <= i < |SplitDots(s)| ==> DotFree(SplitDots(s)[i])
  {
    if s != "" {
      var rest := SplitDots(s[1..]);
      SplitJoins(s[1..]);
      assert s == [s[0]] + s[1..];
      if s[0] == '.' {
        assert ([""] + rest)[1..] == rest;
      } else {
        PrependToFirst(s[0], rest);
      }
    }
  }

  lemma PrependToFirst(c: char, rest: seq<string>)
    requires rest != [] && c != '.' && forall i :: 0 <= i < |rest| ==> DotFree(rest[i])
    ensures var parts := [[c] + rest[0]] + rest[1..];
            JoinDots(parts) == [c] + JoinDots(rest) && forall i :: 0 <= i < |parts| ==> DotFree(parts[i])
  {
    var first, tail := [c] + rest[0], rest[1..];
    JoinFirst(first, tail);
    JoinFirst(rest[0], tail);
    assert [rest[0]] + tail == rest;
    if tail != [] {
      Regroup(c, rest[0], JoinDots(tail));
    }
    forall i | 0 <= i < |rest|
      ensures DotFree(([first] + tail)[i])
    {
      assert i > 0 ==> ([first] + tail)[i] == rest[i];
    }
  }

  lemma JoinFirst(first: string, tail: seq<string>)
    ensures JoinDots([first] + tail) == if tail == [] then first else first + "." + JoinDots(tail)
  {
    assert ([first] + tail)[1..] == tail;
  }

  lemma Regroup(c: char, a: string, b: string)
    ensures [c] + a + "." + b == [c] + (a + "." + b)
  {
  }

  /** What stands before the first dot is determined. */
  lemma SameHead(a: string, x: string, b: string, y: string)
    requires DotFree(a) && DotFree(b) && a + "." + x == b + "." + y
    ensures a == b
  {
    SplitFirst(a, x);
    SplitFirst(b, y);
    assert SplitDots(a + "." + x)[0] == a && SplitDots(b + "." + y)[0] == b;
  }

  /** The shape of a watchdog's file name. */
  predicate IsPidName(name: string, a: string, b: string, c: string) {
    name == "midnight-port-forward" + "." + a + "." + b + "." + c + ".pid"
  }

  /** The three parts of a name that is recognised. */
  ghost predicate HasParts(toNumber: string -> Option<real>, name: string, a: string, b: string, c: string) {
    DotFree(a) && DotFree(b) && DotFree(c) && toNumber(c).Some? && IsPidName(name, a, b, c)
  }

  lemma JoinFour(a: string, b: string, c: string, d: string)
    ensures JoinDots([a, b, c, d]) == a + "." + b + "." + c + "." + d
  {
    assert [a, b, c, d][1..] == [b, c, d] && [b, c, d][1..] == [c, d] && [c, d][1..] == [d];
    assert JoinDots([d]) == d && JoinDots([c, d]) == c + "." + d;
    assert JoinDots([b, c, d]) == b + "." + (c + "." + d);
    RegroupFour(a, b, c, d);
  }

  /**
   Which names are recognised: exactly those with the prefix, three dot-free parts of which the last is
   a number, and the suffix; and the parts are what is returned.
   */
  lemma RecognisedIff(toNumber: string -> Option<real>, name: string)
    ensures ParsePidFileName(toNumber, name).Some? <==> exists a, b, c :: HasParts(toNumber, name, a, b, c)
    ensures forall a, b, c :: HasParts(toNumber, name, a, b, c) ==>
              ParsePidFileName(toNumber, name) == Some(PidName(a, b, toNumber(c).value))
  {
    forall a, b, c | HasParts(toNumber, name, a, b, c)
      ensures ParsePidFileName(toNumber, name) == Some(PidName(a, b, toNumber(c).value))
    {
      PrefixIsDotFree();
      NameShape(a, b, c);
      SplitFour(PID_PREFIX, a, b, c);
    }
    if ParsePidFileName(toNumber, name).Some? {
      RecognisedParts(toNumber, name);
    }
  }

  lemma RecognisedParts(toNumber: string -> Option<real>, name: string)
    requires ParsePidFileName(toNumber, name).Some?
    ensures exists a, b, c :: HasParts(toNumber, name, a, b, c)
  {
    var base := name[..|name| - |PID_SUFFIX|];
    var parts := SplitDots(base);
    var p, a, b, c := parts[0], parts[1], parts[2], parts[3];
    SplitJoins(base);
    assert parts == [p, a, b, c];
    JoinFour(p, a, b, c);
    assert name == base + PID_SUFFIX;
    PrefixIsDotFree();
    var rest := name[|PID_PREFIX| + 1..];
    assert name == PID_PREFIX + "." + rest;
    TailOfName(p, a, b, c);
    SameHead(p, a + "." + b + "." + c + PID_SUFFIX, PID_PREFIX, rest);
    assert HasParts(toNumber, name, a, b, c);
  }

  lemma TailOfName(p: string, a: string, b: string, c: string)
    ensures p + "." + a + "." + b + "." + c + PID_SUFFIX == p + "." + (a + "." + b + "." + c + PID_SUFFIX)
  {
  }

  /** A file is listed if its name parses and its namespace passes the filter. */
  predicate Selects(toNumber: string -> Option<real>, filter: Option<string>, name: string) {
    var parsed := ParsePidFileName(toNumber, name);
    parsed.Some? && (filter.None? || filter.value == "" || parsed.value.namespaceEnc == filter.value)
  }

  /** No namespace, or an empty one, means no filter. */
  function NamespaceFilter(namespace: Option<Text>): (filter: Option<string>) {
    if namespace.Some? && namespace.value != [] then Some(EncodeSegment(namespace.value)) else None
  }

  /** The listing: `entries` is `None` when the directory cannot be read. */
  method ListPidFiles(toNumber: string -> Option<real>, entries: Option<seq<string>>, namespace: Option<Text>)
    returns (matches: seq<string>)
    ensures matches == if entries.None? then []
                       else Filter(entries.value, name => Selects(toNumber, NamespaceFilter(namespace), name))
  {
    matches := [];
    if entries.None? { return; }
    var filter := NamespaceFilter(namespace);
    var keep := name => Selects(toNumber, filter, name);
    var all := entries.value;
    for i := 0 to |all|
      invariant matches == Filter(all[..i], keep)
    {
      FilterConcat(all[..i], [all[i]], keep);
      assert all[..i + 1] == all[..i] + [all[i]];
      assert [all[i]][1..] == [];
      var parsed := ParsePidFileName(toNumber, all[i]);
      if parsed.None? { continue; }
      if filter.Some? && filter.value != "" && parsed.value.namespaceEnc != filter.value { continue; }
      matches := matches + [all[i]];
    }
    assert all[..|all|] == all;
  }

  /** Among built names, a non-empty namespace selects exactly its own, and no namespace selects all. */
  lemma FilterSelectsNamespace(toNumber: string -> Option<real>, wanted: Option<Text>, namespace: Text, pod: Text,
                               port: SafeInteger)
    requires ConvertsDecimals(toNumber)
    ensures Selects(toNumber, NamespaceFilter(wanted), FileName(namespace, pod, port)) <==>
            (wanted.None? || wanted.value == [] || wanted.value == namespace)
  {
    ParseInvertsName(toNumber, namespace, pod, port);
    if wanted.Some? && wanted.value != [] {
      EncodeSegmentIsUrl(wanted.value);
      if EncodeSegment(wanted.value) == EncodeSegment(namespace) {
        EncodeSegmentInjective(wanted.value, namespace);
      }
    }
  }
}
