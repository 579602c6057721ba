/** Host and port as text: net.JoinHostPort, net.SplitHostPort and decimal ports. */
module HostPort {
  import opened Bytes

  const COLON: byte := 58
  const OPEN: byte := 91
  const CLOSE: byte := 93

  // ---- decimal numbers ----

  predicate IsDigit(b: byte) {
    48 <= b <= 57
  }

  lemma DigitsAre(b: byte)
    ensures IsDigit(b) <==> b in {48, 49, 50, 51, 52, 53, 54, 55, 56, 57}
  {
  }

  function Decimal(n: nat): (s: Bytes)
    ensures s != [] && forall i :: 0 <= i < |s| ==> IsDigit(s[i])
  {
    if n < 10 then [48 + n] else Decimal(n / 10) + [48 + n % 10]
  }

  function Digits(s: Bytes): Option<nat> {
    if s == [] then Some(0)
    else
      var init, last := s[..|s| - 1], s[|s| - 1];
      if Digits(init).None? || !IsDigit(last) then None else Some(10 * Digits(init).value + (last as int - 48))
  }

  lemma {:induction false} DigitsOf(n: nat)
    ensures Digits(Decimal(n)) == Some(n)
  {
    if n < 10 {
      assert Decimal(n)[..0] == [];
    } else {
      var s := Decimal(n);
      assert s[..|s| - 1] == Decimal(n / 10);
      DigitsOf(n / 10);
    }
  }

  const MAX_UINT64 := 0xFFFF_FFFF_FFFF_FFFF
  const MAX_INT64 := 0x7FFF_FFFF_FFFF_FFFF

  datatype Scan = Number(n: nat) | Syntax | Range

  /** strconv.ParseUint from left to right: an overflow is reported before anything behind it is looked at. */
  function ScanUint(s: Bytes, n: nat): Scan {
    if s == [] then Number(n)
    else if !IsDigit(s[0]) then Syntax
    else
      var m := 10 * n + (s[0] as int - 48);
      if m > MAX_UINT64 then Range else ScanUint(s[1..], m)
  }

  datatype Parsed = Parsed(value: int, ok: bool)

  /** strconv.Atoi on 64 bits: the nearest int when out of range, zero when the text is no number. */
  function Atoi(s: Bytes): Parsed {
    var signed, neg := s != [] && (s[0] == 43 || s[0] == 45), s != [] && s[0] == 45;
    var rest := if signed then s[1..] else s;
    var limit: int := if neg then MAX_INT64 + 1 else MAX_INT64;
    if rest == [] then Parsed(0, false)
    else match ScanUint(rest, 0)
      case Syntax => Parsed(0, false)
      case Range => Parsed(if neg then -limit else limit, false)
      case Number(n) =>
        var m: int := if n > limit then limit else n;
        Parsed(if neg then -m else m, n <= limit)
  }

  lemma {:induction false} ScanAppend(s: Bytes, c: byte, n: nat)
    ensures ScanUint(s + [c], n) ==
      match ScanUint(s, n)
      case Number(m) => ScanUint([c], m)
      case Syntax => Syntax
      case Range => Range
  {
    if s == [] {
      assert s + [c] == [c];
    } else {
      assert (s + [c])[1..] == s[1..] + [c];
      if IsDigit(s[0]) && 10 * n + (s[0] as int - 48) <= MAX_UINT64 {
        ScanAppend(s[1..], c, 10 * n + (s[0] as int - 48));
      }
    }
  }

  /** Some beginning of the text is a number beyond 64 bits. */
  ghost predicate Overflows(s: Bytes) {
    exists i :: 0 <= i <= |s| && Digits(s[..i]).Some? && Digits(s[..i]).value > 18446744073709551615
  }

  lemma OverflowsStep(s: Bytes, c: byte)
    ensures Overflows(s + [c]) <==>
      Overflows(s) || (Digits(s + [c]).Some? && Digits(s + [c]).value > MAX_UINT64)
  {
    var t := s + [c];
    assert t[..|t|] == t;
    assert forall i :: 0 <= i <= |s| ==> t[..i] == s[..i];
    if Overflows(s) {
      var i :| 0 <= i <= |s| && Digits(s[..i]).Some? && Digits(s[..i]).value > MAX_UINT64;
      assert t[..i] == s[..i];
    }
    if Overflows(t) {
      var i :| 0 <= i <= |t| && Digits(t[..i]).Some? && Digits(t[..i]).value > MAX_UINT64;
      if i <= |s| {
        assert t[..i] == s[..i];
      }
    }
  }

  /** The scan reads a text of digits that fits as its number, one that overflows, digits or not behind that, as out
      of range, and any other as no number. */
  lemma {:induction false} ScanIs(s: Bytes)
    ensures ScanUint(s, 0).Number? <==> Digits(s).Some? && Digits(s).value <= MAX_UINT64
    ensures ScanUint(s, 0).Number? ==> Digits(s) == Some(ScanUint(s, 0).n)
    ensures ScanUint(s, 0).Range? <==> Overflows(s)
  {
    if s == [] {
      assert forall i :: 0 <= i <= |s| ==> s[..i] == s;
    } else {
      var init, last := s[..|s| - 1], s[|s| - 1];
      assert s == init + [last];
      ScanIs(init);
      ScanAppend(init, last, 0);
      OverflowsStep(init, last);
      if ScanUint(init, 0).Number? {
        LastDigit(last, ScanUint(init, 0).n);
      } else {
        NoNumber(init, last);
        if Digits(init).Some? {
          WholeOverflows(init);
        }
      }
    }
  }

  lemma LastDigit(c: byte, n: nat)
    ensures ScanUint([c], n) ==
      if !IsDigit(c) then Syntax
      else if 10 * n + (c as int - 48) > MAX_UINT64 then Range else Number(10 * n + (c as int - 48))
  {
    assert [c][1..] == [];
  }

  lemma WholeOverflows(s: Bytes)
    requires Digits(s).Some? && Digits(s).value > MAX_UINT64
    ensures Overflows(s)
  {
    assert s[..|s|] == s;
  }

  /** What does not fit never fits again. */
  lemma NoNumber(init: Bytes, last: byte)
    requires Digits(init).None? || Digits(init).value > MAX_UINT64
    ensures Digits(init + [last]).None? || Digits(init + [last]).value > MAX_UINT64
    ensures Digits(init).None? ==> Digits(init + [last]).None?
  {
    assert (init + [last])[..|init|] == init;
  }

  /** The digits are those of the usual notation, the most significant first. */
  lemma DecimalText()
    ensures Decimal(9876543210) == [57, 56, 55, 54, 53, 52, 51, 50, 49, 48] && Decimal(0) == [48]
  {
  }

  /** strconv.Atoi and the range of a port; a sign is allowed, as in the code. */
  function PortOf(s: Bytes): Option<nat> {
    var p := Atoi(s);
    if !p.ok || p.value < 0 || p.value > 65535 then None else Some(p.value)
  }

  /** A number within 64 bits, signed, is read as itself; one beyond as the nearest of those; anything else as zero,
      with an error in both cases. */
  lemma AtoiMeans(digits: Bytes)
    requires digits != [] && IsDigit(digits[0])
    ensures var max: int := 9223372036854775807;
      match Digits(digits)
      case Some(n) =>
        && Atoi(digits) == (if n <= max then Parsed(n, true) else Parsed(max, false))
        && Atoi([43] + digits) == Atoi(digits)
        && Atoi([45] + digits) == (if n <= max + 1 then Parsed(-(n as int), true) else Parsed(-max - 1, false))
      case None => Atoi(digits) == Parsed(if Overflows(digits) then max else 0, false)
  {
    hide Digits, Overflows;
    ScanIs(digits);
    if Digits(digits).Some? && Digits(digits).value > 18446744073709551615 {
      WholeOverflows(digits);
    }
    assert ([43] + digits)[1..] == digits && ([45] + digits)[1..] == digits;
  }

  /** A port text is accepted exactly when it is digits, after at most one sign, with a value of at most 65535, and
      of zero after a minus. */
  lemma PortTexts(digits: Bytes, port: nat)
    requires digits != [] && IsDigit(digits[0])
    ensures PortOf(digits) == Some(port) <==> Digits(digits) == Some(port) && port <= 65535
    ensures PortOf([43] + digits) == Some(port) <==> Digits(digits) == Some(port) && port <= 65535
    ensures PortOf([45] + digits) == Some(port) <==> Digits(digits) == Some(port) && port == 0
    ensures PortOf([]) == PortOf([43]) == PortOf([45]) == None
  {
    hide Digits;
    ScanIs(digits);
    assert ([43] + digits)[1..] == digits && ([45] + digits)[1..] == digits;
  }

  lemma PortRoundTrip(port: nat)
    requires port < 0x1_0000
    ensures PortOf(Decimal(port)) == Some(port)
  {
    DigitsOf(port);
    ScanIs(Decimal(port));
    assert IsDigit(Decimal(port)[0]);
  }

  // ---- joining and splitting ----

  /** The first position of `c`, or the length. */
  function IndexOf(s: Bytes, c: byte): (i: nat)
    ensures i <= |s| && (i < |s| ==> s[i] == c) && forall j :: 0 <= j < i ==> s[j] != c
  {
    if s == [] || s[0] == c then 0 else 1 + IndexOf(s[1..], c)
  }

  /** One past the last position of `c`, or zero. */
  function AfterLast(s: Bytes, c: byte): (i: nat)
    ensures i <= |s| && (i > 0 ==> s[i - 1] == c) && forall j :: i <= j < |s| ==> s[j] != c
  {
    if s == [] then 0
    else if s[|s| - 1] == c then |s|
    else AfterLast(s[..|s| - 1], c)
  }

  /** A host with a colon is taken for an IPv6 address and bracketed. */
  function Join(host: Bytes, port: Bytes): Bytes {
    if COLON in host then [OPEN] + host + [CLOSE, COLON] + port else host + [COLON] + port
  }

  /** The port starts after the last colon; a bracketed host ends at the first closing bracket, which must stand
      just before that colon; no other bracket is allowed, and no other colon outside brackets. */
  function SplitAt(s: Bytes): Option<(Bytes, Bytes)> {
    var after := AfterLast(s, COLON);
    if after == 0 then None
    else
      var i := after - 1;
      var port := s[after..];
      if s[0] == OPEN then
        var end := IndexOf(s, CLOSE);
        if end == |s| || end + 1 != i then None
        else if OPEN in s[1..] || CLOSE in s[end + 1..] then None
        else Some((s[1..end], port))
      else if COLON in s[..i] || OPEN in s || CLOSE in s then None
      else Some((s[..i], port))
  }

  /** In characters: a colon, code 58, before the port, and brackets, codes 91 and 93, around a host that holds a
      colon itself. */
  lemma JoinText(host: Bytes, port: Bytes)
    ensures 58 in host ==> Join(host, port) == [91] + host + [93, 58] + port
    ensures 58 !in host ==> Join(host, port) == host + [58] + port
  {
  }

  predicate Bracketless(s: Bytes) {
    OPEN !in s && CLOSE !in s
  }

  /** Text without any of the three separators, as a decimal port is. */
  predicate Plain(s: Bytes) {
    COLON !in s && Bracketless(s)
  }

  lemma DecimalPlain(n: nat)
    ensures Plain(Decimal(n))
  {
  }

  lemma LastColon(s: Bytes, pre: Bytes, port: Bytes)
    requires s == pre + [COLON] + port && COLON !in port
    ensures AfterLast(s, COLON) == |pre| + 1 && s[|pre| + 1..] == port && s[..|pre|] == pre
  {
    assert s[|pre|] == COLON;
    assert forall j :: |pre| < j < |s| ==> s[j] == port[j - |pre| - 1];
  }

  lemma FirstClose(s: Bytes, pre: Bytes, rest: Bytes)
    requires s == pre + [CLOSE] + rest && CLOSE !in pre
    ensures IndexOf(s, CLOSE) == |pre|
  {
    assert s[|pre|] == CLOSE;
    assert forall j :: 0 <= j < |pre| ==> s[j] == pre[j];
  }

  /** A host comes back if it holds no bracket. */
  lemma SplitsBack(host: Bytes, port: Bytes)
    requires Plain(port) && Bracketless(host)
    ensures SplitAt(Join(host, port)) == Some((host, port))
  {
    hide IndexOf, AfterLast;
    var s := Join(host, port);
    if COLON in host {
      var pre := [OPEN] + host + [CLOSE];
      assert s == pre + [COLON] + port;
      LastColon(s, pre, port);
      assert s == ([OPEN] + host) + [CLOSE] + ([COLON] + port);
      FirstClose(s, [OPEN] + host, [COLON] + port);
      assert s[1..|host| + 1] == host;
      assert s[1..] == host + [CLOSE, COLON] + port;
      assert s[|host| + 2..] == [COLON] + port;
    } else {
      LastColon(s, host, port);
      assert s[0] == if host == [] then COLON else host[0];
    }
  }

  /** The one other text that can be split: a bracketed host without a colon comes back without its brackets. */
  predicate Wrapped(host: Bytes) {
    |host| >= 2 && host[0] == OPEN && host[|host| - 1] == CLOSE && Plain(host[1..|host| - 1])
  }

  lemma WrappedLoses(host: Bytes, port: Bytes)
    requires Plain(port) && Wrapped(host)
    ensures SplitAt(Join(host, port)) == Some((host[1..|host| - 1], port))
  {
    hide IndexOf, AfterLast;
    var inner := host[1..|host| - 1];
    assert host == [OPEN] + inner + [CLOSE];
    assert COLON !in host;
    var s := Join(host, port);
    LastColon(s, host, port);
    assert s == ([OPEN] + inner) + [CLOSE] + ([COLON] + port);
    FirstClose(s, [OPEN] + inner, [COLON] + port);
    assert s[1..|inner| + 1] == inner;
    assert s[1..] == inner + [CLOSE, COLON] + port;
    assert s[|inner| + 2..] == [COLON] + port;
  }

  /** Any other host with a bracket is refused: first one that is bracketed for its colons. */
  lemma ColonRefused(host: Bytes, port: Bytes)
    requires Plain(port) && COLON in host && !Bracketless(host)
    ensures SplitAt(Join(host, port)) == None
  {
    hide IndexOf, AfterLast;
    var s := Join(host, port);
    var pre := [OPEN] + host + [CLOSE];
    assert s == pre + [COLON] + port;
    LastColon(s, pre, port);
    if CLOSE in host {
      var k := IndexOf(host, CLOSE);
      FirstIn(host, CLOSE);
      assert s == ([OPEN] + host[..k]) + [CLOSE] + (host[k + 1..] + [CLOSE, COLON] + port);
      FirstClose(s, [OPEN] + host[..k], host[k + 1..] + [CLOSE, COLON] + port);
    } else {
      var k :| 0 <= k < |host| && host[k] == OPEN;
      assert s[1..][k] == OPEN;
    }
  }

  lemma FirstIn(s: Bytes, c: byte)
    requires c in s
    ensures IndexOf(s, c) < |s| && s[IndexOf(s, c)] == c && c !in s[..IndexOf(s, c)]
  {
  }

  lemma PlainRefused(host: Bytes, port: Bytes)
    requires Plain(port) && COLON !in host && !Bracketless(host) && !Wrapped(host)
    ensures SplitAt(Join(host, port)) == None
  {
    hide IndexOf, AfterLast;
    var s := Join(host, port);
    LastColon(s, host, port);
    assert forall j :: 0 <= j < |host| ==> s[j] == host[j];
    if host[0] != OPEN {
      var k :| 0 <= k < |host| && (host[k] == OPEN || host[k] == CLOSE);
      assert s[k] == host[k];
    } else if CLOSE in host {
      OpenRefused(host, port);
    } else {
      var end := IndexOf(s, CLOSE);
      IndexFound(s, CLOSE);
      assert end >= |host|;
    }
  }

  lemma OpenRefused(host: Bytes, port: Bytes)
    requires Plain(port) && COLON !in host && !Wrapped(host) && host != [] && host[0] == OPEN && CLOSE in host
    ensures SplitAt(Join(host, port)) == None
  {
    hide IndexOf, AfterLast;
    var s := host + [COLON] + port;
    LastColon(s, host, port);
    var k := IndexOf(host, CLOSE);
    FirstIn(host, CLOSE);
    assert s == host[..k] + [CLOSE] + (host[k + 1..] + [COLON] + port);
    FirstClose(s, host[..k], host[k + 1..] + [COLON] + port);
    if k + 1 == |host| {
      assert OPEN in host[1..k];
      var m :| 1 <= m < k && host[m] == OPEN;
      assert s[1..][m - 1] == OPEN;
    }
  }

  lemma IndexFound(s: Bytes, c: byte)
    ensures IndexOf(s, c) <= |s| && (IndexOf(s, c) < |s| ==> s[IndexOf(s, c)] == c)
  {
  }

  /** For every host: joined with a port and split again it comes back if and only if it holds no bracket. One
      that is itself wrapped in brackets comes back without them, and any other is refused. */
  lemma JoinSplit(host: Bytes, port: Bytes)
    requires Plain(port)
    ensures SplitAt(Join(host, port)) ==
      if Bracketless(host) then Some((host, port))
      else if Wrapped(host) then Some((host[1..|host| - 1], port))
      else None
    ensures SplitAt(Join(host, port)) == Some((host, port)) <==> Bracketless(host)
  {
    if Bracketless(host) {
      SplitsBack(host, port);
    } else if Wrapped(host) {
      WrappedLoses(host, port);
    } else if COLON in host {
      ColonRefused(host, port);
    } else {
      PlainRefused(host, port);
    }
  }
}
