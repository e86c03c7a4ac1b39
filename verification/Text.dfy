/** The few string functions the program takes from its standard library. */
module Text {
  import opened Common

  predicate IsSpace(c: char) {
    || c == ' ' || ('\t' <= c <= '\r') || c == '\U{85}' || c == '\U{A0}' || c == '\U{1680}'
    || ('\U{2000}' <= c <= '\U{200A}') || c == '\U{2028}' || c == '\U{2029}' || c == '\U{202F}'
    || c == '\U{205F}' || c == '\U{3000}'
  }

  predicate Blank(s: string) {
    forall i :: 0 <= i < |s| ==> IsSpace(s[i])
  }

  /** Without leading and trailing white space. */
  function TrimSpace(s: string): (t: string)
    ensures Blank(s) <==> t == ""
    decreases |s|
  {
    if s == "" then ""
    else if IsSpace(s[0]) then
      assert Blank(s) <==> Blank(s[1..]);
      TrimSpace(s[1..])
    else if IsSpace(s[|s| - 1]) then TrimSpace(s[..|s| - 1])
    else s
  }

  /** Trimming takes off exactly the white space at both ends. */
  lemma {:induction false} TrimMeaning(s: string) returns (i: nat, j: nat)
    ensures i <= j <= |s| && TrimSpace(s) == s[i..j]
    ensures forall k :: 0 <= k < i || j <= k < |s| ==> IsSpace(s[k])
    ensures i < j ==> !IsSpace(s[i]) && !IsSpace(s[j - 1])
    decreases |s|
  {
    if s != "" && IsSpace(s[0]) {
      var rest := s[1..];
      var k, l := TrimMeaning(rest);
      i, j := k + 1, l + 1;
      assert s[i..j] == rest[k..l];
      assert forall m :: 1 <= m < |s| ==> s[m] == rest[m - 1];
    } else if s != "" && IsSpace(s[|s| - 1]) {
      var rest := s[..|s| - 1];
      i, j := TrimMeaning(rest);
      assert s[i..j] == rest[i..j];
    } else {
      i, j := 0, |s|;
    }
  }

  function Digit(n: nat): char
    requires n < 10
  {
    "0123456789"[n]
  }

  function Itoa(n: nat): string {
    if n < 10 then [Digit(n)] else Itoa(n / 10) + [Digit(n % 10)]
  }

  /** host:port, with brackets around an IPv6 literal. */
  function JoinHostPort(host: string, port: string): string {
    if ':' in host then "[" + host + "]:" + port else host + ":" + port
  }

  lemma {:induction false} ItoaDigits(n: nat)
    ensures Itoa(n) != "" && ':' !in Itoa(n)
  {
    if n >= 10 {
      ItoaDigits(n / 10);
    }
  }

  function Atoi(s: string): int {
    if s == "" then 0 else 10 * Atoi(s[..|s| - 1]) + (s[|s| - 1] as int - '0' as int)
  }

  /** Numbers read back from their decimal digits. */
  lemma {:induction false} AtoiItoa(n: nat)
    ensures Atoi(Itoa(n)) == n
  {
    LastDigit(n);
    assert Digit(n % 10) as int - '0' as int == n % 10;
    if n >= 10 {
      AtoiItoa(n / 10);
    } else {
      assert Itoa(n)[..0] == "";
    }
  }

  lemma ItoaInjective(n: nat, m: nat)
    requires Itoa(n) == Itoa(m)
    ensures n == m
  {
    AtoiItoa(n);
    AtoiItoa(m);
  }

  lemma LastDigit(n: nat)
    ensures Itoa(n) != "" && Itoa(n)[|Itoa(n)| - 1] == Digit(n % 10)
    ensures n >= 10 ==> Itoa(n)[..|Itoa(n)| - 1] == Itoa(n / 10) && Itoa(n / 10) != ""
    ensures n < 10 ==> |Itoa(n)| == 1
  {
    ItoaDigits(n / 10);
  }

  /** A host and a port read back from their joined form: ports hold no colon, and only hosts
      with a colon are put in brackets. */
  lemma JoinHostPortInjective(host: string, port: string, host': string, port': string)
    requires ':' !in port && ':' !in port' && JoinHostPort(host, port) == JoinHostPort(host', port')
    ensures host == host' && port == port'
  {
    var a := JoinHostPort(host, port);
    var h := if ':' in host then "[" + host + "]" else host;
    var h' := if ':' in host' then "[" + host' + "]" else host';
    assert a == h + ":" + port && a == h' + ":" + port';
    assert a[|h|] == ':' && a[|h'|] == ':';
    assert a[|h| + 1..] == port && a[|h'| + 1..] == port';
    assert |h| == |h'|;
    assert h == a[..|h|] && h' == a[..|h'|];
    assert ':' in host <==> ':' in h;
    assert ':' in host' <==> ':' in h';
    if ':' in host {
      assert host == h[1..|h| - 1] && host' == h'[1..|h'| - 1];
    }
  }

  /** The host and port of an address: the port is what follows the last colon, a host with colons
      must be in brackets, and brackets are taken off. */
  function SplitHostPort(a: string): Option<(string, string)> {
    var i := LastColon(a);
    if i.None? then None
    else
      var h, port := a[..i.value], a[i.value + 1..];
      if |h| >= 2 && h[0] == '[' && h[|h| - 1] == ']' then Some((h[1..|h| - 1], port))
      else if ':' in h then None
      else Some((h, port))
  }

  function LastColon(a: string): (i: Option<nat>)
    ensures i.Some? ==> i.value < |a|
  {
    if a == "" then None
    else if a[|a| - 1] == ':' then Some(|a| - 1)
    else LastColon(a[..|a| - 1])
  }

  lemma {:induction false} LastColonAfter(h: string, port: string)
    requires ':' !in port
    ensures LastColon(h + ":" + port) == Some(|h|)
    decreases |port|
  {
    var a := h + ":" + port;
    if port != "" {
      var rest := port[..|port| - 1];
      assert a[..|a| - 1] == h + ":" + rest;
      assert a[|a| - 1] == port[|port| - 1] && a[|a| - 1] in port;
      LastColonAfter(h, rest);
    }
  }

  /** Every host that is not itself in brackets splits off the address it was joined to, IPv6
      literals included. */
  lemma SplitJoin(host: string, port: string)
    requires ':' !in port && (':' in host || !(|host| >= 2 && host[0] == '[' && host[|host| - 1] == ']'))
    ensures SplitHostPort(JoinHostPort(host, port)) == Some((host, port))
  {
    var h := if ':' in host then "[" + host + "]" else host;
    var a := h + ":" + port;
    assert JoinHostPort(host, port) == a by {
      assert "[" + host + "]:" + port == "[" + host + "]" + ":" + port;
    }
    LastColonAfter(h, port);
    assert a[..|h|] == h && a[|h| + 1..] == port;
    if ':' in host {
      assert h[1..|h| - 1] == host;
    }
  }

  /** Code-point order, which is also the byte order of UTF-8. */
  predicate Less(a: string, b: string) {
    b != "" && (a == "" || a[0] < b[0] || (a[0] == b[0] && Less(a[1..], b[1..])))
  }

  /** The first difference decides, or else the shorter string comes first. */
  lemma {:induction false} LessMeaning(a: string, b: string, i: nat)
    requires i <= |a| && i <= |b| && a[..i] == b[..i]
    requires i < |a| && i < |b| ==> a[i] != b[i]
    requires i < |a| || i < |b|
    ensures Less(a, b) <==> i == |a| || (i < |b| && a[i] < b[i])
    decreases |a|
  {
    if i > 0 && a != "" && b != "" {
      assert a[0] == a[..i][0] && b[0] == b[..i][0];
      assert a[1..][..i - 1] == a[..i][1..] && b[1..][..i - 1] == b[..i][1..];
      LessMeaning(a[1..], b[1..], i - 1);
    }
  }

  lemma {:induction false} LessTotal(a: string, b: string)
    ensures !Less(a, a)
    ensures a != b ==> Less(a, b) || Less(b, a)
    ensures !(Less(a, b) && Less(b, a))
    decreases |a|
  {
    if a != "" {
      LessTotal(a[1..], a[1..]);
      if b != "" && a[0] == b[0] {
        assert a == [a[0]] + a[1..] && b == [b[0]] + b[1..];
        LessTotal(a[1..], b[1..]);
      }
    }
  }

  lemma {:induction false} LessTransitive(a: string, b: string, c: string)
    requires Less(a, b) && Less(b, c)
    ensures Less(a, c)
  {
    if a != "" && a[0] == b[0] && b[0] == c[0] {
      LessTransitive(a[1..], b[1..], c[1..]);
    }
  }
}
