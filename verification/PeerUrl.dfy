/** Peer URLs: how the address of a Gemini peer is printed, and how connecting takes it apart again
    through bounded, zero-terminated character buffers. */
module PeerUrl {
  import opened Common

  const URL_LEN := 128
  const HOSTNAME_LEN := 32
  const MAX_U32 := 0x1_0000_0000

  datatype Peer = Peer(host: string, port: nat, ptag: nat, cookie: nat)

  // ----- searching -----

  predicate StartsWith(s: string, pat: string) {
    pat <= s
  }

  /** The first place where `pat` occurs in `s`. */
  function Find(s: string, pat: string): (r: Option<nat>)
    ensures r.Some? ==> r.value + |pat| <= |s| && s[r.value..r.value + |pat|] == pat
  {
    if StartsWith(s, pat) then Some(0)
    else if s == "" then None
    else
      var r := Find(s[1..], pat);
      if r.None? then None else Some(r.value + 1)
  }

  /** A pattern whose first character does not occur before it is found right there. */
  lemma {:induction false} FindBehind(front: string, pat: string, rest: string)
    requires pat != "" && pat[0] !in front
    ensures Find(front + pat + rest, pat) == Some(|front|)
  {
    var s := front + pat + rest;
    if front == "" {
      assert s[..|pat|] == pat;
    } else {
      assert s[0] == front[0] && s[0] != pat[0];
      assert s[1..] == front[1..] + pat + rest;
      FindBehind(front[1..], pat, rest);
    }
  }

  // ----- numbers -----

  function Digit(d: nat): char
    requires d < 10
  {
    "0123456789"[d]
  }

  /** A number as the unsigned decimal formats print it. */
  function Decimal(n: nat): string {
    if n < 10 then [Digit(n)] else Decimal(n / 10) + [Digit(n % 10)]
  }

  function DigitValue(c: char): nat {
    if '0' <= c <= '9' then (c - '0') as nat
    else if 'a' <= c <= 'z' then (c - 'a') as nat + 10
    else if 'A' <= c <= 'Z' then (c - 'A') as nat + 10
    else 36
  }

  /** The number `acc` with one more digit behind it. */
  function WithDigit(acc: nat, base: nat, c: char): nat {
    acc * base + DigitValue(c)
  }

  /** The number that the leading digits of `s` denote, continued from `acc`. */
  function ReadDigits(s: string, base: nat, acc: nat): nat {
    if s == "" || DigitValue(s[0]) >= base then acc
    else ReadDigits(s[1..], base, WithDigit(acc, base, s[0]))
  }

  /** Reading with the base taken from the prefix: hexadecimal after 0x, octal after 0, else decimal. */
  function ReadAnyBase(s: string): nat {
    if |s| >= 2 && s[0] == '0' && (s[1] == 'x' || s[1] == 'X') then ReadDigits(s[2..], 16, 0)
    else if s != "" && s[0] == '0' then ReadDigits(s, 8, 0)
    else ReadDigits(s, 10, 0)
  }

  lemma {:induction false} DecimalDigits(n: nat)
    ensures Decimal(n) != "" && (forall c | c in Decimal(n) :: '0' <= c <= '9') && (n > 0 ==> Decimal(n)[0] != '0')
  {
    if n >= 10 {
      DecimalDigits(n / 10);
    }
  }

  lemma {:induction false} DecimalLength(n: nat, k: nat, limit: nat)
    requires 0 < k && n < limit && limit == Power10(k)
    ensures |Decimal(n)| <= k
  {
    if n >= 10 {
      DecimalLength(n / 10, k - 1, limit / 10);
    }
  }

  function Power10(k: nat): nat {
    if k == 0 then 1 else 10 * Power10(k - 1)
  }

  predicate InDigits(s: string, base: nat) {
    forall c | c in s :: DigitValue(c) < base
  }

  lemma InDigitsTail(s: string, base: nat)
    requires InDigits(s, base) && s != ""
    ensures DigitValue(s[0]) < base && InDigits(s[1..], base)
  {
    assert s[0] in s && forall c | c in s[1..] :: c in s;
  }

  lemma ReadStep(s: string, base: nat, acc: nat)
    requires s != "" && DigitValue(s[0]) < base
    ensures ReadDigits(s, base, acc) == ReadDigits(s[1..], base, WithDigit(acc, base, s[0]))
  {
  }

  lemma {:induction false} ReadConcat(a: string, b: string, base: nat, acc: nat)
    requires InDigits(a, base)
    ensures ReadDigits(a + b, base, acc) == ReadDigits(b, base, ReadDigits(a, base, acc))
  {
    if a == "" {
      assert a + b == b;
    } else {
      InDigitsTail(a, base);
      ConcatTail(a, b);
      ReadStep(a, base, acc);
      ReadStep(a + b, base, acc);
      ReadConcat(a[1..], b, base, WithDigit(acc, base, a[0]));
    }
  }

  lemma ReadOne(d: nat, acc: nat)
    requires d < 10
    ensures ReadDigits([Digit(d)], 10, acc) == acc * 10 + d
  {
    assert [Digit(d)][1..] == "";
  }

  lemma {:induction false} ReadDecimal(n: nat)
    ensures ReadDigits(Decimal(n), 10, 0) == n
  {
    if n < 10 {
      ReadOne(n, 0);
    } else {
      DecimalDigits(n / 10);
      ReadDecimal(n / 10);
      ReadConcat(Decimal(n / 10), [Digit(n % 10)], 10, 0);
      ReadOne(n % 10, n / 10);
    }
  }

  /** A printed number reads back, whatever follows it, as long as that is not another digit. */
  lemma DecimalRoundTrip(n: nat, rest: string)
    requires rest == "" || DigitValue(rest[0]) >= 10
    ensures ReadDigits(Decimal(n) + rest, 10, 0) == n
  {
    DecimalDigits(n);
    ReadDecimal(n);
    ReadConcat(Decimal(n), rest, 10, 0);
  }

  /** Printed without leading zeros, a number is not taken for an octal or a hexadecimal one. */
  lemma AnyBaseRoundTrip(n: nat)
    ensures ReadAnyBase(Decimal(n)) == n
  {
    DecimalDigits(n);
    ReadDecimal(n);
    if n == 0 {
      assert Decimal(0) == "0";
      assert "0"[1..] == "";
    }
  }

  // ----- numbers in other bases -----

  /** A digit as a letter beyond nine, small or capital. */
  function AnyDigit(d: nat, capital: bool): char
    requires d < 36
  {
    if d < 10 then '0' + d as char else (if capital then 'A' else 'a') + (d - 10) as char
  }

  lemma AnyDigitIsRead(d: nat, capital: bool)
    requires d < 36
    ensures DigitValue(AnyDigit(d, capital)) == d
  {
  }

  function InBase(n: nat, base: nat, capital: bool): string
    requires 2 <= base <= 36
    decreases n
  {
    if n < base then [AnyDigit(n, capital)] else InBase(n / base, base, capital) + [AnyDigit(n % base, capital)]
  }

  lemma ReadOneMore(d: nat, base: nat, capital: bool, acc: nat)
    requires d < base <= 36
    ensures ReadDigits([AnyDigit(d, capital)], base, acc) == acc * base + d
  {
    AnyDigitIsRead(d, capital);
    assert [AnyDigit(d, capital)][1..] == "";
  }

  lemma OneDigitMore(a: string, d: nat, base: nat, capital: bool)
    requires d < base <= 36 && InDigits(a, base)
    ensures InDigits(a + [AnyDigit(d, capital)], base)
    ensures ReadDigits(a + [AnyDigit(d, capital)], base, 0) == ReadDigits(a, base, 0) * base + d
  {
    AnyDigitIsRead(d, capital);
    ReadConcat(a, [AnyDigit(d, capital)], base, 0);
    ReadOneMore(d, base, capital, ReadDigits(a, base, 0));
  }

  lemma Quotient(n: nat, base: nat)
    requires 2 <= base <= n
    ensures n / base < n && n % base < base && n / base * base + n % base == n
  {
  }

  lemma InBaseLast(n: nat, base: nat, capital: bool)
    requires 2 <= base <= 36
    ensures n >= base ==> InBase(n, base, capital) == InBase(n / base, base, capital) + [AnyDigit(n % base, capital)]
    ensures n < base ==> InBase(n, base, capital) == [] + [AnyDigit(n, capital)]
  {
  }

  /** A number written in any base, with small letters or capitals, reads back. */
  lemma {:induction false} NumberRoundTrip(n: nat, base: nat, capital: bool)
    requires 2 <= base <= 36
    ensures ReadDigits(InBase(n, base, capital), base, 0) == n
    ensures InBase(n, base, capital) != "" && InDigits(InBase(n, base, capital), base)
    decreases n
  {
    InBaseLast(n, base, capital);
    if n < base {
      OneDigitMore([], n, base, capital);
    } else {
      Quotient(n, base);
      NumberRoundTrip(n / base, base, capital);
      OneDigitMore(InBase(n / base, base, capital), n % base, base, capital);
    }
  }

  /** The base is taken from the prefix: 0x or 0X for hexadecimal, 0 for octal. */
  lemma PrefixTellsBase(n: nat, capital: bool)
    ensures ReadAnyBase("0x" + InBase(n, 16, capital)) == n && ReadAnyBase("0X" + InBase(n, 16, capital)) == n
    ensures ReadAnyBase("0" + InBase(n, 8, capital)) == n
  {
    var h, o := InBase(n, 16, capital), InBase(n, 8, capital);
    NumberRoundTrip(n, 16, capital);
    NumberRoundTrip(n, 8, capital);
    assert ("0x" + h)[2..] == h && ("0X" + h)[2..] == h;
    assert o[0] in o && DigitValue(o[0]) < 8;
    assert ("0" + o)[1] == o[0] && ("0" + o)[1..] == o;
  }

  // ----- the three parsers -----

  /** What fits into a buffer of `maxlen` characters beside the closing zero. */
  function Truncate(s: string, maxlen: nat): (r: string)
    requires maxlen > 0
    ensures r <= s && |r| < maxlen && (|r| < maxlen - 1 ==> r == s)
  {
    if |s| >= maxlen then s[..maxlen - 1] else s
  }

  function TransportOf(url: string): Option<string> {
    var sep := Find(url, SEPARATOR);
    if sep.None? then None else Some(url[..sep.value])
  }

  /** Everything between the separator and the next slash; an empty address is an error. */
  function AddressOf(url: string): Option<string> {
    var sep := Find(url, SEPARATOR);
    if sep.None? then None
    else
      var rest := url[sep.value + 3..];
      var slash := Find(rest, "/");
      var address := if slash.None? then rest else rest[..slash.value];
      if address == "" then None else Some(address)
  }

  /** Everything behind the question mark; no question mark means no parameters. */
  function ParamsOf(url: string): Option<string> {
    var sep := Find(url, SEPARATOR);
    if sep.None? then None
    else
      var rest := url[sep.value + 3..];
      var mark := Find(rest, "?");
      Some(if mark.None? then "" else rest[mark.value + 1..])
  }

  // ----- printing and connecting -----

  const GNI := "gni"
  const SEPARATOR := "://"
  const PTAG := "ptag="
  const COOKIE := "cookie="

  function PrintParams(ptag: nat, cookie: nat): string {
    PTAG + Decimal(ptag) + ("&" + (COOKIE + Decimal(cookie)))
  }

  function Assemble(transport: string, address: string, params: string): string {
    transport + SEPARATOR + (address + ("/" + ("?" + params)))
  }

  function PrintUrl(p: Peer): string {
    Assemble(GNI, p.host + ":" + Decimal(p.port), PrintParams(p.ptag, p.cookie))
  }

  /** The address part: host up to the colon, port behind it. */
  function HostPort(address: string): Option<(string, nat)> {
    var colon := Find(address, ":");
    if colon.None? then None else Some((address[..colon.value], ReadAnyBase(address[colon.value + 1..])))
  }

  /** The number behind the first occurrence of `key`. */
  function Field(params: string, key: string): Option<nat> {
    var at := Find(params, key);
    if at.None? then None else Some(ReadDigits(params[at.value + |key|..], 10, 0))
  }

  /** The tag has to be followed by an ampersand, up to which it is read. */
  function Ptag(params: string): Option<nat> {
    var at := Find(params, PTAG);
    if at.None? then None
    else
      var amp := Find(params[at.value..], "&");
      if amp.None? then None else Field(params[at.value..at.value + amp.value], PTAG)
  }

  function Cookie(params: string): Option<nat> {
    Field(params, COOKIE)
  }

  /** What connecting reads out of a URL; none where it reports an error or finds a part missing. */
  function Connect(url: string): Option<Peer> {
    var transport, address, params := TransportOf(url), AddressOf(url), ParamsOf(url);
    if transport.None? || address.None? || params.None? || Truncate(transport.value, URL_LEN) != GNI then None
    else
      var hp := HostPort(Truncate(address.value, URL_LEN));
      var ptag, cookie := Ptag(Truncate(params.value, URL_LEN)), Cookie(Truncate(params.value, URL_LEN));
      if hp.None? || ptag.None? || cookie.None? then None
      else Some(Peer(hp.value.0, hp.value.1, ptag.value, cookie.value))
  }

  /** A peer as the transport knows it: the host name fits its buffer and holds no separator. */
  predicate Printable(p: Peer) {
    && |p.host| < HOSTNAME_LEN && ':' !in p.host && '/' !in p.host && '?' !in p.host
    && p.port < 0x1_0000 && p.ptag < MAX_U32 && p.cookie < MAX_U32
  }

  lemma FieldRoundTrip(front: string, key: string, n: nat)
    requires key != "" && key[0] !in front
    ensures Field(front + key + Decimal(n), key) == Some(n)
  {
    FindBehind(front, key, Decimal(n));
    assert (front + key + Decimal(n))[|front| + |key|..] == Decimal(n);
    ReadDecimal(n);
  }

  lemma KeyCharacters()
    ensures '&' !in PTAG && 'c' !in PTAG && PTAG[0] == 'p' && COOKIE[0] == 'c'
  {
  }

  lemma PtagRoundTrip(digits: string, n: nat, rest: string)
    requires digits == Decimal(n)
    ensures Ptag(PTAG + digits + ("&" + rest)) == Some(n)
  {
    var tag := PTAG + digits;
    var s := tag + ("&" + rest);
    KeyCharacters();
    DecimalDigits(n);
    assert s == "" + PTAG + (digits + ("&" + rest));
    FindBehind("", PTAG, digits + ("&" + rest));
    assert s[0..] == s && s == tag + "&" + rest;
    assert '&' !in tag;
    FindBehind(tag, "&", rest);
    assert s[0..|tag|] == tag && tag == "" + PTAG + digits;
    FieldRoundTrip("", PTAG, n);
  }

  lemma CookieRoundTrip(digits: string, n: nat, front: string)
    requires digits == Decimal(n) && 'c' !in front
    ensures Cookie(front + COOKIE + digits) == Some(n)
  {
    KeyCharacters();
    FieldRoundTrip(front, COOKIE, n);
  }

  lemma Regroup(a: string, b: string, c: string, d: string)
    ensures a + (b + (c + d)) == (a + b) + c + d
  {
  }

  lemma TagHasNoC(n: nat)
    ensures 'c' !in PTAG + Decimal(n) + "&"
  {
    DecimalDigits(n);
    KeyCharacters();
  }

  lemma ParamsRoundTrip(ptag: nat, cookie: nat)
    ensures Ptag(PrintParams(ptag, cookie)) == Some(ptag) && Cookie(PrintParams(ptag, cookie)) == Some(cookie)
  {
    var tag, digits := Decimal(ptag), Decimal(cookie);
    PtagRoundTrip(tag, ptag, COOKIE + digits);
    TagHasNoC(ptag);
    CookieRoundTrip(digits, cookie, PTAG + tag + "&");
    Regroup(PTAG + tag, "&", COOKIE, digits);
  }

  lemma AddressAndParams(address: string, params: string)
    requires address != "" && '/' !in address && '?' !in address
    ensures var rest := address + ("/" + ("?" + params));
      && Find(rest, "/") == Some(|address|) && rest[..|address|] == address
      && Find(rest, "?") == Some(|address| + 1) && rest[|address| + 2..] == params
  {
    var rest := address + ("/" + ("?" + params));
    assert rest == address + "/" + ("?" + params);
    FindBehind(address, "/", "?" + params);
    assert rest == (address + "/") + "?" + params;
    FindBehind(address + "/", "?", params);
  }

  lemma SplitAtSeparator(transport: string, rest: string)
    requires ':' !in transport
    ensures var url := transport + SEPARATOR + rest;
      Find(url, SEPARATOR) == Some(|transport|) && url[..|transport|] == transport && url[|transport| + 3..] == rest
  {
    assert |SEPARATOR| == 3 && SEPARATOR[0] == ':';
    FindBehind(transport, SEPARATOR, rest);
  }

  lemma PartsFrom(url: string, transport: string, rest: string, address: string, params: string)
    requires Find(url, SEPARATOR) == Some(|transport|) && |transport| + 3 <= |url|
    requires url[..|transport|] == transport && url[|transport| + 3..] == rest
    requires Find(rest, "/") == Some(|address|) && rest[..|address|] == address && address != ""
    requires Find(rest, "?") == Some(|address| + 1) && rest[|address| + 2..] == params
    ensures TransportOf(url) == Some(transport) && AddressOf(url) == Some(address) && ParamsOf(url) == Some(params)
  {
  }

  /** Whatever the parts are, as long as they hold no separator of their own, the three parsers take an
      assembled URL apart again. */
  lemma PartsRoundTrip(transport: string, address: string, params: string)
    requires ':' !in transport && address != "" && '/' !in address && '?' !in address
    ensures var url := Assemble(transport, address, params);
      TransportOf(url) == Some(transport) && AddressOf(url) == Some(address) && ParamsOf(url) == Some(params)
  {
    var rest := address + ("/" + ("?" + params));
    SplitAtSeparator(transport, rest);
    AddressAndParams(address, params);
    PartsFrom(transport + SEPARATOR + rest, transport, rest, address, params);
  }

  lemma HostPortRoundTrip(host: string, port: nat)
    requires ':' !in host
    ensures HostPort(host + ":" + Decimal(port)) == Some((host, port))
  {
    var s := host + ":" + Decimal(port);
    FindBehind(host, ":", Decimal(port));
    assert s[..|host|] == host && s[|host| + 1..] == Decimal(port);
    AnyBaseRoundTrip(port);
  }

  lemma AddressHasNoSeparator(host: string, port: nat)
    requires '/' !in host && '?' !in host
    ensures '/' !in host + ":" + Decimal(port) && '?' !in host + ":" + Decimal(port)
  {
    DecimalDigits(port);
  }

  lemma NumberLengths(p: Peer)
    requires Printable(p)
    ensures |Decimal(p.port)| <= 5 && |Decimal(p.ptag)| <= 10 && |Decimal(p.cookie)| <= 10
  {
    assert Power10(5) == 100000;
    assert Power10(10) == 100000 * 100000;
    DecimalLength(p.port, 5, Power10(5));
    DecimalLength(p.ptag, 10, Power10(10));
    DecimalLength(p.cookie, 10, Power10(10));
  }

  lemma UrlFits(p: Peer)
    requires Printable(p)
    ensures |PrintUrl(p)| < URL_LEN
    ensures |p.host + ":" + Decimal(p.port)| < URL_LEN && |PrintParams(p.ptag, p.cookie)| < URL_LEN
  {
    NumberLengths(p);
    assert |PTAG| == 5 && |COOKIE| == 7 && |GNI| == 3 && |SEPARATOR| == 3;
  }

  lemma ConnectFromParts(url: string, address: string, params: string, p: Peer)
    requires TransportOf(url) == Some(GNI) && AddressOf(url) == Some(address) && ParamsOf(url) == Some(params)
    requires |address| < URL_LEN && |params| < URL_LEN
    requires HostPort(address) == Some((p.host, p.port))
    requires Ptag(params) == Some(p.ptag) && Cookie(params) == Some(p.cookie)
    ensures Connect(url) == Some(p)
  {
  }

  /** The URL of every peer fits its buffer, and connecting to it recovers the peer. */
  lemma UrlRoundTrip(p: Peer)
    requires Printable(p)
    ensures |PrintUrl(p)| < URL_LEN
    ensures Connect(PrintUrl(p)) == Some(p)
  {
    var address, params := p.host + ":" + Decimal(p.port), PrintParams(p.ptag, p.cookie);
    UrlFits(p);
    AddressHasNoSeparator(p.host, p.port);
    PartsRoundTrip(GNI, address, params);
    HostPortRoundTrip(p.host, p.port);
    ParamsRoundTrip(p.ptag, p.cookie);
    ConnectFromParts(PrintUrl(p), address, params, p);
  }

  /** Different peers have different URLs, which is what makes the URL a key to find a peer by. */
  lemma UrlsIdentifyPeers(p: Peer, q: Peer)
    requires Printable(p) && Printable(q) && PrintUrl(p) == PrintUrl(q)
    ensures p == q
  {
    UrlRoundTrip(p);
    UrlRoundTrip(q);
  }

  // ----- URLs that are not complete, or not of this transport -----

  lemma {:induction false} FindAbsent(s: string, pat: string)
    requires pat != "" && pat[0] !in s
    ensures Find(s, pat) == None
  {
    if s != "" {
      assert s[0] in s && forall c | c in s[1..] :: c in s;
      FindAbsent(s[1..], pat);
    }
  }

  /** Text without a separator is no URL at all. */
  lemma NoSeparatorNoUrl(url: string)
    requires ':' !in url
    ensures TransportOf(url) == None && AddressOf(url) == None && ParamsOf(url) == None && Connect(url) == None
  {
    FindAbsent(url, SEPARATOR);
  }

  /** The address goes up to the first slash or, if there is none, to the end, and may not be empty. */
  lemma AddressEndsAtSlash(transport: string, address: string, more: string)
    requires ':' !in transport && '/' !in address && (more == "" || more[0] == '/')
    ensures AddressOf(transport + SEPARATOR + (address + more)) == if address == "" then None else Some(address)
  {
    SplitAtSeparator(transport, address + more);
    if more == "" {
      assert address + more == address;
      FindAbsent(address, "/");
    } else {
      assert address + more == address + "/" + more[1..];
      FindBehind(address, "/", more[1..]);
    }
  }

  /** The parameters are what follows the first question mark; without one there are none, which is no error. */
  lemma ParamsFollowMark(transport: string, front: string, more: string)
    requires ':' !in transport && '?' !in front && (more == "" || more[0] == '?')
    ensures ParamsOf(transport + SEPARATOR + (front + more)) == Some(if more == "" then "" else more[1..])
  {
    SplitAtSeparator(transport, front + more);
    if more == "" {
      assert front + more == front;
      FindAbsent(front, "?");
    } else {
      assert front + more == front + "?" + more[1..];
      FindBehind(front, "?", more[1..]);
    }
  }

  /** An address needs a colon before its port, and parameters need a tag, closed by an ampersand, and a cookie; no
      number stands for one that is missing. */
  lemma MissingPartsAreNone(s: string)
    ensures ':' !in s ==> HostPort(s) == None
    ensures 'p' !in s || '&' !in s ==> Ptag(s) == None
    ensures 'c' !in s ==> Cookie(s) == None
  {
    if ':' !in s {
      FindAbsent(s, ":");
    }
    if 'p' !in s {
      FindAbsent(s, PTAG);
    } else if '&' !in s {
      var at := Find(s, PTAG);
      if at.Some? {
        assert forall c | c in s[at.value..] :: c in s;
        FindAbsent(s[at.value..], "&");
      }
    }
    if 'c' !in s {
      FindAbsent(s, COOKIE);
    }
  }

  /** Connecting to a URL of another transport is refused, whatever follows. */
  lemma OtherTransportsAreRefused(transport: string, rest: string)
    requires ':' !in transport && transport != GNI
    ensures TransportOf(transport + SEPARATOR + rest) == Some(transport)
    ensures Connect(transport + SEPARATOR + rest) == None
  {
    SplitAtSeparator(transport, rest);
    assert |Truncate(transport, URL_LEN)| == 3 ==> Truncate(transport, URL_LEN) == transport;
  }

  // ----- the parsers over character buffers -----

  /** The string in a buffer is what stands before its first zero. */
  function CString(buf: seq<char>): string {
    if buf == [] || buf[0] == '\0' then "" else [buf[0]] + CString(buf[1..])
  }

  lemma {:induction false} CStringOf(s: string, rest: seq<char>)
    requires '\0' !in s
    ensures CString(s + ['\0'] + rest) == s
  {
    var buf := s + ['\0'] + rest;
    if s != "" {
      assert buf[1..] == s[1..] + ['\0'] + rest;
      CStringOf(s[1..], rest);
    }
  }

  function Shifted(r: Option<nat>, n: nat): Option<nat> {
    if r.None? then None else Some(r.value + n)
  }

  lemma FindStep(s: string, pat: string, i: nat)
    requires i < |s| && !StartsWith(s[i..], pat)
    ensures Shifted(Find(s[i..], pat), i) == Shifted(Find(s[i + 1..], pat), i + 1)
  {
    assert s[i..][1..] == s[i + 1..];
  }

  /** The library search for a substring. */
  method StrStr(s: string, pat: string) returns (r: Option<nat>)
    ensures r == Find(s, pat)
  {
    var i := 0;
    assert s[0..] == s;
    while i < |s|
      invariant i <= |s| && Find(s, pat) == Shifted(Find(s[i..], pat), i)
    {
      if StartsWith(s[i..], pat) {
        return Some(i);
      }
      FindStep(s, pat, i);
      i := i + 1;
    }
    r := if pat == "" then Some(|s|) else None;
  }

  /** Copies as much of `s` as fits and closes it with a zero. */
  method CopyOut(s: string, outstr: array<char>, maxlen: nat)
    requires '\0' !in s && 0 < maxlen <= outstr.Length
    modifies outstr
    ensures CString(outstr[..]) == Truncate(s, maxlen)
    ensures forall k | maxlen <= k < outstr.Length :: outstr[k] == old(outstr[k])
  {
    var n := if |s| >= maxlen then maxlen - 1 else |s|;
    forall k | 0 <= k < n {
      outstr[k] := s[k];
    }
    outstr[n] := '\0';
    assert outstr[..] == s[..n] + ['\0'] + outstr[n + 1..];
    CStringOf(s[..n], outstr[n + 1..]);
  }

  method GetTransport(url: string, outstr: array<char>, maxlen: nat) returns (ok: bool)
    requires '\0' !in url && 0 < maxlen <= outstr.Length
    modifies outstr
    ensures ok <==> TransportOf(url).Some?
    ensures ok ==> CString(outstr[..]) == Truncate(TransportOf(url).value, maxlen)
    ensures !ok ==> outstr[..] == old(outstr[..])
  {
    var sep := StrStr(url, SEPARATOR);
    if sep.None? {
      return false;
    }
    CopyOut(url[..sep.value], outstr, maxlen);
    ok := true;
  }

  method GetAddress(url: string, outstr: array<char>, maxlen: nat) returns (ok: bool)
    requires '\0' !in url && 0 < maxlen <= outstr.Length
    modifies outstr
    ensures ok <==> AddressOf(url).Some?
    ensures ok ==> CString(outstr[..]) == Truncate(AddressOf(url).value, maxlen)
    ensures !ok ==> outstr[..] == old(outstr[..])
  {
    var sep := StrStr(url, SEPARATOR);
    if sep.None? {
      return false;
    }
    var address := url[sep.value + 3..];
    var slash := StrStr(address, "/");
    if slash.Some? {
      address := address[..slash.value];
    }
    if |address| == 0 {
      return false;
    }
    assert AddressOf(url) == Some(address);
    CopyOut(address, outstr, maxlen);
    ok := true;
  }

  method GetParams(url: string, outstr: array<char>, maxlen: nat) returns (ok: bool)
    requires '\0' !in url && 0 < maxlen <= outstr.Length
    modifies outstr
    ensures ok <==> ParamsOf(url).Some?
    ensures ok ==> CString(outstr[..]) == Truncate(ParamsOf(url).value, maxlen)
    ensures !ok ==> outstr[..] == old(outstr[..])
  {
    var sep := StrStr(url, SEPARATOR);
    if sep.None? {
      return false;
    }
    var address := url[sep.value + 3..];
    var mark := StrStr(address, "?");
    if mark.None? {
      outstr[0] := '\0';
      return true;
    }
    var params := address[mark.value + 1..];
    CopyOut(params, outstr, maxlen);
    ok := true;
  }
}
