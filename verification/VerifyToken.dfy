/**
  Share verification tokens: base64url of  expiry|share token|signature,
  encoded without padding (RFC 4648, section 5).  The MAC is any function of key and payload.
 */
module VerifyToken {
  import opened Base
  import opened Decimal

  // -------------------------------------------------------------- unpadded base64url

  function Symbol(v: int): char
    requires 0 <= v < 64
  {
    if v < 26 then 'A' + v as char
    else if v < 52 then 'a' + (v - 26) as char
    else if v < 62 then '0' + (v - 52) as char
    else if v == 62 then '-' else '_'
  }

  function Value(c: char): Option<int> {
    if 'A' <= c <= 'Z' then Some((c - 'A') as int)
    else if 'a' <= c <= 'z' then Some((c - 'a') as int + 26)
    else if '0' <= c <= '9' then Some((c - '0') as int + 52)
    else if c == '-' then Some(62)
    else if c == '_' then Some(63)
    else None
  }

  lemma SymbolRoundTrip(v: int)
    requires 0 <= v < 64
    ensures Value(Symbol(v)) == Some(v)
    ensures Symbol(v) != '\n' && Symbol(v) != '\r'
  {
  }

  /** Text of single-byte characters. */
  predicate Bytes(s: string) {
    forall i :: 0 <= i < |s| ==> s[i] as int < 256
  }

  function One(n: char): string
    requires n as int < 256
  {
    [Symbol(n as int / 4), Symbol(n as int % 4 * 16)]
  }

  function Two(m: char, n: char): string
    requires m as int < 256 && n as int < 256
  {
    [Symbol(m as int / 4), Symbol(m as int % 4 * 16 + n as int / 16), Symbol(n as int % 16 * 4)]
  }

  function Three(l: char, m: char, n: char): string
    requires l as int < 256 && m as int < 256 && n as int < 256
  {
    [Symbol(l as int / 4), Symbol(l as int % 4 * 16 + m as int / 16),
     Symbol(m as int % 16 * 4 + n as int / 64), Symbol(n as int % 64)]
  }

  /** RawURLEncoding.EncodeToString */
  function Encode(s: string): string
    requires Bytes(s)
  {
    if s == "" then ""
    else if |s| == 1 then One(s[0])
    else if |s| == 2 then Two(s[0], s[1])
    else Three(s[0], s[1], s[2]) + Encode(s[3..])
  }

  /** The decoder skips line breaks anywhere. */
  function StripBreaks(s: string): string {
    if s == "" then ""
    else if s[0] == '\n' || s[0] == '\r' then StripBreaks(s[1..])
    else [s[0]] + StripBreaks(s[1..])
  }

  /** Groups of four symbols; a last group of two or three gives one or two bytes; leftover bits are ignored. */
  function DecodeGroups(s: string): Option<string> {
    if s == "" then Some("")
    else if |s| == 1 then None
    else
      var a, b := Value(s[0]), Value(s[1]);
      if a.None? || b.None? then None
      else if |s| == 2 then Some([Byte(a.value * 4 + b.value / 16)])
      else
        var c := Value(s[2]);
        if c.None? then None
        else if |s| == 3 then Some([Byte(a.value * 4 + b.value / 16), Byte(b.value % 16 * 16 + c.value / 4)])
        else
          var d, rest := Value(s[3]), DecodeGroups(s[4..]);
          if d.None? || rest.None? then None
          else Some([Byte(a.value * 4 + b.value / 16), Byte(b.value % 16 * 16 + c.value / 4),
                     Byte(c.value % 4 * 64 + d.value)] + rest.value)
  }

  function Byte(n: int): char
    requires 0 <= n < 256
  {
    n as char
  }

  function Decode(s: string): Option<string> {
    DecodeGroups(StripBreaks(s))
  }

  predicate BreakFree(s: string) {
    forall i :: 0 <= i < |s| ==> s[i] != '\n' && s[i] != '\r'
  }

  lemma {:induction false} StripKeeps(s: string)
    requires BreakFree(s)
    ensures StripBreaks(s) == s
  {
    if s != "" {
      StripKeeps(s[1..]);
    }
  }

  lemma {:induction false} StripPrefix(a: string, b: string)
    requires BreakFree(a)
    ensures StripBreaks(a + b) == a + StripBreaks(b)
  {
    if a == "" {
      assert a + b == b;
    } else {
      StripPrefix(a[1..], b);
      assert (a + b)[1..] == a[1..] + b;
    }
  }

  lemma SymbolsBreakFree(l: char, m: char, n: char)
    requires l as int < 256 && m as int < 256 && n as int < 256
    ensures BreakFree(One(n)) && BreakFree(Two(m, n)) && BreakFree(Three(l, m, n))
  {
    forall v | 0 <= v < 64 ensures Symbol(v) != '\n' && Symbol(v) != '\r' {
      SymbolRoundTrip(v);
    }
  }

  lemma {:induction false} NoBreaksInside(s: string)
    requires Bytes(s)
    ensures StripBreaks(Encode(s)) == Encode(s)
  {
    if |s| == 1 {
      SymbolsBreakFree(s[0], s[0], s[0]);
      StripKeeps(One(s[0]));
    } else if |s| == 2 {
      SymbolsBreakFree(s[0], s[0], s[1]);
      SymbolsBreakFree(s[1], s[0], s[1]);
      StripKeeps(Two(s[0], s[1]));
    } else if |s| >= 3 {
      NoBreaksInside(s[3..]);
      SymbolsBreakFree(s[0], s[1], s[2]);
      StripPrefix(Three(s[0], s[1], s[2]), Encode(s[3..]));
    }
  }

  lemma Recombine(l: int, m: int, n: int)
    requires 0 <= l < 256 && 0 <= m < 256 && 0 <= n < 256
    ensures l / 4 * 4 + (l % 4 * 16 + m / 16) / 16 == l
    ensures (l % 4 * 16 + m / 16) % 16 * 16 + (m % 16 * 4 + n / 64) / 4 == m
    ensures (m % 16 * 4 + n / 64) % 4 * 64 + n % 64 == n
  {
  }

  /** Four symbols made from three bytes decode to those bytes, whatever follows. */
  lemma ThreeDecode(l: char, m: char, n: char, rest: string, tail: string)
    requires l as int < 256 && m as int < 256 && n as int < 256 && DecodeGroups(rest) == Some(tail)
    ensures DecodeGroups(Three(l, m, n) + rest) == Some([l, m, n] + tail)
  {
    var s := Three(l, m, n) + rest;
    SymbolRoundTrip(l as int / 4);
    SymbolRoundTrip(l as int % 4 * 16 + m as int / 16);
    SymbolRoundTrip(m as int % 16 * 4 + n as int / 64);
    SymbolRoundTrip(n as int % 64);
    Recombine(l as int, m as int, n as int);
    assert s[4..] == rest;
  }

  lemma OneDecodes(n: char)
    requires n as int < 256
    ensures DecodeGroups(One(n)) == Some([n])
  {
  }

  lemma TwoDecode(m: char, n: char)
    requires m as int < 256 && n as int < 256
    ensures DecodeGroups(Two(m, n)) == Some([m, n])
  {
    SymbolRoundTrip(m as int / 4);
    SymbolRoundTrip(m as int % 4 * 16 + n as int / 16);
    SymbolRoundTrip(n as int % 16 * 4);
    Recombine(m as int, n as int, 0);
  }

  lemma ShortRoundTrip(s: string)
    requires Bytes(s) && |s| <= 2
    ensures DecodeGroups(Encode(s)) == Some(s)
  {
    if |s| == 1 {
      OneDecodes(s[0]);
      assert s == [s[0]];
    } else if |s| == 2 {
      TwoDecode(s[0], s[1]);
      assert s == [s[0], s[1]];
    }
  }

  /** Decoding undoes encoding. */
  lemma {:induction false} Base64RoundTrip(s: string)
    requires Bytes(s)
    ensures DecodeGroups(Encode(s)) == Some(s)
  {
    if |s| <= 2 {
      ShortRoundTrip(s);
    } else {
      var rest, code := s[3..], Encode(s[3..]);
      Base64RoundTrip(rest);
      ThreeDecode(s[0], s[1], s[2], code, rest);
      assert s == [s[0], s[1], s[2]] + rest;
      assert Encode(s) == Three(s[0], s[1], s[2]) + code;
    }
  }

  /** The examples of section 10 of RFC 4648, and one with the two symbols of base64url. */
  lemma TestVectors()
    ensures Encode("f") == "Zg" && Encode("fo") == "Zm8" && Encode("foo") == "Zm9v" && Encode("foobar") == "Zm9vYmFy"
    ensures Encode([Byte(0xfb), Byte(0xff)]) == "-_8"
  {
    assert "foobar"[3..] == "bar" && "foo"[3..] == "" && "bar"[3..] == "";
    assert Encode("bar") == "YmFy";
  }

  predicate AllSymbols(s: string) {
    forall i :: 0 <= i < |s| ==> Value(s[i]).Some?
  }

  lemma {:induction false} GroupsDecodeIff(s: string)
    ensures DecodeGroups(s).Some? <==> AllSymbols(s) && |s| % 4 != 1
    decreases |s|
  {
    if |s| >= 4 {
      GroupsDecodeIff(s[4..]);
      assert AllSymbols(s) <==> AllSymbols(s[..4]) && AllSymbols(s[4..]) by {
        assert s == s[..4] + s[4..];
      }
      assert AllSymbols(s[..4]) <==> Value(s[0]).Some? && Value(s[1]).Some? && Value(s[2]).Some? && Value(s[3]).Some?;
    }
  }

  /** A text decodes exactly when, line breaks aside, it holds symbols alone and no lone last one. */
  lemma DecodesIff(text: string)
    ensures Decode(text).Some? <==> AllSymbols(StripBreaks(text)) && |StripBreaks(text)| % 4 != 1
  {
    GroupsDecodeIff(StripBreaks(text));
  }

  // -------------------------------------------------------------- splitting at bars

  /** The part before the first bar and the part after it. */
  function Cut(s: string): Option<(string, string)> {
    if s == "" then None
    else if s[0] == '|' then Some(("", s[1..]))
    else
      var r := Cut(s[1..]);
      if r.None? then None else Some(([s[0]] + r.value.0, r.value.1))
  }

  /** strings.SplitN(s, "|", 3), when it yields three parts. */
  function SplitInThree(s: string): Option<(string, string, string)> {
    var first := Cut(s);
    if first.None? then None
    else
      var second := Cut(first.value.1);
      if second.None? then None else Some((first.value.0, second.value.0, second.value.1))
  }

  lemma {:induction false} CutAtBar(a: string, b: string)
    requires '|' !in a
    ensures Cut(a + "|" + b) == Some((a, b))
  {
    if a == "" {
      assert a + "|" + b == "|" + b;
    } else {
      CutAtBar(a[1..], b);
      assert a[0] in a && a == [a[0]] + a[1..];
      assert (a + "|" + b)[0] == a[0] && (a + "|" + b)[1..] == a[1..] + "|" + b;
    }
  }

  /** What stands before the first bar contains none. */
  lemma {:induction false} CutPrefix(s: string)
    ensures Cut(s).Some? ==> '|' !in Cut(s).value.0
  {
    if s != "" {
      CutPrefix(s[1..]);
    }
  }

  /** Cutting loses nothing but the bar. */
  lemma {:induction false} CutJoins(s: string)
    ensures Cut(s).Some? ==> s == Cut(s).value.0 + "|" + Cut(s).value.1
  {
    if s != "" {
      CutJoins(s[1..]);
      assert s == [s[0]] + s[1..];
    }
  }

  /** A text splits in three exactly as a bar-free part, a bar-free part and the rest. */
  lemma SplitsIff(s: string, a: string, b: string, c: string)
    ensures SplitInThree(s) == Some((a, b, c)) <==> '|' !in a && '|' !in b && s == a + "|" + b + "|" + c
  {
    if SplitInThree(s) == Some((a, b, c)) {
      CutJoins(s);
      CutPrefix(s);
      CutJoins(Cut(s).value.1);
      CutPrefix(Cut(s).value.1);
      assert s == a + "|" + (b + "|" + c) == a + "|" + b + "|" + c;
    }
    if '|' !in a && '|' !in b {
      SplitSigned(a, b, c);
    }
  }

  // -------------------------------------------------------------- tokens

  const TTL: int := 5 * 60

  function Payload(expiry: int, shareToken: string): string {
    Print(expiry) + "|" + shareToken
  }

  function SignVerifyToken(mac: string -> string, shareToken: string, now: int): string
    requires Bytes(Print(now + TTL) + "|" + shareToken + "|" + mac(Payload(now + TTL, shareToken)))
  {
    Encode(Print(now + TTL) + "|" + shareToken + "|" + mac(Payload(now + TTL, shareToken)))
  }

  /** True when the token is accepted at instant now. */
  predicate ValidateVerifyToken(mac: string -> string, shareToken: string, verifyToken: string, now: int) {
    var data := Decode(verifyToken);
    data.Some? &&
    var parts := SplitInThree(data.value);
    parts.Some? &&
    var expiry := ParseInt64(parts.value.0);
    && expiry.Some? && now <= expiry.value && parts.value.1 == shareToken
    && parts.value.2 == mac(parts.value.0 + "|" + parts.value.1)
  }

  lemma ExpiryHasNoBar(n: int)
    ensures '|' !in Print(n)
  {
  }

  lemma DecodeEncoded(text: string)
    requires Bytes(text)
    ensures Decode(Encode(text)) == Some(text)
  {
    NoBreaksInside(text);
    Base64RoundTrip(text);
  }

  lemma SplitSigned(expiry: string, token: string, sig: string)
    requires '|' !in expiry && '|' !in token
    ensures SplitInThree(expiry + "|" + token + "|" + sig) == Some((expiry, token, sig))
  {
    assert expiry + "|" + token + "|" + sig == expiry + "|" + (token + "|" + sig);
    CutAtBar(expiry, token + "|" + sig);
    CutAtBar(token, sig);
  }

  /**
    A signed token is accepted for its own share token exactly until its expiry second, when the
    share token is free of bars, and for no other share token at any time.
   */
  lemma VerifyTokenRoundTrip(mac: string -> string, signedFor: string, signedAt: int, presentedFor: string, now: int)
    requires MIN_INT64 <= signedAt + TTL <= MAX_INT64
    requires Bytes(Print(signedAt + TTL) + "|" + signedFor + "|" + mac(Payload(signedAt + TTL, signedFor)))
    requires '|' !in signedFor
    ensures ValidateVerifyToken(mac, presentedFor, SignVerifyToken(mac, signedFor, signedAt), now) <==>
            presentedFor == signedFor && now <= signedAt + 300
  {
    var expiry := Print(signedAt + TTL);
    var sig := mac(expiry + "|" + signedFor);
    DecodeEncoded(expiry + "|" + signedFor + "|" + sig);
    ExpiryHasNoBar(signedAt + TTL);
    SplitSigned(expiry, signedFor, sig);
    ParsePrinted(signedAt + TTL);
  }

  /** The text decodes to an unexpired expiry, the share token and the signature of the two. */
  ghost predicate CarriesSignature(mac: string -> string, shareToken: string, verifyToken: string, now: int, e: string) {
    && '|' !in e && ParseInt64(e).Some? && now <= ParseInt64(e).value
    && Decode(verifyToken) == Some(e + "|" + shareToken + "|" + mac(e + "|" + shareToken))
  }

  /** Whatever the text, it is accepted exactly when it carries the signature of an unexpired expiry and this share token. */
  lemma AcceptedIff(mac: string -> string, shareToken: string, verifyToken: string, now: int)
    requires '|' !in shareToken
    ensures ValidateVerifyToken(mac, shareToken, verifyToken, now) <==>
            exists e :: CarriesSignature(mac, shareToken, verifyToken, now, e)
  {
    if ValidateVerifyToken(mac, shareToken, verifyToken, now) {
      var text := Decode(verifyToken).value;
      var parts := SplitInThree(text).value;
      SplitsIff(text, parts.0, parts.1, parts.2);
      assert CarriesSignature(mac, shareToken, verifyToken, now, parts.0);
    }
    if e :| CarriesSignature(mac, shareToken, verifyToken, now, e) {
      SplitSigned(e, shareToken, mac(e + "|" + shareToken));
    }
  }

  /** A text that carries any other signature is refused, whatever its expiry. */
  lemma OtherSignatureIsRejected(mac: string -> string, shareToken: string, verifyToken: string, now: int, e: string, sig: string)
    requires '|' !in e && '|' !in shareToken && Decode(verifyToken) == Some(e + "|" + shareToken + "|" + sig)
    requires sig != mac(e + "|" + shareToken)
    ensures !ValidateVerifyToken(mac, shareToken, verifyToken, now)
  {
    SplitSigned(e, shareToken, sig);
  }

  /** A share token with a bar in it could never be verified. */
  lemma BarredTokenIsRejected(mac: string -> string, shareToken: string, verifyToken: string, now: int)
    requires '|' in shareToken
    ensures !ValidateVerifyToken(mac, shareToken, verifyToken, now)
  {
    var data := Decode(verifyToken);
    if data.Some? && Cut(data.value).Some? {
      CutPrefix(Cut(data.value).value.1);
    }
  }
}
