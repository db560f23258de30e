// The signed signaling token: printed by the runtime, read back by the proxy.
module Token {
  import opened Basics

  type byte = b: int | 0 <= b < 256

  const COLON: byte := 58
  const LF: byte := 10
  const CR: byte := 13
  const MIN_INT64: int := -0x8000_0000_0000_0000
  const MAX_INT64: int := 0x7fff_ffff_ffff_ffff
  const LIFETIME_SECONDS: int := 300

  // ----- base64url without padding: section 5 of RFC 4648 -----

  type sextet = v: int | 0 <= v < 64

  function Symbol(v: sextet): byte {
    if v < 26 then 65 + v        // A-Z
    else if v < 52 then 71 + v   // a-z
    else if v < 62 then v - 4    // 0-9
    else if v == 62 then 45      // -
    else 95                      // _
  }

  function SymbolValue(c: byte): Option<sextet> {
    if 65 <= c <= 90 then Some(c - 65)
    else if 97 <= c <= 122 then Some(c - 71)
    else if 48 <= c <= 57 then Some(c + 4)
    else if c == 45 then Some(62)
    else if c == 95 then Some(63)
    else None
  }

  // Three bytes are four sextets: the four pieces, and the three pieces back.
  function First(x: byte): sextet { x / 4 }
  function Second(x: byte, y: byte): sextet { x % 4 * 16 + y / 16 }
  function Third(y: byte, z: byte): sextet { y % 16 * 4 + z / 64 }
  function Fourth(z: byte): sextet { z % 64 }
  function High(a: sextet, b: sextet): byte { a * 4 + b / 16 }
  function Middle(b: sextet, c: sextet): byte { b % 16 * 16 + c / 4 }
  function Low(c: sextet, d: sextet): byte { c % 4 * 64 + d }

  lemma PiecesOfBytes(x: byte, y: byte, z: byte)
    ensures High(First(x), Second(x, y)) == x
    ensures Middle(Second(x, y), Third(y, z)) == y
    ensures Low(Third(y, z), Fourth(z)) == z
  {
  }

  lemma BytesOfPieces(a: sextet, b: sextet, c: sextet, d: sextet)
    ensures First(High(a, b)) == a && Second(High(a, b), Middle(b, c)) == b
    ensures Third(Middle(b, c), Low(c, d)) == c && Fourth(Low(c, d)) == d
    ensures Second(High(a, b), 0) == b - b % 16
    ensures Third(Middle(b, c), 0) == c - c % 4
  {
  }

  function Sextets(bytes: seq<byte>): seq<sextet> {
    if |bytes| == 0 then []
    else if |bytes| == 1 then [First(bytes[0]), Second(bytes[0], 0)]
    else if |bytes| == 2 then [First(bytes[0]), Second(bytes[0], bytes[1]), Third(bytes[1], 0)]
    else
      [First(bytes[0]), Second(bytes[0], bytes[1]), Third(bytes[1], bytes[2]), Fourth(bytes[2])] + Sextets(bytes[3..])
  }

  // A lone trailing symbol holds no byte; spare bits of the last symbol are ignored.
  function Bytes(values: seq<sextet>): Option<seq<byte>> {
    if |values| == 0 then Some([])
    else if |values| == 1 then None
    else if |values| == 2 then Some([High(values[0], values[1])])
    else if |values| == 3 then Some([High(values[0], values[1]), Middle(values[1], values[2])])
    else
      match Bytes(values[4..])
      case None => None
      case Some(rest) =>
        Some([High(values[0], values[1]), Middle(values[1], values[2]), Low(values[2], values[3])] + rest)
  }

  function Symbols(values: seq<sextet>): seq<byte> {
    if values == [] then [] else [Symbol(values[0])] + Symbols(values[1..])
  }

  // Line breaks are skipped wherever they stand; any other foreign byte is refused.
  function Values(text: seq<byte>): Option<seq<sextet>> {
    if text == [] then Some([])
    else
      match Values(text[1..])
      case None => None
      case Some(rest) =>
        if text[0] == LF || text[0] == CR then Some(rest)
        else if SymbolValue(text[0]).None? then None
        else Some([SymbolValue(text[0]).value] + rest)
  }

  function Base64(bytes: seq<byte>): seq<byte> { Symbols(Sextets(bytes)) }

  function FromBase64(text: seq<byte>): Option<seq<byte>> {
    match Values(text)
    case None => None
    case Some(values) => Bytes(values)
  }

  lemma {:induction false} BytesOfSextets(bytes: seq<byte>)
    ensures Bytes(Sextets(bytes)) == Some(bytes)
  {
    hide First, Second, Third, Fourth, High, Middle, Low;
    if |bytes| == 1 {
      PiecesOfBytes(bytes[0], 0, 0);
      assert bytes == [bytes[0]];
    } else if |bytes| == 2 {
      PiecesOfBytes(bytes[0], bytes[1], 0);
      assert bytes == [bytes[0], bytes[1]];
    } else if |bytes| >= 3 {
      BytesOfSextets(bytes[3..]);
      PiecesOfBytes(bytes[0], bytes[1], bytes[2]);
      assert Sextets(bytes)[4..] == Sextets(bytes[3..]);
      assert bytes == [bytes[0], bytes[1], bytes[2]] + bytes[3..];
    }
  }

  lemma SymbolBack(v: sextet)
    ensures SymbolValue(Symbol(v)) == Some(v) && Symbol(v) != LF && Symbol(v) != CR
  {
  }

  lemma {:induction false} ValuesOfSymbols(values: seq<sextet>)
    ensures Values(Symbols(values)) == Some(values)
  {
    if values != [] {
      ValuesOfSymbols(values[1..]);
      assert Symbols(values)[1..] == Symbols(values[1..]);
      SymbolBack(values[0]);
      assert values == [values[0]] + values[1..];
    }
  }

  lemma Base64RoundTrip(bytes: seq<byte>)
    ensures FromBase64(Base64(bytes)) == Some(bytes)
  {
    ValuesOfSymbols(Sextets(bytes));
    BytesOfSextets(bytes);
  }

  // The bits of the last symbol that no byte uses.
  function SpareBits(values: seq<sextet>): int {
    if |values| % 4 == 2 then values[|values| - 1] % 16
    else if |values| % 4 == 3 then values[|values| - 1] % 4
    else 0
  }

  lemma {:induction false} SextetsOfBytes(values: seq<sextet>)
    requires Bytes(values).Some?
    ensures Sextets(Bytes(values).value) == values <==> SpareBits(values) == 0
  {
    hide First, Second, Third, Fourth, High, Middle, Low;
    if |values| == 2 {
      BytesOfPieces(values[0], values[1], 0, 0);
      assert Sextets(Bytes(values).value) == [values[0], values[1] - values[1] % 16];
    } else if |values| == 3 {
      BytesOfPieces(values[0], values[1], values[2], 0);
      assert Sextets(Bytes(values).value) == [values[0], values[1], values[2] - values[2] % 4];
    } else if |values| >= 4 {
      var rest, out := Bytes(values[4..]).value, Bytes(values).value;
      SextetsOfBytes(values[4..]);
      BytesOfPieces(values[0], values[1], values[2], values[3]);
      assert out[3..] == rest;
      assert Sextets(out) == values[..4] + Sextets(rest);
      SpareBitsOfTail(values);
      SameAfterFour(values, Sextets(rest));
    }
  }

  lemma SpareBitsOfTail(values: seq<sextet>)
    requires |values| >= 4
    ensures SpareBits(values[4..]) == SpareBits(values)
  {
    assert |values[4..]| % 4 == |values| % 4;
  }

  lemma SameAfterFour(values: seq<sextet>, out: seq<sextet>)
    requires |values| >= 4
    ensures values[..4] + out == values <==> out == values[4..]
  {
    assert values == values[..4] + values[4..];
    assert (values[..4] + out)[4..] == out;
  }

  ghost predicate OneLine(text: seq<byte>) {
    forall i :: 0 <= i < |text| ==> text[i] != LF && text[i] != CR
  }

  lemma {:induction false} SymbolsOfValues(text: seq<byte>)
    requires Values(text).Some?
    ensures |Values(text).value| <= |text|
    ensures Symbols(Values(text).value) == text <==> OneLine(text)
    ensures |Values(text).value| == |text| ==> OneLine(text)
  {
    if text != [] {
      SymbolsOfValues(text[1..]);
      assert text == [text[0]] + text[1..];
      var values := Values(text).value;
      if text[0] == LF || text[0] == CR {
        SymbolsLength(values);
      } else {
        assert values[1..] == Values(text[1..]).value;
        assert Symbols(values) == [text[0]] + Symbols(values[1..]);
        assert Symbols(values)[1..] == Symbols(values[1..]);
        assert OneLine(text) <==> OneLine(text[1..]) by {
          if OneLine(text) {
            assert forall i :: 0 <= i < |text| - 1 ==> text[1..][i] == text[i + 1];
          }
        }
      }
    }
  }

  lemma {:induction false} SymbolsLength(values: seq<sextet>)
    ensures |Symbols(values)| == |values|
  {
    if values != [] {
      SymbolsLength(values[1..]);
    }
  }

  // What decodes is the printed form of its bytes exactly when it holds no line
  // break and no spare bit is set.
  lemma Base64Canonical(text: seq<byte>)
    requires FromBase64(text).Some?
    ensures Base64(FromBase64(text).value) == text <==> OneLine(text) && SpareBits(Values(text).value) == 0
  {
    var values := Values(text).value;
    SextetsOfBytes(values);
    SymbolsOfValues(text);
    if Base64(FromBase64(text).value) == text {
      ValuesOfSymbols(Sextets(FromBase64(text).value));
    }
  }

  // ----- Lower-case hex -----

  function HexDigit(v: int): byte
    requires 0 <= v < 16
  {
    if v < 10 then 48 + v else 87 + v
  }

  function Hex(bytes: seq<byte>): seq<byte> {
    if bytes == [] then [] else [HexDigit(bytes[0] / 16), HexDigit(bytes[0] % 16)] + Hex(bytes[1..])
  }

  // A reader of lower-case hex, two characters a byte.
  function HexValue(c: byte): Option<int> {
    if '0' as int <= c <= '9' as int then Some(c - '0' as int)
    else if 'a' as int <= c <= 'f' as int then Some(c - 'a' as int + 10)
    else None
  }

  function FromHex(text: seq<byte>): Option<seq<byte>> {
    if text == [] then Some([])
    else if |text| == 1 || HexValue(text[0]).None? || HexValue(text[1]).None? then None
    else
      match FromHex(text[2..])
      case None => None
      case Some(rest) => Some([16 * HexValue(text[0]).value + HexValue(text[1]).value] + rest)
  }

  // Reading undoes writing, and what reads as these bytes is their one printed form.
  lemma {:induction false} HexRoundTrip(bytes: seq<byte>)
    ensures FromHex(Hex(bytes)) == Some(bytes) && |Hex(bytes)| == 2 * |bytes|
    ensures forall i :: 0 <= i < |Hex(bytes)| ==>
              '0' as int <= Hex(bytes)[i] <= '9' as int || 'a' as int <= Hex(bytes)[i] <= 'f' as int
  {
    if bytes != [] {
      HexRoundTrip(bytes[1..]);
      var text := Hex(bytes);
      assert text[2..] == Hex(bytes[1..]);
      assert bytes == [bytes[0]] + bytes[1..];
    }
  }

  lemma {:induction false} HexIsCanonical(text: seq<byte>)
    requires FromHex(text).Some?
    ensures Hex(FromHex(text).value) == text
  {
    if text != [] {
      HexIsCanonical(text[2..]);
      var bytes := FromHex(text).value;
      assert bytes[1..] == FromHex(text[2..]).value;
      assert text == [text[0], text[1]] + text[2..];
    }
  }

  // ----- Decimal -----

  function Digits(n: nat): seq<byte> {
    if n < 10 then [48 + n] else Digits(n / 10) + [48 + n % 10]
  }

  function Decimal(n: int): seq<byte> {
    if n < 0 then [45] + Digits(-n) else Digits(n)
  }

  function Natural(text: seq<byte>): Option<nat> {
    if text == [] then Some(0)
    else if !(48 <= text[|text| - 1] <= 57) then None
    else
      match Natural(text[..|text| - 1])
      case None => None
      case Some(front) => Some(front * 10 + (text[|text| - 1] - 48))
  }

  // A 64-bit decimal with an optional sign.
  function ParseInt(text: seq<byte>): Option<int> {
    var signed := text != [] && (text[0] == 43 || text[0] == 45);
    var body := if signed then text[1..] else text;
    if body == [] then None
    else
      match Natural(body)
      case None => None
      case Some(magnitude) =>
        var n: int := if text[0] == 45 then 0 - magnitude else magnitude;
        if MIN_INT64 <= n <= MAX_INT64 then Some(n) else None
  }

  lemma {:induction false} NaturalOfDigits(n: nat)
    ensures Natural(Digits(n)) == Some(n) && Digits(n) != []
    ensures forall i :: 0 <= i < |Digits(n)| ==> 48 <= Digits(n)[i] <= 57
  {
    if n < 10 {
      assert Natural(Digits(n)[..0]) == Some(0);
    } else {
      NaturalOfDigits(n / 10);
      assert Digits(n)[..|Digits(n)| - 1] == Digits(n / 10);
    }
  }

  lemma DecimalRoundTrip(n: int)
    requires MIN_INT64 <= n <= MAX_INT64
    ensures ParseInt(Decimal(n)) == Some(n) && COLON !in Decimal(n)
  {
    hide Digits;
    hide Natural;
    if n < 0 {
      NaturalOfDigits(-n);
      assert Decimal(n)[1..] == Digits(-n);
    } else {
      NaturalOfDigits(n);
    }
  }

  lemma {:induction false} NoLeadingZero(n: nat)
    ensures Digits(n)[0] == 48 ==> n == 0
  {
    if n >= 10 {
      NoLeadingZero(n / 10);
      assert Digits(n)[0] == Digits(n / 10)[0];
    }
  }

  // A printed number is its sign, if negative, and then digits, the first of them no zero
  // unless the number is.
  lemma DecimalIsPlain(n: int)
    ensures var text, sign := Decimal(n), if n < 0 then 1 else 0;
            && |text| > sign && (n < 0 ==> text[0] == '-' as int)
            && (forall i :: sign <= i < |text| ==> IsDigit(text[i]))
            && (text[sign] == '0' as int ==> n == 0 && |text| == 1)
  {
    var magnitude := if n < 0 then -n else n;
    NaturalOfDigits(magnitude);
    NoLeadingZero(magnitude);
  }

  predicate IsDigit(c: byte) { '0' as int <= c <= '9' as int }

  // The number the digits name, read from the left.
  function ValueOf(body: seq<byte>, soFar: nat): nat
    requires forall i :: 0 <= i < |body| ==> IsDigit(body[i])
  {
    if body == [] then soFar
    else
      assert IsDigit(body[0]);
      ValueOf(body[1..], 10 * soFar + (body[0] - '0' as int))
  }

  lemma {:induction false} LastDigitCounts(body: seq<byte>, soFar: nat)
    requires body != [] && forall i :: 0 <= i < |body| ==> IsDigit(body[i])
    ensures var n := |body| - 1;
            ValueOf(body, soFar) == 10 * ValueOf(body[..n], soFar) + (body[n] - '0' as int)
    decreases |body|
  {
    if |body| == 1 {
      assert body[1..] == [] == body[..0];
    } else {
      var next := 10 * soFar + (body[0] - '0' as int);
      LastDigitCounts(body[1..], next);
      assert body[1..][..|body| - 2] == body[..|body| - 1][1..];
    }
  }

  lemma {:induction false} NaturalExactlyWhen(body: seq<byte>)
    ensures Natural(body).Some? <==> forall i :: 0 <= i < |body| ==> IsDigit(body[i])
    ensures Natural(body).Some? ==> Natural(body) == Some(ValueOf(body, 0))
  {
    if body != [] {
      var front := body[..|body| - 1];
      NaturalExactlyWhen(front);
      assert forall i :: 0 <= i < |front| ==> front[i] == body[i];
      if forall i :: 0 <= i < |body| ==> IsDigit(body[i]) {
        LastDigitCounts(body, 0);
      }
    }
  }

  // What parses: one sign or none, then digits, at least one, that name a 64-bit number.
  lemma ParsesExactlyWhen(text: seq<byte>)
    ensures var sign := if text != [] && (text[0] == '+' as int || text[0] == '-' as int) then 1 else 0;
            var body := text[sign..];
            if body != [] && forall i :: 0 <= i < |body| ==> IsDigit(body[i]) then
              var n: int := if text[0] == '-' as int then 0 - ValueOf(body, 0) else ValueOf(body, 0);
              ParseInt(text) == if -0x8000_0000_0000_0000 <= n <= 0x7fff_ffff_ffff_ffff then Some(n) else None
            else ParseInt(text) == None
  {
    hide Natural, IsDigit, ValueOf;
    var sign := if text != [] && (text[0] == '+' as int || text[0] == '-' as int) then 1 else 0;
    NaturalExactlyWhen(text[sign..]);
  }

  // ----- Splitting at colons -----

  function Split(text: seq<byte>): (parts: seq<seq<byte>>)
    ensures |parts| >= 1
  {
    if text == [] then [[]]
    else
      var rest := Split(text[1..]);
      if text[0] == COLON then [[]] + rest else Attach(text[0], rest)
  }

  function Attach(c: byte, parts: seq<seq<byte>>): (r: seq<seq<byte>>)
    requires |parts| >= 1
    ensures |r| == |parts|
  {
    [[c] + parts[0]] + parts[1..]
  }

  lemma AttachConcat(c: byte, front: seq<seq<byte>>, back: seq<seq<byte>>)
    requires |front| >= 1
    ensures Attach(c, front + back) == Attach(c, front) + back
  {
  }

  lemma {:induction false} SplitAtColon(a: seq<byte>, b: seq<byte>)
    ensures Split(a + [COLON] + b) == Split(a) + Split(b)
  {
    hide Attach;
    var text := a + [COLON] + b;
    if a == [] {
      assert text[1..] == b && text[0] == COLON;
    } else {
      SplitAtColon(a[1..], b);
      assert text[1..] == a[1..] + [COLON] + b && text[0] == a[0];
      if a[0] != COLON {
        AttachConcat(a[0], Split(a[1..]), Split(b));
      } else {
        assert [[]] + (Split(a[1..]) + Split(b)) == ([[]] + Split(a[1..])) + Split(b);
      }
    }
  }

  lemma {:induction false} SplitOne(text: seq<byte>)
    ensures |Split(text)| == 1 <==> COLON !in text
    ensures COLON !in text ==> Split(text) == [text]
  {
    if text != [] {
      SplitOne(text[1..]);
      assert text == [text[0]] + text[1..];
    }
  }

  function Join(parts: seq<seq<byte>>): seq<byte>
    requires |parts| >= 1
  {
    if |parts| == 1 then parts[0] else parts[0] + [COLON] + Join(parts[1..])
  }

  lemma {:induction false} JoinOfSplit(text: seq<byte>)
    ensures Join(Split(text)) == text
    ensures forall i :: 0 <= i < |Split(text)| ==> COLON !in Split(text)[i]
  {
    if text != [] {
      JoinOfSplit(text[1..]);
      var rest, parts := Split(text[1..]), Split(text);
      if text[0] == COLON {
        assert parts[1..] == rest;
      } else {
        assert parts[1..] == rest[1..];
      }
      assert text == [text[0]] + text[1..];
    }
  }

  lemma {:induction false} HexHasNoColon(bytes: seq<byte>)
    ensures COLON !in Hex(bytes)
  {
    if bytes != [] {
      HexHasNoColon(bytes[1..]);
    }
  }

  // ----- The token -----

  function Payload(ip: seq<byte>, port: int, exp: int): seq<byte> {
    ip + [COLON] + Decimal(port) + [COLON] + Decimal(exp)
  }

  // The MAC is HMAC-SHA256 under the shared secret (section 2 of RFC 2104).
  function Sign(mac: seq<byte> -> seq<byte>, ip: seq<byte>, port: int, now: int): seq<byte> {
    var payload := Payload(ip, port, now + LIFETIME_SECONDS);
    Base64(payload + [COLON] + Hex(mac(payload)))
  }

  datatype Outcome =
    | Target(address: seq<byte>)
    | NotBase64
    | WrongParts
    | BadIp
    | BadPort
    | BadExpiry
    | Expired
    | MacMismatch

  function DecodeAndVerify(mac: seq<byte> -> seq<byte>, isIp: seq<byte> -> bool, token: seq<byte>, now: int): Outcome {
    var raw := FromBase64(token);
    if raw.None? then NotBase64
    else
      var parts := Split(raw.value);
      if |parts| != 4 then WrongParts
      else if !isIp(parts[0]) then BadIp
      else if ParseInt(parts[1]).None? || ParseInt(parts[1]).value <= 0 || ParseInt(parts[1]).value > 65535 then BadPort
      else if ParseInt(parts[2]).None? then BadExpiry
      else if now > ParseInt(parts[2]).value then Expired
      else if Hex(mac(Join(parts[..3]))) != parts[3] then MacMismatch
      else Target(parts[0] + [COLON] + parts[1])
  }

  lemma SplitToken(mac: seq<byte> -> seq<byte>, ip: seq<byte>, port: int, exp: int)
    requires MIN_INT64 <= port <= MAX_INT64 && MIN_INT64 <= exp <= MAX_INT64
    ensures var payload := Payload(ip, port, exp);
            Split(payload + [COLON] + Hex(mac(payload))) == Split(ip) + [Decimal(port), Decimal(exp), Hex(mac(payload))]
  {
    var payload := Payload(ip, port, exp);
    SplitAtColon(payload, Hex(mac(payload)));
    SplitAtColon(ip + [COLON] + Decimal(port), Decimal(exp));
    SplitAtColon(ip, Decimal(port));
    DecimalRoundTrip(port);
    DecimalRoundTrip(exp);
    HexHasNoColon(mac(payload));
    SplitOne(Decimal(port));
    SplitOne(Decimal(exp));
    SplitOne(Hex(mac(payload)));
  }

  lemma JoinThree(a: seq<byte>, b: seq<byte>, c: seq<byte>)
    ensures Join([a, b, c]) == a + [COLON] + b + [COLON] + c
  {
    assert [a, b, c][1..] == [b, c] && [b, c][1..] == [c];
    assert Join([b, c]) == b + [COLON] + Join([c]) && Join([c]) == c;
    assert Join([a, b, c]) == a + [COLON] + Join([b, c]);
    assert a + [COLON] + (b + [COLON] + c) == a + [COLON] + b + [COLON] + c;
  }

  lemma JoinFour(a: seq<byte>, b: seq<byte>, c: seq<byte>, d: seq<byte>)
    ensures Join([a, b, c, d]) == a + [COLON] + b + [COLON] + c + [COLON] + d
  {
    JoinThree(b, c, d);
    assert [a, b, c, d][1..] == [b, c, d];
    assert a + [COLON] + (b + [COLON] + c + [COLON] + d) == a + [COLON] + b + [COLON] + c + [COLON] + d;
  }

  // The proxy takes the runtime's token exactly when the address has no colon and
  // reads as an IP, the port is a port and the five minutes are not over; it then
  // dials the very address that was signed.
  lemma ProxyReadsWhatRuntimeSigned(mac: seq<byte> -> seq<byte>, isIp: seq<byte> -> bool,
                                    ip: seq<byte>, port: int, signed: int, now: int)
    requires MIN_INT64 <= port <= MAX_INT64 && MIN_INT64 <= signed + 300 <= MAX_INT64
    ensures var r := DecodeAndVerify(mac, isIp, Sign(mac, ip, port, signed), now);
            && (r.Target? <==> ':' as int !in ip && isIp(ip) && 1 <= port <= 65535 && now <= signed + 300)
            && (r.Target? ==> r.address == ip + [':' as int] + Decimal(port))
  {
    var exp := signed + LIFETIME_SECONDS;
    var payload := Payload(ip, port, exp);
    Base64RoundTrip(payload + [COLON] + Hex(mac(payload)));
    SplitToken(mac, ip, port, exp);
    SplitOne(ip);
    DecimalRoundTrip(port);
    DecimalRoundTrip(exp);
    hide Payload;
    hide Decimal;
    hide ParseInt;
    hide Base64;
    hide FromBase64;
    hide Split;
    hide Hex;
    hide Join;
    if COLON !in ip {
      var parts := [ip] + [Decimal(port), Decimal(exp), Hex(mac(payload))];
      JoinThree(ip, Decimal(port), Decimal(exp));
      assert parts[..3] == [ip, Decimal(port), Decimal(exp)];
    }
  }

  // Different allocations never get the same token, whatever their addresses hold.
  lemma TokensAreDistinct(mac: seq<byte> -> seq<byte>, ip: seq<byte>, port: int, signed: int,
                          ip': seq<byte>, port': int, signed': int)
    requires MIN_INT64 <= port <= MAX_INT64 && MIN_INT64 <= signed + LIFETIME_SECONDS <= MAX_INT64
    requires MIN_INT64 <= port' <= MAX_INT64 && MIN_INT64 <= signed' + LIFETIME_SECONDS <= MAX_INT64
    requires Sign(mac, ip, port, signed) == Sign(mac, ip', port', signed')
    ensures ip == ip' && port == port' && signed == signed'
  {
    var exp, exp' := signed + LIFETIME_SECONDS, signed' + LIFETIME_SECONDS;
    var payload, payload' := Payload(ip, port, exp), Payload(ip', port', exp');
    Base64RoundTrip(payload + [COLON] + Hex(mac(payload)));
    Base64RoundTrip(payload' + [COLON] + Hex(mac(payload')));
    SplitToken(mac, ip, port, exp);
    SplitToken(mac, ip', port', exp');
    hide Payload, Decimal, ParseInt, Base64, FromBase64, Split, Hex, Join;
    SameLastThree(Split(ip), [Decimal(port), Decimal(exp), Hex(mac(payload))],
                  Split(ip'), [Decimal(port'), Decimal(exp'), Hex(mac(payload'))]);
    JoinOfSplit(ip);
    JoinOfSplit(ip');
    DecimalRoundTrip(port);
    DecimalRoundTrip(port');
    DecimalRoundTrip(exp);
    DecimalRoundTrip(exp');
  }

  lemma SameLastThree(a: seq<seq<byte>>, x: seq<seq<byte>>, b: seq<seq<byte>>, y: seq<seq<byte>>)
    requires |x| == 3 == |y| && a + x == b + y
    ensures a == b && x[0] == y[0] && x[1] == y[1]
  {
    assert a == (a + x)[..|a|] && b == (b + y)[..|b|];
    assert x == (a + x)[|a|..] && y == (b + y)[|b|..];
  }

  // The first three parts are an address, a port and a moment not yet past.
  predicate IsCurrent(isIp: seq<byte> -> bool, parts: seq<seq<byte>>, now: int)
    requires |parts| == 4
  {
    && isIp(parts[0])
    && ParseInt(parts[1]).Some? && 1 <= ParseInt(parts[1]).value <= 65535
    && ParseInt(parts[2]).Some? && now <= ParseInt(parts[2]).value
  }

  // Which tokens the proxy accepts: those of four parts, address, port, moment and the hex
  // of the MAC of the first three. With any other fourth part the answer is a MAC mismatch.
  lemma AcceptedExactlyWhen(mac: seq<byte> -> seq<byte>, isIp: seq<byte> -> bool, token: seq<byte>, now: int)
    ensures var r, raw := DecodeAndVerify(mac, isIp, token, now), FromBase64(token);
            if raw.Some? && |Split(raw.value)| == 4 && IsCurrent(isIp, Split(raw.value), now) then
              var parts := Split(raw.value);
              var signed := parts[0] + [COLON] + parts[1] + [COLON] + parts[2];
              r == if FromHex(parts[3]) == Some(mac(signed)) then Target(parts[0] + [COLON] + parts[1]) else MacMismatch
            else !r.Target? && !r.MacMismatch?
  {
    hide FromBase64, Split, Hex, FromHex, Join, ParseInt;
    var raw := FromBase64(token);
    if raw.Some? && |Split(raw.value)| == 4 {
      var parts := Split(raw.value);
      JoinThree(parts[0], parts[1], parts[2]);
      assert parts[..3] == [parts[0], parts[1], parts[2]];
      HexRoundTrip(mac(Join(parts[..3])));
      if FromHex(parts[3]).Some? {
        HexIsCanonical(parts[3]);
      }
    }
  }

  // A token carrying the hex of any bytes but the MAC is refused, whoever made it.
  lemma ForgedMacIsRefused(mac: seq<byte> -> seq<byte>, isIp: seq<byte> -> bool, ip: seq<byte>, port: int, exp: int,
                           part: seq<byte>, now: int)
    requires COLON !in ip && COLON !in part && isIp(ip) && 1 <= port <= 65535 && now <= exp <= MAX_INT64
    requires MIN_INT64 <= exp && FromHex(part) != Some(mac(Payload(ip, port, exp)))
    ensures DecodeAndVerify(mac, isIp, Base64(Payload(ip, port, exp) + [COLON] + part), now) == MacMismatch
  {
    var payload := Payload(ip, port, exp);
    Base64RoundTrip(payload + [COLON] + part);
    SplitAtColon(payload, part);
    SplitAtColon(ip + [COLON] + Decimal(port), Decimal(exp));
    SplitAtColon(ip, Decimal(port));
    DecimalRoundTrip(port);
    DecimalRoundTrip(exp);
    SplitOne(ip);
    SplitOne(Decimal(port));
    SplitOne(Decimal(exp));
    SplitOne(part);
    hide Decimal, ParseInt, Base64, FromBase64, Split, FromHex;
    AcceptedExactlyWhen(mac, isIp, Base64(payload + [COLON] + part), now);
    assert [ip] + [Decimal(port)] + [Decimal(exp)] + [part] == [ip, Decimal(port), Decimal(exp), part];
  }

  // Whatever the proxy accepts decodes to ip:port:exp and the MAC of exactly those
  // bytes, unexpired; and it is the printed form of them exactly when it has no
  // line break and no spare bit set.
  lemma AcceptedIsSigned(mac: seq<byte> -> seq<byte>, isIp: seq<byte> -> bool, token: seq<byte>, now: int)
    requires DecodeAndVerify(mac, isIp, token, now).Target?
    ensures var parts := Split(FromBase64(token).value);
            var payload := parts[0] + [COLON] + parts[1] + [COLON] + parts[2];
            var raw := payload + [COLON] + parts[3];
            && FromBase64(token).value == raw && FromHex(parts[3]) == Some(mac(payload))
            && (Base64(raw) == token <==> OneLine(token) && SpareBits(Values(token).value) == 0)
            && isIp(parts[0]) && 1 <= ParseInt(parts[1]).value <= 65535 && now <= ParseInt(parts[2]).value
  {
    hide Base64;
    hide FromBase64;
    hide Split;
    hide Hex;
    hide Join;
    hide ParseInt;
    var raw := FromBase64(token).value;
    var parts := Split(raw);
    JoinOfSplit(raw);
    AcceptedExactlyWhen(mac, isIp, token, now);
    Base64Canonical(token);
    JoinThree(parts[0], parts[1], parts[2]);
    JoinFour(parts[0], parts[1], parts[2], parts[3]);
    assert parts == [parts[0], parts[1], parts[2], parts[3]];
    assert parts[..3] == [parts[0], parts[1], parts[2]];
  }

  // So a token is not the only text for its bytes: a line break anywhere in it, a line
  // feed or a carriage return, leaves the reading as it was.
  lemma {:induction false} LineBreakChangesNothing(mac: seq<byte> -> seq<byte>, isIp: seq<byte> -> bool,
                                                   front: seq<byte>, end: byte, back: seq<byte>, now: int)
    requires end == '\n' as int || end == '\r' as int
    ensures Values(front + [end] + back) == Values(front + back)
    ensures DecodeAndVerify(mac, isIp, front + [end] + back, now) == DecodeAndVerify(mac, isIp, front + back, now)
  {
    hide Bytes, Split, ParseInt, Hex, Join;
    var text, whole := front + [end] + back, front + back;
    if front == [] {
      assert text[1..] == back && whole == back;
    } else {
      LineBreakChangesNothing(mac, isIp, front[1..], end, back, now);
      assert text[1..] == front[1..] + [end] + back;
      assert whole[1..] == front[1..] + back;
    }
  }
}
