/** Go's `url.QueryEscape`, which the weather lookup applies to the city name. */
module GoUrl {
  import opened Results

  type Byte = b: int | 0 <= b < 256

  /** The UTF-8 encoding of one Unicode scalar value; Go strings are UTF-8 bytes. */
  function Utf8(c: char): (bs: seq<Byte>)
    ensures 1 <= |bs| <= 4
    ensures (|bs| == 1) <==> (c as int < 0x80)
    ensures |bs| == 1 ==> bs[0] == c as int
    ensures forall i | 0 <= i < |bs| :: (bs[i] < 0x80) <==> (|bs| == 1)
  {
    var cp := c as int;
    if cp < 0x80 then [cp]
    else if cp < 0x800 then [0xC0 + cp / 64, 0x80 + cp % 64]
    else if cp < 0x10000 then [0xE0 + cp / 4096, 0x80 + (cp / 64) % 64, 0x80 + cp % 64]
    else [0xF0 + cp / 262144, 0x80 + (cp / 4096) % 64, 0x80 + (cp / 64) % 64, 0x80 + cp % 64]
  }

  function Utf8Encode(s: string): (bs: seq<Byte>)
    ensures |bs| >= |s|
  {
    if s == [] then [] else Utf8(s[0]) + Utf8Encode(s[1..])
  }

  /** Bytes that `QueryEscape` leaves as they are: letters, digits and `-_.~`. */
  predicate Unreserved(b: Byte)
  {
    ('A' as int <= b <= 'Z' as int) || ('a' as int <= b <= 'z' as int) || ('0' as int <= b <= '9' as int)
    || b == '-' as int || b == '_' as int || b == '.' as int || b == '~' as int
  }

  function UpperHex(n: int): (c: char)
    requires 0 <= n < 16
  {
    "0123456789ABCDEF"[n]
  }

  predicate IsHex(c: char)
  {
    ('0' <= c <= '9') || ('a' <= c <= 'f') || ('A' <= c <= 'F')
  }

  function HexValue(c: char): (n: int)
    requires IsHex(c)
    ensures 0 <= n < 16
  {
    if '0' <= c <= '9' then c as int - '0' as int
    else if 'a' <= c <= 'f' then c as int - 'a' as int + 10
    else c as int - 'A' as int + 10
  }

  /** A character `QueryEscape` can emit: an unreserved one, `+` or `%`. */
  predicate QuerySafe(c: char)
  {
    (c as int < 256 && Unreserved(c as int)) || c == '+' || c == '%'
  }

  /** One byte in query-component mode: unreserved bytes stay, a space becomes
      `+`, every other byte becomes `%` and two upper-case hex digits. */
  function EscapeByte(b: Byte): (e: string)
    ensures forall i | 0 <= i < |e| :: QuerySafe(e[i])
  {
    if Unreserved(b) then [b as char]
    else if b == ' ' as int then "+"
    else ['%', UpperHex(b / 16), UpperHex(b % 16)]
  }

  function EscapeBytes(bs: seq<Byte>): (e: string)
    ensures forall i | 0 <= i < |e| :: QuerySafe(e[i])
  {
    if bs == [] then [] else EscapeByte(bs[0]) + EscapeBytes(bs[1..])
  }

  /** `url.QueryEscape(s)`: the output never holds a control character, `#`,
      `&` or `=`, so a city name cannot end the URL or add a query parameter. */
  function QueryEscape(s: string): (e: string)
    ensures forall i | 0 <= i < |e| :: QuerySafe(e[i])
    ensures forall i | 0 <= i < |e| :: e[i] >= ' ' && e[i] as int != 0x7F && e[i] !in "#&="
  {
    EscapeBytes(Utf8Encode(s))
  }

  /** `url.QueryUnescape` down to bytes: `+` is a space, `%XX` one byte, a `%`
      without two hex digits an error, any other character its UTF-8 bytes. */
  function Unescape(e: string): (r: Option<seq<Byte>>)
    decreases |e|
  {
    if e == [] then Some([])
    else if e[0] == '%' then
      if |e| >= 3 && IsHex(e[1]) && IsHex(e[2]) then
        match Unescape(e[3..])
        case None => None
        case Some(rest) => Some([HexValue(e[1]) * 16 + HexValue(e[2])] + rest)
      else None
    else if e[0] == '+' then
      match Unescape(e[1..])
      case None => None
      case Some(rest) => Some([' ' as int] + rest)
    else
      match Unescape(e[1..])
      case None => None
      case Some(rest) => Some(Utf8(e[0]) + rest)
  }

  lemma HexRoundTrip(n: int)
    requires 0 <= n < 16
    ensures IsHex(UpperHex(n)) && HexValue(UpperHex(n)) == n
  {
  }

  lemma UnescapeKept(c: char, rest: string)
    requires c != '%' && c != '+'
    ensures Unescape([c] + rest) ==
      match Unescape(rest) case None => None case Some(t) => Some(Utf8(c) + t)
  {
    var s := [c] + rest;
    assert s != [] && s[0] == c && s[1..] == rest;
  }

  lemma UnescapePercent(hi: char, lo: char, rest: string)
    requires IsHex(hi) && IsHex(lo)
    ensures Unescape(['%', hi, lo] + rest) ==
      match Unescape(rest) case None => None case Some(t) => Some([HexValue(hi) * 16 + HexValue(lo)] + t)
  {
    var s := ['%', hi, lo] + rest;
    assert s[0] == '%' && s[1] == hi && s[2] == lo && s[3..] == rest;
  }

  lemma UnescapeByte(b: Byte, rest: string)
    ensures Unescape(EscapeByte(b) + rest) ==
      match Unescape(rest) case None => None case Some(t) => Some([b] + t)
  {
    if Unreserved(b) {
      UnescapeUnreserved(b, rest);
    } else if b == ' ' as int {
      UnescapeSpace(rest);
    } else {
      UnescapeEscaped(b, rest);
    }
  }

  lemma UnescapeUnreserved(b: Byte, rest: string)
    requires Unreserved(b)
    ensures Unescape(EscapeByte(b) + rest) ==
      match Unescape(rest) case None => None case Some(t) => Some([b] + t)
  {
    assert EscapeByte(b) == [b as char];
    UnescapeKept(b as char, rest);
  }

  lemma UnescapeSpace(rest: string)
    ensures Unescape("+" + rest) ==
      match Unescape(rest) case None => None case Some(t) => Some([' ' as int] + t)
  {
    var s := "+" + rest;
    assert s[0] == '+' && s[1..] == rest;
  }

  lemma UnescapeEscaped(b: Byte, rest: string)
    requires !Unreserved(b) && b != ' ' as int
    ensures Unescape(EscapeByte(b) + rest) ==
      match Unescape(rest) case None => None case Some(t) => Some([b] + t)
  {
    assert EscapeByte(b) == ['%', UpperHex(b / 16), UpperHex(b % 16)];
    HexRoundTrip(b / 16);
    HexRoundTrip(b % 16);
    UnescapePercent(UpperHex(b / 16), UpperHex(b % 16), rest);
  }

  /** Unescaping undoes escaping: the weather service receives the city's exact bytes. */
  lemma {:induction false} UnescapeEscapeBytes(bs: seq<Byte>)
    ensures Unescape(EscapeBytes(bs)) == Some(bs)
  {
    if bs != [] {
      UnescapeEscapeBytes(bs[1..]);
      UnescapeByte(bs[0], EscapeBytes(bs[1..]));
      assert bs == [bs[0]] + bs[1..];
    }
  }

  lemma QueryUnescapeEscape(s: string)
    ensures Unescape(QueryEscape(s)) == Some(Utf8Encode(s))
  {
    UnescapeEscapeBytes(Utf8Encode(s));
  }

  lemma {:induction false} Utf8EncodeConcat(a: string, b: string)
    ensures Utf8Encode(a + b) == Utf8Encode(a) + Utf8Encode(b)
    decreases |a|
  {
    if a == [] {
      assert a + b == b;
    } else {
      assert (a + b)[0] == a[0] && (a + b)[1..] == a[1..] + b;
      Utf8EncodeConcat(a[1..], b);
    }
  }

  lemma {:induction false} EscapeBytesConcat(a: seq<Byte>, b: seq<Byte>)
    ensures EscapeBytes(a + b) == EscapeBytes(a) + EscapeBytes(b)
    decreases |a|
  {
    if a == [] {
      assert a + b == b;
    } else {
      assert (a + b)[0] == a[0] && (a + b)[1..] == a[1..] + b;
      EscapeBytesConcat(a[1..], b);
    }
  }

  /** Escaping works piece by piece. */
  lemma QueryEscapeConcat(a: string, b: string)
    ensures QueryEscape(a + b) == QueryEscape(a) + QueryEscape(b)
  {
    Utf8EncodeConcat(a, b);
    EscapeBytesConcat(Utf8Encode(a), Utf8Encode(b));
  }
}
