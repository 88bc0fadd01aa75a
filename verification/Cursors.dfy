/** The opaque explorer cursor: decimal fields, ':' separators, unpadded URL-safe base64 as in section 5 of RFC 4648
    (encodeExplorerCursor and decodeExplorerCursor in rpc/explorer_cursor.go). */
module Cursors {
  import opened Prelude
  import opened Transactions
  import opened Decimals

  datatype Cursor = Cursor(height: u64, offset: u64, blockHash: string)

  // ----- base64

  function Symbol(v: nat): (c: char)
    requires v < 64
  {
    if v < 26 then (65 + v) as char
    else if v < 52 then (71 + v) as char
    else if v < 62 then (v - 4) as char
    else if v == 62 then '-' else '_'
  }

  function SymbolValue(c: char): Option<nat> {
    if 'A' <= c <= 'Z' then Some(c as int - 65)
    else if 'a' <= c <= 'z' then Some(c as int - 71)
    else if '0' <= c <= '9' then Some(c as int + 4)
    else if c == '-' then Some(62)
    else if c == '_' then Some(63)
    else None
  }

  lemma SymbolRoundTrip(v: nat)
    requires v < 64
    ensures SymbolValue(Symbol(v)) == Some(v)
    ensures Symbol(v) != '\n' && Symbol(v) != '\r'
  {
  }

  /** The alphabet of the URL-safe encoding, table 2 of RFC 4648, and nothing but its symbols have a value. */
  lemma SymbolsOfTheStandard(v: nat, c: char)
    requires v < 64
    ensures v < 26 ==> Symbol(v) as int == 'A' as int + v
    ensures 26 <= v < 52 ==> Symbol(v) as int == 'a' as int + (v - 26)
    ensures 52 <= v < 62 ==> Symbol(v) as int == '0' as int + (v - 52)
    ensures Symbol(62) == '-' && Symbol(63) == '_'
    ensures SymbolValue(c) == Some(v) <==> c == Symbol(v)
    ensures SymbolValue(c).Some? ==> SymbolValue(c).value < 64
  {
  }

  function Byte(c: char): nat {
    c as int % 256
  }

  function AsByte(n: nat): (c: char)
    ensures n < 256 ==> c == n as char
  {
    (n % 256) as char
  }

  function Quad(a: nat, b: nat, c: nat): (q: string)
    requires a < 256 && b < 256 && c < 256
    ensures |q| == 4
  {
    [Symbol(a / 4), Symbol(a % 4 * 16 + b / 16), Symbol(b % 16 * 4 + c / 64), Symbol(c % 64)]
  }

  /** Groups of three bytes as four symbols; a rest of one or two bytes as two or three. */
  function Base64(s: string): string {
    if s == "" then ""
    else if |s| == 1 then Quad(Byte(s[0]), 0, 0)[..2]
    else if |s| == 2 then Quad(Byte(s[0]), Byte(s[1]), 0)[..3]
    else Quad(Byte(s[0]), Byte(s[1]), Byte(s[2])) + Base64(s[3..])
  }

  /** The decoder skips carriage returns and line feeds. */
  function WithoutLineBreaks(t: string): string {
    if t == "" then ""
    else if t[0] == '\n' || t[0] == '\r' then WithoutLineBreaks(t[1..])
    else [t[0]] + WithoutLineBreaks(t[1..])
  }

  /** The three bytes of four symbols; None if one of them is not a symbol. */
  function Unquad(c0: char, c1: char, c2: char, c3: char): Option<string> {
    var v0, v1, v2, v3 := SymbolValue(c0), SymbolValue(c1), SymbolValue(c2), SymbolValue(c3);
    if v0.None? || v1.None? || v2.None? || v3.None? then None
    else Some([AsByte(v0.value * 4 + v1.value / 16), AsByte(v1.value % 16 * 16 + v2.value / 4),
               AsByte(v2.value % 4 * 64 + v3.value)])
  }

  /** Groups of four symbols, then a rest of zero, two or three; unused trailing bits are ignored. */
  function Unbase64(t: string): Option<string> {
    if t == "" then Some("")
    else if |t| == 1 then None
    else if |t| < 4 then
      var head := Unquad(t[0], t[1], if |t| == 3 then t[2] else 'A', 'A');
      if head.None? || |head.value| != 3 then None else Some(head.value[..|t| - 1])
    else
      var head, rest := Unquad(t[0], t[1], t[2], t[3]), Unbase64(t[4..]);
      if head.None? || rest.None? then None else Some(head.value + rest.value)
  }

  function DecodeBase64(t: string): Option<string> {
    Unbase64(WithoutLineBreaks(t))
  }

  /** The bytes that n symbols carry: three for every four, and one less than the rest. */
  function Carried(n: nat): nat {
    if n == 0 then 0 else if n < 4 then n - 1 else 3 + Carried(n - 4)
  }

  /** Four symbols carry three bytes; a rest of one symbol carries nothing and is refused. */
  lemma {:induction false} DecodedLength(t: string)
    ensures Unbase64(t).Some? ==> |t| % 4 != 1 && |Unbase64(t).value| == Carried(|t|)
  {
    hide Unquad;
    if |t| >= 4 {
      var rest := t[4..];
      DecodedLength(rest);
      UnquadLength(t[0], t[1], t[2], t[3]);
      assert |t| % 4 == |rest| % 4;
    } else if |t| >= 2 {
      UnquadLength(t[0], t[1], if |t| == 3 then t[2] else 'A', 'A');
    }
  }

  lemma UnquadLength(c0: char, c1: char, c2: char, c3: char)
    ensures Unquad(c0, c1, c2, c3).Some? ==> |Unquad(c0, c1, c2, c3).value| == 3
  {
  }

  lemma {:induction false} Base64HasNoLineBreaks(s: string)
    ensures WithoutLineBreaks(Base64(s)) == Base64(s)
    ensures 3 * |Base64(s)| <= 4 * |s| + 4
  {
    NoBreaksFixes(Base64(s));
    Base64Symbols(s);
  }

  lemma {:induction false} NoBreaksFixes(t: string)
    ensures (forall i :: 0 <= i < |t| ==> t[i] != '\n' && t[i] != '\r') ==> WithoutLineBreaks(t) == t
  {
    if t != "" {
      NoBreaksFixes(t[1..]);
    }
  }

  lemma {:induction false} Base64Symbols(s: string)
    ensures forall i :: 0 <= i < |Base64(s)| ==> Base64(s)[i] != '\n' && Base64(s)[i] != '\r'
    ensures 3 * |Base64(s)| <= 4 * |s| + 4
  {
    hide Symbol;
    if |s| == 1 {
      QuadHasNoBreaks(Byte(s[0]), 0, 0);
    } else if |s| == 2 {
      QuadHasNoBreaks(Byte(s[0]), Byte(s[1]), 0);
    } else if |s| >= 3 {
      QuadHasNoBreaks(Byte(s[0]), Byte(s[1]), Byte(s[2]));
      Base64Symbols(s[3..]);
    }
  }

  lemma QuadHasNoBreaks(a: nat, b: nat, c: nat)
    requires a < 256 && b < 256 && c < 256
    ensures forall i :: 0 <= i < 4 ==> Quad(a, b, c)[i] != '\n' && Quad(a, b, c)[i] != '\r'
  {
    hide Symbol;
    SymbolRoundTrip(a / 4);
    SymbolRoundTrip(a % 4 * 16 + b / 16);
    SymbolRoundTrip(b % 16 * 4 + c / 64);
    SymbolRoundTrip(c % 64);
  }

  lemma BitsRoundTrip(a: nat, b: nat, c: nat)
    requires a < 256 && b < 256 && c < 256
    ensures a / 4 * 4 + (a % 4 * 16 + b / 16) / 16 == a
    ensures (a % 4 * 16 + b / 16) % 16 * 16 + (b % 16 * 4 + c / 64) / 4 == b
    ensures (b % 16 * 4 + c / 64) % 4 * 64 + c % 64 == c
  {
  }

  lemma QuadValues(a: nat, b: nat, c: nat)
    requires a < 256 && b < 256 && c < 256
    ensures var q := Quad(a, b, c);
            && |q| == 4
            && SymbolValue(q[0]) == Some(a / 4) && SymbolValue(q[1]) == Some(a % 4 * 16 + b / 16)
            && SymbolValue(q[2]) == Some(b % 16 * 4 + c / 64) && SymbolValue(q[3]) == Some(c % 64)
  {
    hide Symbol, SymbolValue;
    SymbolRoundTrip(a / 4);
    SymbolRoundTrip(a % 4 * 16 + b / 16);
    SymbolRoundTrip(b % 16 * 4 + c / 64);
    SymbolRoundTrip(c % 64);
  }

  lemma UnquadOf(c0: char, c1: char, c2: char, c3: char, v0: nat, v1: nat, v2: nat, v3: nat, a: nat, b: nat, c: nat)
    requires SymbolValue(c0) == Some(v0) && SymbolValue(c1) == Some(v1)
    requires SymbolValue(c2) == Some(v2) && SymbolValue(c3) == Some(v3)
    requires a < 256 && b < 256 && c < 256
    requires v0 * 4 + v1 / 16 == a && v1 % 16 * 16 + v2 / 4 == b && v2 % 4 * 64 + v3 == c
    ensures Unquad(c0, c1, c2, c3) == Some([a as char, b as char, c as char])
  {
    hide SymbolValue, AsByte;
  }

  /** Three bytes come back from their four symbols. */
  lemma QuadRoundTrip(a: nat, b: nat, c: nat)
    requires a < 256 && b < 256 && c < 256
    ensures var q := Quad(a, b, c);
            |q| == 4 && Unquad(q[0], q[1], q[2], q[3]) == Some([a as char, b as char, c as char])
  {
    hide Quad, Unquad, SymbolValue;
    QuadValues(a, b, c);
    BitsRoundTrip(a, b, c);
    var q := Quad(a, b, c);
    UnquadOf(q[0], q[1], q[2], q[3], a / 4, a % 4 * 16 + b / 16, b % 16 * 4 + c / 64, c % 64, a, b, c);
  }

  lemma PaddingIsZero(a: nat, b: nat)
    requires a < 256 && b < 256
    ensures Quad(a, b, 0)[3] == 'A'
    ensures Quad(a, 0, 0)[2] == 'A'
  {
  }

  lemma ShortRoundTrip(s: string)
    requires Bytes(s) && 1 <= |s| <= 2
    ensures Unbase64(Base64(s)) == Some(s)
  {
    hide Quad, Unquad;
    var a, b := Byte(s[0]), if |s| == 2 then Byte(s[1]) else 0;
    QuadRoundTrip(a, b, 0);
    PaddingIsZero(a, b);
    var q := Quad(a, b, 0);
    assert Base64(s) == q[..|s| + 1];
    assert [a as char, b as char, 0 as char][..|s|] == s;
  }

  /** Decoding undoes encoding, for every byte string. */
  lemma {:induction false} Base64RoundTrip(s: string)
    requires Bytes(s)
    ensures Unbase64(Base64(s)) == Some(s)
  {
    hide Quad, Unquad;
    if 1 <= |s| <= 2 {
      ShortRoundTrip(s);
    } else if |s| >= 3 {
      var a, b, c := Byte(s[0]), Byte(s[1]), Byte(s[2]);
      QuadRoundTrip(a, b, c);
      Base64RoundTrip(s[3..]);
      assert Base64(s)[4..] == Base64(s[3..]);
      assert Base64(s)[..4] == Quad(a, b, c);
      assert s == [s[0], s[1], s[2]] + s[3..];
    }
  }

  // ----- splitting

  /** strings.Split(s, ":"). */
  function SplitColon(s: string): (parts: seq<string>)
    ensures parts != []
  {
    if s == "" then [""]
    else
      var rest := SplitColon(s[1..]);
      if s[0] == ':' then [""] + rest else [[s[0]] + rest[0]] + rest[1..]
  }

  /** Text up to the first colon is the first part. */
  lemma {:induction false} SplitFirst(a: string, s: string)
    requires ':' !in a
    ensures SplitColon(a + ":" + s) == [a] + SplitColon(s)
  {
    if a == "" {
      assert (a + ":" + s)[1..] == s;
    } else {
      assert a[0] in a;
      SplitFirst(a[1..], s);
      assert (a + ":" + s)[1..] == a[1..] + ":" + s;
      assert a == [a[0]] + a[1..];
    }
  }

  lemma {:induction false} SplitNone(a: string)
    requires ':' !in a
    ensures SplitColon(a) == [a]
  {
    if a != "" {
      assert a[0] in a;
      SplitNone(a[1..]);
      assert a == [a[0]] + a[1..];
    }
  }

  lemma SplitThree(a: string, b: string, c: string)
    requires ':' !in a && ':' !in b && ':' !in c
    ensures SplitColon(a + ":" + b + ":" + c) == [a, b, c]
  {
    hide SplitColon;
    assert a + ":" + b + ":" + c == a + ":" + (b + ":" + c);
    SplitFirst(a, b + ":" + c);
    SplitFirst(b, c);
    SplitNone(c);
  }

  /** strings.Join(parts, ":"). */
  function Joined(parts: seq<string>): string
    requires parts != []
  {
    if |parts| == 1 then parts[0] else parts[0] + ":" + Joined(parts[1..])
  }

  lemma {:induction false} SplitJoins(s: string)
    ensures Joined(SplitColon(s)) == s
  {
    if s != "" {
      var rest := SplitColon(s[1..]);
      SplitJoins(s[1..]);
      assert s == [s[0]] + s[1..];
      if s[0] == ':' {
        assert ([""] + rest)[1..] == rest;
      } else {
        JoinedHead(s[0], rest);
      }
    }
  }

  lemma JoinedHead(c: char, rest: seq<string>)
    requires rest != []
    ensures Joined([[c] + rest[0]] + rest[1..]) == [c] + Joined(rest)
  {
    var all := [[c] + rest[0]] + rest[1..];
    assert all[1..] == rest[1..];
  }

  lemma JoinedThree(parts: seq<string>)
    requires |parts| == 3
    ensures Joined(parts) == parts[0] + ":" + parts[1] + ":" + parts[2]
  {
    assert Joined(parts[1..][1..]) == parts[2];
    assert Joined(parts[1..]) == parts[1] + ":" + parts[2];
  }

  // ----- the cursor

  function Payload(cursor: Cursor): string {
    Decimal(cursor.height) + ":" + Decimal(cursor.offset) + ":" + cursor.blockHash
  }

  function EncodeCursor(cursor: Cursor): string {
    Base64(Payload(cursor))
  }

  /** None is the invalid-cursor error. */
  function DecodeCursor(raw: string): Option<Cursor> {
    if raw == "" || |raw| > 256 then None
    else
      var payload := DecodeBase64(raw);
      if payload.None? || |payload.value| == 0 || |payload.value| > 256 then None
      else
        var parts := SplitColon(payload.value);
        if |parts| != 3 || |parts[2]| != 64 || !LowerHex(parts[2]) then None
        else
          var height, offset := ParseUint(parts[0]), ParseUint(parts[1]);
          if height.None? || offset.None? then None
          else Some(Cursor(height.value, offset.value, parts[2]))
  }

  lemma PayloadShape(cursor: Cursor)
    requires |cursor.blockHash| == 64 && LowerHex(cursor.blockHash)
    ensures Bytes(Payload(cursor)) && 0 < |Payload(cursor)| <= 106
    ensures SplitColon(Payload(cursor)) == [Decimal(cursor.height), Decimal(cursor.offset), cursor.blockHash]
  {
    hide Decimal;
    Pow10Of20();
    DecimalLength(cursor.height, 20);
    DecimalLength(cursor.offset, 20);
    SplitThree(Decimal(cursor.height), Decimal(cursor.offset), cursor.blockHash);
  }

  /** Every cursor the explorer hands out decodes to itself, within the length limits. */
  lemma CursorRoundTrip(cursor: Cursor)
    requires |cursor.blockHash| == 64 && LowerHex(cursor.blockHash)
    ensures DecodeCursor(EncodeCursor(cursor)) == Some(cursor)
    ensures EncodeCursor(cursor) != ""
  {
    hide Decimal, Payload, Base64, Unbase64, WithoutLineBreaks, DigitsValue, SplitColon;
    var payload := Payload(cursor);
    PayloadShape(cursor);
    Base64HasNoLineBreaks(payload);
    Base64RoundTrip(payload);
    assert Unbase64("") == Some("") by { UnbaseEmpty(); }
    DecimalRoundTrip(cursor.height);
    DecimalRoundTrip(cursor.offset);
  }

  /** A byte string as the decoder reads a cursor: two numerals and a block hash, joined by colons. */
  predicate Reads(payload: string, h: string, o: string, cursor: Cursor) {
    && payload == h + ":" + o + ":" + cursor.blockHash && |payload| <= 256
    && h != "" && AllDigits(h) && DigitsValue(h) == cursor.height
    && o != "" && AllDigits(o) && DigitsValue(o) == cursor.offset
    && |cursor.blockHash| == 64 && LowerHex(cursor.blockHash)
  }

  /** A cursor is accepted exactly when it has at most 256 characters and decodes to such a byte string. */
  lemma CursorReadExactly(raw: string, cursor: Cursor)
    ensures DecodeCursor(raw) == Some(cursor) <==>
            && 0 < |raw| <= 256 && DecodeBase64(raw).Some?
            && exists h, o :: Reads(DecodeBase64(raw).value, h, o, cursor)
  {
    hide DecodeBase64, DigitsValue, SplitColon;
    if DecodeBase64(raw).Some? {
      var payload := DecodeBase64(raw).value;
      if DecodeCursor(raw) == Some(cursor) {
        SplitJoins(payload);
        var parts := SplitColon(payload);
        JoinedThree(parts);
        assert Reads(payload, parts[0], parts[1], cursor);
      }
      if h, o :| Reads(payload, h, o, cursor) {
        SplitThree(h, o, cursor.blockHash);
      }
    }
  }

  /** Line breaks in a cursor do not matter. */
  lemma {:induction false} LineBreaksAreSkipped(a: string, b: string)
    ensures DecodeBase64(a + "\n" + b) == DecodeBase64(a + b) == DecodeBase64(a + "\r" + b)
  {
    hide Unbase64;
    if a == "" {
      assert a + "\n" + b == ['\n'] + b && a + "\r" + b == ['\r'] + b && a + b == b;
    } else {
      BreaksOf(a, b);
      BreaksOf(a, "\n" + b);
      BreaksOf(a, "\r" + b);
      assert a + "\n" + b == a + ("\n" + b) && a + "\r" + b == a + ("\r" + b);
      assert ("\n" + b)[1..] == b && ("\r" + b)[1..] == b;
    }
  }

  lemma BreaksHead(c: char, s: string)
    ensures WithoutLineBreaks([c] + s) == (if c == '\n' || c == '\r' then "" else [c]) + WithoutLineBreaks(s)
  {
    assert ([c] + s)[0] == c && ([c] + s)[1..] == s;
  }

  lemma {:induction false} BreaksOf(a: string, b: string)
    ensures WithoutLineBreaks(a + b) == WithoutLineBreaks(a) + WithoutLineBreaks(b)
  {
    if a == "" {
      assert a + b == b;
    } else {
      hide WithoutLineBreaks;
      var c, rest := a[0], a[1..];
      BreaksOf(rest, b);
      assert a == [c] + rest && a + b == [c] + (rest + b);
      BreaksHead(c, rest);
      BreaksHead(c, rest + b);
    }
  }

  lemma UnbaseEmpty()
    ensures Unbase64("") == Some("")
  {
  }
}
