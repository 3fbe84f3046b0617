/**
 * encodeStableCursor and decodeStableCursor.
 *
 * A cursor is base64url of "ms|id|scopeHash|signature". UTF-8 and the two
 * digests belong to the platform: Platform names them and says what is relied on.
 */
module CursorCodec {
  import opened Basics
  import opened Ordering
  import opened Decimal
  import Json = CanonicalJson

  // ---------- base64url (section 5 of RFC 4648, without padding) ----------

  type Byte = n: nat | n < 256

  predicate Is64(c: char) {
    'A' <= c <= 'Z' || 'a' <= c <= 'z' || '0' <= c <= '9' || c == '-' || c == '_'
  }

  function Char64(d: nat): (c: char)
    requires d < 64
    ensures Is64(c)
  {
    if d < 26 then (65 + d) as char
    else if d < 52 then (71 + d) as char
    else if d < 62 then (d - 4) as char
    else if d == 62 then '-'
    else '_'
  }

  function Index64(c: char): (d: nat)
    ensures d < 64
  {
    if 'A' <= c <= 'Z' then c as int - 65
    else if 'a' <= c <= 'z' then c as int - 71
    else if '0' <= c <= '9' then c as int + 4
    else if c == '-' then 62
    else 63
  }

  /** Three bytes are four characters; the last one or two bytes are padded with zero bits. */
  function Group(a: Byte, b: Byte, c: Byte): (s: string)
    ensures |s| == 4 && forall x :: x in s ==> Is64(x)
  {
    [Char64(a / 4), Char64(a % 4 * 16 + b / 16), Char64(b % 16 * 4 + c / 64), Char64(c % 64)]
  }

  function Byte0(w: char, x: char): Byte {
    Index64(w) * 4 + Index64(x) / 16
  }

  function Byte1(x: char, y: char): Byte {
    Index64(x) % 16 * 16 + Index64(y) / 4
  }

  function Byte2(y: char, z: char): Byte {
    Index64(y) % 4 * 64 + Index64(z)
  }

  function Encode64(b: seq<Byte>): string {
    if b == [] then []
    else if |b| == 1 then Group(b[0], 0, 0)[..2]
    else if |b| == 2 then Group(b[0], b[1], 0)[..3]
    else Group(b[0], b[1], b[2]) + Encode64(b[3..])
  }

  /** Whole bytes only: leftover bits of the last group are dropped. */
  function Decode64(s: string): seq<Byte> {
    if |s| < 2 then []
    else if |s| == 2 then [Byte0(s[0], s[1])]
    else if |s| == 3 then [Byte0(s[0], s[1]), Byte1(s[1], s[2])]
    else [Byte0(s[0], s[1]), Byte1(s[1], s[2]), Byte2(s[2], s[3])] + Decode64(s[4..])
  }

  lemma Index64Char64(d: nat)
    requires d < 64
    ensures Index64(Char64(d)) == d
  {
  }

  lemma GroupRoundTrip(a: Byte, b: Byte, c: Byte)
    ensures var s := Group(a, b, c); Byte0(s[0], s[1]) == a && Byte1(s[1], s[2]) == b && Byte2(s[2], s[3]) == c
  {
    Index64Char64(a / 4);
    Index64Char64(a % 4 * 16 + b / 16);
    Index64Char64(b % 16 * 4 + c / 64);
    Index64Char64(c % 64);
  }

  lemma Base64One(a: Byte)
    ensures Decode64(Encode64([a])) == [a] && |Encode64([a])| == 2
  {
    GroupRoundTrip(a, 0, 0);
  }

  lemma Base64Two(a: Byte, b: Byte)
    ensures Decode64(Encode64([a, b])) == [a, b] && |Encode64([a, b])| == 3
  {
    GroupRoundTrip(a, b, 0);
  }

  lemma {:induction false} Base64RoundTrip(b: seq<Byte>)
    ensures Decode64(Encode64(b)) == b
    ensures |Encode64(b)| == (4 * |b| + 2) / 3
    ensures forall c :: c in Encode64(b) ==> Is64(c)
  {
    if |b| == 1 {
      Base64One(b[0]);
      assert b == [b[0]];
    } else if |b| == 2 {
      Base64Two(b[0], b[1]);
      assert b == [b[0], b[1]];
    } else if b != [] {
      GroupRoundTrip(b[0], b[1], b[2]);
      Base64RoundTrip(b[3..]);
      assert Encode64(b)[4..] == Encode64(b[3..]);
      assert b == [b[0], b[1], b[2]] + b[3..];
    }
  }

  // ---------- Splitting at the separator ----------

  /** text.split('|'). */
  function Split(s: string): (parts: seq<string>)
    ensures parts != []
  {
    if s == [] then [[]]
    else
      var rest := Split(s[1..]);
      if s[0] == '|' then [[]] + rest else [[s[0]] + rest[0]] + rest[1..]
  }

  lemma {:induction false} SplitField(f: string, rest: string)
    ensures Split(f + "|" + rest) == Split(f) + Split(rest)
  {
    if f == [] {
      assert (f + "|" + rest)[1..] == rest;
    } else {
      assert (f + "|" + rest)[1..] == f[1..] + "|" + rest;
      SplitField(f[1..], rest);
    }
  }

  lemma {:induction false} SplitCount(f: string)
    ensures |Split(f)| == 1 <==> '|' !in f
    ensures '|' !in f ==> Split(f) == [f]
  {
    if f != [] {
      SplitCount(f[1..]);
      assert f == [f[0]] + f[1..];
    }
  }

  lemma SplitFour(a: string, b: string, c: string, d: string)
    requires '|' !in a && '|' !in c && '|' !in d
    ensures '|' !in b ==> Split(a + "|" + b + "|" + c + "|" + d) == [a, b, c, d]
    ensures '|' in b ==> |Split(a + "|" + b + "|" + c + "|" + d)| > 4
  {
    var t := a + "|" + b + "|" + c;
    SplitField(t, d);
    SplitField(a + "|" + b, c);
    SplitField(a, b);
    SplitCount(a);
    SplitCount(b);
    SplitCount(c);
    SplitCount(d);
  }

  // ---------- The cursor ----------

  datatype Platform = Platform(
    utf8: string -> seq<Byte>,
    text: seq<Byte> -> string,
    sha: string -> string,
    mac: (string, string) -> string)
  {
    /** UTF-8 decodes what it encoded and spends a byte or more on each character; digests are base64url text, so they hold no separator. */
    ghost predicate Sound() {
      && (forall s :: text(utf8(s)) == s && |utf8(s)| >= |s|)
      && (forall s :: '|' !in sha(s))
      && (forall k, s :: '|' !in mac(k, s))
    }
  }

  datatype Reason = Malformed | Signature | Scope

  const MAX_CURSOR_LENGTH: nat := 512
  const MAX_SAFE_INTEGER: nat := 9_007_199_254_740_991

  function ScopeHash(p: Platform, scope: Json.Json): string {
    p.sha(Json.Stringify(scope))
  }

  function Body(pos: Pos, scopeHash: string): string {
    IntText(pos.ms) + "|" + pos.id + "|" + scopeHash
  }

  function CursorText(p: Platform, pos: Pos, scope: Json.Json, secret: string): string {
    var body := Body(pos, ScopeHash(p, scope));
    body + "|" + p.mac(secret, body)
  }

  function EncodeCursor(p: Platform, pos: Pos, scope: Json.Json, secret: string): string {
    Encode64(p.utf8(CursorText(p, pos, scope, secret)))
  }

  function DecodeCursor(p: Platform, cursor: string, scope: Json.Json, secret: string): Result<Pos, Reason> {
    if cursor == [] || |cursor| > MAX_CURSOR_LENGTH || exists i :: 0 <= i < |cursor| && !Is64(cursor[i]) then
      Err(Malformed)
    else
      var parts := Split(p.text(Decode64(cursor)));
      if |parts| != 4 then Err(Malformed)
      else
        var msRaw, id, scopePart, sig := parts[0], parts[1], parts[2], parts[3];
        if !(1 <= |msRaw| <= 16 && AllDigits(msRaw)) || Value(msRaw) > MAX_SAFE_INTEGER || id == [] then
          Err(Malformed)
        else if sig != p.mac(secret, msRaw + "|" + id + "|" + scopePart) then Err(Signature)
        else if scopePart != ScopeHash(p, scope) then Err(Scope)
        else Ok(Pos(Value(msRaw), id))
  }

  /** Positions a cursor can carry. */
  ghost predicate Legal(p: Platform, pos: Pos, scope: Json.Json, secret: string) {
    && 0 <= pos.ms <= 9_007_199_254_740_991
    && pos.id != [] && '|' !in pos.id
    && |p.utf8(CursorText(p, pos, scope, secret))| <= 384
  }

  lemma IntTextMs(ms: int)
    ensures '|' !in IntText(ms) && IntText(ms) != []
    ensures AllDigits(IntText(ms)) <==> ms >= 0
    ensures ms >= 0 ==> Value(IntText(ms)) == ms
    ensures 0 <= ms <= MAX_SAFE_INTEGER ==> |IntText(ms)| <= 16
  {
    if ms >= 0 {
      NatTextValue(ms);
      NatTextLength(ms, 16);
      assert Pow10(16) == 10_000_000_000_000_000 by {
        assert Pow10(4) == 10_000;
        assert Pow10(8) == 100_000_000;
        assert Pow10(12) == 1_000_000_000_000;
      }
    } else {
      NatTextValue(-ms);
      assert IntText(ms)[0] == '-';
    }
  }

  /**
   * Decoding an issued cursor, under any scope: a position no cursor can carry
   * comes back malformed, another scope's cursor is refused, and everything else
   * comes back as the position that went in.
   */
  lemma CursorRoundTrip(p: Platform, pos: Pos, scope: Json.Json, scope': Json.Json, secret: string)
    requires p.Sound()
    ensures DecodeCursor(p, EncodeCursor(p, pos, scope, secret), scope', secret) ==
      if !Legal(p, pos, scope, secret) then Err(Malformed)
      else if ScopeHash(p, scope) != ScopeHash(p, scope') then Err(Scope)
      else Ok(pos)
  {
    var hash := ScopeHash(p, scope);
    var body := Body(pos, hash);
    var sig := p.mac(secret, body);
    var text := CursorText(p, pos, scope, secret);
    var bytes := p.utf8(text);
    var cursor := EncodeCursor(p, pos, scope, secret);
    Base64RoundTrip(bytes);
    assert forall i :: 0 <= i < |cursor| ==> Is64(cursor[i]);
    assert p.text(bytes) == text;
    IntTextMs(pos.ms);
    assert text == IntText(pos.ms) + "|" + pos.id + "|" + hash + "|" + sig;
    SplitFour(IntText(pos.ms), pos.id, hash, sig);
  }

  /**
   * Where the digest tells texts apart, an issued cursor is accepted under another scope if and only if
   * both scopes are the same JSON value.
   */
  lemma ScopesApart(p: Platform, pos: Pos, scope: Json.Json, scope': Json.Json, secret: string)
    requires p.Sound() && Legal(p, pos, scope, secret) && Json.WellFormed(scope) && Json.WellFormed(scope')
    requires forall a, b :: p.sha(a) == p.sha(b) ==> a == b
    ensures DecodeCursor(p, EncodeCursor(p, pos, scope, secret), scope', secret) ==
      if Json.Meaning(scope) == Json.Meaning(scope') then Ok(pos) else Err(Scope)
  {
    CursorRoundTrip(p, pos, scope, scope', secret);
    Json.StringifyInjective(scope, scope');
  }

  /** Which texts decode, and what is wrong with the others: form before signature before scope. */
  lemma DecodeExactly(p: Platform, cursor: string, scope: Json.Json, secret: string)
    ensures var r, parts := DecodeCursor(p, cursor, scope, secret), Split(p.text(Decode64(cursor)));
      var wellFormed := 1 <= |cursor| <= 512 && (forall i :: 0 <= i < |cursor| ==> Is64(cursor[i]))
        && |parts| == 4 && 1 <= |parts[0]| <= 16 && AllDigits(parts[0]) && Value(parts[0]) <= 9_007_199_254_740_991 && parts[1] != "";
      && (r == Err(Malformed) <==> !wellFormed)
      && (wellFormed ==>
        var signed := parts[3] == p.mac(secret, parts[0] + "|" + parts[1] + "|" + parts[2]);
        && (r == Err(Signature) <==> !signed)
        && (r == Err(Scope) <==> signed && parts[2] != ScopeHash(p, scope))
        && (signed && parts[2] == ScopeHash(p, scope) ==> r == Ok(Pos(Value(parts[0]), parts[1]))))
  {
  }

  /** The alphabet of section 5 of RFC 4648. */
  lemma AlphabetIs(c: char)
    ensures Is64(c) <==> 'A' <= c <= 'Z' || 'a' <= c <= 'z' || '0' <= c <= '9' || c == '-' || c == '_'
    ensures 'A' <= c <= 'Z' ==> Index64(c) == c as int - 65
    ensures 'a' <= c <= 'z' ==> Index64(c) == c as int - 71
    ensures '0' <= c <= '9' ==> Index64(c) == c as int + 4
    ensures Index64('-') == 62 && Index64('_') == 63
  {
  }

  lemma {:induction false} SplitParts(s: string)
    ensures forall f :: f in Split(s) ==> '|' !in f
  {
    if s != [] { SplitParts(s[1..]); }
  }

  lemma SplitThree(a: string, b: string, c: string)
    requires '|' !in a && '|' !in b && '|' !in c
    ensures Split(a + "|" + b + "|" + c) == [a, b, c]
  {
    SplitField(a + "|" + b, c);
    SplitField(a, b);
    SplitCount(a);
    SplitCount(b);
    SplitCount(c);
  }

  /** The fields of a text that decodes. */
  lemma DecodedParts(p: Platform, cursor: string, scope: Json.Json, secret: string) returns (msRaw: string, body: string)
    requires DecodeCursor(p, cursor, scope, secret).Ok?
    ensures var pos, parts := DecodeCursor(p, cursor, scope, secret).value, Split(p.text(Decode64(cursor)));
      && parts == [msRaw, pos.id, ScopeHash(p, scope), p.mac(secret, body)] && Value(msRaw) == pos.ms
      && body == msRaw + "|" + pos.id + "|" + ScopeHash(p, scope) && Split(body) == [msRaw, pos.id, ScopeHash(p, scope)]
  {
    var parts := Split(p.text(Decode64(cursor)));
    assert parts == [parts[0], parts[1], parts[2], parts[3]];
    msRaw, body := parts[0], parts[0] + "|" + parts[1] + "|" + parts[2];
    SplitParts(p.text(Decode64(cursor)));
    SplitThree(parts[0], parts[1], parts[2]);
  }

  function SignatureOf(p: Platform, cursor: string): string {
    var parts := Split(p.text(Decode64(cursor)));
    parts[|parts| - 1]
  }

  /**
   * A signature binds what it signs: if equal signatures under one secret come from equal texts, then
   * any two strings that decode, whoever made them, and carry the same signature have the same
   * position and the same scope hash. No part of a cursor can be changed under its signature.
   */
  lemma SignatureBinds(p: Platform, x: string, scope: Json.Json, y: string, scope': Json.Json, secret: string)
    requires forall a, b :: p.mac(secret, a) == p.mac(secret, b) ==> a == b
    requires DecodeCursor(p, x, scope, secret).Ok? && DecodeCursor(p, y, scope', secret).Ok?
    requires SignatureOf(p, x) == SignatureOf(p, y)
    ensures DecodeCursor(p, x, scope, secret) == DecodeCursor(p, y, scope', secret)
    ensures ScopeHash(p, scope) == ScopeHash(p, scope')
  {
    var ms, body := DecodedParts(p, x, scope, secret);
    var ms', body' := DecodedParts(p, y, scope', secret);
    assert body == body';
    assert [ms, DecodeCursor(p, x, scope, secret).value.id, ScopeHash(p, scope)] ==
      [ms', DecodeCursor(p, y, scope', secret).value.id, ScopeHash(p, scope')];
  }
}
