/** The request-building half of `services/pokemonService.ts`: `buildUrl`, the
    parameter record `getPokemonList` hands to it, and the URL of
    `getPokemonById`. The `fetch` calls themselves are left out; callers receive
    their outcome as a parameter.

    `URLSearchParams.prototype.toString` is modelled by `Serialize`, the
    application/x-www-form-urlencoded serializer of the WHATWG URL Standard,
    section 5.2: name and value are UTF-8 encoded, every byte outside ASCII
    alphanumerics and `*-._` is percent-encoded with upper-case hex, a space
    becomes `+`, each pair is written `name=value`, and pairs are joined by `&`. */
module PokemonService {
  import opened Options
  import opened Seqs
  import opened Text
  import opened PokemonTypes

  /** A value `toString` can be called on: a number or a string. */
  datatype Scalar = Num(n: int) | Str(s: string)

  /** The value of one entry of the `params` record. */
  datatype ParamValue = Undefined | Null | One(x: Scalar) | Many(items: seq<Scalar>)

  /** One entry of the `params` record, in `Object.entries` order. */
  datatype Param = Param(key: string, value: ParamValue)

  type Pair = (string, string)

  const ListEndpoint: string := "/api/pokemons"
  const ByIdPrefix: string := "/api/pokemons/"

  /** `toString()` of a scalar. */
  function ToText(x: Scalar): string {
    match x
    case Num(n) => IntToString(n)
    case Str(s) => s
  }

  /** The pairs `value.forEach(item => queryParams.append(key, item.toString()))`
      appends for an array value. */
  function ItemPairs(key: string, items: seq<Scalar>): seq<Pair> {
    if items == [] then []
    else ItemPairs(key, items[..|items| - 1]) + [(key, ToText(items[|items| - 1]))]
  }

  /** The pairs appended for one entry of the record. */
  function EntryPairs(p: Param): seq<Pair> {
    match p.value
    case Undefined => []
    case Null => []
    case One(x) => [(p.key, ToText(x))]
    case Many(items) => ItemPairs(p.key, items)
  }

  /** The pairs appended for all entries, in entry order. */
  function QueryPairs(params: seq<Param>): seq<Pair> {
    if params == [] then []
    else QueryPairs(params[..|params| - 1]) + EntryPairs(params[|params| - 1])
  }

  // ---------------------------------------------------------------------------
  // application/x-www-form-urlencoded serialization

  /** The code points the urlencoded serializer leaves as they are. */
  predicate Unreserved(c: char) {
    ('a' <= c <= 'z') || ('A' <= c <= 'Z') || ('0' <= c <= '9') || c == '*' || c == '-' || c == '.' || c == '_'
  }

  /** The characters an encoded name or value can consist of. */
  predicate EncodedChar(c: char) {
    Unreserved(c) || c == '+' || c == '%'
  }

  predicate IsAscii(s: string) {
    forall c :: c in s ==> c as int < 128
  }

  /** The UTF-8 encoding of one code point. */
  function Utf8(c: char): (bytes: seq<int>)
    ensures 1 <= |bytes| <= 4
    ensures forall b :: b in bytes ==> 0 <= b < 256
    ensures c as int < 128 ==> bytes == [c as int]
  {
    var cp := c as int;
    if cp < 0x80 then [cp]
    else if cp < 0x800 then [0xC0 + cp / 64, 0x80 + cp % 64]
    else if cp < 0x10000 then [0xE0 + cp / 4096, 0x80 + (cp / 64) % 64, 0x80 + cp % 64]
    else [0xF0 + cp / 262144, 0x80 + (cp / 4096) % 64, 0x80 + (cp / 64) % 64, 0x80 + cp % 64]
  }

  function HexDigit(d: int): (c: char)
    requires 0 <= d < 16
    ensures Unreserved(c)
  {
    if d < 10 then ('0' as int + d) as char else ('A' as int + d - 10) as char
  }

  /** `%XX` for every byte. */
  function PercentBytes(bytes: seq<int>): (r: string)
    requires forall b :: b in bytes ==> 0 <= b < 256
    ensures |r| == 3 * |bytes|
    ensures forall x :: x in r ==> EncodedChar(x)
  {
    if bytes == [] then []
    else
      assert bytes[0] in bytes;
      assert forall b :: b in bytes[1..] ==> b in bytes;
      ['%', HexDigit(bytes[0] / 16), HexDigit(bytes[0] % 16)] + PercentBytes(bytes[1..])
  }

  /** Byte `i` becomes `%` followed by its two upper-case hex digits, at
      positions `3i` to `3i + 2`. */
  lemma {:induction false} PercentBytesSpellsEachByte(bytes: seq<int>, i: nat)
    requires forall b :: b in bytes ==> 0 <= b < 256
    requires i < |bytes|
    ensures 0 <= bytes[i] < 256
    ensures PercentBytes(bytes)[3 * i] == '%'
    ensures PercentBytes(bytes)[3 * i + 1] == HexDigit(bytes[i] / 16)
    ensures PercentBytes(bytes)[3 * i + 2] == HexDigit(bytes[i] % 16)
  {
    assert bytes[i] in bytes;
    if i == 0 {
      PercentBytesHead(bytes);
    } else {
      var tail := bytes[1..];
      var b := bytes[i];
      assert tail[i - 1] == b;
      assert forall x :: x in tail ==> x in bytes;
      PercentBytesSpellsEachByte(tail, i - 1);
      var rest := PercentBytes(tail);
      var j := 3 * (i - 1);
      assert rest[j] == '%' && rest[j + 1] == HexDigit(b / 16) && rest[j + 2] == HexDigit(b % 16);
      PercentBytesShift(bytes, j + 3);
      PercentBytesShift(bytes, j + 4);
      PercentBytesShift(bytes, j + 5);
    }
  }

  lemma PercentBytesHead(bytes: seq<int>)
    requires forall b :: b in bytes ==> 0 <= b < 256
    requires bytes != []
    ensures 0 <= bytes[0] < 256
    ensures PercentBytes(bytes)[0] == '%'
    ensures PercentBytes(bytes)[1] == HexDigit(bytes[0] / 16)
    ensures PercentBytes(bytes)[2] == HexDigit(bytes[0] % 16)
  {
    assert bytes[0] in bytes;
    assert forall b :: b in bytes[1..] ==> b in bytes;
  }

  /** Past the first byte, the escape is that of the remaining bytes. */
  lemma PercentBytesShift(bytes: seq<int>, k: nat)
    requires forall b :: b in bytes ==> 0 <= b < 256
    requires 3 <= k < 3 * |bytes|
    ensures forall b :: b in bytes[1..] ==> 0 <= b < 256
    ensures PercentBytes(bytes)[k] == PercentBytes(bytes[1..])[k - 3]
  {
    PercentBytesTail(bytes);
  }

  lemma PercentBytesTail(bytes: seq<int>)
    requires forall b :: b in bytes ==> 0 <= b < 256
    requires bytes != []
    ensures forall b :: b in bytes[1..] ==> 0 <= b < 256
    ensures PercentBytes(bytes)[3..] == PercentBytes(bytes[1..])
  {
    assert bytes[0] in bytes;
    assert forall b :: b in bytes[1..] ==> b in bytes;
  }

  /** The serializer's treatment of one code point. */
  function EncodeChar(c: char): (r: string)
    ensures |r| >= 1
    ensures forall x :: x in r ==> EncodedChar(x)
  {
    if c == ' ' then "+"
    else if Unreserved(c) then [c]
    else PercentBytes(Utf8(c))
  }

  /** The urlencoded form of a name or a value. */
  function Encode(s: string): (r: string)
    ensures forall x :: x in r ==> EncodedChar(x)
    ensures |r| >= |s|
  {
    if s == [] then [] else EncodeChar(s[0]) + Encode(s[1..])
  }

  /** Text made only of unreserved characters is sent as it is. */
  lemma {:induction false} EncodeKeepsUnreserved(s: string)
    requires forall c :: c in s ==> Unreserved(c)
    ensures Encode(s) == s
  {
    if s != [] {
      assert s[0] in s && forall c :: c in s[1..] ==> c in s;
      EncodeKeepsUnreserved(s[1..]);
      assert s == [s[0]] + s[1..];
    }
  }

  function SerializePair(p: Pair): string {
    Encode(p.0) + "=" + Encode(p.1)
  }

  /** `URLSearchParams.prototype.toString()`. */
  function Serialize(ps: seq<Pair>): (r: string)
    ensures r == "" <==> ps == []
  {
    if ps == [] then ""
    else if |ps| == 1 then SerializePair(ps[0])
    else SerializePair(ps[0]) + "&" + Serialize(ps[1..])
  }

  /** The URL `buildUrl(endpoint, params)` returns. */
  function UrlFor(endpoint: string, params: Option<seq<Param>>): string {
    match params
    case None => endpoint
    case Some(ps) =>
      var query := Serialize(QueryPairs(ps));
      if query != "" then endpoint + "?" + query else endpoint
  }

  /** `buildUrl`: walks the entries, appending pairs to `queryParams`, then adds
      the serialized query after a `?` when it is not empty. */
  method BuildUrl(endpoint: string, params: Option<seq<Param>>) returns (url: string)
    ensures url == UrlFor(endpoint, params)
  {
    url := endpoint;
    if params.Some? {
      var ps := params.value;
      var queryParams: seq<Pair> := [];
      var i := 0;
      while i < |ps|
        invariant 0 <= i <= |ps|
        invariant queryParams == QueryPairs(ps[..i])
      {
        var entry := ps[i];
        assert ps[..i + 1][..i] == ps[..i];
        match entry.value {
          case Undefined =>
          case Null =>
          case One(x) =>
            queryParams := queryParams + [(entry.key, ToText(x))];
          case Many(items) =>
            var j := 0;
            while j < |items|
              invariant 0 <= j <= |items|
              invariant queryParams == QueryPairs(ps[..i]) + ItemPairs(entry.key, items[..j])
            {
              assert items[..j + 1][..j] == items[..j];
              queryParams := queryParams + [(entry.key, ToText(items[j]))];
              j := j + 1;
            }
            assert items[..|items|] == items;
        }
        i := i + 1;
      }
      assert ps[..|ps|] == ps;
      var queryString := Serialize(queryParams);
      if queryString != "" {
        url := url + "?" + queryString;
      }
    }
  }

  // ---------------------------------------------------------------------------
  // Properties of buildUrl

  lemma QueryPairsSnoc(ps: seq<Param>, x: Param)
    ensures QueryPairs(ps + [x]) == QueryPairs(ps) + EntryPairs(x)
  {
    assert (ps + [x])[..|ps|] == ps;
  }

  /** Pairs follow the entry order of the record. */
  lemma {:induction false} QueryPairsConcat(a: seq<Param>, b: seq<Param>)
    ensures QueryPairs(a + b) == QueryPairs(a) + QueryPairs(b)
    decreases |b|
  {
    if b == [] {
      assert a + b == a;
    } else {
      var b', last := b[..|b| - 1], b[|b| - 1];
      calc {
        QueryPairs(a + b);
        { assert a + b == (a + b') + [last]; }
        QueryPairs((a + b') + [last]);
        { QueryPairsSnoc(a + b', last); }
        QueryPairs(a + b') + EntryPairs(last);
        { QueryPairsConcat(a, b'); }
        QueryPairs(a) + QueryPairs(b') + EntryPairs(last);
        { AppendAssoc(QueryPairs(a), QueryPairs(b'), EntryPairs(last)); }
        QueryPairs(a) + (QueryPairs(b') + EntryPairs(last));
        { QueryPairsSnoc(b', last); assert b' + [last] == b; }
        QueryPairs(a) + QueryPairs(b);
      }
    }
  }

  /** An array of n items yields n pairs under its key, in array order; an empty
      array yields none. */
  lemma {:induction false} ArrayEntryPairs(key: string, items: seq<Scalar>)
    ensures |ItemPairs(key, items)| == |items|
    ensures forall i :: 0 <= i < |items| ==> ItemPairs(key, items)[i] == (key, ToText(items[i]))
  {
    if items != [] {
      ArrayEntryPairs(key, items[..|items| - 1]);
    }
  }

  /** An entry whose value is `undefined` or `null` contributes no pair. */
  lemma {:induction false} NullishEntriesContributeNothing(ps: seq<Param>)
    requires forall p :: p in ps ==> p.value == Undefined || p.value == Null
    ensures QueryPairs(ps) == []
  {
    if ps != [] {
      assert ps[|ps| - 1] in ps;
      assert forall p :: p in ps[..|ps| - 1] ==> p in ps;
      NullishEntriesContributeNothing(ps[..|ps| - 1]);
    }
  }

  /** Without a record, or with a record whose every value is `undefined` or
      `null`, the URL is the endpoint itself, with no `?`. */
  lemma NoQueryMeansBareEndpoint(endpoint: string, ps: seq<Param>)
    requires forall p :: p in ps ==> p.value == Undefined || p.value == Null
    ensures UrlFor(endpoint, None) == endpoint
    ensures UrlFor(endpoint, Some(ps)) == endpoint
  {
    NullishEntriesContributeNothing(ps);
  }

  /** With at least one pair, the URL is the endpoint, one `?`, and the
      serialized pairs. */
  lemma QueryAfterSingleMark(endpoint: string, ps: seq<Param>)
    requires QueryPairs(ps) != []
    ensures UrlFor(endpoint, Some(ps)) == endpoint + "?" + Serialize(QueryPairs(ps))
    ensures '?' !in Serialize(QueryPairs(ps))
  {
    NoMarkInQuery(QueryPairs(ps));
  }

  /** The serialized query never contains `?`, `#` or a space. */
  lemma {:induction false} NoMarkInQuery(ps: seq<Pair>)
    ensures forall c :: c in Serialize(ps) ==> EncodedChar(c) || c == '=' || c == '&'
  {
    if |ps| > 1 {
      NoMarkInQuery(ps[1..]);
    }
  }

  // ---------------------------------------------------------------------------
  // Reading a query back: the partner of Serialize

  /** The first position of `c` in `s`, or -1. */
  function IndexOf(s: string, c: char): (r: int)
    ensures -1 <= r < |s|
    ensures r >= 0 ==> s[r] == c && c !in s[..r]
    ensures r == -1 ==> c !in s
  {
    if s == [] then -1
    else if s[0] == c then 0
    else
      var k := IndexOf(s[1..], c);
      if k < 0 then -1
      else
        assert s[..k + 1] == [s[0]] + s[1..][..k];
        k + 1
  }

  predicate IsHex(c: char) {
    ('0' <= c <= '9') || ('A' <= c <= 'F') || ('a' <= c <= 'f')
  }

  function HexValue(c: char): (v: int)
    requires IsHex(c)
    ensures 0 <= v < 16
  {
    if '0' <= c <= '9' then c as int - '0' as int
    else if 'A' <= c <= 'F' then c as int - 'A' as int + 10
    else c as int - 'a' as int + 10
  }

  /** Percent-decoding of a name or a value, one byte per escape: `+` is a
      space and `%XX` the character with code XX. It inverts `Encode` on ASCII
      text, which is what the service sends. */
  function Decode(s: string): string
    decreases |s|
  {
    if s == [] then []
    else if s[0] == '+' then [' '] + Decode(s[1..])
    else if s[0] == '%' && |s| >= 3 && IsHex(s[1]) && IsHex(s[2]) then
      [(HexValue(s[1]) * 16 + HexValue(s[2])) as char] + Decode(s[3..])
    else [s[0]] + Decode(s[1..])
  }

  /** One `name=value` segment; a segment without `=` is a name with an empty value. */
  function ParsePair(seg: string): Pair {
    var j := IndexOf(seg, '=');
    if j < 0 then (Decode(seg), "") else (Decode(seg[..j]), Decode(seg[j + 1..]))
  }

  /** Splits a query on `&`, skipping empty segments, and reads each segment. */
  function ParseQuery(q: string): seq<Pair>
    decreases |q|
  {
    if q == [] then []
    else
      var i := IndexOf(q, '&');
      if i < 0 then [ParsePair(q)]
      else (if i == 0 then [] else [ParsePair(q[..i])]) + ParseQuery(q[i + 1..])
  }

  lemma HexRoundTrip(d: int)
    requires 0 <= d < 16
    ensures IsHex(HexDigit(d)) && HexValue(HexDigit(d)) == d
  {
  }

  lemma DecodeEncodeChar(c: char, rest: string)
    requires c as int < 128
    ensures Decode(EncodeChar(c) + rest) == [c] + Decode(rest)
  {
    var e := EncodeChar(c);
    if c == ' ' {
      assert (e + rest)[1..] == rest;
    } else if Unreserved(c) {
      assert (e + rest)[1..] == rest;
    } else {
      var b := c as int;
      HexRoundTrip(b / 16);
      HexRoundTrip(b % 16);
      assert e == ['%', HexDigit(b / 16), HexDigit(b % 16)] + PercentBytes([]);
      assert (e + rest)[3..] == rest;
    }
  }

  /** Decoding undoes encoding, for ASCII text. */
  lemma {:induction false} DecodeEncode(s: string)
    requires IsAscii(s)
    ensures Decode(Encode(s)) == s
  {
    if s != [] {
      assert s[0] in s;
      assert forall c :: c in s[1..] ==> c in s;
      DecodeEncode(s[1..]);
      DecodeEncodeChar(s[0], Encode(s[1..]));
      assert s == [s[0]] + s[1..];
    }
  }

  /** The first `c` in `a + [c] + b` is the one after `a` when `a` has none. */
  lemma IndexAfter(a: string, c: char, b: string)
    requires c !in a
    ensures IndexOf(a + [c] + b, c) == |a|
  {
    var s := a + [c] + b;
    assert s[..|a|] == a;
    assert s[|a|] == c;
    assert s[|a|] in s;
  }

  lemma SerializedPairShape(p: Pair)
    ensures SerializePair(p) == Encode(p.0) + ['='] + Encode(p.1)
    ensures '&' !in SerializePair(p) && '=' !in Encode(p.0)
  {
  }

  lemma ParseSerializedPair(p: Pair)
    requires IsAscii(p.0) && IsAscii(p.1)
    ensures '&' !in SerializePair(p) && SerializePair(p) != []
    ensures ParsePair(SerializePair(p)) == p
  {
    var k := Encode(p.0);
    var v := Encode(p.1);
    var seg := SerializePair(p);
    SerializedPairShape(p);
    IndexAfter(k, '=', v);
    assert seg[..|k|] == k;
    assert seg[|k| + 1..] == v;
    assert ParsePair(seg) == (Decode(k), Decode(v));
    DecodeEncode(p.0);
    DecodeEncode(p.1);
  }

  /** A non-empty segment before the first `&` is read, then the rest. */
  lemma ParseQueryStep(head: string, rest: string)
    requires head != [] && '&' !in head
    ensures ParseQuery(head + "&" + rest) == [ParsePair(head)] + ParseQuery(rest)
  {
    var q := head + "&" + rest;
    IndexAfter(head, '&', rest);
    assert q[..|head|] == head;
    assert q[|head| + 1..] == rest;
  }

  /** Reading back a serialized query gives the pairs that were serialized, for
      ASCII names and values. */
  lemma {:induction false} ParseSerialize(ps: seq<Pair>)
    requires forall p :: p in ps ==> IsAscii(p.0) && IsAscii(p.1)
    ensures ParseQuery(Serialize(ps)) == ps
  {
    if ps != [] {
      assert ps[0] in ps;
      ParseSerializedPair(ps[0]);
      var head := SerializePair(ps[0]);
      if |ps| > 1 {
        var rest := Serialize(ps[1..]);
        assert Serialize(ps) == head + "&" + rest;
        ParseQueryStep(head, rest);
        assert forall p :: p in ps[1..] ==> p in ps;
        ParseSerialize(ps[1..]);
        assert ps == [ps[0]] + ps[1..];
      }
    }
  }

  // ---------------------------------------------------------------------------
  // getPokemonList and getPokemonById

  function Keys(ps: seq<Param>): seq<string> {
    seq(|ps|, i requires 0 <= i < |ps| => ps[i].key)
  }

  predicate HasKey(ps: seq<Param>, key: string) {
    exists p :: p in ps && p.key == key
  }

  function OptionalParam(key: string, v: Option<ParamValue>): seq<Param> {
    match v
    case Some(x) => [Param(key, x)]
    case None => []
  }

  function NumValue(o: Option<int>): Option<ParamValue> {
    match o
    case Some(n) => Some(One(Num(n)))
    case None => None
  }

  function NumArray(ns: seq<int>): seq<Scalar> {
    seq(|ns|, i requires 0 <= i < |ns| => Num(ns[i]))
  }

  function TypesValue(o: Option<seq<int>>): Option<ParamValue> {
    match o
    case Some(ns) => Some(Many(NumArray(ns)))
    case None => None
  }

  function NameValue(o: Option<string>): Option<ParamValue> {
    match o
    case Some(n) => Some(One(Str(n)))
    case None => None
  }

  const ListKeyOrder: seq<string> := ["limit", "page", "typeId", "types", "name"]

  /** The parameter record `getPokemonList` builds: `limit` always, defaulting to
      50 when undefined, then `page`, `typeId`, `types` and `name`, each exactly
      when it is not undefined. */
  function ListParams(f: Filters): (r: seq<Param>)
    ensures |r| >= 1 && r[0] == Param("limit", One(Num(f.limit.GetOr(DefaultLimit))))
    ensures HasKey(r, "page") <==> f.page.Some?
    ensures HasKey(r, "typeId") <==> f.typeId.Some?
    ensures HasKey(r, "types") <==> f.types.Some?
    ensures HasKey(r, "name") <==> f.name.Some?
    ensures forall p :: p in r ==> p.value != Undefined && p.value != Null
    ensures Subseq(Keys(r), ListKeyOrder)
    ensures forall p :: p in r && p.key == "limit" ==> p.value == One(Num(f.limit.GetOr(DefaultLimit)))
    ensures forall p :: p in r && p.key == "page" ==> f.page.Some? && p.value == One(Num(f.page.value))
    ensures forall p :: p in r && p.key == "typeId" ==> f.typeId.Some? && p.value == One(Num(f.typeId.value))
    ensures forall p :: p in r && p.key == "types" ==> f.types.Some? && p.value == Many(NumArray(f.types.value))
    ensures forall p :: p in r && p.key == "name" ==> f.name.Some? && p.value == One(Str(f.name.value))
  {
    var r := [Param("limit", One(Num(f.limit.GetOr(DefaultLimit))))]
      + (OptionalParam("page", NumValue(f.page))
      + (OptionalParam("typeId", NumValue(f.typeId))
      + (OptionalParam("types", TypesValue(f.types))
      + OptionalParam("name", NameValue(f.name)))));
    ListParamsShape(f, r);
    ListParamsValues(f, r);
    KeyOrder(f, r);
    r
  }

  /** Every entry carries the filter's own value under its key. */
  lemma ListParamsValues(f: Filters, r: seq<Param>)
    requires r == [Param("limit", One(Num(f.limit.GetOr(DefaultLimit))))]
      + (OptionalParam("page", NumValue(f.page))
      + (OptionalParam("typeId", NumValue(f.typeId))
      + (OptionalParam("types", TypesValue(f.types))
      + OptionalParam("name", NameValue(f.name)))))
    ensures forall p :: p in r && p.key == "limit" ==> p.value == One(Num(f.limit.GetOr(DefaultLimit)))
    ensures forall p :: p in r && p.key == "page" ==> f.page.Some? && p.value == One(Num(f.page.value))
    ensures forall p :: p in r && p.key == "typeId" ==> f.typeId.Some? && p.value == One(Num(f.typeId.value))
    ensures forall p :: p in r && p.key == "types" ==> f.types.Some? && p.value == Many(NumArray(f.types.value))
    ensures forall p :: p in r && p.key == "name" ==> f.name.Some? && p.value == One(Str(f.name.value))
  {
    var p0 := [Param("limit", One(Num(f.limit.GetOr(DefaultLimit))))];
    var p1 := OptionalParam("page", NumValue(f.page));
    var p2 := OptionalParam("typeId", NumValue(f.typeId));
    var p3 := OptionalParam("types", TypesValue(f.types));
    var p4 := OptionalParam("name", NameValue(f.name));
    forall p | p in r
      ensures p.key == "limit" ==> p.value == One(Num(f.limit.GetOr(DefaultLimit)))
      ensures p.key == "page" ==> f.page.Some? && p.value == One(Num(f.page.value))
      ensures p.key == "typeId" ==> f.typeId.Some? && p.value == One(Num(f.typeId.value))
      ensures p.key == "types" ==> f.types.Some? && p.value == Many(NumArray(f.types.value))
      ensures p.key == "name" ==> f.name.Some? && p.value == One(Str(f.name.value))
    {
      assert r == p0 + (p1 + (p2 + (p3 + p4)));
      assert p in p0 || p in p1 || p in p2 || p in p3 || p in p4;
      OptionalParamEntry("page", NumValue(f.page), p);
      OptionalParamEntry("typeId", NumValue(f.typeId), p);
      OptionalParamEntry("types", TypesValue(f.types), p);
      OptionalParamEntry("name", NameValue(f.name), p);
    }
  }

  /** Each optional entry carries its own key and a defined value. */
  lemma OptionalParamEntry(key: string, v: Option<ParamValue>, p: Param)
    requires v.None? || (v.value != Undefined && v.value != Null)
    ensures p in OptionalParam(key, v) <==> v.Some? && p == Param(key, v.value)
  {
  }

  lemma ListParamsShape(f: Filters, r: seq<Param>)
    requires r == [Param("limit", One(Num(f.limit.GetOr(DefaultLimit))))]
      + (OptionalParam("page", NumValue(f.page))
      + (OptionalParam("typeId", NumValue(f.typeId))
      + (OptionalParam("types", TypesValue(f.types))
      + OptionalParam("name", NameValue(f.name)))))
    ensures HasKey(r, "page") <==> f.page.Some?
    ensures HasKey(r, "typeId") <==> f.typeId.Some?
    ensures HasKey(r, "types") <==> f.types.Some?
    ensures HasKey(r, "name") <==> f.name.Some?
    ensures forall p :: p in r ==> p.value != Undefined && p.value != Null
  {
    var p0 := [Param("limit", One(Num(f.limit.GetOr(DefaultLimit))))];
    var p1 := OptionalParam("page", NumValue(f.page));
    var p2 := OptionalParam("typeId", NumValue(f.typeId));
    var p3 := OptionalParam("types", TypesValue(f.types));
    var p4 := OptionalParam("name", NameValue(f.name));
    forall p ensures p in r <==> p in p0 || p in p1 || p in p2 || p in p3 || p in p4 {
      assert r == p0 + (p1 + (p2 + (p3 + p4)));
    }
    forall p | p in r ensures p.value != Undefined && p.value != Null {
      OptionalParamEntry("page", NumValue(f.page), p);
      OptionalParamEntry("typeId", NumValue(f.typeId), p);
      OptionalParamEntry("types", TypesValue(f.types), p);
      OptionalParamEntry("name", NameValue(f.name), p);
    }
    KeyPresence(f, r, "page");
    KeyPresence(f, r, "typeId");
    KeyPresence(f, r, "types");
    KeyPresence(f, r, "name");
  }

  /** Which keys the record holds, one key at a time. */
  lemma KeyPresence(f: Filters, r: seq<Param>, key: string)
    requires r == [Param("limit", One(Num(f.limit.GetOr(DefaultLimit))))]
      + (OptionalParam("page", NumValue(f.page))
      + (OptionalParam("typeId", NumValue(f.typeId))
      + (OptionalParam("types", TypesValue(f.types))
      + OptionalParam("name", NameValue(f.name)))))
    ensures HasKey(r, key) <==>
      key == "limit" || (key == "page" && f.page.Some?) || (key == "typeId" && f.typeId.Some?)
      || (key == "types" && f.types.Some?) || (key == "name" && f.name.Some?)
  {
    KeysOptional("page", NumValue(f.page));
    KeysOptional("typeId", NumValue(f.typeId));
    KeysOptional("types", TypesValue(f.types));
    KeysOptional("name", NameValue(f.name));
    var p1 := OptionalParam("page", NumValue(f.page));
    var p2 := OptionalParam("typeId", NumValue(f.typeId));
    var p3 := OptionalParam("types", TypesValue(f.types));
    var p4 := OptionalParam("name", NameValue(f.name));
    KeysConcat(p3, p4);
    KeysConcat(p2, p3 + p4);
    KeysConcat(p1, p2 + (p3 + p4));
    KeysConcat([r[0]], p1 + (p2 + (p3 + p4)));
    var k1, k2, k3, k4 := Keys(p1), Keys(p2), Keys(p3), Keys(p4);
    assert Keys(r) == ["limit"] + (k1 + (k2 + (k3 + k4)));
    assert key in Keys(r) <==> key == "limit" || key in k1 || key in k2 || key in k3 || key in k4;
    assert key in k1 <==> key == "page" && f.page.Some?;
    assert key in k2 <==> key == "typeId" && f.typeId.Some?;
    assert key in k3 <==> key == "types" && f.types.Some?;
    assert key in k4 <==> key == "name" && f.name.Some?;
    HasKeyIsKeyIn(r, key);
  }

  lemma HasKeyIsKeyIn(ps: seq<Param>, key: string)
    ensures HasKey(ps, key) <==> key in Keys(ps)
  {
    if key in Keys(ps) {
      var i :| 0 <= i < |ps| && Keys(ps)[i] == key;
      assert ps[i] in ps;
    }
    if HasKey(ps, key) {
      var p :| p in ps && p.key == key;
      var i :| 0 <= i < |ps| && ps[i] == p;
      assert Keys(ps)[i] == key;
    }
  }

  lemma KeyOrder(f: Filters, r: seq<Param>)
    requires r == [Param("limit", One(Num(f.limit.GetOr(DefaultLimit))))]
      + (OptionalParam("page", NumValue(f.page))
      + (OptionalParam("typeId", NumValue(f.typeId))
      + (OptionalParam("types", TypesValue(f.types))
      + OptionalParam("name", NameValue(f.name)))))
    ensures Subseq(Keys(r), ListKeyOrder)
  {
    var p1 := OptionalParam("page", NumValue(f.page));
    var p2 := OptionalParam("typeId", NumValue(f.typeId));
    var p3 := OptionalParam("types", TypesValue(f.types));
    var p4 := OptionalParam("name", NameValue(f.name));
    KeysOptional("page", NumValue(f.page));
    KeysOptional("typeId", NumValue(f.typeId));
    KeysOptional("types", TypesValue(f.types));
    KeysOptional("name", NameValue(f.name));
    KeysConcat(p3, p4);
    KeysConcat(p2, p3 + p4);
    KeysConcat(p1, p2 + (p3 + p4));
    KeysConcat([r[0]], p1 + (p2 + (p3 + p4)));
    var k4 := Keys(p4);
    var k3 := Keys(p3 + p4);
    var k2 := Keys(p2 + (p3 + p4));
    var k1 := Keys(p1 + (p2 + (p3 + p4)));
    assert Keys(r) == ["limit"] + k1;
    assert Subseq(k4, ["name"]) by {
      if f.name.Some? { SubseqRefl(k4); }
    }
    assert ["types"] + ["name"] == ["types", "name"];
    if f.types.Some? {
      assert k3 == ["types"] + k4;
      SubseqCons("types", k4, ["name"]);
    } else {
      assert k3 == k4;
      SubseqSkip("types", k4, ["name"]);
    }
    assert ["typeId"] + ["types", "name"] == ["typeId", "types", "name"];
    if f.typeId.Some? {
      assert k2 == ["typeId"] + k3;
      SubseqCons("typeId", k3, ["types", "name"]);
    } else {
      assert k2 == k3;
      SubseqSkip("typeId", k3, ["types", "name"]);
    }
    assert ["page"] + ["typeId", "types", "name"] == ["page", "typeId", "types", "name"];
    if f.page.Some? {
      assert k1 == ["page"] + k2;
      SubseqCons("page", k2, ["typeId", "types", "name"]);
    } else {
      assert k1 == k2;
      SubseqSkip("page", k2, ["typeId", "types", "name"]);
    }
    assert ["limit"] + ["page", "typeId", "types", "name"] == ListKeyOrder;
    SubseqCons("limit", k1, ["page", "typeId", "types", "name"]);
  }

  lemma KeysConcat(a: seq<Param>, b: seq<Param>)
    ensures Keys(a + b) == Keys(a) + Keys(b)
  {
  }

  lemma KeysOptional(key: string, v: Option<ParamValue>)
    ensures Keys(OptionalParam(key, v)) == if v.Some? then [key] else []
  {
  }

  /** The URL `getPokemonList(filters)` fetches: since `limit` is always sent,
      the endpoint is always followed by a query, and that query opens with the
      limit. */
  function ListUrl(f: Filters): (url: string)
    ensures ListEndpoint + "?limit=" + IntToString(f.limit.GetOr(DefaultLimit)) <= url
  {
    ListUrlOpensWithLimit(f);
    UrlFor(ListEndpoint, Some(ListParams(f)))
  }

  lemma ListUrlOpensWithLimit(f: Filters)
    ensures ListEndpoint + "?limit=" + IntToString(f.limit.GetOr(DefaultLimit)) <= UrlFor(ListEndpoint, Some(ListParams(f)))
  {
    ListPairsOpenWithLimit(f);
    IntToStringUnreserved(f.limit.GetOr(DefaultLimit));
    UrlOpensWithLimit(ListEndpoint, ListParams(f), IntToString(f.limit.GetOr(DefaultLimit)));
  }

  /** A record whose first pair is an unescaped limit yields a URL that opens
      with `?limit=` and that value. */
  lemma UrlOpensWithLimit(endpoint: string, ps: seq<Param>, t: string)
    requires QueryPairs(ps) != [] && QueryPairs(ps)[0] == ("limit", t)
    requires forall c :: c in t ==> Unreserved(c)
    ensures endpoint + "?limit=" + t <= UrlFor(endpoint, Some(ps))
  {
    var query := Serialize(QueryPairs(ps));
    QueryOpensWithLimit(QueryPairs(ps), t);
    assert UrlFor(endpoint, Some(ps)) == endpoint + "?" + query;
    MarkThenLimit(endpoint, t, query);
  }

  lemma MarkThenLimit(endpoint: string, t: string, query: string)
    requires "limit=" + t <= query
    ensures endpoint + "?limit=" + t <= endpoint + "?" + query
  {
    PrefixExtends(endpoint + "?", "limit=" + t, query);
    assert endpoint + "?limit=" + t == (endpoint + "?") + ("limit=" + t);
  }

  lemma QueryOpensWithLimit(pairs: seq<Pair>, t: string)
    requires pairs != [] && pairs[0] == ("limit", t)
    requires forall c :: c in t ==> Unreserved(c)
    ensures Serialize(pairs) != ""
    ensures "limit=" + t <= Serialize(pairs)
  {
    SerializeOpensWithFirst(pairs);
    EncodeKeepsUnreserved("limit");
    EncodeKeepsUnreserved(t);
  }

  /** The first pair of the list request is the limit. */
  lemma ListPairsOpenWithLimit(f: Filters)
    ensures QueryPairs(ListParams(f)) != []
    ensures QueryPairs(ListParams(f))[0] == ("limit", IntToString(f.limit.GetOr(DefaultLimit)))
  {
    var r := ListParams(f);
    assert r == [r[0]] + r[1..];
    QueryPairsConcat([r[0]], r[1..]);
    assert QueryPairs([r[0]]) == [("limit", IntToString(f.limit.GetOr(DefaultLimit)))] by {
      assert [r[0]][..0] == [];
    }
  }

  /** The serialized query opens with its first pair. */
  lemma SerializeOpensWithFirst(ps: seq<Pair>)
    requires ps != []
    ensures SerializePair(ps[0]) <= Serialize(ps)
  {
  }

  /** The decimal form of an integer needs no escaping. */
  lemma IntToStringUnreserved(n: int)
    ensures forall c :: c in IntToString(n) ==> Unreserved(c)
  {
    if n < 0 {
      var d := NatToDecimal(-n);
      assert IntToString(n) == "-" + d;
      assert forall c :: c in d ==> IsDigit(c);
    } else {
      assert forall c :: c in NatToDecimal(n) ==> IsDigit(c);
    }
  }

  /** `page: 0` is sent: the default only ever applies to `limit`. */
  lemma PageZeroIsSent(f: Filters)
    requires f.page == Some(0)
    ensures ("page", "0") in QueryPairs(ListParams(f))
  {
    var r := ListParams(f);
    assert r[1] == Param("page", One(Num(0)));
    assert r == r[..2] + r[2..];
    assert r[..2] == [r[0]] + [r[1]];
    QueryPairsConcat(r[..2], r[2..]);
    QueryPairsSnoc([r[0]], r[1]);
    assert EntryPairs(r[1]) == [("page", "0")];
    assert ("page", "0") in QueryPairs(r[..2]);
  }

  /** The URL `getPokemonById(id)` fetches. */
  function ByIdUrl(pokedexId: int): (url: string)
    ensures |url| > |ByIdPrefix| && url[..|ByIdPrefix|] == ByIdPrefix
    ensures CanonicalInt(url[|ByIdPrefix|..])
  {
    ByIdPrefix + IntToString(pokedexId)
  }

  /** The id can be read back from the by-id URL, and the URL spells it the
      one canonical way: no other canonical text reads back as the same id. */
  lemma ByIdUrlRoundTrip(pokedexId: int)
    ensures ParseInt(ByIdUrl(pokedexId)[|ByIdPrefix|..]) == Some(pokedexId)
    ensures forall t :: CanonicalInt(t) && ParseInt(t) == Some(pokedexId) ==> t == ByIdUrl(pokedexId)[|ByIdPrefix|..]
  {
    assert ByIdUrl(pokedexId)[|ByIdPrefix|..] == IntToString(pokedexId);
    IntToStringRoundTrip(pokedexId);
    forall t | CanonicalInt(t) && ParseInt(t) == Some(pokedexId)
      ensures t == IntToString(pokedexId)
    {
      CanonicalIntIsIntToString(t, pokedexId);
    }
  }
}
