/** The canonical query string: its encoding, the map it is built from, and the signature appended to it. */
module Query {
  import opened Options
  import opened DigitText
  import opened Lexicographic

  /** A char of a std::string. */
  type Byte = c: char | c < '\U{100}'

  type Bytes = seq<Byte>

  /** One entry of the map. */
  datatype Param = Param(key: Bytes, value: Bytes)

  // ---- percent-encoding ----

  /** Unreserved characters (section 2.3 of RFC 3986). */
  predicate Unreserved(c: Byte) {
    'a' <= c <= 'z' || 'A' <= c <= 'Z' || '0' <= c <= '9' || c in {'-', '_', '.', '~'}
  }

  function UpperHex(d: nat): Byte
    requires d < 16
  {
    if d < 10 then ('0' as int + d) as char else ('A' as int + d - 10) as char
  }

  /** `%02X`. */
  function Escape(c: Byte): Bytes {
    ['%', UpperHex(c as int / 16), UpperHex(c as int % 16)]
  }

  function EncodeByte(c: Byte): Bytes { if Unreserved(c) then [c] else Escape(c) }

  function Encode(s: Bytes): Bytes {
    if s == [] then [] else EncodeByte(s[0]) + Encode(s[1..])
  }

  /** By code: letters, digits, hyphen, point, underscore and tilde stand for themselves; every other byte is a percent
      sign and its code in two upper-case hexadecimal digits. */
  lemma {:induction false} EncodedByte(c: Byte)
    ensures var n, e := c as int, EncodeByte(c);
      if 48 <= n <= 57 || 65 <= n <= 90 || 97 <= n <= 122 || n in {45, 46, 95, 126} then e == [c]
      else |e| == 3 && e[0] as int == 37 && e[1] == "0123456789ABCDEF"[n / 16] && e[2] == "0123456789ABCDEF"[n % 16]
  {
    HexDigits(c as int / 16);
    HexDigits(c as int % 16);
    hide UpperHex;
  }

  lemma {:induction false} HexDigits(d: nat)
    requires d < 16
    ensures UpperHex(d) == "0123456789ABCDEF"[d]
  {
    if d < 8 {
      assert d in {0, 1, 2, 3, 4, 5, 6, 7};
    } else {
      assert d in {8, 9, 10, 11, 12, 13, 14, 15};
    }
  }

  lemma {:induction false} EncodeAppend(s: Bytes, c: Byte)
    ensures Encode(s + [c]) == Encode(s) + EncodeByte(c)
  {
    hide EncodeByte;
    if s == [] {
      assert s + [c] == [c];
      assert [c][1..] == [];
    } else {
      assert (s + [c])[1..] == s[1..] + [c];
      EncodeAppend(s[1..], c);
    }
  }

  /** percent_encode. */
  method PercentEncode(value: Bytes) returns (out: Bytes)
    ensures out == Encode(value)
  {
    hide Encode, Escape, Unreserved;
    out := [];
    var i := 0;
    assert Encode(value[..0]) == [] by { EncodeEmpty(); }
    while i < |value|
      invariant 0 <= i <= |value| && out == Encode(value[..i])
    {
      var ch := value[i];
      EncodeAppend(value[..i], ch);
      assert value[..i] + [ch] == value[..i + 1];
      if Unreserved(ch) {
        out := out + [ch];
      } else {
        out := out + Escape(ch);
      }
      i := i + 1;
    }
    assert value[..i] == value;
  }

  lemma {:induction false} EncodeEmpty()
    ensures Encode([]) == []
  {
  }

  /** A hexadecimal digit of either case (section 2.1 of RFC 3986). */
  function HexValue(c: Byte): Option<nat> {
    if '0' <= c <= '9' then Some(c as int - '0' as int)
    else if 'A' <= c <= 'F' then Some(c as int - 'A' as int + 10)
    else if 'a' <= c <= 'f' then Some(c as int - 'a' as int + 10)
    else None
  }

  /** The bytes a percent-encoded text stands for. */
  function Decode(s: Bytes): Option<Bytes> {
    if s == [] then Some([])
    else if s[0] != '%' then
      match Decode(s[1..]) case None => None case Some(rest) => Some([s[0]] + rest)
    else if |s| < 3 || HexValue(s[1]) == None || HexValue(s[2]) == None then None
    else
      var c: Byte := FromHex(HexValue(s[1]).value, HexValue(s[2]).value);
      match Decode(s[3..]) case None => None case Some(rest) => Some([c] + rest)
  }

  function FromHex(hi: nat, lo: nat): Byte {
    if hi < 16 && lo < 16 then (hi * 16 + lo) as char else '?'
  }

  /** The texts percent_encode writes: unreserved characters, and upper-case escapes of the others. */
  predicate Canonical(s: Bytes) {
    s == [] ||
    (if s[0] != '%' then Unreserved(s[0]) && Canonical(s[1..])
     else |s| >= 3 && HexValue(s[1]) != None && HexValue(s[2]) != None && !('a' <= s[1] <= 'f') && !('a' <= s[2] <= 'f')
          && !Unreserved(FromHex(HexValue(s[1]).value, HexValue(s[2]).value)) && Canonical(s[3..]))
  }

  lemma {:induction false} HexReadsBack(d: nat)
    requires d < 16
    ensures HexValue(UpperHex(d)) == Some(d) && !('a' <= UpperHex(d) <= 'f')
  {
  }

  lemma {:induction false} HexWritesBack(c: Byte)
    requires HexValue(c) != None
    ensures HexValue(c).value < 16 && (UpperHex(HexValue(c).value) == c <==> !('a' <= c <= 'f'))
  {
  }

  lemma {:induction false} EscapeReadsBack(c: Byte)
    ensures FromHex(c as int / 16, c as int % 16) == c
  {
  }

  /** Every byte string is recovered from its encoding, which is canonical and free of delimiters. */
  lemma {:induction false} EncodeReadsBack(s: Bytes)
    ensures Decode(Encode(s)) == Some(s) && Canonical(Encode(s))
    ensures forall k :: 0 <= k < |Encode(s)| ==> Encode(s)[k] == '%' || Unreserved(Encode(s)[k])
  {
    hide UpperHex, HexValue, FromHex;
    if s != [] {
      EncodeReadsBack(s[1..]);
      var c, e := s[0], Encode(s);
      assert s == [c] + s[1..];
      if Unreserved(c) {
        assert e == [c] + Encode(s[1..]) && e[1..] == Encode(s[1..]);
      } else {
        var hi, lo := c as int / 16, c as int % 16;
        HexReadsBack(hi); HexReadsBack(lo); EscapeReadsBack(c);
        HexUnreserved(hi); HexUnreserved(lo);
        assert e == Escape(c) + Encode(s[1..]) && e[3..] == Encode(s[1..]);
        assert e[1] == UpperHex(hi) && e[2] == UpperHex(lo);
      }
    }
  }

  lemma {:induction false} HexUnreserved(d: nat)
    requires d < 16
    ensures Unreserved(UpperHex(d))
  {
  }

  /** A text that decodes is the encoding of what it decodes to exactly when it is canonical. */
  lemma {:induction false} CanonicalIff(s: Bytes)
    requires Decode(s) != None
    ensures Encode(Decode(s).value) == s <==> Canonical(s)
  {
    hide UpperHex, HexValue, FromHex, Unreserved;
    if s != [] {
      if s[0] != '%' {
        var v := Decode(s[1..]).value;
        CanonicalIff(s[1..]);
        assert ([s[0]] + v)[1..] == v;
        PlainHead(s[0], v, s[1..]);
        assert s == [s[0]] + s[1..];
      } else {
        var v := Decode(s[3..]).value;
        CanonicalIff(s[3..]);
        var hi, lo := HexValue(s[1]).value, HexValue(s[2]).value;
        var c: Byte := FromHex(hi, lo);
        assert ([c] + v)[1..] == v;
        assert s == [s[0], s[1], s[2]] + s[3..];
        EscapedHead(s[1], s[2], v, s[3..]);
      }
    }
  }

  lemma {:induction false} PercentReserved()
    ensures !Unreserved('%')
  {
  }

  lemma {:induction false} PlainHead(c: Byte, v: Bytes, rest: Bytes)
    requires c != '%'
    ensures EncodeByte(c) + Encode(v) == [c] + rest <==> Unreserved(c) && Encode(v) == rest
  {
    hide UpperHex, Unreserved, Encode;
    if Unreserved(c) {
      assert ([c] + Encode(v))[1..] == Encode(v) && ([c] + rest)[1..] == rest;
    } else {
      assert (EncodeByte(c) + Encode(v))[0] == '%';
    }
  }

  lemma {:induction false} EscapedHead(a: Byte, b: Byte, v: Bytes, rest: Bytes)
    requires HexValue(a) != None && HexValue(b) != None
    ensures var c := FromHex(HexValue(a).value, HexValue(b).value);
      EncodeByte(c) + Encode(v) == ['%', a, b] + rest <==>
      !Unreserved(c) && !('a' <= a <= 'f') && !('a' <= b <= 'f') && Encode(v) == rest
  {
    hide UpperHex, HexValue, Unreserved, Encode;
    PercentReserved();
    HexWritesBack(a);
    HexWritesBack(b);
    var hi, lo := HexValue(a).value, HexValue(b).value;
    var c: Byte := FromHex(hi, lo);
    assert c as int / 16 == hi && c as int % 16 == lo;
    var l, r: Bytes := EncodeByte(c) + Encode(v), ['%', a, b] + rest;
    assert r[0] == '%' && r[1] == a && r[2] == b && r[3..] == rest;
    if Unreserved(c) {
      assert l[0] == c;
    } else {
      assert l[1] == UpperHex(hi) && l[2] == UpperHex(lo) && l[3..] == Encode(v);
      if l[3..] == r[3..] && l[1] == a && l[2] == b {
        assert l == [l[0], l[1], l[2]] + l[3..] && r == [r[0], r[1], r[2]] + r[3..];
      }
    }
  }

  // ---- the query string ----

  function Pair(p: Param): Bytes { Encode(p.key) + ['='] + Encode(p.value) }

  function Build(q: seq<Param>): Bytes {
    if q == [] then [] else if |q| == 1 then Pair(q[0]) else Pair(q[0]) + ['&'] + Build(q[1..])
  }

  lemma {:induction false} BuildAppend(q: seq<Param>, p: Param)
    ensures Build(q + [p]) == if q == [] then Pair(p) else Build(q) + ['&'] + Pair(p)
    ensures q != [] ==> Build(q) != []
  {
    hide Pair;
    if q == [] {
      assert q + [p] == [p];
    } else {
      assert (q + [p])[1..] == q[1..] + [p];
      BuildAppend(q[1..], p);
      PairLength(q[0]);
    }
  }

  lemma {:induction false} PairLength(p: Param)
    ensures Pair(p) != []
  {
    assert Pair(p)[|Encode(p.key)|] == '=';
  }

  lemma {:induction false} BuildNothing()
    ensures Build([]) == []
  {
  }

  /** By code: an equals sign behind the key of every pair, and an ampersand between pairs. */
  lemma {:induction false} Separators(q: seq<Param>, p: Param)
    ensures Pair(p)[|Encode(p.key)|] as int == 61 && |Pair(p)| == |Encode(p.key)| + 1 + |Encode(p.value)|
    ensures q != [] ==> |Build(q + [p])| == |Build(q)| + 1 + |Pair(p)| && Build(q + [p])[|Build(q)|] as int == 38
  {
    hide Build;
    BuildAppend(q, p);
  }

  /** build_query_string: a '&' goes in front of every pair that does not start the text. */
  method BuildQueryString(query: seq<Param>) returns (out: Bytes)
    ensures out == Build(query)
  {
    hide Encode, Build;
    out := [];
    var i := 0;
    assert Build(query[..0]) == [] by { BuildNothing(); }
    while i < |query|
      invariant 0 <= i <= |query| && out == Build(query[..i])
    {
      BuildAppend(query[..i], query[i]);
      assert query[..i] + [query[i]] == query[..i + 1];
      if out != [] { out := out + ['&']; }
      var key := PercentEncode(query[i].key);
      var value := PercentEncode(query[i].value);
      assert out + Pair(query[i]) == ((out + key) + ['=']) + value;
      out := ((out + key) + ['=']) + value;
      i := i + 1;
    }
    assert query[..i] == query;
  }

  /** The first place of a byte, or the length. */
  function Until(s: Bytes, c: Byte): (n: nat)
    ensures n <= |s|
  {
    if s == [] || s[0] == c then 0 else 1 + Until(s[1..], c)
  }

  function DecodePair(s: Bytes): Option<Param> {
    var i := Until(s, '=');
    if i == |s| then None
    else match (Decode(s[..i]), Decode(s[i + 1..]))
      case (Some(k), Some(v)) => Some(Param(k, v))
      case _ => None
  }

  /** What a receiver reads: pairs split at '&' and '=', each side percent-decoded. */
  function DecodeQuery(s: Bytes): Option<seq<Param>>
    decreases |s|
  {
    if s == [] then Some([])
    else
      var i := Until(s, '&');
      if i == |s| then match DecodePair(s) case None => None case Some(p) => Some([p])
      else match (DecodePair(s[..i]), DecodeQuery(s[i + 1..]))
        case (Some(p), Some(rest)) => Some([p] + rest)
        case _ => None
  }

  lemma {:induction false} UntilFirst(s: Bytes, c: Byte, rest: Bytes)
    requires c !in s
    ensures Until(s, c) == |s| && Until(s + [c] + rest, c) == |s|
  {
    if s != [] {
      UntilFirst(s[1..], c, rest);
      assert (s + [c] + rest)[1..] == s[1..] + [c] + rest;
    }
  }

  lemma {:induction false} NoDelimiter(s: Bytes)
    ensures '=' !in Encode(s) && '&' !in Encode(s)
  {
    EncodeReadsBack(s);
  }

  lemma {:induction false} PairReadsBack(p: Param)
    ensures DecodePair(Pair(p)) == Some(p) && '&' !in Pair(p)
  {
    hide Encode, Decode, Until;
    var k, v := Encode(p.key), Encode(p.value);
    NoDelimiter(p.key);
    NoDelimiter(p.value);
    UntilFirst(k, '=', v);
    assert Pair(p)[..|k|] == k && Pair(p)[|k| + 1..] == v;
    EncodeReadsBack(p.key);
    EncodeReadsBack(p.value);
  }

  /** The query is recovered from its text. */
  lemma {:induction false} BuildReadsBack(q: seq<Param>)
    ensures DecodeQuery(Build(q)) == Some(q)
  {
    hide Pair, DecodePair, Until;
    if q != [] {
      var t := Pair(q[0]);
      PairReadsBack(q[0]);
      PairLength(q[0]);
      if |q| == 1 {
        UntilFirst(t, '&', []);
        assert q == [q[0]];
      } else {
        var rest := Build(q[1..]);
        UntilFirst(t, '&', rest);
        BuildReadsBack(q[1..]);
        var s := t + ['&'] + rest;
        assert s[..|t|] == t && s[|t| + 1..] == rest;
        assert q == [q[0]] + q[1..];
      }
    }
  }

  /** Different queries have different texts. */
  lemma {:induction false} BuildInjective(q: seq<Param>, r: seq<Param>)
    requires Build(q) == Build(r)
    ensures q == r
  {
    BuildReadsBack(q);
    BuildReadsBack(r);
  }

  // ---- the ordered map ----

  /** Entries in the order std::map keeps them. */
  predicate Sorted(q: seq<Param>) {
    forall i, j :: 0 <= i < j < |q| ==> LexLess(q[i].key, q[j].key)
  }

  predicate HasKey(q: seq<Param>, key: Bytes) { exists i :: 0 <= i < |q| && q[i].key == key }

  /** The contents of the map. */
  function Contents(q: seq<Param>): map<Bytes, Bytes> {
    if q == [] then map[] else Contents(q[1..])[q[0].key := q[0].value]
  }

  lemma {:induction false} ContentsAt(q: seq<Param>, key: Bytes)
    requires Sorted(q)
    ensures key in Contents(q) <==> HasKey(q, key)
    ensures forall i :: 0 <= i < |q| && q[i].key == key ==> key in Contents(q) && Contents(q)[key] == q[i].value
  {
    if q != [] {
      ContentsAt(q[1..], key);
      assert forall i :: 0 < i < |q| ==> q[i] == q[1..][i - 1];
      forall i | 0 < i < |q| ensures q[i].key != q[0].key { LexTotal(q[0].key, q[i].key); }
      if HasKey(q[1..], key) {
        var i :| 0 <= i < |q[1..]| && q[1..][i].key == key;
        assert q[i + 1].key == key;
      }
    }
  }

  /** A map has one sequence of entries, so that its text depends on its contents alone. */
  lemma {:induction false} SortedUnique(q: seq<Param>, r: seq<Param>)
    requires Sorted(q) && Sorted(r) && Contents(q) == Contents(r)
    ensures q == r
  {
    if q == [] || r == [] {
      if q != [] { ContentsAt(q, q[0].key); }
      if r != [] { ContentsAt(r, r[0].key); }
    } else {
      SameFirst(q, r);
      SameFirst(r, q);
      LexTotal(q[0].key, r[0].key);
      ContentsAt(q, q[0].key);
      ContentsAt(r, r[0].key);
      assert q[0] == r[0];
      RestContents(q);
      RestContents(r);
      SortedUnique(q[1..], r[1..]);
      assert q == [q[0]] + q[1..] && r == [r[0]] + r[1..];
    }
  }

  lemma {:induction false} SameFirst(q: seq<Param>, r: seq<Param>)
    requires Sorted(q) && Sorted(r) && Contents(q) == Contents(r) && q != [] && r != []
    ensures !LexLess(q[0].key, r[0].key)
  {
    ContentsAt(q, q[0].key);
    ContentsAt(r, q[0].key);
    var i :| 0 <= i < |r| && r[i].key == q[0].key;
    LexTotal(r[0].key, r[i].key);
  }

  lemma {:induction false} RestContents(q: seq<Param>)
    requires Sorted(q) && q != []
    ensures Contents(q[1..]) == Contents(q) - {q[0].key}
  {
    ContentsAt(q[1..], q[0].key);
    forall i | 0 <= i < |q[1..]| ensures q[1..][i].key != q[0].key { LexTotal(q[0].key, q[i + 1].key); }
  }

  /** `query[key] = value`. */
  function Assigned(q: seq<Param>, key: Bytes, value: Bytes): seq<Param> {
    if q == [] || LexLess(key, q[0].key) then [Param(key, value)] + q
    else if q[0].key == key then [Param(key, value)] + q[1..]
    else [q[0]] + Assigned(q[1..], key, value)
  }

  predicate AllAbove(q: seq<Param>, key: Bytes) { forall i :: 0 <= i < |q| ==> LexLess(key, q[i].key) }

  lemma {:induction false} SortedCons(p: Param, q: seq<Param>)
    ensures Sorted([p] + q) <==> Sorted(q) && AllAbove(q, p.key)
  {
    var s := [p] + q;
    assert forall i :: 0 <= i < |q| ==> q[i] == s[i + 1];
    if Sorted(s) {
      forall i, j | 0 <= i < j < |q| ensures LexLess(q[i].key, q[j].key) { assert LexLess(s[i + 1].key, s[j + 1].key); }
      forall i | 0 <= i < |q| ensures LexLess(p.key, q[i].key) { assert LexLess(s[0].key, s[i + 1].key); }
    }
  }

  lemma {:induction false} AboveTrans(q: seq<Param>, key: Bytes, low: Bytes)
    requires AllAbove(q, key) && LexLess(low, key)
    ensures AllAbove(q, low)
  {
    forall i | 0 <= i < |q| ensures LexLess(low, q[i].key) { LexTransitive(low, key, q[i].key); }
  }

  lemma {:induction false} SortedTail(q: seq<Param>)
    requires Sorted(q) && q != []
    ensures Sorted(q[1..]) && AllAbove(q[1..], q[0].key)
  {
    assert q == [q[0]] + q[1..];
    SortedCons(q[0], q[1..]);
  }

  lemma {:induction false} AssignedAbove(q: seq<Param>, key: Bytes, value: Bytes, low: Bytes)
    requires AllAbove(q, low) && LexLess(low, key)
    ensures AllAbove(Assigned(q, key, value), low)
  {
    hide LexLess;
    if q != [] && !LexLess(key, q[0].key) && q[0].key != key {
      AssignedAbove(q[1..], key, value, low);
    }
  }

  /** An assignment keeps the order and changes the contents at its key alone. */
  lemma {:induction false} AssignedKeeps(q: seq<Param>, key: Bytes, value: Bytes)
    requires Sorted(q)
    ensures Sorted(Assigned(q, key, value)) && Contents(Assigned(q, key, value)) == Contents(q)[key := value]
  {
    hide LexLess, Sorted, AllAbove;
    var p := Param(key, value);
    if q == [] {
      assert Sorted([]) && AllAbove([], key) by { EmptySorted(key); }
      SortedCons(p, q);
      ContentsCons(p, q);
    } else {
      SortedTail(q);
      if LexLess(key, q[0].key) {
        AboveTrans(q[1..], q[0].key, key);
        AboveCons(q, key);
        SortedCons(p, q);
        ContentsCons(p, q);
      } else if q[0].key == key {
        SortedCons(p, q[1..]);
        ContentsCons(p, q[1..]);
      } else {
        LexTotal(key, q[0].key);
        var rest := Assigned(q[1..], key, value);
        AssignedKeeps(q[1..], key, value);
        AssignedAbove(q[1..], key, value, q[0].key);
        SortedCons(q[0], rest);
        ContentsCons(q[0], rest);
      }
    }
  }

  lemma {:induction false} EmptySorted(key: Bytes)
    ensures Sorted([]) && AllAbove([], key)
  {
  }

  lemma {:induction false} AboveCons(q: seq<Param>, key: Bytes)
    requires q != [] && LexLess(key, q[0].key) && AllAbove(q[1..], key)
    ensures AllAbove(q, key)
  {
    assert forall i :: 0 < i < |q| ==> q[i] == q[1..][i - 1];
  }

  lemma {:induction false} ContentsCons(p: Param, q: seq<Param>)
    ensures Contents([p] + q) == Contents(q)[p.key := p.value]
  {
    assert ([p] + q)[1..] == q;
  }

  /** The entries but the one under `key`. */
  function Without(q: seq<Param>, key: Bytes): seq<Param> {
    if q == [] then [] else if q[0].key == key then Without(q[1..], key) else [q[0]] + Without(q[1..], key)
  }

  lemma {:induction false} WithoutAbove(q: seq<Param>, key: Bytes, low: Bytes)
    requires AllAbove(q, low)
    ensures AllAbove(Without(q, key), low)
  {
    hide LexLess;
    if q != [] { WithoutAbove(q[1..], key, low); }
  }

  lemma {:induction false} WithoutKeeps(q: seq<Param>, key: Bytes)
    requires Sorted(q)
    ensures Sorted(Without(q, key)) && Contents(Without(q, key)) == Contents(q) - {key}
  {
    hide LexLess, Sorted, AllAbove;
    if q == [] {
      EmptySorted(key);
    } else {
      SortedTail(q);
      WithoutKeeps(q[1..], key);
      WithoutAbove(q[1..], key, q[0].key);
      SortedCons(q[0], Without(q[1..], key));
      ContentsCons(q[0], Without(q[1..], key));
    }
  }

  // ---- signing ----

  const SIGNATURE: Bytes := "signature"
  const RECV_WINDOW: Bytes := "recvWindow"
  const TIMESTAMP: Bytes := "timestamp"

  /** The signature primitive with its key: HMAC-SHA256 in hexadecimal or Ed25519 in base64. */
  type Signer = Bytes -> Bytes

  function Authorised(q: seq<Param>, window: Bytes, timestamp: Bytes): seq<Param> {
    Assigned(Assigned(q, RECV_WINDOW, window), TIMESTAMP, timestamp)
  }

  function Signed(q: seq<Param>, sign: Signer): seq<Param> { Assigned(q, SIGNATURE, sign(Build(q))) }

  /** A std::map from string to string, as its entries in order. */
  class QueryMap {
    var entries: seq<Param>

    predicate Valid()
      reads this
    {
      Sorted(entries)
    }

    constructor ()
      ensures Valid() && entries == []
    {
      entries := [];
    }

    /** `operator[]` and the assignment through it. */
    method Assign(key: Bytes, value: Bytes)
      requires Valid()
      modifies this
      ensures Valid() && entries == Assigned(old(entries), key, value)
      ensures Contents(entries) == old(Contents(entries))[key := value]
    {
      hide LexLess, Sorted, Assigned, Contents;
      var i := 0;
      assert entries[0..] == entries && entries[..0] == [];
      while i < |entries| && LexLess(entries[i].key, key)
        invariant 0 <= i <= |entries| && entries == old(entries)
        invariant entries[..i] + Assigned(entries[i..], key, value) == Assigned(entries, key, value)
      {
        AssignedAt(entries, i, key, value);
        assert entries[..i + 1] == entries[..i] + [entries[i]];
        i := i + 1;
      }
      AssignedKeeps(entries, key, value);
      AssignedAt(entries, i, key, value);
      if i < |entries| && entries[i].key == key {
        entries := entries[..i] + ([Param(key, value)] + entries[i + 1..]);
      } else {
        entries := entries[..i] + ([Param(key, value)] + entries[i..]);
      }
    }

    /** inject_auth_query. */
    method InjectAuth(recvWindow: nat, timestamp: Bytes)
      requires Valid()
      modifies this
      ensures Valid() && entries == Authorised(old(entries), Decimal(recvWindow), timestamp)
      ensures Contents(entries) == old(Contents(entries))["recvWindow" := Decimal(recvWindow)]["timestamp" := timestamp]
    {
      Assign(RECV_WINDOW, Decimal(recvWindow));
      Assign(TIMESTAMP, timestamp);
    }

    /** sign_query. */
    method SignQuery(sign: Signer)
      requires Valid()
      modifies this
      ensures Valid() && entries == Signed(old(entries), sign)
      ensures Contents(entries) == old(Contents(entries))["signature" := sign(Build(old(entries)))]
    {
      var canonical := BuildQueryString(entries);
      Assign(SIGNATURE, sign(canonical));
    }
  }

  lemma {:induction false} AssignedAt(q: seq<Param>, i: nat, key: Bytes, value: Bytes)
    requires i <= |q|
    ensures Assigned(q[i..], key, value) ==
      if i < |q| && LexLess(q[i].key, key) then [q[i]] + Assigned(q[i + 1..], key, value)
      else if i < |q| && q[i].key == key then [Param(key, value)] + q[i + 1..]
      else [Param(key, value)] + q[i..]
  {
    if i < |q| {
      LexTotal(key, q[i].key);
      assert q[i..][1..] == q[i + 1..];
    }
  }

  /** std::to_string of an unsigned number. */
  function Decimal(n: nat): (s: Bytes)
    ensures AllDigits(s) && Digits(s) == n
  {
    DecBytes(n);
    DecDigits(n);
    DecText(n)
  }

  lemma {:induction false} DecBytes(n: nat)
    ensures forall k :: 0 <= k < |DecText(n)| ==> DecText(n)[k] < '\U{100}'
  {
    DecDigits(n);
  }

  datatype Verb = Get | Delete | Post | Put

  datatype Request = Request(target: Bytes, body: Bytes)

  /** The text a request carries behind `path`: in the target of a get or delete, in the body otherwise. */
  function Carried(r: Request, verb: Verb, path: Bytes): Option<Bytes> {
    if verb.Get? || verb.Delete? then
      if r.body != [] then None
      else if r.target == path then Some([])
      else if |r.target| > |path| && r.target[..|path|] == path && r.target[|path|] == '?' then Some(r.target[|path| + 1..])
      else None
    else if r.target == path then Some(r.body) else None
  }

  /** The query part of pipeline::async_execute. */
  method Execute(query: QueryMap, verb: Verb, base: Bytes, path: Bytes, isSigned: bool, recvWindow: nat, timestamp: Bytes, sign: Signer)
    returns (r: Request)
    requires query.Valid()
    modifies query
    ensures query.Valid() && query.entries ==
      if isSigned then Signed(Authorised(old(query.entries), Decimal(recvWindow), timestamp), sign) else old(query.entries)
    ensures Carried(r, verb, base + path) == Some(Build(query.entries))
    ensures verb == Get || verb == Delete ==> r.body == [] && r.target == base + path + (if Build(query.entries) == [] then "" else "?" + Build(query.entries))
    ensures verb == Post || verb == Put ==> r.body == Build(query.entries) && r.target == base + path
  {
    hide Build, Signed, Authorised, Decimal;
    if isSigned {
      query.InjectAuth(recvWindow, timestamp);
      query.SignQuery(sign);
    }
    var text := BuildQueryString(query.entries);
    var target, body: Bytes := base + path, [];
    if text != [] {
      if verb.Get? || verb.Delete? {
        target := target + (['?'] + text);
      } else {
        body := text;
      }
    }
    r := Request(target, body);
    assert target != base + path ==> target[..|base + path|] == base + path && target[|base + path| + 1..] == text;
  }

  /** The receiver of a signed query finds the parameters and the signature, and whatever sorted map `r` it keeps the
      other parameters in, the text it rebuilds is the signed one exactly when the signed map had no signature. */
  lemma {:induction false} ReceiverRebuilds(q: seq<Param>, sign: Signer, r: seq<Param>)
    requires Sorted(q) && Sorted(r) && Contents(r) == Contents(Signed(q, sign)) - {SIGNATURE}
    ensures DecodeQuery(Build(Signed(q, sign))) == Some(Signed(q, sign))
    ensures Contents(Signed(q, sign)) == Contents(q)[SIGNATURE := sign(Build(q))]
    ensures Build(r) == Build(q) <==> !HasKey(q, SIGNATURE)
  {
    hide Build, Sorted, HasKey;
    BuildReadsBack(Signed(q, sign));
    AssignedKeeps(q, SIGNATURE, sign(Build(q)));
    ContentsAt(q, SIGNATURE);
    if HasKey(q, SIGNATURE) {
      if Build(r) == Build(q) { BuildInjective(r, q); }
    } else {
      SortedUnique(r, q);
    }
  }

  /** A receiver that drops the signature, builds the text again and signs it itself. */
  predicate Accepts(text: Bytes, sign: Signer) {
    match DecodeQuery(text)
    case None => false
    case Some(d) => SIGNATURE in Contents(d) && sign(Build(Without(d, SIGNATURE))) == Contents(d)[SIGNATURE]
  }

  /** A request signed by the pipeline is accepted when the caller passed no signature of its own; when it did, the
      receiver signs a different text, and accepts only if the two texts have the same signature. */
  lemma {:induction false} PipelineAccepted(q: seq<Param>, window: Bytes, timestamp: Bytes, sign: Signer)
    requires Sorted(q)
    ensures var a := Authorised(q, window, timestamp);
      && Accepts(Build(Signed(a, sign)), sign) == (sign(Build(Without(a, SIGNATURE))) == sign(Build(a)))
      && (Build(Without(a, SIGNATURE)) == Build(a) <==> !HasKey(q, SIGNATURE))
  {
    hide Build, Sorted, HasKey, Contents, Without, Assigned;
    var first := Assigned(q, RECV_WINDOW, window);
    var a := Authorised(q, window, timestamp);
    AssignedKeeps(q, RECV_WINDOW, window);
    AssignedKeeps(first, TIMESTAMP, timestamp);
    ContentsAt(q, SIGNATURE);
    ContentsAt(a, SIGNATURE);
    var s := Signed(a, sign);
    AssignedKeeps(a, SIGNATURE, sign(Build(a)));
    ContentsAt(s, SIGNATURE);
    WithoutKeeps(s, SIGNATURE);
    WithoutKeeps(a, SIGNATURE);
    assert Contents(s) - {SIGNATURE} == Contents(a) - {SIGNATURE};
    SortedUnique(Without(s, SIGNATURE), Without(a, SIGNATURE));
    ReceiverRebuilds(a, sign, Without(s, SIGNATURE));
    assert RECV_WINDOW != SIGNATURE && TIMESTAMP != SIGNATURE;
  }
}
