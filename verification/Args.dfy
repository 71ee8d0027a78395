/** Argument lists: percent-escaping (section 2.1 of RFC 3986), the query parser
    and the canonical encoder, and the proof that encoding loses nothing. */
module Args {
  import opened Text

  /** `url.Values`: every key with its list of values. */
  type Values = map<string, seq<string>>

  type Pair = (string, string)

  // ----------------------------------------------------------------- escaping

  /** Characters that would change meaning if left literal in a canonical spec. */
  predicate MustEscape(c: char) {
    c in {'%', '&', '=', ';', '+', ' ', '\t', '\n', '\r', '{', '}', '#'} || c < ' ' || c == '\U{7F}'
  }

  /** What an escaped argument may contain: no separator and no delimiter of the spec language. */
  predicate Plain(c: char) {
    c !in {'&', '=', ';', '+', '{', '}', '#'} && !IsAsciiSpace(c)
  }

  function HexDigit(d: nat): char
    requires d < 16
  {
    if d < 10 then '0' + d as char else 'A' + (d - 10) as char
  }

  function HexValue(c: char): (d: int)
    ensures -1 <= d < 16
  {
    if '0' <= c <= '9' then c as int - '0' as int
    else if 'a' <= c <= 'f' then c as int - 'a' as int + 10
    else if 'A' <= c <= 'F' then c as int - 'A' as int + 10
    else -1
  }

  function EscapeChar(c: char): string {
    if MustEscape(c) then ['%', HexDigit(c as int / 16), HexDigit(c as int % 16)] else [c]
  }

  function Escape(s: string): string {
    if s == "" then "" else EscapeChar(s[0]) + Escape(s[1..])
  }

  /** The first decoded character of `s` and how many characters spell it: a '%' needs two
      hex digits after it, a '+' is a space. */
  function DecodeHead(s: string): (r: Result<(char, nat)>)
    requires s != ""
    ensures r.Ok? ==> 1 <= r.value.1 <= |s|
  {
    if s[0] == '%' then
      if |s| < 3 || HexValue(s[1]) < 0 || HexValue(s[2]) < 0 then Err
      else Ok(('\0' + (16 * HexValue(s[1]) + HexValue(s[2])) as char, 3))
    else
      Ok((if s[0] == '+' then ' ' else s[0], 1))
  }

  /** `url.QueryUnescape`. */
  function Unescape(s: string): Result<string> {
    if s == "" then Ok("")
    else
      match DecodeHead(s)
      case Ok((c, n)) => Prefix([c], Unescape(s[n..]))
      case Err => Err
  }

  function Prefix(a: string, r: Result<string>): Result<string> {
    match r
    case Ok(b) => Ok(a + b)
    case Err => Err
  }

  lemma HexRoundTrip(c: char)
    requires MustEscape(c)
    ensures HexValue(HexDigit(c as int / 16)) == c as int / 16
    ensures HexValue(HexDigit(c as int % 16)) == c as int % 16
    ensures Plain(HexDigit(c as int / 16)) && Plain(HexDigit(c as int % 16))
  {
  }

  lemma EscapeCharPlain(c: char)
    ensures forall x :: x in EscapeChar(c) ==> Plain(x)
  {
    if MustEscape(c) { HexRoundTrip(c); }
  }

  lemma {:induction false} EscapePlain(s: string)
    ensures forall c :: c in Escape(s) ==> Plain(c)
  {
    if s != "" {
      EscapeCharPlain(s[0]);
      EscapePlain(s[1..]);
    }
  }

  lemma DecodeEscapedChar(c: char, rest: string)
    ensures DecodeHead(EscapeChar(c) + rest) == Ok((c, |EscapeChar(c)|))
  {
    if MustEscape(c) {
      HexRoundTrip(c);
      assert 16 * (c as int / 16) + c as int % 16 == c as int;
    }
  }

  lemma {:induction false} UnescapeEscape(s: string)
    ensures Unescape(Escape(s)) == Ok(s)
  {
    if s != "" {
      var rest := Escape(s[1..]);
      UnescapeEscape(s[1..]);
      DecodeEscapedChar(s[0], rest);
      assert (EscapeChar(s[0]) + rest)[|EscapeChar(s[0])|..] == rest;
      assert [s[0]] + s[1..] == s;
    }
  }

  lemma {:induction false} UnescapePlain(w: string)
    requires forall c :: c in w ==> c != '%' && c != '+'
    ensures Unescape(w) == Ok(w)
  {
    if w != "" {
      assert w[0] in w && forall c :: c in w[1..] ==> c in w;
      UnescapePlain(w[1..]);
      assert DecodeHead(w) == Ok((w[0], 1));
      assert [w[0]] + w[1..] == w;
    }
  }

  lemma UnescapeRest(s: string)
    requires s != "" && Unescape(s).Ok?
    ensures DecodeHead(s).Ok? && Unescape(s[DecodeHead(s).value.1..]).Ok?
  {
  }

  lemma UnescapeCons(s: string, c: char, n: nat, v: string)
    requires s != "" && DecodeHead(s) == Ok((c, n)) && Unescape(s[n..]) == Ok(v)
    ensures Unescape(s) == Ok([c] + v)
  {
  }

  /** Text with no escape in it is appended unchanged. */
  lemma {:induction false} UnescapeAppend(a: string, w: string)
    requires Unescape(a).Ok?
    requires forall c :: c in w ==> c != '%' && c != '+'
    ensures Unescape(a + w) == Ok(Unescape(a).value + w)
    decreases |a|
  {
    if a == "" {
      UnescapePlain(w);
      assert a + w == w;
    } else {
      UnescapeRest(a);
      var (c, n) := DecodeHead(a).value;
      UnescapeAppend(a[n..], w);
      UnescapeHead(a, w, c, n, Unescape(a[n..]).value);
    }
  }

  lemma UnescapeHead(a: string, w: string, c: char, n: nat, v: string)
    requires a != "" && DecodeHead(a) == Ok((c, n)) && Unescape(a[n..]) == Ok(v) && Unescape(a[n..] + w) == Ok(v + w)
    ensures Unescape(a) == Ok([c] + v) && Unescape(a + w) == Ok(([c] + v) + w)
  {
    UnescapeCons(a, c, n, v);
    DecodeHeadPrefix(a, w);
    assert (a + w)[n..] == a[n..] + w;
    UnescapeCons(a + w, c, n, v + w);
    Associative([c], v, w);
  }

  lemma DecodeHeadPrefix(a: string, w: string)
    requires a != "" && DecodeHead(a).Ok?
    ensures DecodeHead(a + w) == DecodeHead(a)
  {
  }

  // ------------------------------------------------------------ query parsing

  /** One `k=v` segment between two '&'. */
  function ParseSegment(seg: string): Result<seq<Pair>> {
    if ';' in seg then Err
    else if seg == "" then Ok([])
    else
      var (k, v) := Cut(seg, '=');
      match (Unescape(k), Unescape(v))
      case (Ok(key), Ok(val)) => Ok([(key, val)])
      case _ => Err
  }

  /** The segments of a query in order; any malformed one makes the whole query an error. */
  function ParsePairs(raw: string): Result<seq<Pair>>
    decreases |raw|
  {
    if raw == "" then Ok([])
    else
      var i := IndexOf(raw, '&');
      if i < 0 then ParseSegment(raw)
      else
        match (ParseSegment(raw[..i]), ParsePairs(raw[i + 1..]))
        case (Ok(a), Ok(b)) => Ok(a + b)
        case _ => Err
  }

  function ListOf(v: Values, k: string): seq<string> {
    if k in v then v[k] else []
  }

  /** Appends each value to its key's list, in order. */
  function Collect(pairs: seq<Pair>): Values {
    if pairs == [] then map[]
    else
      var v, (key, val) := Collect(pairs[..|pairs| - 1]), pairs[|pairs| - 1];
      v[key := ListOf(v, key) + [val]]
  }

  /** `parseArgs`: blank text means no arguments. */
  function ParseArgs(raw: string): Result<Values> {
    if TrimSpace(raw) == "" then Ok(map[])
    else
      match ParsePairs(raw)
      case Ok(pairs) => Ok(Collect(pairs))
      case Err => Err
  }

  /** No key without a value: what every parsed argument list satisfies. */
  predicate NoEmptyList(v: Values) {
    forall k :: k in v ==> v[k] != []
  }

  lemma {:induction false} CollectNoEmptyList(pairs: seq<Pair>)
    ensures NoEmptyList(Collect(pairs))
  {
    if pairs != [] { CollectNoEmptyList(pairs[..|pairs| - 1]); }
  }

  // ---------------------------------------------------------------- encoding

  /** Byte-wise lexicographic order, as `sort.Strings` uses it. */
  predicate Leq(a: string, b: string) {
    a == "" || (b != "" && (a[0] < b[0] || (a[0] == b[0] && Leq(a[1..], b[1..]))))
  }

  lemma {:induction false} LeqTotal(a: string, b: string)
    ensures Leq(a, b) || Leq(b, a)
  {
    if a != "" && b != "" { LeqTotal(a[1..], b[1..]); }
  }

  lemma {:induction false} LeqAntisymmetric(a: string, b: string)
    requires Leq(a, b) && Leq(b, a)
    ensures a == b
  {
    if a != "" && b != "" {
      LeqAntisymmetric(a[1..], b[1..]);
      assert a == [a[0]] + a[1..] && b == [b[0]] + b[1..];
    }
  }

  lemma {:induction false} LeqTransitive(a: string, b: string, c: string)
    requires Leq(a, b) && Leq(b, c)
    ensures Leq(a, c)
  {
    if a != "" && a[0] == b[0] && b[0] == c[0] { LeqTransitive(a[1..], b[1..], c[1..]); }
  }

  ghost predicate IsLeast(k: string, keys: set<string>) {
    k in keys && forall j :: j in keys ==> Leq(k, j)
  }

  lemma {:induction false} LeastExists(keys: set<string>)
    requires keys != {}
    ensures exists k :: IsLeast(k, keys)
  {
    var x :| x in keys;
    var rest := keys - {x};
    LeqTotal(x, x);
    if rest == {} {
      assert keys == {x};
      assert IsLeast(x, keys);
    } else {
      LeastExists(rest);
      var m :| IsLeast(m, rest);
      LeqTotal(x, m);
      if Leq(m, x) {
        assert IsLeast(m, keys);
      } else {
        forall j | j in keys ensures Leq(x, j) {
          if j != x { LeqTransitive(x, m, j); }
        }
        assert IsLeast(x, keys);
      }
    }
  }

  lemma LeastUnique(k: string, m: string, keys: set<string>)
    requires IsLeast(k, keys) && IsLeast(m, keys)
    ensures k == m
  {
    LeqAntisymmetric(k, m);
  }

  /** The keys in sorted order. */
  ghost function SortedKeys(keys: set<string>): seq<string> {
    if keys == {} then []
    else
      LeastExists(keys);
      var k :| IsLeast(k, keys);
      [k] + SortedKeys(keys - {k})
  }

  lemma {:induction false} SortedKeysEnumerate(keys: set<string>)
    ensures forall k :: k in SortedKeys(keys) <==> k in keys
    ensures forall i, j :: 0 <= i < j < |SortedKeys(keys)| ==> SortedKeys(keys)[i] != SortedKeys(keys)[j]
    ensures forall i, j :: 0 <= i < j < |SortedKeys(keys)| ==> Leq(SortedKeys(keys)[i], SortedKeys(keys)[j])
  {
    if keys != {} {
      LeastExists(keys);
      var s := SortedKeys(keys);
      SortedKeysEnumerate(keys - {s[0]});
    }
  }

  function KeyPairs(k: string, vals: seq<string>): seq<Pair> {
    seq(|vals|, i requires 0 <= i < |vals| => (k, vals[i]))
  }

  function PairsOf(keys: seq<string>, v: Values): seq<Pair> {
    if keys == [] then []
    else PairsOf(keys[..|keys| - 1], v) + KeyPairs(keys[|keys| - 1], ListOf(v, keys[|keys| - 1]))
  }

  function EncodePair(p: Pair): string {
    Escape(p.0) + "=" + Escape(p.1)
  }

  function Join(pairs: seq<Pair>): string {
    if pairs == [] then ""
    else if |pairs| == 1 then EncodePair(pairs[0])
    else EncodePair(pairs[0]) + "&" + Join(pairs[1..])
  }

  /** The canonical encoding: keys sorted, each value escaped, joined with '&'. */
  ghost function Encode(v: Values): string {
    Join(PairsOf(SortedKeys(v.Keys), v))
  }

  // ------------------------------------------------------------- round trip

  /** A canonical argument list holds only plain characters and its own two separators. */
  predicate Encodable(s: string) {
    forall c :: c in s ==> Plain(c) || c in {'&', '='}
  }

  lemma EncodePairFacts(p: Pair)
    ensures Encodable(EncodePair(p)) && '&' !in EncodePair(p) && '=' in EncodePair(p)
    ensures ParseSegment(EncodePair(p)) == Ok([p])
  {
    var k, v := Escape(p.0), Escape(p.1);
    EscapePlain(p.0);
    EscapePlain(p.1);
    IndexOfFirst(k, '=', v);
    assert EncodePair(p) == k + ['='] + v;
    UnescapeEscape(p.0);
    UnescapeEscape(p.1);
    assert EncodePair(p)[|k|] == '=';
  }

  lemma {:induction false} JoinFacts(pairs: seq<Pair>)
    ensures Encodable(Join(pairs))
    ensures pairs != [] ==> '=' in Join(pairs)
    ensures ParsePairs(Join(pairs)) == Ok(pairs)
  {
    if pairs != [] {
      var e := EncodePair(pairs[0]);
      EncodePairFacts(pairs[0]);
      if |pairs| == 1 {
        assert pairs == [pairs[0]];
      } else {
        var rest := Join(pairs[1..]);
        JoinFacts(pairs[1..]);
        IndexOfFirst(e, '&', rest);
        assert Join(pairs) == e + ['&'] + rest;
        assert Join(pairs)[..|e|] == e && Join(pairs)[|e| + 1..] == rest;
        assert [pairs[0]] + pairs[1..] == pairs;
      }
    }
  }

  /** Restricting the values to some of the keys. */
  function Only(v: Values, keys: seq<string>): Values {
    map k | k in v && k in keys :: v[k]
  }

  lemma CollectAppend(pairs: seq<Pair>, p: Pair)
    ensures Collect(pairs + [p]) == Collect(pairs)[p.0 := ListOf(Collect(pairs), p.0) + [p.1]]
  {
    assert (pairs + [p])[..|pairs|] == pairs;
  }

  lemma KeyPairsAppend(k: string, vals: seq<string>, val: string)
    ensures KeyPairs(k, vals + [val]) == KeyPairs(k, vals) + [(k, val)]
  {
  }

  lemma {:induction false} CollectAppendKey(pairs: seq<Pair>, k: string, vals: seq<string>)
    requires vals != []
    ensures Collect(pairs + KeyPairs(k, vals)) == Collect(pairs)[k := ListOf(Collect(pairs), k) + vals]
    decreases |vals|
  {
    var front, last := vals[..|vals| - 1], vals[|vals| - 1];
    assert vals == front + [last];
    KeyPairsAppend(k, front, last);
    Associative(pairs, KeyPairs(k, front), [(k, last)]);
    CollectAppend(pairs + KeyPairs(k, front), (k, last));
    if front == [] {
      assert pairs + KeyPairs(k, front) == pairs;
    } else {
      CollectAppendKey(pairs, k, front);
      Extended(Collect(pairs), k, front, last);
    }
  }

  /** A list that was extended once more. */
  lemma Extended(v: Values, k: string, front: seq<string>, last: string)
    ensures var w := v[k := ListOf(v, k) + front];
            w[k := ListOf(w, k) + [last]] == v[k := ListOf(v, k) + (front + [last])]
  {
    Associative(ListOf(v, k), front, [last]);
  }

  lemma {:induction false} CollectPairsOf(keys: seq<string>, v: Values)
    requires NoEmptyList(v)
    requires forall k :: k in keys ==> k in v
    requires forall i, j :: 0 <= i < j < |keys| ==> keys[i] != keys[j]
    ensures Collect(PairsOf(keys, v)) == Only(v, keys)
  {
    if keys != [] {
      var front, k := keys[..|keys| - 1], keys[|keys| - 1];
      assert keys == front + [k];
      CollectPairsOf(front, v);
      CollectAppendKey(PairsOf(front, v), k, v[k]);
      OnlyAppend(v, front, k);
    }
  }

  lemma OnlyAppend(v: Values, keys: seq<string>, k: string)
    requires k in v && k !in keys
    ensures Only(v, keys + [k]) == Only(v, keys)[k := ListOf(Only(v, keys), k) + v[k]]
  {
    var o := Only(v, keys);
    assert k !in o;
    assert ListOf(o, k) + v[k] == v[k];
    assert forall j :: j in keys + [k] <==> j in keys || j == k;
  }

  /** Decoding a canonical encoding gives the arguments back, whatever bytes they hold. */
  lemma DecodeEncode(v: Values)
    requires NoEmptyList(v)
    ensures Encodable(Encode(v))
    ensures ParseArgs(Encode(v)) == Ok(v)
  {
    var keys := SortedKeys(v.Keys);
    var pairs := PairsOf(keys, v);
    SortedKeysEnumerate(v.Keys);
    JoinFacts(pairs);
    CollectPairsOf(keys, v);
    assert Only(v, keys) == v;
    if pairs == [] {
      assert v == map[];
    } else {
      EncodedNotBlank(Join(pairs));
    }
  }

  lemma EncodedNotBlank(s: string)
    requires Encodable(s) && '=' in s
    ensures TrimSpace(s) != ""
  {
    var i :| 0 <= i < |s| && s[i] == '=';
    TrimRightTakesSpace(TrimLeft(s));
    TrimLeftTakesSpace(s);
  }

  lemma {:induction false} TrimLeftTakesSpace(s: string)
    ensures '=' in s ==> '=' in TrimLeft(s)
  {
    var n := LeadingSpace(s);
    if n != 0 {
      assert forall i :: 0 <= i < n ==> s[i] != '=';
      TrimLeftTakesSpace(s[n..]);
    }
  }

  /** Two argument lists with the same canonical encoding are the same list. */
  lemma EncodeInjective(v: Values, w: Values)
    requires NoEmptyList(v) && NoEmptyList(w)
    requires Encode(v) == Encode(w)
    ensures v == w
  {
    DecodeEncode(v);
    DecodeEncode(w);
  }

  // ------------------------------------------------------------------- loops

  /** `escapeArg`: one pass over the bytes into a builder. */
  method EscapeArg(s: string) returns (b: string)
    ensures b == Escape(s)
  {
    b := "";
    for i := 0 to |s|
      invariant b + Escape(s[i..]) == Escape(s)
    {
      b := b + EscapeChar(s[i]);
      assert s[i..][1..] == s[i + 1..];
    }
  }

  lemma JoinCons(p: Pair, rest: seq<Pair>)
    requires rest != []
    ensures Join([p] + rest) == EncodePair(p) + "&" + Join(rest)
  {
    assert ([p] + rest)[1..] == rest;
  }

  lemma {:induction false} JoinAppend(pairs: seq<Pair>, p: Pair)
    ensures Join(pairs + [p]) == if pairs == [] then EncodePair(p) else Join(pairs) + "&" + EncodePair(p)
  {
    if pairs == [] {
      assert pairs + [p] == [p];
    } else {
      var first, tail := pairs[0], pairs[1..];
      assert pairs == [first] + tail;
      Associative([first], tail, [p]);
      JoinAppend(tail, p);
      JoinCons(first, tail + [p]);
      if tail != [] {
        JoinCons(first, tail);
        ConcatMiddle(EncodePair(first), "&", Join(tail), "&", EncodePair(p));
      }
    }
  }

  /** `sort.Strings` over the keys of a map. */
  method SortStrings(keys: set<string>) returns (sorted: seq<string>)
    ensures sorted == SortedKeys(keys)
  {
    sorted := [];
    var rest := keys;
    while rest != {}
      invariant sorted + SortedKeys(rest) == SortedKeys(keys)
      decreases rest
    {
      LeastExists(rest);
      var k :| k in rest && forall j :: j in rest ==> Leq(k, j);
      LeastUnique(k, SortedKeys(rest)[0], rest);
      sorted := sorted + [k];
      rest := rest - {k};
    }
  }

  lemma JoinEmpty(pairs: seq<Pair>)
    ensures Join(pairs) == "" <==> pairs == []
  {
    if pairs != [] { assert EncodePair(pairs[0])[|Escape(pairs[0].0)|] == '='; }
  }

  lemma PairAppended(pairs: seq<Pair>, p: Pair, was: string)
    requires was == Join(pairs)
    ensures Join(pairs + [p]) == (if |was| > 0 then was + "&" else was) + EncodePair(p)
  {
    JoinAppend(pairs, p);
    JoinEmpty(pairs);
    assert was == "" ==> was + EncodePair(p) == EncodePair(p);
  }

  lemma EncodeStep(done: seq<Pair>, k: string, vals: seq<string>, j: nat, was: string, now: string)
    requires j < |vals|
    requires was == Join(done + KeyPairs(k, vals[..j]))
    requires now == (if |was| > 0 then was + "&" else was) + Escape(k) + "=" + Escape(vals[j])
    ensures now == Join(done + KeyPairs(k, vals[..j + 1]))
  {
    PairAppended(done + KeyPairs(k, vals[..j]), (k, vals[j]), was);
    assert vals[..j + 1] == vals[..j] + [vals[j]];
    KeyPairsAppend(k, vals[..j], vals[j]);
    Associative(done, KeyPairs(k, vals[..j]), [(k, vals[j])]);
    ConcatAssociative(if |was| > 0 then was + "&" else was, Escape(k), "=", Escape(vals[j]));
  }

  /** The inner loop of `encodeArgs`: one key's values, appended to the builder. */
  method EncodeKey(k: string, vals: seq<string>, b0: string, ghost done: seq<Pair>) returns (b: string)
    requires b0 == Join(done)
    ensures b == Join(done + KeyPairs(k, vals))
  {
    b := b0;
    assert done + KeyPairs(k, []) == done;
    for j := 0 to |vals|
      invariant b == Join(done + KeyPairs(k, vals[..j]))
    {
      ghost var was := b;
      if |b| > 0 { b := b + "&"; }
      var ek := EscapeArg(k);
      var ev := EscapeArg(vals[j]);
      b := b + ek + "=" + ev;
      EncodeStep(done, k, vals, j, was, b);
    }
    assert vals[..|vals|] == vals;
  }

  lemma PairsOfAppend(keys: seq<string>, k: string, v: Values)
    ensures PairsOf(keys + [k], v) == PairsOf(keys, v) + KeyPairs(k, ListOf(v, k))
  {
    assert (keys + [k])[..|keys|] == keys;
  }

  lemma SortedKeysIn(keys: set<string>)
    ensures forall i :: 0 <= i < |SortedKeys(keys)| ==> SortedKeys(keys)[i] in keys
  {
    SortedKeysEnumerate(keys);
  }

  /** `encodeArgs`: sort the keys, then render every value of every key. */
  method EncodeArgs(v: Values) returns (b: string)
    ensures b == Encode(v)
  {
    var keys := SortStrings(v.Keys);
    SortedKeysIn(v.Keys);
    b := "";
    for i := 0 to |keys|
      invariant b == Join(PairsOf(keys[..i], v))
    {
      PairsOfAppend(keys[..i], keys[i], v);
      assert keys[..i + 1] == keys[..i] + [keys[i]];
      b := EncodeKey(keys[i], v[keys[i]], b, PairsOf(keys[..i], v));
    }
    assert keys[..|keys|] == keys;
  }
}
