/** What escaping leaves readable, and how any text is read as arguments. */
module ArgsReading {
  import opened Text
  import opened Args

  const LOWER_DIGITS := "0123456789abcdef"
  const UPPER_DIGITS := "0123456789ABCDEF"

  /** Escapes are written with upper-case digits and read in either case. */
  lemma DigitsAre(d: nat)
    requires d < 16
    ensures HexDigit(d) == UPPER_DIGITS[d]
    ensures HexValue(UPPER_DIGITS[d]) == HexValue(LOWER_DIGITS[d]) == d
  {
  }

  lemma DigitIff(c: char)
    ensures HexValue(c) >= 0 <==> c in UPPER_DIGITS || c in LOWER_DIGITS
  {
    if HexValue(c) >= 0 {
      assert LOWER_DIGITS[HexValue(c)] == c || UPPER_DIGITS[HexValue(c)] == c;
    }
    if c in UPPER_DIGITS {
      var d :| 0 <= d < 16 && UPPER_DIGITS[d] == c;
      DigitsAre(d);
    }
    if c in LOWER_DIGITS {
      var d :| 0 <= d < 16 && LOWER_DIGITS[d] == c;
      DigitsAre(d);
    }
  }

  /** A character the reader of a spec sees as it is: neither a control character, nor blank,
      nor special to the query parser, nor one of the spec language's own. */
  predicate Readable(c: char) {
    c > ' ' && c != '\U{7F}' && c !in "%&=;+{}#"
  }

  /** An escape is a '%' and two upper-case digits that spell the character. */
  lemma EscapeCharSays(c: char)
    ensures Readable(c) ==> EscapeChar(c) == [c]
    ensures !Readable(c) ==> c as int < 256
    ensures !Readable(c) ==> EscapeChar(c) == ['%', UPPER_DIGITS[c as int / 16], UPPER_DIGITS[c as int % 16]]
  {
    if !Readable(c) {
      DigitsAre(c as int / 16);
      DigitsAre(c as int % 16);
    }
  }

  lemma {:induction false} EscapeGrows(s: string)
    ensures |Escape(s)| >= |s|
    ensures |Escape(s)| == |s| ==> forall c :: c in s ==> !MustEscape(c)
  {
    if s != "" { EscapeGrows(s[1..]); }
  }

  /** Text is left as it is exactly if all of it is readable: so are addresses, with their
      ':' and '/'. */
  lemma {:induction false} EscapeKeepsIff(s: string)
    ensures Escape(s) == s <==> forall c :: c in s ==> Readable(c)
  {
    EscapeGrows(s);
    assert forall c :: MustEscape(c) <==> !Readable(c);
    if s != "" {
      EscapeKeepsIff(s[1..]);
      assert s == [s[0]] + s[1..];
    }
  }

  // ------------------------------------------------------------------- reading

  /** The percent sign at `i` begins an escape. */
  predicate EscapeAt(s: string, i: nat) {
    && i + 2 < |s|
    && (s[i + 1] in LOWER_DIGITS || s[i + 1] in UPPER_DIGITS)
    && (s[i + 2] in LOWER_DIGITS || s[i + 2] in UPPER_DIGITS)
  }

  /** Every percent sign begins an escape. */
  predicate GoodEscapes(s: string) {
    forall i :: 0 <= i < |s| && s[i] == '%' ==> EscapeAt(s, i)
  }

  lemma EscapeHead(s: string)
    requires s != ""
    ensures DecodeHead(s).Ok? <==> (s[0] == '%' ==> EscapeAt(s, 0))
  {
    if s[0] == '%' && |s| > 2 {
      DigitIff(s[1]);
      DigitIff(s[2]);
    }
  }

  lemma GoodAfter(s: string, n: nat)
    requires n <= |s| && forall i :: 0 <= i < n && s[i] == '%' ==> EscapeAt(s, i)
    ensures GoodEscapes(s) <==> GoodEscapes(s[n..])
  {
    forall i | n <= i < |s| ensures EscapeAt(s, i) <==> EscapeAt(s[n..], i - n) {
      if i + 2 < |s| { assert s[n..][i - n + 1] == s[i + 1] && s[n..][i - n + 2] == s[i + 2]; }
    }
    if GoodEscapes(s[n..]) {
      forall i | 0 <= i < |s| && s[i] == '%' ensures EscapeAt(s, i) {
        if i >= n { assert s[n..][i - n] == '%'; }
      }
    }
    if GoodEscapes(s) {
      forall j | 0 <= j < |s[n..]| && s[n..][j] == '%' ensures EscapeAt(s[n..], j) {
        assert s[j + n] == '%';
      }
    }
  }

  /** Text can be unescaped exactly if every percent sign in it begins an escape. */
  lemma {:induction false} UnescapeIff(s: string)
    ensures Unescape(s).Ok? <==> GoodEscapes(s)
  {
    if s != "" {
      EscapeHead(s);
      if DecodeHead(s).Ok? {
        var n := DecodeHead(s).value.1;
        NoPercentInside(s, n);
        GoodAfter(s, n);
        UnescapeIff(s[n..]);
      }
    }
  }

  lemma NoPercentInside(s: string, n: nat)
    requires s != "" && DecodeHead(s).Ok? && n == DecodeHead(s).value.1
    ensures n <= |s| && forall i :: 0 <= i < n && s[i] == '%' ==> EscapeAt(s, i)
  {
    EscapeHead(s);
    if s[0] == '%' {
      assert HexValue('%') < 0;
    }
  }

  /** Unescaping goes from left to right, piece by piece. */
  lemma {:induction false} UnescapeJoin(a: string, b: string)
    requires Unescape(a).Ok?
    ensures Unescape(a + b) == Prefix(Unescape(a).value, Unescape(b))
    decreases |a|
  {
    if a == "" {
      assert a + b == b;
      if Unescape(b).Ok? { assert "" + Unescape(b).value == Unescape(b).value; }
    } else {
      UnescapeRest(a);
      var (c, n) := DecodeHead(a).value;
      var v := Unescape(a[n..]).value;
      UnescapeJoin(a[n..], b);
      DecodeHeadPrefix(a, b);
      assert (a + b)[n..] == a[n..] + b;
      UnescapeCons(a, c, n, v);
      if Unescape(b).Ok? {
        UnescapeCons(a + b, c, n, v + Unescape(b).value);
        Associative([c], v, Unescape(b).value);
      }
    }
  }

  /** The pieces: a '+' is a space, an escape the character it spells, in either case, and
      anything else itself. */
  lemma UnescapePiece(c: char, high: nat, low: nat)
    requires high < 16 && low < 16
    ensures Unescape("+") == Ok(" ")
    ensures c !in "%+" ==> Unescape([c]) == Ok([c])
    ensures forall x, y :: x in {UPPER_DIGITS[high], LOWER_DIGITS[high]} && y in {UPPER_DIGITS[low], LOWER_DIGITS[low]}
              ==> Unescape(['%', x, y]) == Ok([(16 * high + low) as char])
  {
    DigitsAre(high);
    DigitsAre(low);
    UnescapeCons("+", ' ', 1, "");
    assert [' '] + "" == " ";
    if c !in "%+" {
      UnescapeCons([c], c, 1, "");
      assert [c] + "" == [c];
    }
    forall x, y | x in {UPPER_DIGITS[high], LOWER_DIGITS[high]} && y in {UPPER_DIGITS[low], LOWER_DIGITS[low]}
      ensures Unescape(['%', x, y]) == Ok([(16 * high + low) as char])
    {
      var d := (16 * high + low) as char;
      UnescapeCons(['%', x, y], d, 3, "");
      assert [d] + "" == [d];
    }
  }

  // ------------------------------------------------------------------- queries

  /** A query is its '&'-separated parts in order; one part that cannot be read spoils it. */
  lemma QueryJoin(part: string, rest: string)
    requires '&' !in part
    ensures ParsePairs(part + "&" + rest) ==
            if ParseSegment(part).Ok? && ParsePairs(rest).Ok?
            then Ok(ParseSegment(part).value + ParsePairs(rest).value) else Err
    ensures ParsePairs(part) == ParseSegment(part)
  {
    IndexOfFirst(part, '&', rest);
    assert part + "&" + rest == part + ['&'] + rest;
    assert (part + "&" + rest)[..|part|] == part && (part + "&" + rest)[|part| + 1..] == rest;
  }

  /** A part is a key and, after its first '=', a value, each unescaped; a key alone has the
      empty value. */
  lemma SegmentSays(k: string, v: string)
    requires '=' !in k && ';' !in k && ';' !in v
    ensures ParseSegment(k + "=" + v) ==
            if Unescape(k).Ok? && Unescape(v).Ok? then Ok([(Unescape(k).value, Unescape(v).value)]) else Err
    ensures k != "" && Unescape(k).Ok? ==> ParseSegment(k) == Ok([(Unescape(k).value, "")])
    ensures ParseSegment("") == Ok([])
  {
    IndexOfFirst(k, '=', v);
    assert k + "=" + v == k + ['='] + v;
    assert (k + "=" + v)[|k|] == '=';
  }

  lemma GoodParts(a: string, c: char, b: string)
    requires c !in LOWER_DIGITS && c !in UPPER_DIGITS && c != '%'
    ensures GoodEscapes(a + [c] + b) <==> GoodEscapes(a) && GoodEscapes(b)
  {
    var s := a + [c] + b;
    forall i | 0 <= i < |a| ensures EscapeAt(a, i) <==> EscapeAt(s, i) {
      assert forall j :: 0 <= j < |a| ==> s[j] == a[j];
      assert s[|a|] == c;
    }
    assert s[|a| + 1..] == b;
    if GoodEscapes(s) || GoodEscapes(a) {
      forall i | 0 <= i < |a| + 1 && s[i] == '%' ensures GoodEscapes(s) || GoodEscapes(a) ==> EscapeAt(s, i) {
        assert s[i] == if i < |a| then a[i] else c;
      }
      GoodAfter(s, |a| + 1);
    }
    if GoodEscapes(s) {
      forall i | 0 <= i < |a| && a[i] == '%' ensures EscapeAt(a, i) { assert s[i] == '%'; }
    }
  }

  lemma SegmentIff(seg: string)
    ensures ParseSegment(seg).Ok? <==> ';' !in seg && GoodEscapes(seg)
  {
    var (k, v) := Cut(seg, '=');
    UnescapeIff(k);
    UnescapeIff(v);
    var i := IndexOf(seg, '=');
    if i >= 0 {
      assert seg == seg[..i] + ['='] + seg[i + 1..];
      GoodParts(seg[..i], '=', seg[i + 1..]);
    }
  }

  /** A query can be read exactly if it has no ';' and every percent sign begins an escape. */
  lemma {:induction false} ParsePairsIff(raw: string)
    ensures ParsePairs(raw).Ok? <==> ';' !in raw && GoodEscapes(raw)
    decreases |raw|
  {
    if raw != "" {
      var i := IndexOf(raw, '&');
      if i < 0 {
        SegmentIff(raw);
      } else {
        SegmentIff(raw[..i]);
        ParsePairsIff(raw[i + 1..]);
        assert raw == raw[..i] + ['&'] + raw[i + 1..];
        GoodParts(raw[..i], '&', raw[i + 1..]);
      }
    }
  }

  /** Blank text is no arguments; any other is read exactly if the query can be. */
  lemma ParseArgsIff(raw: string)
    ensures ParseArgs(raw).Ok? <==> TrimSpace(raw) == "" || (';' !in raw && GoodEscapes(raw))
  {
    ParsePairsIff(raw);
  }
}
